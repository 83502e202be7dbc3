# gulp-dedupe, modelled in Dafny

gulp-dedupe is a gulp plugin that removes duplicate files from a stream. It
keeps two dictionaries for one pipeline run. `filesMap` maps a resolved path
to the first file accepted at that path. `filesHashes` maps a content hash
to the first file accepted with that hash. Each incoming file goes through
these checks in order:

- a file with no contents is ignored;
- a streaming file is rejected with `Streaming not supported`;
- any other file is looked up by resolved path first, then by hash;
- a file that misses both lookups is recorded under both keys and passed on;
- for a duplicate, the options `error`, `same` and `diff` choose between a
  hard error, a content-mismatch error (with an optional character diff)
  and a silent drop.

The model has four modules:

- `Options` (options.dfy): resolving the options against their defaults.
- `Dedupe` (dedupe.dfy): the data model and a pure reference definition.
  `Classify` classifies a file, `Respond` applies the policy, `Step` handles
  one file and `Run` handles a sequence.
- `DedupeProofs` (proofs.dfy): properties of whole runs. The dictionaries
  are only extended, each key keeps its first file, and emitted files have
  pairwise distinct resolved paths and hashes.
- `Stream` (stream.dfy): the imperative plugin. Class `Deduper` holds the
  two dictionaries as `map` fields. `Process` updates them in place and is
  proved to agree with `Step`. `RenderDiff` is the loop that builds the diff
  text. `Plugin` feeds a sequence of files through one fresh instance and
  ends the event stream with `End`.

The calls into other libraries are fields of the datatype `Env`: `path.resolve`,
`hash-files`' `sync`, `diff`'s `diffChars` and the `colors` string styling.
They are arbitrary total functions, so the model assumes only that they are
deterministic within one run.

Two points of the code shape the model:

- A file with no contents (`file.isNull()`) is not passed downstream. The
  handler returns at index.js:28 before it emits anything, so such a file
  is dropped without a trace. It is never indexed either.
- The hash key at index.js:32 is a digest of the file on disk at the
  resolved path, not of `file.contents`. So `HashOf` is
  `hashOf(resolve(path))`. The equality check of the `same` option, on the
  other hand, compares the in-memory contents (index.js:50).

## Model

| member | source | states |
|---|---|---|
| Options.Configure | index.js:20-24 | with no options every option takes its default (`error` false, `same` true, `diff` false); an option that is given keeps its value, an undefined one takes its default |
| Options.ConfigureKeepsGiven | index.js:20-24 | giving all three options explicitly yields exactly that configuration; an options object with nothing defined behaves like no options at all |
| Dedupe.Classify | index.js:37-46 | a file is unique exactly when both lookups miss; it is a `path` duplicate exactly when its resolved path is indexed, with the conflicting file taken from the path index even if the hash also hits; it is a `hash` duplicate exactly when the path misses and the hash hits, with the conflicting file taken from the hash index |
| Dedupe.Painted | index.js:59-65 | each diff run is rendered, in order, by painting its value green when added, otherwise red when removed, otherwise grey |
| Dedupe.DiffSuffix | index.js:51-68 | the suffix of a content-mismatch message is empty when `diff` is off and starts with a colon and a line break when `diff` is on |
| Dedupe.Respond | index.js:48-72 | a duplicate is never emitted; with `error` it always fails with `Duplicate files (<kind>) <file.path> and <f.path>`; otherwise, with `same` and differing contents, it fails with ``Duplicate file `<file.path>` with different contents`` plus the diff suffix; it is dropped silently exactly when `error` is off and either `same` is off or the contents are equal |
| Dedupe.Step | index.js:26-79 | a file without contents is dropped and a streaming file fails with `Streaming not supported`, both leaving the indexes unchanged; a file is emitted exactly when it has contents and both its resolved path and its hash miss, and then it is recorded under both keys; otherwise the indexes stay as they were; no existing entry is ever changed |
| Dedupe.Run | index.js:26-79 | a sequence of files yields one outcome per file and keeps every indexed file buffered |
| DedupeProofs.IndexOfHolds | index.js:74-75 | when accepted files have distinct keys, the indexes built from them map each file's resolved path and hash to that file |
| DedupeProofs.IndexOfOnly | index.js:74-75 | every entry of the indexes is an accepted file stored under its own resolved path or hash |
| DedupeProofs.AcceptKeepsIndexed | index.js:73-76 | recording a file whose path and hash are both absent keeps the indexes equal to those of the accepted files, now including it, with keys still distinct |
| DedupeProofs.StepKeepsIndexed | index.js:26-79 | one file keeps the invariant: an emitted file joins the accepted files, any other outcome leaves them unchanged |
| DedupeProofs.RunKeepsIndexed | index.js:26-79 | over any sequence of files, the indexes hold exactly the accepted files plus the emitted ones, with pairwise distinct keys |
| DedupeProofs.RunNeverOverwrites | index.js:37 | over any sequence of files, every key already in either index keeps mapping to the same file |
| DedupeProofs.EmittedAreDistinct | index.js:37-78 | from empty indexes, the emitted files have pairwise distinct resolved paths and pairwise distinct hashes, and each is the file both indexes hold under its keys |
| DedupeProofs.RunSnoc | index.js:26-79 | processing one more file is processing the earlier files and then one step from the state they left |
| DedupeProofs.SameFileTwiceIsDropped | index.js:37-72 | under the defaults, the same file twice is emitted once and then dropped silently |
| DedupeProofs.PathMismatchIsReported | index.js:37-70 | two files at one resolved path with different contents: under the defaults the second fails with a mismatch message naming its own path; with `error` on, the failure names kind `path` and both paths |
| DedupeProofs.HashDuplicateIsDetected | index.js:37-72 | two files at different resolved paths with equal hashes: with `error` on, the second fails with kind `hash`; under the defaults, with equal contents, it is dropped silently |
| Stream.EventsOf | index.js:29-78 | an emitted file produces one data event, a failure one error event and a dropped file no event |
| Stream.DataFilesOfEvents | index.js:78 | the data events of a run carry exactly its emitted files, in order |
| Stream.Deduper.constructor | index.js:17-18 | a new instance starts with both dictionaries empty |
| Stream.Deduper.RenderDiff | index.js:51-68 | the diff text is a colon and a line break followed by the painted runs of the diff of the current contents against the earlier file's contents, in order |
| Stream.Deduper.Process | index.js:26-79 | updating the dictionaries in place agrees with `Step`; they are written only when both lookups miss, and then under both keys; every other outcome leaves them unchanged; the invariant is kept |
| Stream.Plugin | index.js:15-86 | the events are those of the files processed in arrival order by one instance, followed by the end signal; the files passed downstream have pairwise distinct resolved paths and hashes |

## Left out

- Stream plumbing (`through`, `this.emit`): each file's fate is returned as
  an outcome, and `Plugin` turns outcomes into a sequence of events. How the
  embedding pipeline reacts to an error event is not modelled.
- `PluginError` objects: an error is the plugin name `gulp-dedupe` and a
  message.
- `path.resolve` and `hash-files`: they are uninterpreted functions. Nothing
  is assumed about them beyond determinism. The model does not capture
  reading the disk, the disk changing during a run, or whatever hash-files
  returns or throws for a path with no file on disk. `hash-files` reads its
  `files` option as glob patterns. If a path with nothing on disk matches
  nothing and hashes like empty input, then every in-memory-only file after
  the first is a `hash` duplicate of the first one. The unconstrained
  `hashOf` allows that behaviour as well as any other.
- `diffChars` and the `colors` styling: they are uninterpreted functions.
  Nothing is claimed about the diff itself, only how its runs are tagged,
  painted and joined.
- `Buffer.toString()`: contents are strings compared by string equality,
  and text encoding is not modelled.
- JavaScript truthiness of option values: each option is a boolean, or
  absent. `defaults` writing the defaults into the caller's own options
  object is not modelled.
- Dictionary lookups on plain objects: the model uses maps, so inherited
  property names such as `constructor` never count as keys. In the source
  the keys are absolute paths and hex digests, which cannot be such names.
- Aliasing of file objects: a stored file is a value, so a later change to
  the same file object by another plugin cannot alter the index.
