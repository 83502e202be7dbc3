/** What the plugin does with each file, as pure functions: how a file is
    classified against the two indexes, how the configured policy answers a
    duplicate, and the state and outcomes after a whole sequence of files.
    The class in module Stream is proved against these definitions. */
module Dedupe {
  import opened Options

  /** The identifier every error of the plugin is tagged with. */
  const PluginName := "gulp-dedupe"
  const StreamingMessage := "Streaming not supported"

  /** A file's payload: none at all (a directory, say), one that arrives
      incrementally, or a complete buffer, compared as text. */
  datatype Contents = Null | Stream | Buffer(text: string)

  /** A file record as the producer hands it over. */
  datatype File = File(path: string, contents: Contents)

  datatype PluginError = PluginError(plugin: string, message: string)

  /** The fate of one file: passed downstream, reported, or neither. */
  datatype Outcome = Emitted | Failed(error: PluginError) | Dropped

  datatype DupeKind = PathDupe | HashDupe

  /** A file against the index: unique, or a duplicate of an earlier file. */
  datatype Classification = Unique | Duplicate(kind: DupeKind, conflict: File)

  /** One run of a character diff, flagged as the diff library flags it. */
  datatype Part = Part(added: bool, removed: bool, value: string)

  datatype Color = Green | Red | Grey

  /** The collaborators the plugin calls but does not define: path
      resolution, hashing of the file on disk at a resolved path, the
      character diff, and terminal colouring. Being functions, they are
      deterministic for the whole run and that is all that is assumed. */
  datatype Env = Env(
    config: Config,
    resolve: string -> string,
    hashOf: string -> string,
    diffChars: (string, string) -> seq<Part>,
    paint: (Color, string) -> string)

  /** The two dictionaries: resolved path to file, content hash to file. */
  datatype Index = Index(byPath: map<string, File>, byHash: map<string, File>)

  const EmptyIndex := Index(map[], map[])

  function FullPath(env: Env, file: File): string
  {
    env.resolve(file.path)
  }

  /** The hash key of a file: the digest of what is on disk at its resolved
      path, not of the file's in-memory contents. */
  function HashOf(env: Env, file: File): string
  {
    env.hashOf(FullPath(env, file))
  }

  /** Every file in the index carries a buffer, so its text can be compared. */
  ghost predicate BuffersOnly(idx: Index)
  {
    (forall k :: k in idx.byPath ==> idx.byPath[k].contents.Buffer?) &&
    (forall k :: k in idx.byHash ==> idx.byHash[k].contents.Buffer?)
  }

  /** `m'` keeps every entry of `m` as it was. */
  ghost predicate Extends(m': map<string, File>, m: map<string, File>)
  {
    forall k :: k in m ==> k in m' && m'[k] == m[k]
  }

  /** The path index is consulted first; the hash index only when the path
      misses. */
  function Classify(idx: Index, fullpath: string, hash: string): (c: Classification)
    ensures c.Unique? <==> fullpath !in idx.byPath && hash !in idx.byHash
    ensures c.Duplicate? && c.kind == PathDupe <==> fullpath in idx.byPath
    ensures c.Duplicate? && c.kind == HashDupe <==> fullpath !in idx.byPath && hash in idx.byHash
    ensures c.Duplicate? ==> c.conflict == if c.kind == PathDupe then idx.byPath[fullpath] else idx.byHash[hash]
  {
    if fullpath in idx.byPath then Duplicate(PathDupe, idx.byPath[fullpath])
    else if hash in idx.byHash then Duplicate(HashDupe, idx.byHash[hash])
    else Unique
  }

  function KindName(kind: DupeKind): string
  {
    match kind
    case PathDupe => "path"
    case HashDupe => "hash"
  }

  /** Additions are green, else removals red, else common text grey. */
  function ColorOf(part: Part): Color
  {
    if part.added then Green else if part.removed then Red else Grey
  }

  /** The coloured rendering of each run of a diff, in order. */
  function Painted(paint: (Color, string) -> string, parts: seq<Part>): (r: seq<string>)
    ensures |r| == |parts|
    ensures forall i :: 0 <= i < |parts| ==> r[i] == paint(ColorOf(parts[i]), parts[i].value)
    decreases |parts|
  {
    if parts == [] then []
    else Painted(paint, parts[..|parts| - 1]) + [paint(ColorOf(parts[|parts| - 1]), parts[|parts| - 1].value)]
  }

  /** Concatenation of a sequence of strings, as `Array.join('')`. */
  function Join(pieces: seq<string>): string
    decreases |pieces|
  {
    if pieces == [] then "" else pieces[0] + Join(pieces[1..])
  }

  /** The diff attached to a content-mismatch error: a colon and a line break,
      then every run of the diff of the current contents against the earlier
      file's, coloured by kind. */
  function DiffText(env: Env, current: string, previous: string): string
  {
    Join([":\n"] + Painted(env.paint, env.diffChars(current, previous)))
  }

  /** The suffix of a content-mismatch message: empty unless `diff` is on. */
  function DiffSuffix(env: Env, current: string, previous: string): (s: string)
    ensures !env.config.diff ==> s == ""
    ensures env.config.diff ==> |s| >= 2 && s[..2] == ":\n"
  {
    if env.config.diff then
      var s := DiffText(env, current, previous);
      assert s == ":\n" + Join(Painted(env.paint, env.diffChars(current, previous)));
      s
    else ""
  }

  function DuplicateMessage(kind: DupeKind, file: File, conflict: File): string
  {
    "Duplicate files (" + KindName(kind) + ") " + file.path + " and " + conflict.path
  }

  function MismatchMessage(file: File, suffix: string): string
  {
    "Duplicate file `" + file.path + "` with different contents" + suffix
  }

  /** The policy for a duplicate: `error` wins over everything; otherwise,
      with `same`, differing contents are reported; every other duplicate is
      dropped silently. A duplicate is never emitted. */
  function Respond(env: Env, file: File, kind: DupeKind, conflict: File): (r: Outcome)
    requires file.contents.Buffer? && conflict.contents.Buffer?
    ensures r != Emitted
    ensures env.config.error ==>
      r == Failed(PluginError(PluginName, DuplicateMessage(kind, file, conflict)))
    ensures !env.config.error && env.config.same && file.contents != conflict.contents ==>
      r == Failed(PluginError(PluginName,
        MismatchMessage(file, DiffSuffix(env, file.contents.text, conflict.contents.text))))
    ensures r == Dropped <==>
      !env.config.error && (!env.config.same || file.contents == conflict.contents)
  {
    if env.config.error then
      Failed(PluginError(PluginName, DuplicateMessage(kind, file, conflict)))
    else if env.config.same && file.contents.text != conflict.contents.text then
      Failed(PluginError(PluginName,
        MismatchMessage(file, DiffSuffix(env, file.contents.text, conflict.contents.text))))
    else Dropped
  }

  /** One file through the plugin: the index afterwards and the file's fate. */
  function Step(env: Env, idx: Index, file: File): (res: (Index, Outcome))
    requires BuffersOnly(idx)
    ensures BuffersOnly(res.0)
    ensures Extends(res.0.byPath, idx.byPath) && Extends(res.0.byHash, idx.byHash)
    ensures file.contents.Null? ==> res == (idx, Dropped)
    ensures file.contents.Stream? ==> res == (idx, Failed(PluginError(PluginName, StreamingMessage)))
    ensures res.1 == Emitted <==>
      file.contents.Buffer? && FullPath(env, file) !in idx.byPath && HashOf(env, file) !in idx.byHash
    ensures res.1 == Emitted ==>
      res.0 == Index(idx.byPath[FullPath(env, file) := file], idx.byHash[HashOf(env, file) := file])
    ensures res.1 != Emitted ==> res.0 == idx
  {
    match file.contents
    case Null => (idx, Dropped)
    case Stream => (idx, Failed(PluginError(PluginName, StreamingMessage)))
    case Buffer(_) =>
      var fullpath := FullPath(env, file);
      var hash := HashOf(env, file);
      match Classify(idx, fullpath, hash)
      case Unique => (Index(idx.byPath[fullpath := file], idx.byHash[hash := file]), Emitted)
      case Duplicate(kind, conflict) => (idx, Respond(env, file, kind, conflict))
  }

  /** A sequence of files through the plugin, in arrival order. */
  function Run(env: Env, idx: Index, files: seq<File>): (res: (Index, seq<Outcome>))
    requires BuffersOnly(idx)
    ensures BuffersOnly(res.0)
    ensures |res.1| == |files|
    decreases |files|
  {
    if files == [] then (idx, [])
    else
      var (next, outcome) := Step(env, idx, files[0]);
      var (last, outcomes) := Run(env, next, files[1..]);
      (last, [outcome] + outcomes)
  }

  /** The files whose outcome is `Emitted`, in order. */
  function EmittedFiles(files: seq<File>, outcomes: seq<Outcome>): seq<File>
    requires |files| == |outcomes|
    decreases |files|
  {
    if files == [] then []
    else (if outcomes[0] == Emitted then [files[0]] else []) + EmittedFiles(files[1..], outcomes[1..])
  }

  /** The two indexes built by accepting `accepted` in order. */
  function IndexOf(env: Env, accepted: seq<File>): Index
    decreases |accepted|
  {
    if accepted == [] then EmptyIndex
    else
      var idx := IndexOf(env, accepted[..|accepted| - 1]);
      var last := accepted[|accepted| - 1];
      Index(idx.byPath[FullPath(env, last) := last], idx.byHash[HashOf(env, last) := last])
  }

  /** No two accepted files share a resolved path or a hash. */
  ghost predicate DistinctKeys(env: Env, accepted: seq<File>)
  {
    forall i, j :: 0 <= i < j < |accepted| ==>
      FullPath(env, accepted[i]) != FullPath(env, accepted[j]) &&
      HashOf(env, accepted[i]) != HashOf(env, accepted[j])
  }

  /** The plugin's invariant: the indexes hold exactly the files accepted so
      far, each carrying a buffer, with pairwise distinct keys. */
  ghost predicate Indexed(env: Env, idx: Index, accepted: seq<File>)
  {
    (forall i :: 0 <= i < |accepted| ==> accepted[i].contents.Buffer?) &&
    DistinctKeys(env, accepted) &&
    idx == IndexOf(env, accepted)
  }
}
