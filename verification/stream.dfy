/** The plugin as the pipeline sees it: an object holding the two
    dictionaries, updated in place as files arrive one by one, and the
    stream of events it produces for a sequence of files. */
module Stream {
  import opened Options
  import opened Dedupe
  import opened DedupeProofs

  /** What the plugin sends downstream: a file, an error, or the end. */
  datatype Event = Data(file: File) | Error(error: PluginError) | End

  /** The events one file gives rise to: an emitted file is passed on, a
      failure is reported, a dropped file leaves no trace. */
  function EventsOf(file: File, outcome: Outcome): (r: seq<Event>)
    ensures |r| <= 1
    ensures r == [Data(file)] <==> outcome == Emitted
    ensures outcome.Failed? ==> r == [Error(outcome.error)]
    ensures r == [] <==> outcome == Dropped
  {
    match outcome
    case Emitted => [Data(file)]
    case Failed(e) => [Error(e)]
    case Dropped => []
  }

  /** The events of a sequence of files, in arrival order. */
  function Events(files: seq<File>, outcomes: seq<Outcome>): seq<Event>
    requires |files| == |outcomes|
    decreases |files|
  {
    if files == [] then []
    else EventsOf(files[0], outcomes[0]) + Events(files[1..], outcomes[1..])
  }

  /** The files carried by the data events, in order. */
  function DataFiles(events: seq<Event>): seq<File>
    decreases |events|
  {
    if events == [] then []
    else (if events[0].Data? then [events[0].file] else []) + DataFiles(events[1..])
  }

  /** The data events of a run are exactly its emitted files. */
  lemma {:induction false} DataFilesOfEvents(files: seq<File>, outcomes: seq<Outcome>)
    requires |files| == |outcomes|
    ensures DataFiles(Events(files, outcomes)) == EmittedFiles(files, outcomes)
    decreases |files|
  {
    if files != [] {
      DataFilesOfEvents(files[1..], outcomes[1..]);
      DataFilesAppend(EventsOf(files[0], outcomes[0]), Events(files[1..], outcomes[1..]));
    }
  }

  lemma {:induction false} DataFilesAppend(a: seq<Event>, b: seq<Event>)
    ensures DataFiles(a + b) == DataFiles(a) + DataFiles(b)
    decreases |a|
  {
    if a == [] {
      assert a + b == b;
    } else {
      assert (a + b)[0] == a[0] && (a + b)[1..] == a[1..] + b;
      DataFilesAppend(a[1..], b);
    }
  }

  lemma {:induction false} EventsSnoc(files: seq<File>, outcomes: seq<Outcome>, file: File, outcome: Outcome)
    requires |files| == |outcomes|
    ensures Events(files + [file], outcomes + [outcome]) == Events(files, outcomes) + EventsOf(file, outcome)
    decreases |files|
  {
    if files == [] {
      assert files + [file] == [file] && outcomes + [outcome] == [outcome];
      assert Events([file], [outcome]) == EventsOf(file, outcome) + Events([], []);
    } else {
      assert (files + [file])[0] == files[0] && (files + [file])[1..] == files[1..] + [file];
      assert (outcomes + [outcome])[0] == outcomes[0] && (outcomes + [outcome])[1..] == outcomes[1..] + [outcome];
      EventsSnoc(files[1..], outcomes[1..], file, outcome);
    }
  }

  /** One instance of the plugin: `filesMap` and `filesHashes` are the
      dictionaries the plugin's closure holds; `accepted` is the ghost record
      of the files emitted so far. */
  class Deduper {
    const env: Env
    var filesMap: map<string, File>
    var filesHashes: map<string, File>
    ghost var accepted: seq<File>

    ghost function State(): Index
      reads this
    {
      Index(filesMap, filesHashes)
    }

    /** The dictionaries hold exactly the emitted files, under pairwise
        distinct keys. `BuffersOnly` follows from that (IndexedBuffersOnly);
        it is spelled out so that the contract of Process can apply Step. */
    ghost predicate Valid()
      reads this
    {
      Indexed(env, State(), accepted) && BuffersOnly(State())
    }

    constructor (env: Env)
      ensures Valid() && this.env == env
      ensures filesMap == map[] && filesHashes == map[] && accepted == []
    {
      this.env := env;
      filesMap := map[];
      filesHashes := map[];
      accepted := [];
    }

    /** The diff attached to a content-mismatch error: the pieces are
        collected in order, then joined. */
    method RenderDiff(current: string, previous: string) returns (s: string)
      ensures s == DiffText(env, current, previous)
      ensures |s| >= 2 && s[..2] == ":\n"
    {
      var parts := env.diffChars(current, previous);
      var errorDiff := [":\n"];
      var i := 0;
      while i < |parts|
        invariant 0 <= i <= |parts|
        invariant errorDiff == [":\n"] + Painted(env.paint, parts[..i])
      {
        assert parts[..i + 1][..i] == parts[..i];
        errorDiff := errorDiff + [env.paint(ColorOf(parts[i]), parts[i].value)];
        i := i + 1;
      }
      assert parts[..i] == parts;
      s := Join(errorDiff);
      assert s == ":\n" + Join(errorDiff[1..]);
    }

    /** One file through the plugin. The dictionaries are written only when
        both lookups miss, and then under both keys; every other outcome
        leaves them as they were. */
    method Process(file: File) returns (r: Outcome)
      requires Valid()
      modifies this
      ensures Valid()
      ensures (State(), r) == Step(env, old(State()), file)
      ensures accepted == old(accepted) + if r == Emitted then [file] else []
      ensures r == Emitted <==> (file.contents.Buffer? &&
        FullPath(env, file) !in old(filesMap) && HashOf(env, file) !in old(filesHashes))
      ensures r != Emitted ==> filesMap == old(filesMap) && filesHashes == old(filesHashes)
    {
      StepKeepsIndexed(env, State(), accepted, file);
      if file.contents.Null? {
        return Dropped;
      }
      if file.contents.Stream? {
        return Failed(PluginError(PluginName, StreamingMessage));
      }
      var fullpath := env.resolve(file.path);
      var hash := env.hashOf(fullpath);
      var dupeType: DupeKind;
      var f: File;
      if fullpath in filesMap {
        dupeType, f := PathDupe, filesMap[fullpath];
      } else if hash in filesHashes {
        dupeType, f := HashDupe, filesHashes[hash];
      } else {
        filesMap := filesMap[fullpath := file];
        filesHashes := filesHashes[hash := file];
        accepted := accepted + [file];
        return Emitted;
      }
      if env.config.error {
        r := Failed(PluginError(PluginName, DuplicateMessage(dupeType, file, f)));
      } else if env.config.same && file.contents.text != f.contents.text {
        var errorDiff := "";
        if env.config.diff {
          errorDiff := RenderDiff(file.contents.text, f.contents.text);
        }
        r := Failed(PluginError(PluginName, MismatchMessage(file, errorDiff)));
      } else {
        r := Dropped;
      }
    }
  }

  /** The plugin over a whole sequence of files: options are resolved once,
      a fresh instance processes every file in arrival order, and the end of
      the input is signalled last. */
  method Plugin(options: Option<UserOptions>, resolve: string -> string, hashOf: string -> string,
                diffChars: (string, string) -> seq<Part>, paint: (Color, string) -> string,
                files: seq<File>)
    returns (events: seq<Event>)
    ensures var env := Env(Configure(options), resolve, hashOf, diffChars, paint);
      events == Events(files, Run(env, EmptyIndex, files).1) + [End]
    ensures DistinctKeys(Env(Configure(options), resolve, hashOf, diffChars, paint), DataFiles(events))
  {
    var env := Env(Configure(options), resolve, hashOf, diffChars, paint);
    var deduper := new Deduper(env);
    events := [];
    var i := 0;
    while i < |files|
      invariant 0 <= i <= |files|
      invariant deduper.Valid() && deduper.env == env
      invariant deduper.State() == Run(env, EmptyIndex, files[..i]).0
      invariant events == Events(files[..i], Run(env, EmptyIndex, files[..i]).1)
    {
      RunSnoc(env, EmptyIndex, files[..i], files[i]);
      assert files[..i + 1] == files[..i] + [files[i]];
      var outcome := deduper.Process(files[i]);
      EventsSnoc(files[..i], Run(env, EmptyIndex, files[..i]).1, files[i], outcome);
      events := events + EventsOf(files[i], outcome);
      i := i + 1;
    }
    assert files[..i] == files;
    var outcomes := Run(env, EmptyIndex, files).1;
    DataFilesOfEvents(files, outcomes);
    DataFilesAppend(events, [End]);
    EmittedAreDistinct(env, files);
    events := events + [End];
    assert DataFiles([End]) == [];
    assert DataFiles(events) == EmittedFiles(files, outcomes);
  }
}
