/** Properties of a whole run of the plugin: the indexes are only ever
    extended, every key keeps naming the first file accepted under it, and
    the emitted files have pairwise distinct resolved paths and hashes. */
module DedupeProofs {
  import opened Options
  import opened Dedupe

  /** A prefix of files with distinct keys has distinct keys. */
  lemma DistinctKeysPrefix(env: Env, accepted: seq<File>, n: nat)
    requires DistinctKeys(env, accepted) && n <= |accepted|
    ensures DistinctKeys(env, accepted[..n])
  {
    var prefix := accepted[..n];
    forall i, j | 0 <= i < j < |prefix|
      ensures FullPath(env, prefix[i]) != FullPath(env, prefix[j]) && HashOf(env, prefix[i]) != HashOf(env, prefix[j])
    {
      assert prefix[i] == accepted[i] && prefix[j] == accepted[j];
    }
  }

  /** The indexes built from `accepted` hold every accepted file under both
      of its keys: with distinct keys, no later file displaces an earlier one. */
  lemma {:induction false} IndexOfHolds(env: Env, accepted: seq<File>)
    requires DistinctKeys(env, accepted)
    ensures forall i :: 0 <= i < |accepted| ==>
      var idx := IndexOf(env, accepted);
      FullPath(env, accepted[i]) in idx.byPath && idx.byPath[FullPath(env, accepted[i])] == accepted[i] &&
      HashOf(env, accepted[i]) in idx.byHash && idx.byHash[HashOf(env, accepted[i])] == accepted[i]
    decreases |accepted|
  {
    if accepted != [] {
      var n := |accepted| - 1;
      var prefix := accepted[..n];
      var last := accepted[n];
      DistinctKeysPrefix(env, accepted, n);
      IndexOfHolds(env, prefix);
      var before := IndexOf(env, prefix);
      var idx := IndexOf(env, accepted);
      assert idx == Index(before.byPath[FullPath(env, last) := last], before.byHash[HashOf(env, last) := last]);
      forall i | 0 <= i < |accepted|
        ensures FullPath(env, accepted[i]) in idx.byPath && idx.byPath[FullPath(env, accepted[i])] == accepted[i]
        ensures HashOf(env, accepted[i]) in idx.byHash && idx.byHash[HashOf(env, accepted[i])] == accepted[i]
      {
        if i < n {
          assert prefix[i] == accepted[i];
          assert FullPath(env, accepted[i]) != FullPath(env, last);
          assert HashOf(env, accepted[i]) != HashOf(env, last);
        }
      }
    }
  }

  /** The indexes built from `accepted` hold nothing else: every entry is an
      accepted file stored under its own key. */
  lemma {:induction false} IndexOfOnly(env: Env, accepted: seq<File>)
    ensures forall k :: k in IndexOf(env, accepted).byPath ==>
      IndexOf(env, accepted).byPath[k] in accepted && FullPath(env, IndexOf(env, accepted).byPath[k]) == k
    ensures forall k :: k in IndexOf(env, accepted).byHash ==>
      IndexOf(env, accepted).byHash[k] in accepted && HashOf(env, IndexOf(env, accepted).byHash[k]) == k
    decreases |accepted|
  {
    if accepted != [] {
      var n := |accepted| - 1;
      var prefix := accepted[..n];
      IndexOfOnly(env, prefix);
      var before := IndexOf(env, prefix);
      var idx := IndexOf(env, accepted);
      forall k | k in idx.byPath
        ensures idx.byPath[k] in accepted && FullPath(env, idx.byPath[k]) == k
      {
        if k != FullPath(env, accepted[n]) {
          var i :| 0 <= i < n && prefix[i] == before.byPath[k];
          assert accepted[i] == prefix[i];
        }
      }
      forall k | k in idx.byHash
        ensures idx.byHash[k] in accepted && HashOf(env, idx.byHash[k]) == k
      {
        if k != HashOf(env, accepted[n]) {
          var i :| 0 <= i < n && prefix[i] == before.byHash[k];
          assert accepted[i] == prefix[i];
        }
      }
    }
  }

  /** Under the invariant, only buffers are stored. */
  lemma IndexedBuffersOnly(env: Env, idx: Index, accepted: seq<File>)
    requires Indexed(env, idx, accepted)
    ensures BuffersOnly(idx)
  {
    IndexOfOnly(env, accepted);
  }

  /** A file whose keys differ from those of all accepted files may join them. */
  lemma AppendKeepsDistinct(env: Env, accepted: seq<File>, file: File)
    requires DistinctKeys(env, accepted)
    requires forall i :: 0 <= i < |accepted| ==>
      FullPath(env, accepted[i]) != FullPath(env, file) && HashOf(env, accepted[i]) != HashOf(env, file)
    ensures DistinctKeys(env, accepted + [file])
  {
    var acc := accepted + [file];
    forall i, j | 0 <= i < j < |acc|
      ensures FullPath(env, acc[i]) != FullPath(env, acc[j]) && HashOf(env, acc[i]) != HashOf(env, acc[j])
    {
      if j == |accepted| {
        assert acc[i] == accepted[i] && acc[j] == file;
      } else {
        assert acc[i] == accepted[i] && acc[j] == accepted[j];
      }
    }
  }

  /** Accepting a file whose two keys are both absent keeps the invariant. */
  lemma AcceptKeepsIndexed(env: Env, idx: Index, accepted: seq<File>, file: File)
    requires Indexed(env, idx, accepted)
    requires file.contents.Buffer?
    requires FullPath(env, file) !in idx.byPath && HashOf(env, file) !in idx.byHash
    ensures Indexed(env, Index(idx.byPath[FullPath(env, file) := file], idx.byHash[HashOf(env, file) := file]),
                    accepted + [file])
  {
    var acc := accepted + [file];
    var n := |accepted|;
    IndexOfHolds(env, accepted);
    AppendKeepsDistinct(env, accepted, file);
    assert acc[..n] == accepted && acc[n] == file;
    forall i | 0 <= i < |acc| ensures acc[i].contents.Buffer? {
      if i < n { assert acc[i] == accepted[i]; }
    }
  }

  /** One file keeps the invariant: an emitted file joins the accepted ones,
      any other outcome leaves them as they were. */
  lemma StepKeepsIndexed(env: Env, idx: Index, accepted: seq<File>, file: File)
    requires Indexed(env, idx, accepted)
    ensures BuffersOnly(idx)
    ensures Step(env, idx, file).1 == Emitted ==> Indexed(env, Step(env, idx, file).0, accepted + [file])
    ensures Step(env, idx, file).1 != Emitted ==> Indexed(env, Step(env, idx, file).0, accepted)
  {
    IndexedBuffersOnly(env, idx, accepted);
    if Step(env, idx, file).1 == Emitted {
      AcceptKeepsIndexed(env, idx, accepted, file);
    }
  }

  /** A sequence of files keeps the invariant, the accepted files growing by
      exactly the emitted ones. */
  lemma {:induction false} RunKeepsIndexed(env: Env, idx: Index, accepted: seq<File>, files: seq<File>)
    requires Indexed(env, idx, accepted)
    ensures BuffersOnly(idx)
    ensures Indexed(env, Run(env, idx, files).0, accepted + EmittedFiles(files, Run(env, idx, files).1))
    decreases |files|
  {
    IndexedBuffersOnly(env, idx, accepted);
    if files == [] {
      assert accepted + [] == accepted;
    } else {
      var (next, outcome) := Step(env, idx, files[0]);
      var grown := accepted + if outcome == Emitted then [files[0]] else [];
      StepKeepsIndexed(env, idx, accepted, files[0]);
      if outcome == Emitted {
        assert grown == accepted + [files[0]];
      } else {
        assert grown == accepted;
      }
      assert Indexed(env, next, grown);
      RunKeepsIndexed(env, next, grown, files[1..]);
      var (last, rest) := Run(env, next, files[1..]);
      assert Run(env, idx, files) == (last, [outcome] + rest);
      var outcomes := [outcome] + rest;
      assert outcomes[0] == outcome && outcomes[1..] == rest;
      assert EmittedFiles(files, outcomes) ==
        (if outcome == Emitted then [files[0]] else []) + EmittedFiles(files[1..], rest);
      assert accepted + EmittedFiles(files, outcomes) == grown + EmittedFiles(files[1..], rest);
    }
  }

  /** Keys are never overwritten or removed: whatever the indexes map before
      a sequence of files, they still map the same way after it. */
  lemma {:induction false} RunNeverOverwrites(env: Env, idx: Index, files: seq<File>)
    requires BuffersOnly(idx)
    ensures Extends(Run(env, idx, files).0.byPath, idx.byPath)
    ensures Extends(Run(env, idx, files).0.byHash, idx.byHash)
    decreases |files|
  {
    if files != [] {
      var next := Step(env, idx, files[0]).0;
      RunNeverOverwrites(env, next, files[1..]);
    }
  }

  /** From an empty start, the emitted files have pairwise distinct resolved
      paths and hashes, and each is what the indexes hold under its keys. */
  lemma EmittedAreDistinct(env: Env, files: seq<File>)
    ensures var (idx, outcomes) := Run(env, EmptyIndex, files);
      var emitted := EmittedFiles(files, outcomes);
      DistinctKeys(env, emitted) &&
      forall e :: e in emitted ==>
        FullPath(env, e) in idx.byPath && idx.byPath[FullPath(env, e)] == e &&
        HashOf(env, e) in idx.byHash && idx.byHash[HashOf(env, e)] == e
  {
    assert Indexed(env, EmptyIndex, []);
    RunKeepsIndexed(env, EmptyIndex, [], files);
    var (idx, outcomes) := Run(env, EmptyIndex, files);
    var emitted := EmittedFiles(files, outcomes);
    assert [] + emitted == emitted;
    IndexOfHolds(env, emitted);
    forall e | e in emitted
      ensures FullPath(env, e) in idx.byPath && idx.byPath[FullPath(env, e)] == e
      ensures HashOf(env, e) in idx.byHash && idx.byHash[HashOf(env, e)] == e
    {
      var i :| 0 <= i < |emitted| && emitted[i] == e;
    }
  }

  /** Running a single file is one step. */
  lemma OneRun(env: Env, idx: Index, file: File)
    requires BuffersOnly(idx)
    ensures Run(env, idx, [file]) == (Step(env, idx, file).0, [Step(env, idx, file).1])
  {
    var (next, outcome) := Step(env, idx, file);
    assert [file][0] == file && [file][1..] == [];
    assert Run(env, next, []) == (next, []);
    assert Run(env, idx, [file]) == (Run(env, next, [file][1..]).0, [outcome] + Run(env, next, [file][1..]).1);
    assert [outcome] + [] == [outcome];
  }

  /** Running one more file is running the prefix, then one step. */
  lemma {:induction false} RunSnoc(env: Env, idx: Index, files: seq<File>, file: File)
    requires BuffersOnly(idx)
    ensures BuffersOnly(Run(env, idx, files).0)
    ensures Run(env, idx, files + [file]) ==
      var (mid, outcomes) := Run(env, idx, files);
      var (last, outcome) := Step(env, mid, file);
      (last, outcomes + [outcome])
    decreases |files|
  {
    if files == [] {
      assert files + [file] == [file];
      OneRun(env, idx, file);
      assert Run(env, idx, files) == (idx, []);
      assert [] + [Step(env, idx, file).1] == [Step(env, idx, file).1];
    } else {
      var (next, first) := Step(env, idx, files[0]);
      assert (files + [file])[0] == files[0];
      assert (files + [file])[1..] == files[1..] + [file];
      RunSnoc(env, next, files[1..], file);
      var (mid, rest) := Run(env, next, files[1..]);
      var (last, outcome) := Step(env, mid, file);
      assert Run(env, next, files[1..] + [file]) == (last, rest + [outcome]);
      assert Run(env, idx, files + [file]) == (last, [first] + (rest + [outcome]));
      assert Run(env, idx, files) == (mid, [first] + rest);
      assert [first] + (rest + [outcome]) == ([first] + rest) + [outcome];
    }
  }

  /** Running two files is two steps. */
  lemma TwoRuns(env: Env, first: File, second: File)
    ensures BuffersOnly(Step(env, EmptyIndex, first).0)
    ensures Run(env, EmptyIndex, [first, second]).1 ==
      [Step(env, EmptyIndex, first).1, Step(env, Step(env, EmptyIndex, first).0, second).1]
  {
    var next := Step(env, EmptyIndex, first).0;
    assert [first, second][0] == first && [first, second][1..] == [second];
    OneRun(env, next, second);
  }

  /** The same file twice under the default options: the first is emitted,
      the second dropped silently. */
  lemma SameFileTwiceIsDropped(env: Env, file: File)
    requires env.config == Defaults && file.contents.Buffer?
    ensures Run(env, EmptyIndex, [file, file]).1 == [Emitted, Dropped]
  {
    TwoRuns(env, file, file);
  }

  /** Two files at the same resolved path with different contents under the
      default options: the second is reported by its own path and not
      emitted; with `error` on, the report names the kind `path` and both
      paths whatever `same` and `diff` say. */
  lemma PathMismatchIsReported(env: Env, first: File, second: File)
    requires first.contents.Buffer? && second.contents.Buffer? && first.contents != second.contents
    requires FullPath(env, first) == FullPath(env, second)
    ensures env.config == Defaults ==>
      Run(env, EmptyIndex, [first, second]).1 ==
        [Emitted, Failed(PluginError(PluginName, MismatchMessage(second, "")))]
    ensures env.config.error ==>
      Run(env, EmptyIndex, [first, second]).1 ==
        [Emitted, Failed(PluginError(PluginName, "Duplicate files (path) " + second.path + " and " + first.path))]
  {
    TwoRuns(env, first, second);
    assert DuplicateMessage(PathDupe, second, first) == "Duplicate files (path) " + second.path + " and " + first.path;
  }

  /** Two files at different resolved paths whose hashes agree: the second is
      a hash duplicate; under the defaults it is dropped silently when the
      contents agree as well. */
  lemma HashDuplicateIsDetected(env: Env, first: File, second: File)
    requires first.contents.Buffer? && second.contents.Buffer?
    requires FullPath(env, first) != FullPath(env, second) && HashOf(env, first) == HashOf(env, second)
    ensures env.config.error ==>
      Run(env, EmptyIndex, [first, second]).1 ==
        [Emitted, Failed(PluginError(PluginName, "Duplicate files (hash) " + second.path + " and " + first.path))]
    ensures env.config == Defaults && first.contents == second.contents ==>
      Run(env, EmptyIndex, [first, second]).1 == [Emitted, Dropped]
  {
    TwoRuns(env, first, second);
    assert DuplicateMessage(HashDupe, second, first) == "Duplicate files (hash) " + second.path + " and " + first.path;
  }
}
