/** Files with fewer bytes than a signature: no window of them is compared, the name buffer stays as
    the walk left it, and with it the verdict on an earlier file. */
module ShortFiles {
  import opened CString
  import opened Stdio
  import opened Scanner
  import opened ScannerProperties
  import opened Driver
  import opened DriverProperties

  // ---- One file ----

  /** The walk reports the path when it reaches it with this name buffer. */
  ghost predicate Reports(env: Env, euid: nat, fs: FileSystem, path: string, name: NameBuffer)
    requires ValidEnv(env)
  {
    Visit(env, euid, Walk(fs, name, SUCCESS), path).re == FOUND
  }

  /** Whatever the name buffer holds when the walk reaches the file, it is reported exactly when it
      is detected. */
  ghost predicate OwnVerdict(env: Env, euid: nat, fs: FileSystem, path: string, detected: bool)
    requires ValidEnv(env)
  {
    forall name :: Reports(env, euid, fs, path, name) == detected
  }

  lemma LongFileOwnVerdict(env: Env, euid: nat, fs: FileSystem, path: string)
    requires ProperDatabase(env) && path in fs && DecisiveNode(env, euid, fs[path])
    ensures OwnVerdict(env, euid, fs, path, FlaggedNode(env, euid, fs[path]))
  {
    forall name: NameBuffer
      ensures Reports(env, euid, fs, path, name) == FlaggedNode(env, euid, fs[path])
    {
      VisitByFlag(env, euid, Walk(fs, name, SUCCESS), path);
    }
  }

  lemma ShortFileStaleVerdict(env: Env, euid: nat, fs: FileSystem, path: string, name: NameBuffer)
    requires ProperDatabase(env) && path in fs && ScannedNode(env, euid, fs[path])
    requires |fs[path].content| < Signature.SIG_SIZE
    ensures Reports(env, euid, fs, path, name) <==> name[0] != NUL
    ensures !FlaggedNode(env, euid, fs[path])
  {
  }

  /** A scanned file gets its own verdict in every walk exactly when it has at least 20 bytes. */
  lemma OwnVerdictIff(env: Env, euid: nat, fs: FileSystem, path: string)
    requires ProperDatabase(env) && path in fs && ScannedNode(env, euid, fs[path])
    ensures OwnVerdict(env, euid, fs, path, FlaggedNode(env, euid, fs[path])) <==>
      |fs[path].content| >= Signature.SIG_SIZE
  {
    if |fs[path].content| >= Signature.SIG_SIZE {
      LongFileOwnVerdict(env, euid, fs, path);
    } else {
      var stale: NameBuffer := [1] + Zeros(MAX_NAME_LEN - 1);
      ShortFileStaleVerdict(env, euid, fs, path, stale);
    }
  }

  /** A file shorter than a signature inherits the verdict of the file scanned before it: after a
      detected file it is quarantined as well, although no entry matches it; before that file,
      with a cleared name buffer, it is left alone. */
  lemma ShortFileInheritsVerdict(env: Env, euid: nat, w: Walk, infected: string, short: string)
    requires ProperDatabase(env) && |w.name| == MAX_NAME_LEN && w.name[0] == NUL
    requires infected in w.fs && FlaggedNode(env, euid, w.fs[infected])
    requires short in w.fs && ScannedNode(env, euid, w.fs[short]) && |w.fs[short].content| < Signature.SIG_SIZE
    requires short != infected + INFECTED && env.renames(short)
    ensures !Detected(w.fs[short].content, Lines(env.database))
    ensures short !in VisitAll(env, euid, w, [infected, short]).fs
    ensures short in VisitAll(env, euid, w, [short, infected]).fs
  {
    VerdictCorrect(w.fs[infected].content, Lines(env.database), w.name);
    QuarantineFrame(env, euid, w.fs, infected, short);
    VisitTwo(env, euid, w, infected, short);
    VisitTwo(env, euid, w, short, infected);
    assert Visit(env, euid, w, short) == w;
  }

  lemma VisitTwo(env: Env, euid: nat, w: Walk, first: string, second: string)
    requires ValidEnv(env) && |w.name| == MAX_NAME_LEN
    ensures VisitAll(env, euid, w, [first, second]) == Visit(env, euid, Visit(env, euid, w, first), second)
  {
    assert [first, second] == [] + [first] + [second];
    VisitAllAppend(env, euid, w, [] + [first], second);
    VisitAllAppend(env, euid, w, [], first);
  }

  // ---- Any walk ----

  /** The walk when it comes to path number k. */
  ghost function StateAt(env: Env, euid: nat, w: Walk, paths: seq<string>, k: nat): (r: Walk)
    requires ValidEnv(env) && |w.name| == MAX_NAME_LEN && k <= |paths|
    ensures |r.name| == MAX_NAME_LEN
  {
    VisitAll(env, euid, w, paths[..k])
  }

  ghost predicate ScannedAt(env: Env, euid: nat, w: Walk, paths: seq<string>, k: nat)
    requires ValidEnv(env) && |w.name| == MAX_NAME_LEN && k < |paths|
  {
    Picks(StateAt(env, euid, w, paths, k).fs, (n: Node) => ScannedNode(env, euid, n), paths[k])
  }

  /** A file with a window to compare is scanned. */
  ghost predicate LongAt(env: Env, euid: nat, w: Walk, paths: seq<string>, k: nat)
    requires ValidEnv(env) && |w.name| == MAX_NAME_LEN && k < |paths|
  {
    ScannedAt(env, euid, w, paths, k) &&
    |StateAt(env, euid, w, paths, k).fs[paths[k]].content| >= Signature.SIG_SIZE
  }

  ghost predicate DetectedAt(env: Env, euid: nat, w: Walk, paths: seq<string>, k: nat)
    requires ValidEnv(env) && |w.name| == MAX_NAME_LEN && k < |paths|
  {
    LongAt(env, euid, w, paths, k) &&
    Detected(StateAt(env, euid, w, paths, k).fs[paths[k]].content, Lines(env.database))
  }

  /** The walk reports path number k. */
  ghost predicate ReportedAt(env: Env, euid: nat, w: Walk, paths: seq<string>, k: nat)
    requires ValidEnv(env) && |w.name| == MAX_NAME_LEN && k < |paths|
  {
    var s := StateAt(env, euid, w, paths, k);
    Reports(env, euid, s.fs, paths[k], s.name)
  }

  /** No long file is scanned from path number lo up to path number hi. */
  ghost predicate NoLong(env: Env, euid: nat, w: Walk, paths: seq<string>, lo: nat, hi: nat)
    requires ValidEnv(env) && |w.name| == MAX_NAME_LEN && hi <= |paths|
  {
    forall m :: lo <= m < hi ==> !LongAt(env, euid, w, paths, m)
  }

  /** The last long file scanned before path number k was detected; without one, the name buffer was
      set when the walk began. */
  ghost predicate Inherited(env: Env, euid: nat, w: Walk, paths: seq<string>, k: nat)
    requires ValidEnv(env) && |w.name| == MAX_NAME_LEN && k <= |paths|
  {
    || (w.name[0] != NUL && NoLong(env, euid, w, paths, 0, k))
    || (exists j :: 0 <= j < k && DetectedAt(env, euid, w, paths, j) && NoLong(env, euid, w, paths, j + 1, k))
  }

  lemma {:induction false} VisitAllAppend(env: Env, euid: nat, w: Walk, paths: seq<string>, path: string)
    requires ValidEnv(env) && |w.name| == MAX_NAME_LEN
    ensures VisitAll(env, euid, w, paths + [path]) == Visit(env, euid, VisitAll(env, euid, w, paths), path)
    decreases |paths|
  {
    if paths == [] {
      var w1 := Visit(env, euid, w, path);
      assert paths + [path] == [path] && [path][1..] == [];
      assert VisitAll(env, euid, w1, []) == w1;
    } else {
      assert (paths + [path])[1..] == paths[1..] + [path];
      VisitAllAppend(env, euid, Visit(env, euid, w, paths[0]), paths[1..], path);
    }
  }

  lemma StateAtNext(env: Env, euid: nat, w: Walk, paths: seq<string>, k: nat)
    requires ValidEnv(env) && |w.name| == MAX_NAME_LEN && k < |paths|
    ensures StateAt(env, euid, w, paths, k + 1) == Visit(env, euid, StateAt(env, euid, w, paths, k), paths[k])
  {
    assert paths[..k + 1] == paths[..k] + [paths[k]];
    VisitAllAppend(env, euid, w, paths[..k], paths[k]);
  }

  lemma InheritedNext(env: Env, euid: nat, w: Walk, paths: seq<string>, k: nat)
    requires ValidEnv(env) && |w.name| == MAX_NAME_LEN && k < |paths|
    ensures Inherited(env, euid, w, paths, k + 1) <==>
      if LongAt(env, euid, w, paths, k) then DetectedAt(env, euid, w, paths, k) else Inherited(env, euid, w, paths, k)
  {
    if LongAt(env, euid, w, paths, k) {
      assert DetectedAt(env, euid, w, paths, k) ==> NoLong(env, euid, w, paths, k + 1, k + 1);
    } else {
      assert forall j: nat :: j <= k ==> (NoLong(env, euid, w, paths, j, k + 1) <==> NoLong(env, euid, w, paths, j, k));
      assert !DetectedAt(env, euid, w, paths, k);
    }
  }

  /** One visit: the name buffer is set by a detected file, cleared by another long one, else kept. */
  lemma BufferAfterVisit(env: Env, euid: nat, w: Walk, path: string)
    requires ProperDatabase(env) && |w.name| == MAX_NAME_LEN
    ensures
      var scanned := path in w.fs && ScannedNode(env, euid, w.fs[path]);
      Visit(env, euid, w, path).name[0] != NUL <==>
        if scanned && |w.fs[path].content| >= Signature.SIG_SIZE then Detected(w.fs[path].content, Lines(env.database))
        else w.name[0] != NUL
  {
    if path in w.fs && ScannedNode(env, euid, w.fs[path]) && |w.fs[path].content| >= Signature.SIG_SIZE {
      VerdictCorrect(w.fs[path].content, Lines(env.database), w.name);
    }
  }

  lemma {:induction false} BufferIsInherited(env: Env, euid: nat, w: Walk, paths: seq<string>, k: nat)
    requires ProperDatabase(env) && |w.name| == MAX_NAME_LEN && k <= |paths|
    ensures StateAt(env, euid, w, paths, k).name[0] != NUL <==> Inherited(env, euid, w, paths, k)
    decreases k
  {
    if k > 0 {
      BufferIsInherited(env, euid, w, paths, k - 1);
      StateAtNext(env, euid, w, paths, k - 1);
      BufferAfterVisit(env, euid, StateAt(env, euid, w, paths, k - 1), paths[k - 1]);
      InheritedNext(env, euid, w, paths, k - 1);
    }
  }

  /** In any walk a scanned file of at least 20 bytes is reported exactly when it is detected itself,
      and a shorter one exactly when the nearest longer file scanned before it was, or, if there is
      none, when the name buffer was set at the start. */
  lemma ReportedIff(env: Env, euid: nat, w: Walk, paths: seq<string>, k: nat)
    requires ProperDatabase(env) && |w.name| == MAX_NAME_LEN && k < |paths|
    ensures ReportedAt(env, euid, w, paths, k) <==>
      ScannedAt(env, euid, w, paths, k) &&
      if LongAt(env, euid, w, paths, k) then DetectedAt(env, euid, w, paths, k)
      else Inherited(env, euid, w, paths, k)
  {
    var s := StateAt(env, euid, w, paths, k);
    BufferIsInherited(env, euid, w, paths, k);
    BufferAfterVisit(env, euid, Walk(s.fs, s.name, SUCCESS), paths[k]);
  }

  lemma {:induction false} FoundSoFar(env: Env, euid: nat, w: Walk, paths: seq<string>, k: nat)
    requires ProperDatabase(env) && |w.name| == MAX_NAME_LEN && k <= |paths|
    ensures StateAt(env, euid, w, paths, k).re == FOUND <==>
      w.re == FOUND || exists j :: 0 <= j < k && ReportedAt(env, euid, w, paths, j)
    decreases k
  {
    if k > 0 {
      FoundSoFar(env, euid, w, paths, k - 1);
      StateAtNext(env, euid, w, paths, k - 1);
      var s := StateAt(env, euid, w, paths, k - 1);
      assert Visit(env, euid, s, paths[k - 1]).re == FOUND <==>
        s.re == FOUND || ReportedAt(env, euid, w, paths, k - 1);
    }
  }

  /** The result of any walk is FOUND exactly when it was before or some path is reported. */
  lemma FoundIffReported(env: Env, euid: nat, w: Walk, paths: seq<string>)
    requires ProperDatabase(env) && |w.name| == MAX_NAME_LEN
    ensures VisitAll(env, euid, w, paths).re == FOUND <==>
      w.re == FOUND || exists k :: 0 <= k < |paths| && ReportedAt(env, euid, w, paths, k)
  {
    FoundSoFar(env, euid, w, paths, |paths|);
    assert paths[..|paths|] == paths;
  }

  // ---- What a walk loses ----

  /** Path number k is reported and renamed onto a path that is taken at that moment. */
  ghost predicate ClobbersAt(env: Env, euid: nat, w: Walk, paths: seq<string>, k: nat)
    requires ValidEnv(env) && |w.name| == MAX_NAME_LEN && k < |paths|
  {
    && ReportedAt(env, euid, w, paths, k) && env.renames(paths[k])
    && paths[k] + INFECTED in StateAt(env, euid, w, paths, k).fs
  }

  /** No content is held by more files than before. */
  ghost predicate NoMoreContents(fs: FileSystem, fs': FileSystem) {
    forall c :: |Holders(fs', c)| <= |Holders(fs, c)|
  }

  lemma QuarantineAddsNothing(env: Env, euid: nat, fs: FileSystem, path: string)
    requires path in fs
    ensures NoMoreContents(fs, Quarantine(env, euid, fs, path))
  {
    if env.renames(path) {
      forall c ensures |Holders(Quarantine(env, euid, fs, path), c)| <= |Holders(fs, c)| {
        HoldersAfterQuarantine(env, euid, fs, path, c);
        var h, rest := Holders(fs, c), Holders(fs, c) - {path, path + INFECTED};
        if fs[path].content == c {
          assert path in h && rest <= h - {path} && |rest| <= |h - {path}| by { CardinalityMonotone(rest, h - {path}); }
        } else {
          CardinalityMonotone(rest, h);
        }
      }
    }
  }

  lemma CardinalityMonotone<T>(a: set<T>, b: set<T>)
    requires a <= b
    ensures |a| <= |b|
  {
    assert b == a + (b - a);
  }

  /** One visit adds no content, and loses one exactly when it clobbers a file. */
  lemma VisitContents(env: Env, euid: nat, w: Walk, paths: seq<string>, k: nat)
    requires ValidEnv(env) && |w.name| == MAX_NAME_LEN && k < |paths|
    ensures
      var fs, fs' := StateAt(env, euid, w, paths, k).fs, StateAt(env, euid, w, paths, k + 1).fs;
      NoMoreContents(fs, fs') && (SameContents(fs, fs') <==> !ClobbersAt(env, euid, w, paths, k))
  {
    var s := StateAt(env, euid, w, paths, k);
    StateAtNext(env, euid, w, paths, k);
    if ReportedAt(env, euid, w, paths, k) {
      QuarantineAddsNothing(env, euid, s.fs, paths[k]);
      QuarantineKeepsContents(env, euid, s.fs, paths[k]);
    }
  }

  lemma ContentsCompose(a: FileSystem, b: FileSystem, c: FileSystem)
    requires NoMoreContents(a, b) && NoMoreContents(b, c)
    ensures NoMoreContents(a, c)
    ensures SameContents(a, c) <==> SameContents(a, b) && SameContents(b, c)
  {
    if SameContents(a, c) {
      forall x ensures |Holders(a, x)| == |Holders(b, x)| == |Holders(c, x)| {
        assert |Holders(c, x)| <= |Holders(b, x)| <= |Holders(a, x)| == |Holders(c, x)|;
      }
    }
  }

  lemma {:induction false} ContentsSoFar(env: Env, euid: nat, w: Walk, paths: seq<string>, k: nat)
    requires ValidEnv(env) && |w.name| == MAX_NAME_LEN && k <= |paths|
    ensures NoMoreContents(w.fs, StateAt(env, euid, w, paths, k).fs)
    ensures SameContents(w.fs, StateAt(env, euid, w, paths, k).fs) <==>
      forall j :: 0 <= j < k ==> !ClobbersAt(env, euid, w, paths, j)
    decreases k
  {
    if k > 0 {
      ContentsSoFar(env, euid, w, paths, k - 1);
      VisitContents(env, euid, w, paths, k - 1);
      ContentsCompose(
        w.fs, StateAt(env, euid, w, paths, k - 1).fs, StateAt(env, euid, w, paths, k).fs);
    }
  }

  /** Any walk, short files included, keeps every content in as many files as before exactly when it
      never renames a reported file onto a path that is taken. */
  lemma ContentsKeptIff(env: Env, euid: nat, w: Walk, paths: seq<string>)
    requires ValidEnv(env) && |w.name| == MAX_NAME_LEN
    ensures SameContents(w.fs, VisitAll(env, euid, w, paths).fs) <==>
      forall k :: 0 <= k < |paths| ==> !ClobbersAt(env, euid, w, paths, k)
  {
    ContentsSoFar(env, euid, w, paths, |paths|);
    assert paths[..|paths|] == paths;
  }
}
