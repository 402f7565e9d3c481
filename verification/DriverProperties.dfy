/** What a whole directory walk does to the file system, and what its return code means. */
module DriverProperties {
  import opened CString
  import opened Stdio
  import opened Scanner
  import opened ScannerProperties
  import opened Driver

  predicate Distinct<T(==)>(s: seq<T>) {
    forall i, j :: 0 <= i < j < |s| ==> s[i] != s[j]
  }

  // ---- Quarantining every file that satisfies a condition ----

  ghost function Sweep(env: Env, euid: nat, fs: FileSystem, paths: seq<string>, f: Node -> bool): FileSystem
    decreases |paths|
  {
    if paths == [] then fs
    else
      var p := paths[0];
      Sweep(env, euid, if p in fs && f(fs[p]) then Quarantine(env, euid, fs, p) else fs, paths[1..], f)
  }

  ghost predicate Picks(fs: FileSystem, f: Node -> bool, path: string) {
    path in fs && f(fs[path])
  }

  ghost predicate PicksAny(fs: FileSystem, f: Node -> bool, paths: seq<string>) {
    exists p :: p in paths && Picks(fs, f, p)
  }

  /** No picked file's new name is taken, by a file or by another path of the sweep. */
  ghost predicate FreshTargets(fs: FileSystem, f: Node -> bool, paths: seq<string>) {
    forall p :: p in paths && Picks(fs, f, p) ==> p + INFECTED !in fs && p + INFECTED !in paths
  }

  ghost function Moved(env: Env, fs: FileSystem, f: Node -> bool, paths: seq<string>): set<string> {
    set p | p in paths && Picks(fs, f, p) && env.renames(p)
  }

  function Infected(moved: set<string>): set<string> {
    set p | p in moved :: p + INFECTED
  }

  function Quarantined(env: Env, euid: nat, node: Node, target: string): Node {
    node.(mode := if env.chmods(RaisedUid(env, euid), target) then 0 else node.mode)
  }

  /** fs' is fs with exactly the files of moved renamed and locked. */
  ghost predicate ExactlyMoved(env: Env, euid: nat, fs: FileSystem, moved: set<string>, fs': FileSystem)
    requires forall p :: p in moved ==> p in fs
  {
    && fs'.Keys == (fs.Keys - moved) + Infected(moved)
    && (forall q :: q in fs && q !in moved ==> q in fs' && fs'[q] == fs[q])
    && (forall p :: p in moved ==>
          p + INFECTED in fs' && fs'[p + INFECTED] == Quarantined(env, euid, fs[p], p + INFECTED))
  }

  lemma InfectedInjective(p: string, q: string)
    ensures p + INFECTED == q + INFECTED ==> p == q
  {
    if p + INFECTED == q + INFECTED {
      assert p == (p + INFECTED)[..|p|] == (q + INFECTED)[..|q|] == q;
    }
  }

  /** What quarantining does to the file itself. Locking needs leave to chmod as uid 0 where the scanner
      may become root, and under its own uid where it may not. */
  lemma QuarantineMeaning(env: Env, euid: nat, fs: FileSystem, path: string)
    requires path in fs
    ensures !env.renames(path) ==> Quarantine(env, euid, fs, path) == fs
    ensures env.renames(path) ==>
      var fs' := Quarantine(env, euid, fs, path);
      var locks := if env.raises then env.chmods(0, path + ".infected") else env.chmods(euid, path + ".infected");
      && path !in fs' && path + ".infected" in fs'
      && (locks ==> fs'[path + ".infected"] == fs[path].(mode := 0))
      && (!locks ==> fs'[path + ".infected"] == fs[path])
      && forall q :: q != path && q != path + ".infected" ==> (q in fs' <==> q in fs) && (q in fs ==> fs'[q] == fs[q])
  {
    assert path != path + ".infected";
  }

  /** A quarantine leaves every other file alone. */
  lemma QuarantineFrame(env: Env, euid: nat, fs: FileSystem, path: string, q: string)
    requires path in fs && q != path && q != path + INFECTED
    ensures q in Quarantine(env, euid, fs, path) <==> q in fs
    ensures q in fs ==> Quarantine(env, euid, fs, path)[q] == fs[q]
  {
  }

  /** Moving one file and then the rest is moving them all. */
  lemma {:induction false} MovedStep(
      env: Env, euid: nat, fs: FileSystem, path: string, rest: set<string>, fs'': FileSystem)
    requires path in fs && path !in rest && env.renames(path) && path + INFECTED !in fs && path + INFECTED !in rest
    requires forall p :: p in rest ==> p in fs && p + INFECTED !in fs
    requires ExactlyMoved(env, euid, Quarantine(env, euid, fs, path), rest, fs'')
    ensures ExactlyMoved(env, euid, fs, rest + {path}, fs'')
  {
    var fs', t := Quarantine(env, euid, fs, path), path + INFECTED;
    QuarantinedAt(env, euid, fs, path);
    forall p | p in rest ensures p + INFECTED != t {
      InfectedInjective(p, path);
    }
    InfectedAdd(rest, path);
    assert t in fs'' && fs''[t] == fs'[t];
    MovedKeys(fs.Keys, path, t, rest, Infected(rest));
  }

  lemma InfectedAdd(rest: set<string>, path: string)
    ensures Infected(rest + {path}) == Infected(rest) + {path + INFECTED}
  {
  }

  lemma MovedKeys<T>(keys: set<T>, path: T, target: T, rest: set<T>, targets: set<T>)
    requires target !in rest
    ensures (keys - {path} + {target}) - rest + targets == keys - (rest + {path}) + (targets + {target})
  {
  }

  lemma QuarantinedAt(env: Env, euid: nat, fs: FileSystem, path: string)
    requires path in fs && env.renames(path) && path + INFECTED !in fs
    ensures
      var fs' := Quarantine(env, euid, fs, path);
      && fs'.Keys == fs.Keys - {path} + {path + INFECTED}
      && fs'[path + INFECTED] == Quarantined(env, euid, fs[path], path + INFECTED)
      && forall q :: q in fs && q != path ==> fs'[q] == fs[q]
  {
  }

  /** After the first path the conditions hold for the remaining ones, which are picked as before. */
  lemma SweepKeepsRest(env: Env, euid: nat, fs: FileSystem, paths: seq<string>, f: Node -> bool, fs': FileSystem)
    requires paths != [] && Distinct(paths) && FreshTargets(fs, f, paths)
    requires fs' == if Picks(fs, f, paths[0]) then Quarantine(env, euid, fs, paths[0]) else fs
    ensures Distinct(paths[1..]) && FreshTargets(fs', f, paths[1..])
    ensures forall q :: q in paths[1..] ==> (q in fs <==> q in fs') && (q in fs ==> fs'[q] == fs[q])
    ensures PicksAny(fs, f, paths) <==> Picks(fs, f, paths[0]) || PicksAny(fs', f, paths[1..])
    ensures Moved(env, fs, f, paths) ==
      Moved(env, fs', f, paths[1..]) + (if Picks(fs, f, paths[0]) && env.renames(paths[0]) then {paths[0]} else {})
  {
    var p0, rest := paths[0], paths[1..];
    assert p0 in paths && forall q :: q in paths <==> q == p0 || q in rest;
    assert p0 !in rest;
    if Picks(fs, f, p0) {
      forall q | q in rest
        ensures (q in fs' <==> q in fs) && (q in fs ==> fs'[q] == fs[q])
        ensures q + INFECTED in fs' ==> q + INFECTED in fs
      {
        QuarantineFrame(env, euid, fs, p0, q);
        InfectedInjective(q, p0);
      }
    }
  }

  lemma {:induction false} SweepMeaning(env: Env, euid: nat, fs: FileSystem, paths: seq<string>, f: Node -> bool)
    requires Distinct(paths) && FreshTargets(fs, f, paths)
    ensures ExactlyMoved(env, euid, fs, Moved(env, fs, f, paths), Sweep(env, euid, fs, paths, f))
    ensures SameContents(fs, Sweep(env, euid, fs, paths, f))
    decreases |paths|
  {
    if paths != [] {
      var p0 := paths[0];
      var fs' := if Picks(fs, f, p0) then Quarantine(env, euid, fs, p0) else fs;
      SweepKeepsRest(env, euid, fs, paths, f, fs');
      SweepMeaning(env, euid, fs', paths[1..], f);
      if Picks(fs, f, p0) {
        assert p0 in paths;
        QuarantineKeepsContents(env, euid, fs, p0);
        if env.renames(p0) {
          MovedStep(env, euid, fs, p0, Moved(env, fs', f, paths[1..]), Sweep(env, euid, fs', paths[1..], f));
        }
      }
    }
  }

  // ---- Conservation of contents ----

  function Holders(fs: FileSystem, content: seq<Byte>): set<string> {
    set p | p in fs && fs[p].content == content
  }

  /** Every content is held by as many files in one as in the other. */
  ghost predicate SameContents(fs: FileSystem, fs': FileSystem) {
    forall c :: |Holders(fs, c)| == |Holders(fs', c)|
  }

  lemma HoldersAfterQuarantine(env: Env, euid: nat, fs: FileSystem, path: string, c: seq<Byte>)
    requires path in fs && env.renames(path)
    ensures Holders(Quarantine(env, euid, fs, path), c) ==
      Holders(fs, c) - {path, path + INFECTED} + (if fs[path].content == c then {path + INFECTED} else {})
  {
  }

  lemma OverwriteLoses(env: Env, euid: nat, fs: FileSystem, path: string)
    requires path in fs && env.renames(path) && path + INFECTED in fs
    ensures |Holders(Quarantine(env, euid, fs, path), fs[path + INFECTED].content)| ==
      |Holders(fs, fs[path + INFECTED].content)| - 1
  {
    var t := path + INFECTED;
    var c := fs[t].content;
    var h, h' := Holders(fs, c), Holders(Quarantine(env, euid, fs, path), c);
    HoldersAfterQuarantine(env, euid, fs, path, c);
    assert t in h;
    assert h' == if fs[path].content == c then h - {path} else h - {t};
  }

  lemma FreshKeeps(env: Env, euid: nat, fs: FileSystem, path: string, c: seq<Byte>)
    requires path in fs && env.renames(path) && path + INFECTED !in fs
    ensures |Holders(Quarantine(env, euid, fs, path), c)| == |Holders(fs, c)|
  {
    var t := path + INFECTED;
    var h, h' := Holders(fs, c), Holders(Quarantine(env, euid, fs, path), c);
    HoldersAfterQuarantine(env, euid, fs, path, c);
    assert path in h <==> fs[path].content == c;
    assert h' == if fs[path].content == c then h - {path} + {t} else h;
  }

  /** A quarantine keeps every content exactly when the rename fails or its target is free:
      renaming over an existing file loses that file. */
  lemma QuarantineKeepsContents(env: Env, euid: nat, fs: FileSystem, path: string)
    requires path in fs
    ensures SameContents(fs, Quarantine(env, euid, fs, path)) <==>
      !env.renames(path) || path + INFECTED !in fs
  {
    if env.renames(path) {
      if path + INFECTED in fs {
        OverwriteLoses(env, euid, fs, path);
      } else {
        forall c ensures |Holders(fs, c)| == |Holders(Quarantine(env, euid, fs, path), c)| {
          FreshKeeps(env, euid, fs, path, c);
        }
      }
    }
  }

  // ---- The walk ----

  /** The scanner can open and read the file, which contains a match, and nothing says it is whitelisted. */
  ghost predicate HarmfulNode(env: Env, euid: nat, node: Node)
    requires ValidEnv(env)
  {
    && env.opens(euid, node.mode) && node.loadable && NodeCode(env, node) != 1
    && Detected(node.content, Lines(env.database))
  }

  ghost function Harm(env: Env, euid: nat): Node -> bool
    requires ValidEnv(env)
  {
    (n: Node) => HarmfulNode(env, euid, n)
  }

  /** The whitelist opens and the hash process starts. */
  predicate CanCheck(env: Env) {
    env.whitelist.Some? && env.sha1sum.Some?
  }

  /** The file opens, its whitelist check answers "not listed", it loads, and it contains a match. */
  ghost predicate FlaggedNode(env: Env, euid: nat, node: Node)
    requires ValidEnv(env)
  {
    ScannedNode(env, euid, node) && Detected(node.content, Lines(env.database))
  }

  /** Without whitelist or hash process nothing is known to be whitelisted, so every readable file with a
      match is harmful; with both, the check decides by the digest of the file's own content. */
  lemma HarmfulMeaning(env: Env, euid: nat, node: Node)
    requires ValidEnv(env)
    ensures !CanCheck(env) ==>
      (HarmfulNode(env, euid, node) <==>
       env.opens(euid, node.mode) && node.loadable && Detected(node.content, Lines(env.database)))
    ensures CanCheck(env) ==>
      var output := env.sha1sum.value(node.content);
      |output| >= Whitelist.COMPLENGTH && Whitelist.IsDigest(output[..Whitelist.COMPLENGTH]) ==>
        (HarmfulNode(env, euid, node) <==>
         env.opens(euid, node.mode) && node.loadable && Detected(node.content, Lines(env.database)) &&
         !Whitelist.Listed(env.whitelist.value, output[..Whitelist.COMPLENGTH]))
  {
    if CanCheck(env) {
      var output := env.sha1sum.value(node.content);
      if |output| >= Whitelist.COMPLENGTH && Whitelist.IsDigest(output[..Whitelist.COMPLENGTH]) {
        Whitelist.DigestCode(env.whitelist.value, output);
      }
    }
  }

  /** What the driver reports is every harmful file, or none at all when it cannot check. */
  lemma FlaggedIff(env: Env, euid: nat, node: Node)
    requires ValidEnv(env)
    ensures FlaggedNode(env, euid, node) <==> CanCheck(env) && HarmfulNode(env, euid, node)
  {
  }

  ghost function Flag(env: Env, euid: nat): Node -> bool
    requires ValidEnv(env)
  {
    (n: Node) => FlaggedNode(env, euid, n)
  }

  /** If this file is scanned, at least one window of it is compared. */
  ghost predicate DecisiveNode(env: Env, euid: nat, node: Node)
    requires ValidEnv(env)
  {
    ScannedNode(env, euid, node) ==> |node.content| >= Signature.SIG_SIZE
  }

  ghost predicate Decisive(env: Env, euid: nat, fs: FileSystem, paths: seq<string>)
    requires ValidEnv(env)
  {
    forall p :: p in paths && p in fs ==> DecisiveNode(env, euid, fs[p])
  }

  ghost predicate ProperDatabase(env: Env) {
    ValidEnv(env) && Lines(env.database) != [] && Named(Lines(env.database))
  }

  /** One visit: the verdict is the file's own. */
  lemma VisitByFlag(env: Env, euid: nat, w: Walk, path: string)
    requires ProperDatabase(env) && |w.name| == MAX_NAME_LEN
    requires path in w.fs ==> DecisiveNode(env, euid, w.fs[path])
    ensures Visit(env, euid, w, path).fs ==
      if Picks(w.fs, Flag(env, euid), path) then Quarantine(env, euid, w.fs, path) else w.fs
    ensures Visit(env, euid, w, path).re == if Picks(w.fs, Flag(env, euid), path) then FOUND else w.re
  {
    if path in w.fs && ScannedNode(env, euid, w.fs[path]) {
      VerdictCorrect(w.fs[path].content, Lines(env.database), w.name);
    }
  }

  lemma {:induction false} WalkSweeps(env: Env, euid: nat, w: Walk, paths: seq<string>)
    requires ProperDatabase(env) && |w.name| == MAX_NAME_LEN && Distinct(paths)
    requires Decisive(env, euid, w.fs, paths) && FreshTargets(w.fs, Flag(env, euid), paths)
    ensures VisitAll(env, euid, w, paths).fs == Sweep(env, euid, w.fs, paths, Flag(env, euid))
    ensures VisitAll(env, euid, w, paths).re == if PicksAny(w.fs, Flag(env, euid), paths) then FOUND else w.re
    decreases |paths|
  {
    if paths != [] {
      var w', f := Visit(env, euid, w, paths[0]), Flag(env, euid);
      VisitByFlag(env, euid, w, paths[0]);
      SweepKeepsRest(env, euid, w.fs, paths, f, w'.fs);
      assert forall q :: q in paths[1..] ==> q in paths;
      WalkSweeps(env, euid, w', paths[1..]);
    }
  }

  /** Exactly the openable, non-whitelisted, detected entries move from p to p.infected with
      their content and mode 0 (their old mode where chmod fails); everything else is untouched,
      no content is lost, and the result is FOUND exactly when some entry is detected. */
  lemma {:induction false} WalkMeaning(env: Env, euid: nat, w: Walk, paths: seq<string>)
    requires ProperDatabase(env) && |w.name| == MAX_NAME_LEN && Distinct(paths)
    requires Decisive(env, euid, w.fs, paths) && FreshTargets(w.fs, Flag(env, euid), paths)
    ensures ExactlyMoved(env, euid, w.fs, Moved(env, w.fs, Flag(env, euid), paths), VisitAll(env, euid, w, paths).fs)
    ensures SameContents(w.fs, VisitAll(env, euid, w, paths).fs)
    ensures VisitAll(env, euid, w, paths).re == if PicksAny(w.fs, Flag(env, euid), paths) then FOUND else w.re
  {
    WalkSweeps(env, euid, w, paths);
    SweepMeaning(env, euid, w.fs, paths, Flag(env, euid));
  }

  /** Without whitelist or hash process a walk passes every file by. */
  lemma {:induction false} UncheckedWalk(env: Env, euid: nat, w: Walk, paths: seq<string>)
    requires ValidEnv(env) && |w.name| == MAX_NAME_LEN && !CanCheck(env)
    ensures VisitAll(env, euid, w, paths) == w
    decreases |paths|
  {
    if paths != [] {
      assert Visit(env, euid, w, paths[0]) == w;
      UncheckedWalk(env, euid, w, paths[1..]);
    }
  }

  /** The result tells whether some entry is harmful exactly when the files can be checked or there is
      nothing to find. */
  lemma HarmfulFoundIff(env: Env, euid: nat, w: Walk, paths: seq<string>)
    requires ProperDatabase(env) && |w.name| == MAX_NAME_LEN && Distinct(paths) && w.re == SUCCESS
    requires Decisive(env, euid, w.fs, paths) && FreshTargets(w.fs, Flag(env, euid), paths)
    ensures (VisitAll(env, euid, w, paths).re == FOUND <==> PicksAny(w.fs, Harm(env, euid), paths)) <==>
      CanCheck(env) || !PicksAny(w.fs, Harm(env, euid), paths)
  {
    if CanCheck(env) {
      WalkMeaning(env, euid, w, paths);
      forall p ensures Picks(w.fs, Flag(env, euid), p) <==> Picks(w.fs, Harm(env, euid), p) {
        if p in w.fs { FlaggedIff(env, euid, w.fs[p]); }
      }
    } else {
      UncheckedWalk(env, euid, w, paths);
    }
  }

  lemma ExactlyMovedUnique(env: Env, euid: nat, fs: FileSystem, moved: set<string>, a: FileSystem, b: FileSystem)
    requires forall p :: p in moved ==> p in fs
    requires ExactlyMoved(env, euid, fs, moved, a) && ExactlyMoved(env, euid, fs, moved, b)
    ensures a == b
  {
    forall q | q in a ensures a[q] == b[q] {
      if q in Infected(moved) {
        var p :| p in moved && q == p + INFECTED;
      }
    }
  }

  /** The order in which the directory lists its entries makes no difference. */
  lemma WalkIgnoresOrder(env: Env, euid: nat, w: Walk, paths: seq<string>, reordered: seq<string>, name: seq<Byte>)
    requires ProperDatabase(env) && |w.name| == |name| == MAX_NAME_LEN
    requires Distinct(paths) && Distinct(reordered) && forall p :: p in paths <==> p in reordered
    requires Decisive(env, euid, w.fs, paths) && FreshTargets(w.fs, Flag(env, euid), paths)
    ensures VisitAll(env, euid, w, paths).fs == VisitAll(env, euid, w.(name := name), reordered).fs
    ensures VisitAll(env, euid, w, paths).re == VisitAll(env, euid, w.(name := name), reordered).re
  {
    var f, w' := Flag(env, euid), w.(name := name);
    assert PicksAny(w.fs, f, paths) <==> PicksAny(w.fs, f, reordered);
    assert Moved(env, w.fs, f, paths) == Moved(env, w.fs, f, reordered);
    WalkMeaning(env, euid, w, paths);
    WalkMeaning(env, euid, w', reordered);
    var a, b := VisitAll(env, euid, w, paths), VisitAll(env, euid, w', reordered);
    ExactlyMovedUnique(env, euid, w.fs, Moved(env, w.fs, f, paths), a.fs, b.fs);
  }

  // ---- Running it again ----

  lemma {:induction false} NothingPicked(env: Env, euid: nat, w: Walk, paths: seq<string>)
    requires ProperDatabase(env) && |w.name| == MAX_NAME_LEN
    requires Decisive(env, euid, w.fs, paths) && !PicksAny(w.fs, Flag(env, euid), paths)
    ensures VisitAll(env, euid, w, paths).fs == w.fs && VisitAll(env, euid, w, paths).re == w.re
    decreases |paths|
  {
    if paths != [] {
      assert paths[0] in paths;
      VisitByFlag(env, euid, w, paths[0]);
      NothingPicked(env, euid, Visit(env, euid, w, paths[0]), paths[1..]);
    }
  }

  /** Every picked file of the walk is renamed and locked. */
  ghost predicate QuarantineWorks(env: Env, euid: nat, fs: FileSystem, paths: seq<string>)
    requires ValidEnv(env)
  {
    forall p :: p in paths && Picks(fs, Flag(env, euid), p) ==>
      env.renames(p) && env.chmods(RaisedUid(env, euid), p + INFECTED)
  }

  /** What a finished walk leaves under the path of an unpicked entry or a quarantined file: nothing the
      scanner reports, unless it opens files with mode 0. */
  lemma {:induction false} LeftoverNode(
      env: Env, euid: nat, fs: FileSystem, paths: seq<string>, fs': FileSystem, q: string)
    requires ValidEnv(env) && Decisive(env, euid, fs, paths) && QuarantineWorks(env, euid, fs, paths)
    requires ExactlyMoved(env, euid, fs, Moved(env, fs, Flag(env, euid), paths), fs')
    requires
      var moved := Moved(env, fs, Flag(env, euid), paths);
      q in fs' && (q in Infected(moved) || (q in paths && q !in moved && q !in Infected(moved)))
    ensures DecisiveNode(env, euid, fs'[q])
    ensures FlaggedNode(env, euid, fs'[q]) <==>
      env.opens(euid, 0) && q in Infected(Moved(env, fs, Flag(env, euid), paths))
  {
    var moved := Moved(env, fs, Flag(env, euid), paths);
    if q in Infected(moved) {
      var p :| p in moved && q == p + INFECTED;
      assert fs'[q] == Quarantined(env, euid, fs[p], q);
    } else {
      assert fs'[q] == fs[q];
    }
  }

  lemma {:induction false} ResultStays(env: Env, euid: nat, w: Walk, paths: seq<string>)
    requires ValidEnv(env) && |w.name| == MAX_NAME_LEN && w.re == FOUND
    ensures VisitAll(env, euid, w, paths).re == FOUND
    decreases |paths|
  {
    if paths != [] {
      ResultStays(env, euid, Visit(env, euid, w, paths[0]), paths[1..]);
    }
  }

  lemma {:induction false} SomethingPicked(env: Env, euid: nat, w: Walk, paths: seq<string>)
    requires ProperDatabase(env) && |w.name| == MAX_NAME_LEN
    requires Decisive(env, euid, w.fs, paths) && PicksAny(w.fs, Flag(env, euid), paths)
    ensures VisitAll(env, euid, w, paths).re == FOUND
    decreases |paths|
  {
    assert paths[0] in paths;
    VisitByFlag(env, euid, w, paths[0]);
    var w' := Visit(env, euid, w, paths[0]);
    if Picks(w.fs, Flag(env, euid), paths[0]) {
      ResultStays(env, euid, w', paths[1..]);
    } else {
      SomethingPicked(env, euid, w', paths[1..]);
    }
  }

  /** After a walk that quarantined all it reported, a second walk over what is left, in any order,
      changes nothing and returns SUCCESS exactly when mode 0 keeps the scanner out or no quarantined
      file is visited again. */
  lemma {:induction false} SecondWalkIff(
      env: Env, euid: nat, w: Walk, paths: seq<string>, again: seq<string>, name: seq<Byte>)
    requires ProperDatabase(env) && |w.name| == |name| == MAX_NAME_LEN && Distinct(paths)
    requires Decisive(env, euid, w.fs, paths) && FreshTargets(w.fs, Flag(env, euid), paths)
    requires QuarantineWorks(env, euid, w.fs, paths)
    requires
      var moved := Moved(env, w.fs, Flag(env, euid), paths);
      forall q :: q in again ==> q in Infected(moved) || (q in paths && q !in moved)
    ensures
      var moved := Moved(env, w.fs, Flag(env, euid), paths);
      var fs' := VisitAll(env, euid, w, paths).fs;
      var second := VisitAll(env, euid, Walk(fs', name, SUCCESS), again);
      second.fs == fs' && second.re == SUCCESS <==>
        !env.opens(euid, 0) || forall q :: q in again ==> q !in Infected(moved)
  {
    WalkMeaning(env, euid, w, paths);
    var f, fs' := Flag(env, euid), VisitAll(env, euid, w, paths).fs;
    var moved := Moved(env, w.fs, f, paths);
    forall q | q in again && q in fs'
      ensures DecisiveNode(env, euid, fs'[q]) && (f(fs'[q]) <==> env.opens(euid, 0) && q in Infected(moved))
    {
      LeftoverNode(env, euid, w.fs, paths, fs', q);
    }
    if PicksAny(fs', f, again) {
      SomethingPicked(env, euid, Walk(fs', name, SUCCESS), again);
    } else {
      NothingPicked(env, euid, Walk(fs', name, SUCCESS), again);
      forall q | q in again && q in Infected(moved) ensures !env.opens(euid, 0) {
        assert q in fs';
      }
    }
  }

  // ---- Directory entries ----

  predicate IsDot(entry: string) {
    entry == "." || entry == ".."
  }

  /** dir names the directory base, with or without a slash at the end. */
  predicate Names(base: string, dir: string) {
    dir == base + "/" || (dir == base && base != "" && base[|base| - 1] != '/')
  }

  /** A directory named without a slash at the end gets one; one is not doubled. */
  lemma {:induction false} PathsUnder(base: string, dir: string, entries: seq<string>)
    requires Names(base, dir)
    ensures Paths(dir, entries) == Paths(base + "/", entries)
    decreases |entries|
  {
    if entries != [] {
      PathsUnder(base, dir, entries[1..]);
    }
  }

  /** One entry: none of the dot entries, and any other under the directory's name and one slash. */
  lemma PathOfOne(base: string, entry: string)
    ensures Paths(base + "/", [entry]) == if IsDot(entry) then [] else [base + "/" + entry]
  {
    assert [entry][1..] == [] && Paths(base + "/", []) == [];
  }

  /** The entries one after the other. */
  lemma {:induction false} PathsAppend(dir: string, entries: seq<string>, more: seq<string>)
    requires dir != ""
    ensures Paths(dir, entries + more) == Paths(dir, entries) + Paths(dir, more)
    decreases |entries|
  {
    if entries == [] {
      assert entries + more == more;
    } else {
      assert (entries + more)[0] == entries[0] && (entries + more)[1..] == entries[1..] + more;
      PathsAppend(dir, entries[1..], more);
    }
  }

  lemma {:induction false} PathsElements(base: string, entries: seq<string>)
    ensures forall p :: p in Paths(base + "/", entries) <==>
      exists e :: e in entries && !IsDot(e) && p == base + "/" + e
    decreases |entries|
  {
    if entries != [] {
      PathsElements(base, entries[1..]);
      PathOfOne(base, entries[0]);
      PathsAppend(base + "/", [entries[0]], entries[1..]);
      assert entries == [entries[0]] + entries[1..];
      assert forall e :: e in entries <==> e == entries[0] || e in entries[1..];
    }
  }

  lemma {:induction false} PathsDistinct(base: string, entries: seq<string>)
    requires Distinct(entries)
    ensures Distinct(Paths(base + "/", entries))
    decreases |entries|
  {
    if entries != [] {
      var e0, rest := entries[0], Paths(base + "/", entries[1..]);
      PathsDistinct(base, entries[1..]);
      PathsElements(base, entries[1..]);
      forall e | e in entries[1..] ensures base + "/" + e != base + "/" + e0 {
        assert (base + "/" + e)[|base| + 1..] == e && (base + "/" + e0)[|base| + 1..] == e0;
      }
      assert base + "/" + e0 !in rest;
      PathOfOne(base, e0);
      PathsAppend(base + "/", [e0], entries[1..]);
      assert entries == [e0] + entries[1..];
    }
  }

  /** What a start path stands for: itself if it is no directory, nothing if the directory does not
      open, and otherwise its entries but the dot entries, in order, each once. */
  lemma TargetsMeaning(env: Env, base: string, start: string)
    requires "" !in env.dirs
    ensures start !in env.dirs ==> Targets(env, start) == [start]
    ensures start in env.dirs && env.dirs[start] == None ==> Targets(env, start) == []
    ensures start in env.dirs && env.dirs[start].Some? && Names(base, start) ==>
      var entries := env.dirs[start].value;
      && Targets(env, start) == Paths(base + "/", entries)
      && (forall p :: p in Targets(env, start) <==> exists e :: e in entries && !IsDot(e) && p == base + "/" + e)
      && (Distinct(entries) ==> Distinct(Targets(env, start)))
  {
    if start in env.dirs && env.dirs[start].Some? && Names(base, start) {
      var entries := env.dirs[start].value;
      PathsUnder(base, start, entries);
      PathsElements(base, entries);
      if Distinct(entries) { PathsDistinct(base, entries); }
    }
  }

  /** Scanning a directory: the same statement in terms of its entries. */
  lemma DirectoryScan(env: Env, euid: nat, w: Walk, base: string, dir: string, entries: seq<string>)
    requires ProperDatabase(env) && |w.name| == MAX_NAME_LEN && w.re == SUCCESS
    requires dir in env.dirs && env.dirs[dir] == Some(entries) && Names(base, dir) && Distinct(entries)
    requires Decisive(env, euid, w.fs, Targets(env, dir)) && FreshTargets(w.fs, Flag(env, euid), Targets(env, dir))
    ensures
      var w' := VisitAll(env, euid, w, Targets(env, dir));
      && (w'.re == FOUND <==> exists e :: IsFlaggedEntry(env, euid, w.fs, base, entries, e))
      && (w'.re != FOUND ==> w'.re == SUCCESS && w'.fs == w.fs)
      && SameContents(w.fs, w'.fs)
      && (forall q :: q in w.fs && q !in w'.fs ==>
            exists e :: IsFlaggedEntry(env, euid, w.fs, base, entries, e) && q == base + "/" + e)
  {
    var paths, f := Targets(env, dir), Flag(env, euid);
    TargetsMeaning(env, base, dir);
    WalkMeaning(env, euid, w, paths);
    forall p | p in paths && Picks(w.fs, f, p)
      ensures exists e :: IsFlaggedEntry(env, euid, w.fs, base, entries, e) && p == base + "/" + e
    {
      var e :| e in entries && !IsDot(e) && p == base + "/" + e;
      assert IsFlaggedEntry(env, euid, w.fs, base, entries, e);
    }
    forall e | IsFlaggedEntry(env, euid, w.fs, base, entries, e) ensures PicksAny(w.fs, f, paths) {
      assert base + "/" + e in paths && Picks(w.fs, f, base + "/" + e);
    }
    if !PicksAny(w.fs, f, paths) {
      NothingPicked(env, euid, w, paths);
    }
  }

  ghost predicate IsFlaggedEntry(env: Env, euid: nat, fs: FileSystem, base: string, entries: seq<string>, entry: string)
    requires ValidEnv(env)
  {
    entry in entries && !IsDot(entry) && base + "/" + entry in fs && FlaggedNode(env, euid, fs[base + "/" + entry])
  }
}
