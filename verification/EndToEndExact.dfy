/** The end-to-end guarantee fails whenever its condition does: the runs that show it. */
module EndToEndExact {
  import opened CString
  import opened Stdio
  import opened Scanner
  import opened Driver
  import opened DriverProperties
  import opened OnAccess
  import opened OnAccessInvariant
  import opened EndToEnd

  /** No run that loads the module, keeps its discipline and leaves the path to the hook lets a
      harmful file through under that path. mayFail: helpers may fail to start in these runs. */
  ghost predicate Guaranteed(env: Env, uid: nat, path: string, mayFail: bool)
    requires ValidEnv(env)
  {
    forall start, steps, native, page, i ::
      Initial(start, native, page) && DisciplinedRun(env, uid, start, steps) && CanRun(env, uid, start, steps) &&
      Undisturbed(env, uid, start, steps, path) && (mayFail || HelpersStart(steps)) ==>
        !LetThrough(env, uid, Run(env, uid, start, steps), path, i)
  }

  /** A step of a disciplined run without outside changes to the file system. */
  predicate Allowed(s: State, step: Step, mayFail: bool) {
    Enabled(s, step) && Disciplined(s, step) && !step.World? && (mayFail || !step.LaunchFails?)
  }

  /** A run of such steps ends in a let-through state. */
  ghost predicate Leads(env: Env, uid: nat, s: State, steps: seq<Step>, path: string, mayFail: bool)
    requires ValidEnv(env)
    decreases |steps|
  {
    if steps == [] then LetThrough(env, uid, s, path, 0)
    else
      Allowed(s, steps[0], mayFail) && Leads(env, uid, Apply(env, uid, s, steps[0]), steps[1..], path, mayFail)
  }

  ghost predicate CanLead(env: Env, uid: nat, s: State, path: string, mayFail: bool)
    requires ValidEnv(env)
  {
    exists steps :: Leads(env, uid, s, steps, path, mayFail)
  }

  lemma First(env: Env, uid: nat, s: State, step: Step, path: string, mayFail: bool)
    requires ValidEnv(env) && Allowed(s, step, mayFail)
    requires CanLead(env, uid, Apply(env, uid, s, step), path, mayFail)
    ensures CanLead(env, uid, s, path, mayFail)
  {
    var rest :| Leads(env, uid, Apply(env, uid, s, step), rest, path, mayFail);
    assert ([step] + rest)[1..] == rest;
    assert Leads(env, uid, s, [step] + rest, path, mayFail);
  }

  lemma {:induction false} LeadsIsRun(env: Env, uid: nat, s: State, steps: seq<Step>, path: string, mayFail: bool)
    requires ValidEnv(env) && Leads(env, uid, s, steps, path, mayFail)
    ensures CanRun(env, uid, s, steps) && DisciplinedRun(env, uid, s, steps)
    ensures Undisturbed(env, uid, s, steps, path) && (mayFail || HelpersStart(steps))
    ensures LetThrough(env, uid, Run(env, uid, s, steps), path, 0)
    decreases |steps|
  {
    if steps != [] {
      LeadsIsRun(env, uid, Apply(env, uid, s, steps[0]), steps[1..], path, mayFail);
    }
  }

  /** The state after call i, its helper done, has restored the entry and released the mutex. */
  function Left(s: State, i: nat): State
    requires Helping(s, i)
  {
    var c := s.calls[i];
    WithCall(s, i, c.(pc := Delegate, runs := c.runs + [c.pc.helper.arg], writes := c.writes + 1))
      .(g := Store(s.g, Hook).(locked := false))
  }

  lemma Leave(env: Env, uid: nat, s: State, path: string)
    requires ValidEnv(env) && Helping(s, 0) && s.calls[0].pc.helper.work == []
    requires CanLead(env, uid, Left(s, 0), path, false)
    ensures CanLead(env, uid, s, path, false)
  {
    var s1 := Apply(env, uid, s, HelperExit(0));
    var s2 := Apply(env, uid, s1, Advance(0));
    assert Apply(env, uid, s2, Advance(0)) == Left(s, 0);
    First(env, uid, s2, Advance(0), path, false);
    First(env, uid, s1, Advance(0), path, false);
    First(env, uid, s, HelperExit(0), path, false);
  }

  /** The state after a new call on file has launched its helper. */
  function Launched(env: Env, s: State, file: string): State
    requires "" !in env.dirs
  {
    var h := Helper(file, Targets(env, file), Check, Zeros(MAX_NAME_LEN), 0);
    s.(calls := s.calls + [Call(file, 0, 0, true, Waiting(h), [], false, 1)],
       g := Store(s.g.(locked := true), s.g.oldOpen))
  }

  /** The state after a new call on file has made its first store. */
  function Arrived(s: State, file: string): State {
    s.(calls := s.calls + [Call(file, 0, 0, true, Launch, [], false, 1)], g := Store(s.g.(locked := true), s.g.oldOpen))
  }

  lemma Arriving(env: Env, uid: nat, s: State, file: string, path: string, mayFail: bool)
    requires ValidEnv(env) && Ready(s)
    requires CanLead(env, uid, Arrived(s, file), path, mayFail)
    ensures CanLead(env, uid, s, path, mayFail)
  {
    var i := |s.calls|;
    var s1 := Apply(env, uid, s, Enter(file, 0, 0));
    var s2 := Apply(env, uid, s1, Advance(i));
    assert Apply(env, uid, s2, Advance(i)) == Arrived(s, file);
    First(env, uid, s2, Advance(i), path, mayFail);
    First(env, uid, s1, Advance(i), path, mayFail);
    First(env, uid, s, Enter(file, 0, 0), path, mayFail);
  }

  lemma Launching(env: Env, uid: nat, s: State, file: string, path: string)
    requires ValidEnv(env) && Ready(s)
    requires CanLead(env, uid, Launched(env, s, file), path, false)
    ensures CanLead(env, uid, s, path, false)
  {
    var launch := LaunchHelper(|s.calls|, Zeros(MAX_NAME_LEN), 0);
    assert Apply(env, uid, Arrived(s, file), launch) == Launched(env, s, file);
    First(env, uid, Arrived(s, file), launch, path, false);
    Arriving(env, uid, s, file, path, false);
  }

  /** The state in which call i's helper stands at h. */
  function WithHelper(s: State, i: nat, h: Helper): State
    requires Helping(s, i)
  {
    WithCall(s, i, s.calls[i].(pc := Waiting(h)))
  }

  lemma HelperMoves(env: Env, uid: nat, s: State, i: nat, fs: FileSystem, h: Helper, path: string)
    requires ValidEnv(env) && Helping(s, i) && s.g.table != Hook && s.calls[i].pc.helper.work != []
    requires HelperAction(env, uid, s.fs, s.calls[i].pc.helper) == (fs, h)
    requires CanLead(env, uid, WithHelper(s, i, h).(fs := fs), path, false)
    ensures CanLead(env, uid, s, path, false)
  {
    assert Apply(env, uid, s, HelperStep(i)) == WithHelper(s, i, h).(fs := fs);
    First(env, uid, s, HelperStep(i), path, false);
  }

  /** The helper once it has scanned a reported file and is about to rename it. */
  ghost function AtRename(env: Env, content: seq<Byte>, h: Helper): Helper
    requires ValidEnv(env)
  {
    h.(stage := Rename, name := NameAfterScan(content, Lines(env.database), h.name))
  }

  lemma FlaggedActions(env: Env, uid: nat, fs: FileSystem, h: Helper)
    requires ProperDatabase(env) && h.work != [] && h.stage == Check
    requires h.work[0] in fs && FlaggedNode(env, uid, fs[h.work[0]])
    ensures HelperAction(env, uid, fs, h) == (fs, h.(stage := Open))
    ensures HelperAction(env, uid, fs, h.(stage := Open)) == (fs, AtRename(env, fs[h.work[0]].content, h))
  {
    ScannerProperties.VerdictCorrect(fs[h.work[0]].content, Lines(env.database), h.name);
  }

  /** Two actions bring a helper from a reported file to its rename. */
  lemma ReachRename(env: Env, uid: nat, s: State, i: nat, path: string)
    requires ProperDatabase(env) && Helping(s, i) && s.g.table != Hook
    requires
      var h := s.calls[i].pc.helper;
      && h.work != [] && h.stage == Check && h.work[0] in s.fs && FlaggedNode(env, uid, s.fs[h.work[0]])
      && CanLead(env, uid, WithHelper(s, i, AtRename(env, s.fs[h.work[0]].content, h)), path, false)
    ensures CanLead(env, uid, s, path, false)
  {
    var h := s.calls[i].pc.helper;
    var h1, h2 := h.(stage := Open), AtRename(env, s.fs[h.work[0]].content, h);
    FlaggedActions(env, uid, s.fs, h);
    HelperTwice(s, i, h1, h2);
    HelperMoves(env, uid, WithHelper(s, i, h1), i, s.fs, h2, path);
    HelperMoves(env, uid, s, i, s.fs, h1, path);
  }

  lemma HelperTwice(s: State, i: nat, h1: Helper, h2: Helper)
    requires Helping(s, i)
    ensures WithHelper(WithHelper(s, i, h1), i, h2).(fs := s.fs) == WithHelper(s, i, h2)
    ensures WithHelper(s, i, h1).(fs := s.fs) == WithHelper(s, i, h1)
  {
  }

  // ---- Loading ----

  /** Before the first load, over a given file system. */
  function Fresh(fs: FileSystem, native: Handler, page: Pte): State {
    State(Globals(native, native, false, page, false), Off, [], fs, false)
  }

  lemma Loading(env: Env, uid: nat, fs: FileSystem, native: Handler, page: Pte, path: string, mayFail: bool)
    requires ValidEnv(env) && native.Kernel? && page.rest != 0
    requires
      forall s :: Ready(s) && s.calls == [] && s.fs == fs ==> CanLead(env, uid, s, path, mayFail)
    ensures CanLead(env, uid, Fresh(fs, native, page), path, mayFail)
  {
    var s := Fresh(fs, native, page);
    var s1 := Apply(env, uid, s, InitUnprotect);
    var s2 := Apply(env, uid, s1, InitSave);
    var s3 := Apply(env, uid, s2, InitHook);
    assert Ready(s3) && s3.calls == [] && s3.fs == fs;
    First(env, uid, s2, InitHook, path, mayFail);
    First(env, uid, s1, InitSave, path, mayFail);
    First(env, uid, s, InitUnprotect, path, mayFail);
  }

  // ---- First failure: the helper does not start ----

  /** The launch fails, its result is ignored, and the open goes ahead unscanned. */
  lemma UnstartedHelper(env: Env, uid: nat, s: State, node: Node, path: string)
    requires ValidEnv(env) && HarmfulNode(env, uid, node)
    requires Ready(s) && s.calls == [] && s.fs == map[path := node]
    ensures CanLead(env, uid, s, path, true)
  {
    var s1 := Arrived(s, path);
    var s2 := Apply(env, uid, s1, LaunchFails(0));
    var s3 := Apply(env, uid, s2, Advance(0));
    var s4 := Apply(env, uid, s3, Advance(0));
    assert LetThrough(env, uid, s4, path, 0);
    assert Leads(env, uid, s4, [], path, true);
    First(env, uid, s3, Advance(0), path, true);
    First(env, uid, s2, Advance(0), path, true);
    First(env, uid, s1, LaunchFails(0), path, true);
    Arriving(env, uid, s, path, path, true);
  }

  // ---- Second failure: the helper cannot check ----

  /** Without whitelist or hash process the helper passes the file by, and the open goes ahead. */
  lemma UncheckedFile(env: Env, uid: nat, s: State, node: Node, path: string)
    requires ValidEnv(env) && HarmfulNode(env, uid, node) && !CanCheck(env)
    requires path !in env.dirs && Ready(s) && s.calls == [] && s.fs == map[path := node]
    ensures CanLead(env, uid, s, path, false)
  {
    var s1 := Launched(env, s, path);
    var h := s1.calls[0].pc.helper;
    assert h.work == [path];
    var h1 := h.(work := []);
    assert HelperAction(env, uid, s.fs, h) == (s.fs, h1) by { assert h.work[1..] == []; }
    var s2 := WithHelper(s1, 0, h1);
    var s3 := Left(s2, 0);
    assert LetThrough(env, uid, s3, path, 0);
    assert Leads(env, uid, s3, [], path, false);
    Leave(env, uid, s2, path);
    assert s2.(fs := s.fs) == s2;
    HelperMoves(env, uid, s1, 0, s.fs, h1, path);
    Launching(env, uid, s, path, path);
  }

  // ---- Third failure: the rename of the path itself does not succeed ----

  /** The scanner reports the file, cannot rename it, and the open goes ahead. */
  lemma StuckFile(env: Env, uid: nat, s: State, node: Node, path: string)
    requires ProperDatabase(env) && FlaggedNode(env, uid, node)
    requires path !in env.dirs && !env.renames(path)
    requires Ready(s) && s.calls == [] && s.fs == map[path := node]
    ensures CanLead(env, uid, s, path, false)
  {
    var s1 := Launched(env, s, path);
    var h := s1.calls[0].pc.helper;
    assert h.work == [path];
    var h2 := AtRename(env, node.content, h);
    var s2 := WithHelper(s1, 0, h2);
    var h3 := h2.(work := [], stage := Check);
    assert HelperAction(env, uid, s2.fs, h2) == (s2.fs, h3) by { assert h2.work[1..] == []; }
    var s3 := WithHelper(s2, 0, h3);
    var s4 := Left(s3, 0);
    assert LetThrough(env, uid, s4, path, 0);
    assert Leads(env, uid, s4, [], path, false);
    Leave(env, uid, s3, path);
    assert s3.(fs := s2.fs) == s3;
    HelperMoves(env, uid, s2, 0, s2.fs, h3, path);
    ReachRename(env, uid, s1, 0, path);
    Launching(env, uid, s, path, path);
  }

  // ---- Fourth failure: the path is the quarantine name of another file ----

  /** Call 0 has scanned the path, found nothing, and is about to delegate. */
  predicate Overtaken(s: State, path: string) {
    |s.calls| > 0 && s.calls[0].file == path && s.calls[0].pc.Delegate?
  }

  /** The helper of call i stands at q and renames it. */
  lemma OvertakeNow(env: Env, uid: nat, s: State, i: nat, q: string, node: Node, path: string)
    requires ProperDatabase(env) && FlaggedNode(env, uid, node) && env.renames(q) && q + INFECTED == path
    requires Overtaken(s, path) && i != 0 && Helping(s, i) && s.g.table != Hook && s.fs == map[q := node]
    requires s.calls[i].pc.helper.stage == Check && s.calls[i].pc.helper.work != [] && s.calls[i].pc.helper.work[0] == q
    ensures CanLead(env, uid, s, path, false)
  {
    var h2 := AtRename(env, node.content, s.calls[i].pc.helper);
    var s2 := WithHelper(s, i, h2);
    var h3 := h2.(stage := Chmod);
    assert HelperAction(env, uid, s2.fs, h2) == (Renamed(s2.fs, q), h3);
    var s3 := WithHelper(s2, i, h3).(fs := Renamed(s2.fs, q));
    assert s3.fs[path] == node;
    assert LetThrough(env, uid, s3, path, 0);
    assert Leads(env, uid, s3, [], path, false);
    HelperMoves(env, uid, s2, i, s3.fs, h3, path);
    ReachRename(env, uid, s, i, path);
  }

  /** Another call's helper renames q over the path before call 0 delegates. */
  lemma {:induction false} Overtake(env: Env, uid: nat, s: State, i: nat, q: string, node: Node, path: string)
    requires ProperDatabase(env) && FlaggedNode(env, uid, node) && env.renames(q) && q + INFECTED == path
    requires Overtaken(s, path) && i != 0 && Helping(s, i) && s.g.table != Hook && s.fs == map[q := node]
    requires s.calls[i].pc.helper.stage == Check && q in s.calls[i].pc.helper.work
    ensures CanLead(env, uid, s, path, false)
    decreases |s.calls[i].pc.helper.work|
  {
    var h := s.calls[i].pc.helper;
    if h.work[0] == q {
      OvertakeNow(env, uid, s, i, q, node, path);
    } else {
      var h1 := h.(work := h.work[1..]);
      assert HelperAction(env, uid, s.fs, h) == (s.fs, h1);
      var s1 := WithHelper(s, i, h1);
      Overtake(env, uid, s1, i, q, node, path);
      assert s1.(fs := s.fs) == s1;
      HelperMoves(env, uid, s, i, s.fs, h1, path);
    }
  }

  lemma TakenName(env: Env, uid: nat, s: State, f: string, q: string, node: Node, path: string)
    requires ProperDatabase(env) && FlaggedNode(env, uid, node)
    requires path !in env.dirs && SentTo(env, f, q) && q + INFECTED == path
    requires Ready(s) && s.calls == [] && s.fs == map[q := node]
    ensures CanLead(env, uid, s, path, false)
  {
    var s1 := Launched(env, s, path);
    var h := s1.calls[0].pc.helper;
    assert h.work == [path] && path != q;
    var h1 := h.(work := []);
    assert HelperAction(env, uid, s.fs, h) == (s.fs, h1) by { assert h.work[1..] == []; }
    var s2 := WithHelper(s1, 0, h1);
    var s3 := Left(s2, 0);
    assert Ready(s3) && Overtaken(s3, path);
    var s4 := Launched(env, s3, f);
    Overtake(env, uid, s4, 1, q, node, path);
    Launching(env, uid, s3, f, path);
    Leave(env, uid, s2, path);
    assert s2.(fs := s.fs) == s2;
    HelperMoves(env, uid, s1, 0, s.fs, h1, path);
    Launching(env, uid, s, path, path);
  }

  /** A file system from which the hook, once loaded, can be led to let a harmful file through. */
  lemma FailingStart(env: Env, uid: nat, path: string, mayFail: bool, node: Node) returns (fs: FileSystem)
    requires ProperDatabase(env) && path !in env.dirs && HarmfulNode(env, uid, node)
    requires mayFail || !CanCheck(env) || !env.renames(path) || IsQuarantineName(env, path)
    ensures forall s :: Ready(s) && s.calls == [] && s.fs == fs ==> CanLead(env, uid, s, path, mayFail)
  {
    FlaggedIff(env, uid, node);
    if mayFail {
      fs := map[path := node];
      forall s | Ready(s) && s.calls == [] && s.fs == fs ensures CanLead(env, uid, s, path, true) {
        UnstartedHelper(env, uid, s, node, path);
      }
    } else if !CanCheck(env) {
      fs := map[path := node];
      forall s | Ready(s) && s.calls == [] && s.fs == fs ensures CanLead(env, uid, s, path, false) {
        UncheckedFile(env, uid, s, node, path);
      }
    } else if !env.renames(path) {
      fs := map[path := node];
      forall s | Ready(s) && s.calls == [] && s.fs == fs ensures CanLead(env, uid, s, path, false) {
        StuckFile(env, uid, s, node, path);
      }
    } else {
      var f, q :| SentTo(env, f, q) && q + INFECTED == path;
      fs := map[q := node];
      forall s | Ready(s) && s.calls == [] && s.fs == fs ensures CanLead(env, uid, s, path, false) {
        TakenName(env, uid, s, f, q, node, path);
      }
    }
  }

  /** For a path that is no directory, and a database that makes some readable, unlisted file harmful:
      the guarantee holds in every interleaving exactly when every helper starts, the whitelist opens and
      the hash process starts, renaming the path succeeds, and the path is not the quarantine name of a
      file that a helper can be sent to and rename. */
  lemma GuaranteedIff(env: Env, uid: nat, path: string, mayFail: bool, node: Node)
    requires ProperDatabase(env) && path !in env.dirs && HarmfulNode(env, uid, node)
    ensures Guaranteed(env, uid, path, mayFail) <==>
      !mayFail && CanCheck(env) && env.renames(path) && !IsQuarantineName(env, path)
  {
    if !mayFail && CanCheck(env) && env.renames(path) && !IsQuarantineName(env, path) {
      forall start, steps, native, page, i |
        Initial(start, native, page) && DisciplinedRun(env, uid, start, steps) && CanRun(env, uid, start, steps) &&
        Undisturbed(env, uid, start, steps, path) && HelpersStart(steps)
        ensures !LetThrough(env, uid, Run(env, uid, start, steps), path, i)
      {
        NoDetectedFileDelegated(env, uid, start, steps, path, i);
        NoHelperFailed(env, uid, start, steps);
      }
    } else {
      var fs := FailingStart(env, uid, path, mayFail, node);
      var start := Fresh(fs, Kernel(0), Pte(false, 1));
      Loading(env, uid, fs, Kernel(0), Pte(false, 1), path, mayFail);
      var steps :| Leads(env, uid, start, steps, path, mayFail);
      LeadsIsRun(env, uid, start, steps, path, mayFail);
      assert Initial(start, Kernel(0), Pte(false, 1));
    }
  }
}
