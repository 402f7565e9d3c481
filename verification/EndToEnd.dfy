/** The hook, the driver and the engine together: what an intercepted open can still reach. */
module EndToEnd {
  import opened CString
  import opened Stdio
  import opened Scanner
  import opened Driver
  import opened DriverProperties
  import opened OnAccess
  import OnAccessProperties

  // ---- The stepwise helper is on_demand ----

  /** The helper left alone from here to the end of its work. */
  ghost function Finish(env: Env, uid: nat, fs: FileSystem, h: Helper): (r: (FileSystem, Helper))
    requires ValidEnv(env)
    ensures r.1.arg == h.arg && r.1.work == [] && r.1.opens == h.opens
    decreases |h.work|, match h.stage { case Check => 3 case Open => 2 case Rename => 1 case Chmod => 0 }
  {
    if h.work == [] then (fs, h)
    else
      var (fs', h') := HelperAction(env, uid, fs, h);
      Finish(env, uid, fs', h')
  }

  /** The actions of one visit, one after the other, amount to the visit. */
  lemma FinishOneFile(env: Env, uid: nat, fs: FileSystem, h: Helper, re: int)
    requires ValidEnv(env) && h.work != [] && h.stage == Check
    ensures
      var w := Visit(env, uid, Walk(fs, h.name, re), h.work[0]);
      Finish(env, uid, fs, h) == Finish(env, uid, w.fs, h.(work := h.work[1..], name := w.name))
  {
    var x, next := h.work[0], h.(work := h.work[1..]);
    if WhitelistCode(env, uid, fs, x) == 0 {
      var h1 := h.(stage := Open);
      assert HelperAction(env, uid, fs, h) == (fs, h1);
      if fs[x].loadable {
        var name := NameAfterScan(fs[x].content, Lines(env.database), h.name);
        if name[0] == NUL {
          assert HelperAction(env, uid, fs, h1) == (fs, next.(name := name));
        } else {
          FinishQuarantine(env, uid, fs, h1.(stage := Rename, name := name));
          assert HelperAction(env, uid, fs, h1) == (fs, h1.(stage := Rename, name := name));
        }
      } else {
        assert HelperAction(env, uid, fs, h1) == (fs, next);
      }
    } else {
      assert HelperAction(env, uid, fs, h) == (fs, next);
    }
  }

  lemma FinishQuarantine(env: Env, uid: nat, fs: FileSystem, h: Helper)
    requires ValidEnv(env) && h.work != [] && h.stage == Rename && h.work[0] in fs
    ensures Finish(env, uid, fs, h) ==
      Finish(env, uid, Quarantine(env, uid, fs, h.work[0]), h.(work := h.work[1..], stage := Check))
  {
    var x := h.work[0];
    if env.renames(x) {
      assert HelperAction(env, uid, fs, h) == (Renamed(fs, x), h.(stage := Chmod));
    }
  }

  /** A helper that nothing interleaves with leaves the file system exactly as on_demand does. */
  lemma {:induction false} HelperIsOnDemand(env: Env, uid: nat, fs: FileSystem, h: Helper, re: int)
    requires ValidEnv(env) && h.stage == Check
    ensures Finish(env, uid, fs, h).0 == VisitAll(env, uid, Walk(fs, h.name, re), h.work).fs
    ensures Finish(env, uid, fs, h).1.name == VisitAll(env, uid, Walk(fs, h.name, re), h.work).name
    decreases |h.work|
  {
    if h.work != [] {
      var w := Visit(env, uid, Walk(fs, h.name, re), h.work[0]);
      FinishOneFile(env, uid, fs, h, re);
      HelperIsOnDemand(env, uid, w.fs, h.(work := h.work[1..], name := w.name), w.re);
    }
  }

  // ---- No interleaving lets a detected file through ----

  /** The scanner would report what the path is bound to. */
  ghost predicate Reportable(env: Env, uid: nat, fs: FileSystem, path: string)
    requires ValidEnv(env)
  {
    Picks(fs, Flag(env, uid), path)
  }

  /** The path keeps its file or loses it; it is not bound to anything else. */
  predicate NotRebound(fs: FileSystem, fs': FileSystem, path: string) {
    path in fs' ==> path in fs && fs'[path] == fs[path]
  }

  /** No actor outside the hook and its helpers rebinds the path. */
  ghost predicate Undisturbed(env: Env, uid: nat, s: State, steps: seq<Step>, path: string)
    requires ValidEnv(env) && CanRun(env, uid, s, steps)
    decreases |steps|
  {
    steps == [] ||
    ((steps[0].World? ==> NotRebound(s.fs, steps[0].fs, path)) &&
     Undisturbed(env, uid, Apply(env, uid, s, steps[0]), steps[1..], path))
  }

  /** Some helper can be sent to a file whose quarantine name is this path. */
  ghost predicate IsQuarantineName(env: Env, path: string)
    requires "" !in env.dirs
  {
    exists f, q :: SentTo(env, f, q) && q + INFECTED == path
  }

  /** A helper started for f visits q, and q can be renamed. */
  predicate SentTo(env: Env, f: string, q: string)
    requires "" !in env.dirs
  {
    q in Targets(env, f) && env.renames(q)
  }

  ghost predicate Quarantinable(env: Env, path: string) {
    "" !in env.dirs && path !in env.dirs && env.renames(path) && !IsQuarantineName(env, path)
  }

  /** A path that does not end in .infected is no quarantine name. */
  lemma PlainNameIsNoQuarantineName(env: Env, path: string)
    requires "" !in env.dirs
    requires |path| < |INFECTED| || path[|path| - |INFECTED|..] != INFECTED
    ensures !IsQuarantineName(env, path)
  {
    forall q: string ensures q + INFECTED != path {
      assert (q + INFECTED)[|q|..] == INFECTED;
    }
  }

  /** What is left of a helper's work belongs to its argument. */
  predicate WorkOk(env: Env, c: Call)
    requires "" !in env.dirs
  {
    c.pc.Waiting? ==>
      var h := c.pc.helper;
      && (forall x :: x in h.work ==> x in Targets(env, c.file))
      && (h.work != [] && h.stage == Chmod ==> env.renames(h.work[0]))
  }

  /** What a helper started for the path itself knows about it. */
  ghost predicate HelperClaim(env: Env, uid: nat, fs: FileSystem, path: string, h: Helper)
    requires ValidEnv(env)
  {
    if h.work == [] then !Reportable(env, uid, fs, path)
    else h.work == [path] && (h.stage == Chmod ==> path !in fs)
  }

  ghost predicate CallClaim(env: Env, uid: nat, fs: FileSystem, path: string, c: Call)
    requires ValidEnv(env)
  {
    WorkOk(env, c) &&
    (c.file == path ==>
      match c.pc
      case Waiting(h) => HelperClaim(env, uid, fs, path, h)
      case SwapIn => c.failed || !Reportable(env, uid, fs, path)
      case Unlock => c.failed || !Reportable(env, uid, fs, path)
      case Delegate => c.failed || !Reportable(env, uid, fs, path)
      case _ => true)
  }

  ghost predicate Claims(env: Env, uid: nat, s: State, path: string)
    requires ValidEnv(env)
  {
    forall i :: 0 <= i < |s.calls| ==> CallClaim(env, uid, s.fs, path, s.calls[i])
  }

  /** No helper action, whatever file it is at, rebinds the path. */
  lemma ActionNotRebound(env: Env, uid: nat, fs: FileSystem, c: Call, path: string)
    requires ValidEnv(env) && Quarantinable(env, path) && WorkOk(env, c)
    requires c.pc.Waiting? && c.pc.helper.work != []
    ensures NotRebound(fs, HelperAction(env, uid, fs, c.pc.helper).0, path)
    ensures WorkOk(env, c.(pc := Waiting(HelperAction(env, uid, fs, c.pc.helper).1)))
  {
    var x := c.pc.helper.work[0];
    assert x in c.pc.helper.work;
    assert env.renames(x) ==> SentTo(env, c.file, x);
  }

  lemma ClaimSurvives(env: Env, uid: nat, fs: FileSystem, fs': FileSystem, path: string, c: Call)
    requires ValidEnv(env) && NotRebound(fs, fs', path) && CallClaim(env, uid, fs, path, c)
    ensures CallClaim(env, uid, fs', path, c)
  {
  }

  /** The scan stage: a file that is let off is not one the scanner reports. */
  lemma OpenKeepsClaim(env: Env, uid: nat, fs: FileSystem, h: Helper, path: string)
    requires ProperDatabase(env) && h.work == [path] && h.stage == Open
    ensures
      var (fs', h') := HelperAction(env, uid, fs, h);
      fs' == fs && HelperClaim(env, uid, fs, path, h')
  {
    if path in fs && FlaggedNode(env, uid, fs[path]) {
      ScannerProperties.VerdictCorrect(fs[path].content, Lines(env.database), h.name);
      assert HelperAction(env, uid, fs, h).1.work == [path];
    } else {
      assert !Reportable(env, uid, fs, path);
    }
  }

  /** The helper's own action on the path keeps its claim. */
  lemma ActionKeepsClaim(env: Env, uid: nat, fs: FileSystem, h: Helper, path: string)
    requires ProperDatabase(env) && Quarantinable(env, path)
    requires h.work != [] && HelperClaim(env, uid, fs, path, h)
    ensures
      var (fs', h') := HelperAction(env, uid, fs, h);
      HelperClaim(env, uid, fs', path, h')
  {
    assert h.work == [path] && h.work[1..] == [];
    match h.stage
    case Open => OpenKeepsClaim(env, uid, fs, h, path);
    case Chmod =>
      assert SentTo(env, path, path);
      assert path !in HelperAction(env, uid, fs, h).0;
    case Rename =>
      assert SentTo(env, path, path);
      assert path !in HelperAction(env, uid, fs, h).0;
    case Check =>
      assert WhitelistCode(env, uid, fs, path) != 0 ==> !Reportable(env, uid, fs, path);
  }

  lemma HelperStepKeepsClaims(env: Env, uid: nat, s: State, i: nat, path: string)
    requires ProperDatabase(env) && Quarantinable(env, path)
    requires Enabled(s, HelperStep(i)) && Claims(env, uid, s, path)
    ensures Claims(env, uid, Apply(env, uid, s, HelperStep(i)), path)
  {
    var h := s.calls[i].pc.helper;
    var (fs', h') := HelperAction(env, uid, s.fs, h);
    var calls' := s.calls[i := s.calls[i].(pc := Waiting(h'))];
    assert CallClaim(env, uid, s.fs, path, s.calls[i]);
    ActionNotRebound(env, uid, s.fs, s.calls[i], path);
    if s.calls[i].file == path {
      ActionKeepsClaim(env, uid, s.fs, h, path);
    }
    forall j | 0 <= j < |calls'| ensures CallClaim(env, uid, fs', path, calls'[j]) {
      if j != i { ClaimSurvives(env, uid, s.fs, fs', path, s.calls[j]); }
    }
  }

  /** Starting the helper. */
  lemma LaunchKeepsClaim(env: Env, uid: nat, s: State, step: Step, path: string)
    requires ProperDatabase(env) && Quarantinable(env, path) && step.LaunchHelper?
    requires Enabled(s, step) && CallClaim(env, uid, s.fs, path, s.calls[step.i])
    ensures CallClaim(env, uid, s.fs, path, Apply(env, uid, s, step).calls[step.i])
  {
  }

  /** A statement of call i. */
  lemma StatementKeepsClaim(env: Env, uid: nat, s: State, i: nat, path: string)
    requires ProperDatabase(env) && Quarantinable(env, path)
    requires Enabled(s, Advance(i)) && CallClaim(env, uid, s.fs, path, s.calls[i])
    ensures CallClaim(env, uid, s.fs, path, Statement(s, i).calls[i])
  {
  }

  /** Any step of call i or its helper other than the helper's own actions. */
  lemma CallStepKeepsClaim(env: Env, uid: nat, s: State, step: Step, path: string)
    requires ProperDatabase(env) && Quarantinable(env, path)
    requires OnAccessProperties.Internal(step) && !step.HelperStep?
    requires Enabled(s, step) && CallClaim(env, uid, s.fs, path, s.calls[step.i])
    ensures CallClaim(env, uid, s.fs, path, Apply(env, uid, s, step).calls[step.i])
  {
    match step
    case LaunchHelper(_, _, _) => LaunchKeepsClaim(env, uid, s, step, path);
    case Advance(i) => StatementKeepsClaim(env, uid, s, i, path);
    case _ =>
  }

  lemma CallStepFrame(env: Env, uid: nat, s: State, step: Step)
    requires ValidEnv(env) && OnAccessProperties.Internal(step) && Enabled(s, step)
    ensures
      var s' := Apply(env, uid, s, step);
      && (!step.HelperStep? ==> s'.fs == s.fs) && |s'.calls| == |s.calls|
      && (forall j :: 0 <= j < |s.calls| && j != step.i ==> s'.calls[j] == s.calls[j])
  {
  }

  /** No step of any actor makes a scanned path reportable again. */
  lemma {:induction false} StepKeepsClaims(env: Env, uid: nat, s: State, step: Step, path: string)
    requires ProperDatabase(env) && Quarantinable(env, path)
    requires Enabled(s, step) && Claims(env, uid, s, path)
    requires step.World? ==> NotRebound(s.fs, step.fs, path)
    ensures Claims(env, uid, Apply(env, uid, s, step), path)
  {
    var s' := Apply(env, uid, s, step);
    if step.HelperStep? {
      HelperStepKeepsClaims(env, uid, s, step.i, path);
    } else if OnAccessProperties.Internal(step) {
      CallStepKeepsClaim(env, uid, s, step, path);
      CallStepFrame(env, uid, s, step);
    } else if step.World? {
      forall i | 0 <= i < |s.calls| ensures CallClaim(env, uid, s'.fs, path, s.calls[i]) {
        ClaimSurvives(env, uid, s.fs, s'.fs, path, s.calls[i]);
      }
    }
  }

  lemma {:induction false} RunKeepsClaims(env: Env, uid: nat, s: State, steps: seq<Step>, path: string)
    requires ProperDatabase(env) && Quarantinable(env, path) && Claims(env, uid, s, path)
    requires CanRun(env, uid, s, steps) && Undisturbed(env, uid, s, steps, path)
    ensures Claims(env, uid, Run(env, uid, s, steps), path)
    decreases |steps|
  {
    if steps != [] {
      StepKeepsClaims(env, uid, s, steps[0], path);
      RunKeepsClaims(env, uid, Apply(env, uid, s, steps[0]), steps[1..], path);
    }
  }

  /** The path is bound to a harmful file. */
  ghost predicate BoundToHarm(env: Env, uid: nat, fs: FileSystem, path: string)
    requires ValidEnv(env)
  {
    Picks(fs, Harm(env, uid), path)
  }

  /** Call i went through the hook, is about to delegate, and its path is bound to a harmful file. */
  ghost predicate LetThrough(env: Env, uid: nat, s: State, path: string, i: nat)
    requires ValidEnv(env)
  {
    i < |s.calls| && s.calls[i].file == path && s.calls[i].pc.Delegate? && BoundToHarm(env, uid, s.fs, path)
  }

  /** In every interleaving of any number of calls, helpers, loads and unloads, a call on the path is
      let through while the path is bound to a harmful file only if its own helper could not be started. */
  lemma NoDetectedFileDelegated(env: Env, uid: nat, start: State, steps: seq<Step>, path: string, i: nat)
    requires ProperDatabase(env) && CanCheck(env) && Quarantinable(env, path) && start.calls == []
    requires CanRun(env, uid, start, steps) && Undisturbed(env, uid, start, steps, path)
    ensures
      var s := Run(env, uid, start, steps);
      LetThrough(env, uid, s, path, i) ==> s.calls[i].failed
  {
    RunKeepsClaims(env, uid, start, steps, path);
    var s := Run(env, uid, start, steps);
    if path in s.fs { FlaggedIff(env, uid, s.fs[path]); }
    if i < |s.calls| {
      assert CallClaim(env, uid, s.fs, path, s.calls[i]);
    }
  }

  predicate HelpersStart(steps: seq<Step>) {
    forall k :: 0 <= k < |steps| ==> !steps[k].LaunchFails?
  }

  predicate NoneFailed(s: State) {
    forall i :: 0 <= i < |s.calls| ==> !s.calls[i].failed
  }

  lemma StepFailsNone(env: Env, uid: nat, s: State, step: Step)
    requires ValidEnv(env) && Enabled(s, step) && !step.LaunchFails? && NoneFailed(s)
    ensures NoneFailed(Apply(env, uid, s, step))
  {
    var s' := Apply(env, uid, s, step);
    if OnAccessProperties.Internal(step) {
      CallStepFrame(env, uid, s, step);
      assert !s.calls[step.i].failed && !s'.calls[step.i].failed;
    }
  }

  lemma {:induction false} NoHelperFailed(env: Env, uid: nat, s: State, steps: seq<Step>)
    requires ValidEnv(env) && CanRun(env, uid, s, steps) && HelpersStart(steps) && NoneFailed(s)
    ensures NoneFailed(Run(env, uid, s, steps))
    decreases |steps|
  {
    if steps != [] {
      StepFailsNone(env, uid, s, steps[0]);
      NoHelperFailed(env, uid, Apply(env, uid, s, steps[0]), steps[1..]);
    }
  }
}
