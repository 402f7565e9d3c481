/** One intercepted open that nothing interleaves with: the transition system does what the method
    KernelModule.NewOpen does. */
module Uncontended {
  import opened Stdio
  import opened Scanner
  import opened Driver
  import opened OnAccess
  import opened OnAccessInvariant
  import opened OnAccessProperties
  import opened EndToEnd

  /** Loaded and intercepting; some other call may hold the mutex. */
  predicate Intercepting(s: State) {
    s.phase == Loaded && s.g.table == Hook && s.g.oldOpen.Kernel? && s.g.pte.rw
  }

  /** Only call i and its helper take steps. */
  predicate Solo(steps: seq<Step>, i: nat) {
    forall k :: 0 <= k < |steps| ==> Internal(steps[k]) && steps[k].i == i
  }

  /** The globals while the only moving call stands at pc. */
  function GlobalsAt(g: Globals, pc: Pc): Globals {
    match pc
    case SwapOut => g.(locked := true)
    case Launch => g.(locked := true, table := g.oldOpen)
    case Waiting(_) => g.(locked := true, table := g.oldOpen)
    case SwapIn => g.(locked := true, table := g.oldOpen)
    case Unlock => g.(locked := true)
    case _ => g
  }

  /** The file system once a scan, with some content in its name buffer, has run on the path. */
  ghost predicate ScannedOnce(env: Env, uid: nat, fs: FileSystem, path: string, fs': FileSystem)
    requires ValidEnv(env)
  {
    exists name: NameBuffer :: fs' == Scanned(env, uid, fs, name, path)
  }

  /** What the call did to the file system, its helper being over. */
  ghost predicate Effect(env: Env, uid: nat, fs: FileSystem, c: Call, fs': FileSystem)
    requires ValidEnv(env)
  {
    RanOnce(c) && if c.failed then fs' == fs else ScannedOnce(env, uid, fs, c.file, fs')
  }

  /** What the call's own steps have done since state s. */
  ghost predicate Progress(env: Env, uid: nat, s: State, c: Call, fs: FileSystem)
    requires ValidEnv(env)
  {
    match c.pc
    case TryLock => fs == s.fs && c.runs == [] && !c.failed && c.writes == 0
    case SwapOut => fs == s.fs && c.runs == [] && !c.failed && c.writes == 0 && !s.g.locked
    case Launch => fs == s.fs && c.runs == [] && !c.failed && c.writes == 1 && !s.g.locked
    case Waiting(h) =>
      && c.runs == [] && !c.failed && c.writes == 1 && !s.g.locked && h.arg == c.file
      && ScannedOnce(env, uid, s.fs, c.file, Finish(env, uid, fs, h.(opens := 0)).0)
    case SwapIn => Effect(env, uid, s.fs, c, fs) && c.writes == 1 && !s.g.locked
    case Unlock => Effect(env, uid, s.fs, c, fs) && c.writes == 2 && !s.g.locked
    case Delegate => Effect(env, uid, s.fs, c, fs) && c.writes == 2 && !s.g.locked
    case Done(Busy) => fs == s.fs && c.runs == [] && !c.failed && c.writes == 0 && s.g.locked
    case Done(Delegated(handler, file, flags, mode)) =>
      && handler == s.g.oldOpen && file == c.file && flags == c.flags && mode == c.mode
      && Effect(env, uid, s.fs, c, fs) && c.writes == 2 && !s.g.locked
  }

  /** s' is s with one more call c, moved by its own steps only. */
  ghost predicate Alone(env: Env, uid: nat, s: State, c: Call, s': State)
    requires ValidEnv(env)
  {
    && s' == s.(calls := s.calls + [c], g := GlobalsAt(s.g, c.pc), fs := s'.fs)
    && c.hooked && Progress(env, uid, s, c, s'.fs)
  }

  lemma LastCall(s: State, s': State, c: Call, c': Call)
    requires s'.calls == s.calls + [c]
    ensures s'.calls[|s.calls|] == c && s'.calls[|s.calls| := c'] == s.calls + [c']
  {
  }

  /** What a statement makes of the call, given the globals it finds. */
  lemma AdvanceProgress(env: Env, uid: nat, s: State, s': State, i: nat)
    requires ValidEnv(env) && Enabled(s', Advance(i)) && s'.g == GlobalsAt(s.g, s'.calls[i].pc)
    requires Progress(env, uid, s, s'.calls[i], s'.fs)
    ensures Progress(env, uid, s, Statement(s', i).calls[i], s'.fs)
  {
    var c, c' := s'.calls[i], Statement(s', i).calls[i];
    assert c.file == c'.file && c.runs == c'.runs && c.failed == c'.failed;
    if c.pc.SwapIn? || c.pc.Unlock? || c.pc.Delegate? {
      assert Effect(env, uid, s.fs, c', s'.fs);
    }
  }

  lemma StoreGlobals(s: State, s': State, i: nat)
    requires Intercepting(s) && At(s', i, {SwapOut, SwapIn}) && s'.g == GlobalsAt(s.g, s'.calls[i].pc)
    ensures Statement(s', i).g == GlobalsAt(s.g, Statement(s', i).calls[i].pc)
  {
  }

  lemma AdvanceGlobals(s: State, s': State, i: nat)
    requires Intercepting(s) && Enabled(s', Advance(i)) && s'.g == GlobalsAt(s.g, s'.calls[i].pc)
    requires s'.calls[i].pc.TryLock? || !s.g.locked
    ensures Statement(s', i).g == GlobalsAt(s.g, Statement(s', i).calls[i].pc)
  {
    if s'.calls[i].pc in {SwapOut, SwapIn} { StoreGlobals(s, s', i); }
  }

  lemma AdvanceAlone(env: Env, uid: nat, s: State, c: Call, s': State)
    requires ValidEnv(env) && Intercepting(s) && Alone(env, uid, s, c, s') && Enabled(s', Advance(|s.calls|))
    ensures
      var s'' := Statement(s', |s.calls|);
      Alone(env, uid, s, s''.calls[|s.calls|], s'')
  {
    LastCall(s, s', c, Statement(s', |s.calls|).calls[|s.calls|]);
    AdvanceProgress(env, uid, s, s', |s.calls|);
    AdvanceGlobals(s, s', |s.calls|);
  }

  lemma ActionIgnoresOpens(env: Env, uid: nat, fs: FileSystem, h: Helper, opens: nat)
    requires ValidEnv(env) && h.work != []
    ensures HelperAction(env, uid, fs, h.(opens := opens)).0 == HelperAction(env, uid, fs, h).0
    ensures HelperAction(env, uid, fs, h.(opens := opens)).1 == HelperAction(env, uid, fs, h).1.(opens := opens)
  {
  }

  lemma LaunchAlone(env: Env, uid: nat, s: State, c: Call, s': State, step: Step)
    requires ValidEnv(env) && Intercepting(s) && Alone(env, uid, s, c, s') && Enabled(s', step)
    requires step.LaunchHelper? && step.i == |s.calls|
    ensures
      var s'' := Apply(env, uid, s', step);
      Alone(env, uid, s, s''.calls[|s.calls|], s'')
  {
    LastCall(s, s', c, Apply(env, uid, s', step).calls[|s.calls|]);
    var h := Helper(c.file, Targets(env, c.file), Check, step.name, 0);
    HelperIsOnDemand(env, uid, s.fs, h, SUCCESS);
    assert Finish(env, uid, s.fs, h).0 == Scanned(env, uid, s.fs, step.name, c.file);
  }

  lemma HelperAlone(env: Env, uid: nat, s: State, c: Call, s': State, step: Step)
    requires ValidEnv(env) && Intercepting(s) && Alone(env, uid, s, c, s') && Enabled(s', step)
    requires step in {LaunchFails(|s.calls|), HelperOpens(|s.calls|), HelperStep(|s.calls|), HelperExit(|s.calls|)}
    ensures
      var s'' := Apply(env, uid, s', step);
      Alone(env, uid, s, s''.calls[|s.calls|], s'')
  {
    LastCall(s, s', c, Apply(env, uid, s', step).calls[|s.calls|]);
    if step.HelperStep? { ActionIgnoresOpens(env, uid, s'.fs, c.pc.helper, 0); }
  }

  // ---- The order of its effects ----

  /** What changed between two states, seen from call i. */
  function Change(s: State, s': State, i: nat): seq<Event>
    requires i < |s.calls| && i < |s'.calls|
  {
    (if !s.g.locked && s'.g.locked then [Tried(true)] else []) +
    (if s'.g.table != s.g.table then [Stored(s'.g.table)] else []) +
    (if |s'.calls[i].runs| == |s.calls[i].runs| + 1 then [Ran(s'.calls[i].runs[|s.calls[i].runs|])] else []) +
    (if s.g.locked && !s'.g.locked then [Released] else []) +
    (if s.calls[i].pc == TryLock && s'.calls[i].pc == Done(Busy) then [Tried(false)] else [])
  }

  /** The changes over a run of call i's own steps. */
  ghost function Changes(env: Env, uid: nat, s: State, steps: seq<Step>, i: nat): seq<Event>
    requires ValidEnv(env) && CanRun(env, uid, s, steps) && Solo(steps, i) && i < |s.calls|
    decreases |steps|
  {
    if steps == [] then []
    else
      InternalStepOnCall(env, uid, s, steps[0]);
      var s' := Apply(env, uid, s, steps[0]);
      Change(s, s', i) + Changes(env, uid, s', steps[1..], i)
  }

  /** The events of a call up to where it stands. */
  function SoFar(s: State, c: Call): seq<Event> {
    var begun, ran := [Tried(true), Stored(s.g.oldOpen)], if c.failed then [] else [Ran(c.file)];
    match c.pc
    case TryLock => []
    case SwapOut => [Tried(true)]
    case Launch => begun
    case Waiting(_) => begun
    case SwapIn => begun + ran
    case Unlock => begun + ran + [Stored(Hook)]
    case Done(Busy) => [Tried(false)]
    case _ => begun + ran + [Stored(Hook), Released]
  }

  lemma StoreChange(s: State, s': State, i: nat)
    requires Intercepting(s) && At(s', i, {SwapOut, SwapIn}) && s'.g == GlobalsAt(s.g, s'.calls[i].pc)
    ensures i < |Statement(s', i).calls|
    ensures SoFar(s, Statement(s', i).calls[i]) == SoFar(s, s'.calls[i]) + Change(s', Statement(s', i), i)
  {
  }

  lemma LockChange(s: State, s': State, i: nat)
    requires Intercepting(s) && At(s', i, {TryLock, Unlock}) && s'.g == GlobalsAt(s.g, s'.calls[i].pc)
    ensures i < |Statement(s', i).calls|
    ensures SoFar(s, Statement(s', i).calls[i]) == SoFar(s, s'.calls[i]) + Change(s', Statement(s', i), i)
  {
  }

  lemma StatementChange(s: State, s': State, i: nat)
    requires Intercepting(s) && Enabled(s', Advance(i)) && s'.g == GlobalsAt(s.g, s'.calls[i].pc)
    ensures i < |Statement(s', i).calls|
    ensures SoFar(s, Statement(s', i).calls[i]) == SoFar(s, s'.calls[i]) + Change(s', Statement(s', i), i)
  {
    if s'.calls[i].pc in {SwapOut, SwapIn} {
      StoreChange(s, s', i);
    } else if s'.calls[i].pc in {TryLock, Unlock} {
      LockChange(s, s', i);
    }
  }

  lemma HelperChange(env: Env, uid: nat, s: State, c: Call, s': State, step: Step)
    requires ValidEnv(env) && Intercepting(s) && Alone(env, uid, s, c, s') && Enabled(s', step)
    requires Internal(step) && step.i == |s.calls| && !step.Advance?
    ensures
      var i, s'' := |s.calls|, Apply(env, uid, s', step);
      i < |s''.calls| && SoFar(s, s''.calls[i]) == SoFar(s, c) + Change(s', s'', i)
  {
    LastCall(s, s', c, Apply(env, uid, s', step).calls[|s.calls|]);
  }

  predicate SameArguments(c: Call, c': Call) {
    c.file == c'.file && c.flags == c'.flags && c.mode == c'.mode
  }

  lemma StatementKeepsArguments(s: State, i: nat)
    requires Enabled(s, Advance(i))
    ensures SameArguments(s.calls[i], Statement(s, i).calls[i])
  {
  }

  lemma StepKeepsArguments(env: Env, uid: nat, s: State, step: Step)
    requires ValidEnv(env) && Enabled(s, step) && Internal(step)
    ensures SameArguments(s.calls[step.i], Apply(env, uid, s, step).calls[step.i])
  {
    if step.Advance? { StatementKeepsArguments(s, step.i); }
  }

  lemma StepAlone(env: Env, uid: nat, s: State, c: Call, s': State, step: Step)
    requires ValidEnv(env) && Intercepting(s) && Alone(env, uid, s, c, s') && Enabled(s', step)
    requires Internal(step) && step.i == |s.calls|
    ensures
      var s'' := Apply(env, uid, s', step);
      |s''.calls| == |s.calls| + 1 && Alone(env, uid, s, s''.calls[|s.calls|], s'')
  {
    InternalStepOnCall(env, uid, s', step);
    if step.Advance? {
      AdvanceAlone(env, uid, s, c, s');
    } else if step.LaunchHelper? {
      LaunchAlone(env, uid, s, c, s', step);
    } else {
      HelperAlone(env, uid, s, c, s', step);
    }
  }

  /** The events of a call are the changes its steps make, in their order. */
  lemma {:induction false} RunChanges(env: Env, uid: nat, s: State, c: Call, s': State, steps: seq<Step>)
    requires ValidEnv(env) && Intercepting(s) && Alone(env, uid, s, c, s')
    requires CanRun(env, uid, s', steps) && Solo(steps, |s.calls|)
    ensures |s.calls| < |Run(env, uid, s', steps).calls|
    ensures SoFar(s, Run(env, uid, s', steps).calls[|s.calls|]) ==
      SoFar(s, c) + Changes(env, uid, s', steps, |s.calls|)
    decreases |steps|
  {
    var i := |s.calls|;
    LastCall(s, s', c, c);
    if steps != [] {
      var step := steps[0];
      assert Internal(step) && step.i == i;
      StepAlone(env, uid, s, c, s', step);
      var s'' := Apply(env, uid, s', step);
      if step.Advance? {
        StatementChange(s, s', i);
      } else {
        HelperChange(env, uid, s, c, s', step);
      }
      RunChanges(env, uid, s, s''.calls[i], s'', steps[1..]);
      Associative(SoFar(s, c), Change(s', s'', i), Changes(env, uid, s'', steps[1..], i));
    }
  }

  lemma {:induction false} RunAlone(env: Env, uid: nat, s: State, c: Call, s': State, steps: seq<Step>)
    requires ValidEnv(env) && Intercepting(s) && Alone(env, uid, s, c, s')
    requires CanRun(env, uid, s', steps) && Solo(steps, |s.calls|)
    ensures
      var end := Run(env, uid, s', steps);
      && |end.calls| == |s.calls| + 1 && Alone(env, uid, s, end.calls[|s.calls|], end)
      && SameArguments(c, end.calls[|s.calls|])
    decreases |steps|
  {
    if steps != [] {
      var step := steps[0];
      assert Internal(step) && step.i == |s.calls|;
      StepKeepsArguments(env, uid, s', step);
      StepAlone(env, uid, s, c, s', step);
      var s'' := Apply(env, uid, s', step);
      RunAlone(env, uid, s, s''.calls[|s.calls|], s'', steps[1..]);
    }
  }

  /** The call as it ends: refused, or delegated after its helper ran once or could not start. */
  function Finished(s: State, file: string, flags: int, mode: int, started: bool): Call {
    if s.g.locked then Call(file, flags, mode, true, Done(Busy), [], false, 0)
    else
      var runs := if started then [file] else [];
      Call(file, flags, mode, true, Done(Delegated(s.g.oldOpen, file, flags, mode)), runs, !started, 2)
  }

  /** Every run of one call's own steps that finishes it ends as KernelModule.NewOpen does: with the
      globals as before; if the mutex was held, refused with the file system as before; otherwise
      delegated, the file system as before or, if the helper started, as one scan leaves it. */
  lemma UncontendedCall(env: Env, uid: nat, s: State, file: string, flags: int, mode: int, steps: seq<Step>)
    requires ValidEnv(env) && Intercepting(s) && Solo(steps, |s.calls|)
    requires CanRun(env, uid, Apply(env, uid, s, Enter(file, flags, mode)), steps)
    requires
      var end := Run(env, uid, Apply(env, uid, s, Enter(file, flags, mode)), steps);
      |s.calls| < |end.calls| && end.calls[|s.calls|].pc.Done?
    ensures
      var end := Run(env, uid, Apply(env, uid, s, Enter(file, flags, mode)), steps);
      exists started ::
        && end == s.(calls := s.calls + [Finished(s, file, flags, mode, started)], fs := end.fs)
        && if s.g.locked || !started then end.fs == s.fs else ScannedOnce(env, uid, s.fs, file, end.fs)
  {
    var c := Dispatch(s, file, flags, mode);
    var s' := Apply(env, uid, s, Enter(file, flags, mode));
    assert s'.calls == s.calls + [c] && Alone(env, uid, s, c, s');
    RunAlone(env, uid, s, c, s', steps);
    var end := Run(env, uid, s', steps);
    var d := end.calls[|s.calls|];
    assert d == Finished(s, file, flags, mode, !d.failed);
  }

  /** And in every such run the mutex, the table and the scan change in the order of the method's log. */
  lemma UncontendedOrder(env: Env, uid: nat, s: State, file: string, flags: int, mode: int, steps: seq<Step>)
    requires ValidEnv(env) && Intercepting(s) && Solo(steps, |s.calls|)
    requires CanRun(env, uid, Apply(env, uid, s, Enter(file, flags, mode)), steps)
    requires
      var end := Run(env, uid, Apply(env, uid, s, Enter(file, flags, mode)), steps);
      |s.calls| < |end.calls| && end.calls[|s.calls|].pc.Done?
    ensures
      var s' := Apply(env, uid, s, Enter(file, flags, mode));
      var started := !Run(env, uid, s', steps).calls[|s.calls|].failed;
      Changes(env, uid, s', steps, |s.calls|) == CallEvents(s.g.locked, s.g.oldOpen, file, started)
  {
    var c := Dispatch(s, file, flags, mode);
    var s' := Apply(env, uid, s, Enter(file, flags, mode));
    assert s'.calls == s.calls + [c] && Alone(env, uid, s, c, s');
    RunAlone(env, uid, s, c, s', steps);
    RunChanges(env, uid, s, c, s', steps);
    FinishedEvents(s, Run(env, uid, s', steps).calls[|s.calls|], env, uid, Run(env, uid, s', steps).fs);
  }

  lemma FinishedEvents(s: State, c: Call, env: Env, uid: nat, fs: FileSystem)
    requires ValidEnv(env) && c.pc.Done? && Progress(env, uid, s, c, fs)
    ensures SoFar(s, c) == CallEvents(s.g.locked, s.g.oldOpen, c.file, !c.failed)
  {
  }

  /** And there is such a run, from every state of the call. */
  lemma {:induction false} CallFinishes(env: Env, uid: nat, s: State, i: nat) returns (steps: seq<Step>)
    requires ValidEnv(env) && i < |s.calls|
    ensures CanRun(env, uid, s, steps) && Solo(steps, i)
    ensures i < |Run(env, uid, s, steps).calls| && Run(env, uid, s, steps).calls[i].pc.Done?
    decreases Rank(s.calls[i].pc), Remaining(s.calls[i].pc)
  {
    if s.calls[i].pc.Done? { return []; }
    var step := NextStep(s, i);
    NeverBlocked(s, i);
    InternalStepOnCall(env, uid, s, step);
    var rest := CallFinishes(env, uid, Apply(env, uid, s, step), i);
    steps := [step] + rest;
    assert steps[1..] == rest;
  }
}
