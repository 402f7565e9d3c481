/** Consequences of the invariant for whole runs; progress; what unloading needs. */
module OnAccessProperties {
  import opened CString
  import opened Scanner
  import opened Driver
  import opened OnAccess
  import opened OnAccessInvariant

  /** Over every disciplined run from before the first load. While loaded, the table entry is the
      original handler exactly when some call is between its two stores; that call is alone there,
      the mutex is held, and at most one helper runs. No helper open enters new_open. */
  lemma MutualExclusion(env: Env, uid: nat, start: State, steps: seq<Step>, native: Handler, page: Pte)
    requires ValidEnv(env) && Initial(start, native, page) && DisciplinedRun(env, uid, start, steps)
    ensures CanRun(env, uid, start, steps)
    ensures
      var s := Run(env, uid, start, steps);
      && (s.phase == Loaded ==> (s.g.table == native <==> exists i :: Swapped(s, i)))
      && (forall i, j :: Critical(s, i) && Critical(s, j) ==> i == j)
      && (forall i, j :: Helping(s, i) && Helping(s, j) ==> i == j)
      && (forall i :: Helping(s, i) ==> s.g.locked && s.g.table == native)
      && !s.nested
  {
    RunKeeps(env, uid, start, steps, native, page);
    var s := Run(env, uid, start, steps);
    forall i | Helping(s, i) ensures Critical(s, i) && Swapped(s, i) {
    }
  }

  /** The contract of every finished call that went through new_open: refused without touching
      the table, or handed to the original handler with its own arguments after exactly one helper
      run on its file (none if the helper could not be started) and two stores. */
  lemma HookedCallContract(env: Env, uid: nat, start: State, steps: seq<Step>, native: Handler, page: Pte, i: nat)
    requires ValidEnv(env) && Initial(start, native, page) && DisciplinedRun(env, uid, start, steps)
    ensures CanRun(env, uid, start, steps)
    ensures
      var s := Run(env, uid, start, steps);
      i < |s.calls| && s.calls[i].hooked && s.calls[i].pc.Done? ==>
        var c := s.calls[i];
        || (c.pc.result == Busy && c.writes == 0 && c.runs == [])
        || (c.pc.result == Delegated(native, c.file, c.flags, c.mode) && c.writes == 2 &&
            c.runs == if c.failed then [] else [c.file])
  {
    RunKeeps(env, uid, start, steps, native, page);
    var s := Run(env, uid, start, steps);
    if i < |s.calls| {
      assert CallOk(native, s.calls[i]);
    }
  }

  /** Whenever the module is off again after disciplined unloading, however often it was loaded
      and whatever ran in between, the entry is as it was, so is a read-only page, and no store faulted. */
  lemma UnloadRestoresWorld(env: Env, uid: nat, start: State, steps: seq<Step>, native: Handler, page: Pte)
    requires ValidEnv(env) && Initial(start, native, page) && DisciplinedRun(env, uid, start, steps)
    ensures CanRun(env, uid, start, steps)
    ensures
      var s := Run(env, uid, start, steps);
      !s.g.fault && (s.phase == Off ==> s.g.table == native && (!page.rw ==> s.g.pte == page))
  {
    RunKeeps(env, uid, start, steps, native, page);
  }

  /** Not every open is intercepted: in every reachable state an open that arrives while loaded enters
      new_open exactly when no other call is in its window; otherwise it goes straight to the original
      handler. */
  lemma InterceptedIff(
      env: Env, uid: nat, start: State, steps: seq<Step>, native: Handler, page: Pte,
      file: string, flags: int, mode: int)
    requires ValidEnv(env) && Initial(start, native, page) && DisciplinedRun(env, uid, start, steps)
    ensures CanRun(env, uid, start, steps)
    ensures
      var s := Run(env, uid, start, steps);
      var c := Apply(env, uid, s, Enter(file, flags, mode)).calls[|s.calls|];
      s.phase == Loaded ==>
        && (c.hooked <==> !exists i :: Swapped(s, i))
        && (!c.hooked ==> c.pc == Done(Delegated(native, file, flags, mode)))
  {
    RunKeeps(env, uid, start, steps, native, page);
  }

  // ---- The states of a run ----

  /** The states that a run goes through, the first and the last included. */
  ghost predicate IsTrace(env: Env, uid: nat, states: seq<State>, steps: seq<Step>)
    requires ValidEnv(env)
  {
    |states| == |steps| + 1 && forall k :: 0 <= k < |steps| ==> StepAt(env, uid, states, steps, k)
  }

  ghost predicate StepAt(env: Env, uid: nat, states: seq<State>, steps: seq<Step>, k: nat)
    requires ValidEnv(env) && |states| == |steps| + 1 && k < |steps|
  {
    Enabled(states[k], steps[k]) && states[k + 1] == Apply(env, uid, states[k], steps[k])
  }

  lemma {:induction false} RunTrace(env: Env, uid: nat, s: State, steps: seq<Step>) returns (states: seq<State>)
    requires ValidEnv(env) && CanRun(env, uid, s, steps)
    ensures IsTrace(env, uid, states, steps) && states[0] == s && states[|steps|] == Run(env, uid, s, steps)
    decreases |steps|
  {
    if steps == [] {
      states := [s];
    } else {
      var rest := RunTrace(env, uid, Apply(env, uid, s, steps[0]), steps[1..]);
      states := [s] + rest;
      forall k | 0 <= k < |steps| ensures StepAt(env, uid, states, steps, k) {
        if k > 0 { assert StepAt(env, uid, rest, steps[1..], k - 1); }
      }
    }
  }

  /** A helper issues an open while the table sends it to the hook. */
  predicate NestsAt(s: State, step: Step) {
    (step.HelperOpens? || step.HelperStep?) && s.g.table == Hook
  }

  /** The record of nested opens is accurate over every run. */
  lemma {:induction false} NestedIff(env: Env, uid: nat, states: seq<State>, steps: seq<Step>, k: nat)
    requires ValidEnv(env) && IsTrace(env, uid, states, steps) && k <= |steps|
    ensures states[k].nested <==> states[0].nested || exists j :: 0 <= j < k && NestsAt(states[j], steps[j])
    decreases k
  {
    if k > 0 {
      NestedIff(env, uid, states, steps, k - 1);
      assert StepAt(env, uid, states, steps, k - 1);
      NestedStep(env, uid, states[k - 1], steps[k - 1]);
    }
  }

  lemma NestedStep(env: Env, uid: nat, s: State, step: Step)
    requires ValidEnv(env) && Enabled(s, step)
    ensures Apply(env, uid, s, step).nested <==> s.nested || NestsAt(s, step)
  {
    if step.Advance? { StatementOnCall(s, step.i); }
  }

  /** The loader's steps, one after the other, are the module's init and cleanup. */
  lemma LoaderSteps(env: Env, uid: nat, s: State)
    requires ValidEnv(env)
    ensures s.phase == Off ==>
      && CanRun(env, uid, s, [InitUnprotect, InitSave, InitHook])
      && Run(env, uid, s, [InitUnprotect, InitSave, InitHook]) == s.(g := Load(s.g), phase := Loaded)
    ensures s.phase == Loaded ==>
      && CanRun(env, uid, s, [CleanUnhook, CleanProtect])
      && Run(env, uid, s, [CleanUnhook, CleanProtect]) == s.(g := Unload(s.g), phase := Off)
  {
    if s.phase == Off {
      var s1 := Apply(env, uid, s, InitUnprotect);
      var s2 := Apply(env, uid, s1, InitSave);
      RunCons(env, uid, s2, InitHook, []);
      RunCons(env, uid, s1, InitSave, [InitHook]);
      RunCons(env, uid, s, InitUnprotect, [InitSave, InitHook]);
    } else if s.phase == Loaded {
      RunCons(env, uid, Apply(env, uid, s, CleanUnhook), CleanProtect, []);
      RunCons(env, uid, s, CleanUnhook, [CleanProtect]);
    }
  }

  lemma RunCons(env: Env, uid: nat, s: State, step: Step, rest: seq<Step>)
    requires ValidEnv(env) && Enabled(s, step) && CanRun(env, uid, Apply(env, uid, s, step), rest)
    ensures CanRun(env, uid, s, [step] + rest)
    ensures Run(env, uid, s, [step] + rest) == Run(env, uid, Apply(env, uid, s, step), rest)
  {
    assert ([step] + rest)[1..] == rest;
  }

  /** In every reachable state a call at its trylock is refused exactly when another call is between
      taking and releasing the mutex, and otherwise takes it. */
  lemma RefusedIff(env: Env, uid: nat, start: State, steps: seq<Step>, native: Handler, page: Pte, i: nat)
    requires ValidEnv(env) && Initial(start, native, page) && DisciplinedRun(env, uid, start, steps)
    ensures CanRun(env, uid, start, steps)
    ensures
      var s := Run(env, uid, start, steps);
      At(s, i, {TryLock}) ==>
        var s' := Apply(env, uid, s, Advance(i));
        if exists j :: j != i && Critical(s, j) then s'.calls[i].pc == Done(Busy) && s'.g == s.g
        else s'.calls[i].pc == SwapOut && s'.g == s.g.(locked := true)
  {
    RunKeeps(env, uid, start, steps, native, page);
    var s := Run(env, uid, start, steps);
    if At(s, i, {TryLock}) {
      assert !Critical(s, i);
    }
  }

  // ---- Progress ----

  function Rank(pc: Pc): nat {
    match pc
    case TryLock => 7
    case SwapOut => 6
    case Launch => 5
    case Waiting(_) => 4
    case SwapIn => 3
    case Unlock => 2
    case Delegate => 1
    case Done(_) => 0
  }

  /** An upper bound on what the helper has still to do. */
  function Remaining(pc: Pc): nat {
    if !pc.Waiting? then 0
    else
      var h := pc.helper;
      h.opens + 4 * |h.work| + match h.stage { case Check => 3 case Open => 2 case Rename => 1 case Chmod => 0 }
  }

  function Sum(calls: seq<Call>, f: Pc -> nat): nat {
    if calls == [] then 0 else f(calls[0].pc) + Sum(calls[1..], f)
  }

  lemma {:induction false} SumUpdate(calls: seq<Call>, i: nat, c: Call, f: Pc -> nat)
    requires i < |calls|
    ensures Sum(calls[i := c], f) == Sum(calls, f) - f(calls[i].pc) + f(c.pc)
  {
    if i == 0 {
      assert calls[0 := c][1..] == calls[1..];
    } else {
      SumUpdate(calls[1..], i - 1, c, f);
      assert calls[i := c][1..] == calls[1..][i - 1 := c];
    }
  }

  /** Lexicographic: statements left in all calls, then helper work left. */
  predicate Less(a: State, b: State) {
    || Sum(a.calls, Rank) < Sum(b.calls, Rank)
    || (Sum(a.calls, Rank) == Sum(b.calls, Rank) && Sum(a.calls, Remaining) < Sum(b.calls, Remaining))
  }

  /** A step by a call in flight or by its helper. */
  predicate Internal(step: Step) {
    || step.Advance? || step.LaunchHelper? || step.LaunchFails?
    || step.HelperOpens? || step.HelperStep? || step.HelperExit?
  }

  lemma HelperActionShrinks(env: Env, uid: nat, fs: FileSystem, h: Helper)
    requires ValidEnv(env) && h.work != []
    ensures Remaining(Waiting(HelperAction(env, uid, fs, h).1)) < Remaining(Waiting(h))
  {
  }

  lemma StatementOnCall(s: State, i: nat)
    requires Enabled(s, Advance(i))
    ensures
      var s' := Statement(s, i);
      && s'.nested == s.nested && s'.fs == s.fs
      && |s'.calls| == |s.calls| && s'.calls == s.calls[i := s'.calls[i]]
      && Rank(s'.calls[i].pc) < Rank(s.calls[i].pc)
  {
  }

  /** What an internal step changes: one call, whose rank drops or whose helper has less to do. */
  lemma InternalStepOnCall(env: Env, uid: nat, s: State, step: Step)
    requires ValidEnv(env) && Enabled(s, step) && Internal(step)
    ensures
      var s' := Apply(env, uid, s, step);
      && |s'.calls| == |s.calls| && s'.calls == s.calls[step.i := s'.calls[step.i]]
      && var pc, pc' := s.calls[step.i].pc, s'.calls[step.i].pc;
         Rank(pc') < Rank(pc) || (Rank(pc') == Rank(pc) && Remaining(pc') < Remaining(pc))
  {
    if step.HelperStep? {
      HelperActionShrinks(env, uid, s.fs, s.calls[step.i].pc.helper);
    } else if step.Advance? {
      StatementOnCall(s, step.i);
    }
  }

  /** Every internal step decreases the measure, in any state, under any interleaving. */
  lemma InternalStepDecreases(env: Env, uid: nat, s: State, step: Step)
    requires ValidEnv(env) && Enabled(s, step) && Internal(step)
    ensures Less(Apply(env, uid, s, step), s)
  {
    InternalStepOnCall(env, uid, s, step);
    var c := Apply(env, uid, s, step).calls[step.i];
    SumUpdate(s.calls, step.i, c, Rank);
    SumUpdate(s.calls, step.i, c, Remaining);
  }

  /** What call i, or its helper, does next. */
  function NextStep(s: State, i: nat): (step: Step)
    requires i < |s.calls| && !s.calls[i].pc.Done?
    ensures !step.LaunchFails?
  {
    match s.calls[i].pc
    case Launch => LaunchHelper(i, Zeros(MAX_NAME_LEN), 0)
    case Waiting(h) => if h.opens > 0 then HelperOpens(i) else if h.work == [] then HelperExit(i) else HelperStep(i)
    case _ => Advance(i)
  }

  /** No call in flight is ever blocked: the lock is only tried. */
  lemma NeverBlocked(s: State, i: nat)
    requires i < |s.calls| && !s.calls[i].pc.Done?
    ensures Enabled(s, NextStep(s, i)) && Internal(NextStep(s, i))
  {
  }

  /** From every state, with any number of calls in flight, some run of internal steps in which every
      helper starts finishes them all; and no run of internal steps is longer than the measure allows
      (Less is well-founded). */
  lemma {:induction false} AllCallsFinish(env: Env, uid: nat, s: State) returns (steps: seq<Step>)
    requires ValidEnv(env)
    ensures CanRun(env, uid, s, steps) && AllDone(Run(env, uid, s, steps))
    ensures forall k :: 0 <= k < |steps| ==> Internal(steps[k]) && !steps[k].LaunchFails?
    decreases Sum(s.calls, Rank), Sum(s.calls, Remaining)
  {
    if AllDone(s) { return []; }
    var i :| 0 <= i < |s.calls| && !s.calls[i].pc.Done?;
    NeverBlocked(s, i);
    var step := NextStep(s, i);
    InternalStepDecreases(env, uid, s, step);
    var rest := AllCallsFinish(env, uid, Apply(env, uid, s, step));
    steps := [step] + rest;
    assert steps[1..] == rest;
  }

  // ---- Unloading while calls are in flight ----

  /** The call will not store into the table any more. */
  predicate Harmless(pc: Pc) {
    pc.Unlock? || pc.Delegate? || pc.Done?
  }

  predicate AllHarmless(s: State) {
    forall i :: 0 <= i < |s.calls| ==> Harmless(s.calls[i].pc)
  }

  predicate StaysOff(steps: seq<Step>) {
    InitUnprotect !in steps
  }

  /** The table entry is restored; its page may still be writable. */
  predicate Unhooking(s: State) {
    s.phase in {Unhooked, Off} && s.g.table.Kernel? && (s.phase == Off ==> !s.g.pte.rw) && !s.g.fault
  }

  /** The module is off, the table entry restored and protected again. */
  predicate Unloaded(s: State) {
    Unhooking(s) && s.phase == Off
  }

  /** No later step of any call left behind disturbs the restored entry. */
  ghost predicate UnloadSafe(env: Env, uid: nat, s: State)
    requires ValidEnv(env)
  {
    forall steps :: CanRun(env, uid, s, steps) && StaysOff(steps) ==>
      Run(env, uid, s, steps).g.table == s.g.table && !Run(env, uid, s, steps).g.fault
  }

  lemma HarmlessStep(env: Env, uid: nat, s: State, step: Step)
    requires ValidEnv(env) && Unhooking(s) && AllHarmless(s) && Enabled(s, step) && !step.InitUnprotect?
    ensures
      var s' := Apply(env, uid, s, step);
      Unhooking(s') && AllHarmless(s') && s'.g.table == s.g.table
  {
    if step.Advance? { assert Harmless(s.calls[step.i].pc); }
  }

  lemma {:induction false} HarmlessRun(env: Env, uid: nat, s: State, steps: seq<Step>)
    requires ValidEnv(env) && Unhooking(s) && AllHarmless(s) && CanRun(env, uid, s, steps) && StaysOff(steps)
    ensures Unhooking(Run(env, uid, s, steps)) && Run(env, uid, s, steps).g.table == s.g.table
    decreases |steps|
  {
    if steps != [] {
      assert steps[0] in steps;
      HarmlessStep(env, uid, s, steps[0]);
      HarmlessRun(env, uid, Apply(env, uid, s, steps[0]), steps[1..]);
    }
  }

  /** Let the call at i run on its own until it is about to store, and store. */
  lemma {:induction false} StoreFaults(env: Env, uid: nat, s: State, i: nat) returns (steps: seq<Step>)
    requires ValidEnv(env) && Unloaded(s) && i < |s.calls|
    requires InWindow(s.calls[i].pc) || s.calls[i].pc.SwapOut?
    ensures CanRun(env, uid, s, steps) && StaysOff(steps) && Run(env, uid, s, steps).g.fault
    decreases Rank(s.calls[i].pc), Remaining(s.calls[i].pc)
  {
    var step := NextStep(s, i);
    NeverBlocked(s, i);
    var s' := Apply(env, uid, s, step);
    if s.calls[i].pc.SwapOut? || s.calls[i].pc.SwapIn? {
      steps := [step];
      assert CanRun(env, uid, s', []) && Run(env, uid, s', []) == s';
    } else {
      if step.HelperStep? { HelperActionShrinks(env, uid, s.fs, s.calls[i].pc.helper); }
      var rest := StoreFaults(env, uid, s', i);
      steps := [step] + rest;
      assert steps[1..] == rest;
    }
  }

  /** Unloading restores the table for good exactly when no call is left that has entered new_open
      and not yet made its second store: any such call can go on to store into the protected table. */
  lemma UnloadSafeIff(env: Env, uid: nat, s: State)
    requires ValidEnv(env) && Unloaded(s) && MutexOk(s)
    ensures UnloadSafe(env, uid, s) <==> AllHarmless(s)
  {
    if AllHarmless(s) {
      forall steps | CanRun(env, uid, s, steps) && StaysOff(steps)
        ensures Run(env, uid, s, steps).g.table == s.g.table && !Run(env, uid, s, steps).g.fault
      {
        HarmlessRun(env, uid, s, steps);
      }
    } else {
      var steps := Disturbance(env, uid, s);
    }
  }

  /** From here to the next load the entry stays the original one, no store faults, and the page is
      protected once the cleanup has finished, whatever else runs. */
  ghost predicate CleanupLasts(env: Env, uid: nat, s: State, native: Handler)
    requires ValidEnv(env)
  {
    forall steps :: CanRun(env, uid, s, steps) && StaysOff(steps) ==>
      Unhooking(Run(env, uid, s, steps)) && Run(env, uid, s, steps).g.table == native
  }

  /** The same, seen from the loaded module, with any other steps before, between and after the two
      statements of the cleanup: it restores the table for good exactly when, as it stores the entry,
      every call has made its second store or was refused. */
  lemma CleanupSafeIff(env: Env, uid: nat, s: State, native: Handler, page: Pte)
    requires ValidEnv(env) && Inv(s, native, page) && s.phase == Loaded
    ensures CleanupLasts(env, uid, Apply(env, uid, s, CleanUnhook), native) <==> AllHarmless(s)
  {
    var s1 := Apply(env, uid, s, CleanUnhook);
    if AllHarmless(s) {
      forall steps | CanRun(env, uid, s1, steps) && StaysOff(steps)
        ensures Unhooking(Run(env, uid, s1, steps)) && Run(env, uid, s1, steps).g.table == native
      {
        HarmlessRun(env, uid, s1, steps);
      }
    } else {
      var s2 := Apply(env, uid, s1, CleanProtect);
      assert forall i :: Critical(s2, i) <==> Critical(s, i);
      var rest := Disturbance(env, uid, s2);
      var steps := [CleanProtect] + rest;
      assert steps[1..] == rest;
      assert CanRun(env, uid, s1, steps) && Run(env, uid, s1, steps).g.fault;
    }
  }

  lemma Disturbance(env: Env, uid: nat, s: State) returns (steps: seq<Step>)
    requires ValidEnv(env) && Unloaded(s) && MutexOk(s) && !AllHarmless(s)
    ensures CanRun(env, uid, s, steps) && StaysOff(steps) && Run(env, uid, s, steps).g.fault
  {
    var i :| 0 <= i < |s.calls| && !Harmless(s.calls[i].pc);
    if !s.calls[i].pc.TryLock? {
      steps := StoreFaults(env, uid, s, i);
    } else if !s.g.locked {
      steps := LockAndStore(env, uid, s, i);
    } else {
      var j: nat :| Critical(s, j);
      if !s.calls[j].pc.Unlock? {
        steps := StoreFaults(env, uid, s, j);
      } else {
        var s' := Apply(env, uid, s, Advance(j));
        var rest := LockAndStore(env, uid, s', i);
        steps := [Advance(j)] + rest;
        assert steps[1..] == rest;
      }
    }
  }

  lemma LockAndStore(env: Env, uid: nat, s: State, i: nat) returns (steps: seq<Step>)
    requires ValidEnv(env) && Unloaded(s) && !s.g.locked && i < |s.calls| && s.calls[i].pc.TryLock?
    ensures CanRun(env, uid, s, steps) && StaysOff(steps) && Run(env, uid, s, steps).g.fault
  {
    var rest := StoreFaults(env, uid, Apply(env, uid, s, Advance(i)), i);
    steps := [Advance(i)] + rest;
    assert steps[1..] == rest;
  }
}
