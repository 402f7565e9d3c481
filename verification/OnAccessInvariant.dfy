/** What every interleaving of the hook keeps, from the first load on, over any number of calls. */
module OnAccessInvariant {
  import opened Driver
  import opened OnAccess

  /** Between taking and releasing the mutex. */
  predicate InCritical(pc: Pc) {
    pc.SwapOut? || InWindow(pc) || pc.Unlock?
  }

  /** Between the two table stores of new_open. */
  predicate InWindow(pc: Pc) {
    pc.Launch? || pc.Waiting? || pc.SwapIn?
  }

  predicate Critical(s: State, i: nat) {
    i < |s.calls| && InCritical(s.calls[i].pc)
  }

  predicate Swapped(s: State, i: nat) {
    i < |s.calls| && InWindow(s.calls[i].pc)
  }

  /** No call is between entering new_open and releasing the mutex. */
  predicate Quiescent(s: State) {
    forall i :: 0 <= i < |s.calls| ==> s.calls[i].pc.Delegate? || s.calls[i].pc.Done?
  }

  /** One completed helper run, on this call's file, unless the helper could not be started. */
  predicate RanOnce(c: Call) {
    c.runs == if c.failed then [] else [c.file]
  }

  /** What a call has done so far. */
  predicate CallOk(native: Handler, c: Call) {
    match c.pc
    case TryLock => c.hooked && c.runs == [] && !c.failed && c.writes == 0
    case SwapOut => c.hooked && c.runs == [] && !c.failed && c.writes == 0
    case Launch => c.hooked && c.runs == [] && !c.failed && c.writes == 1
    case Waiting(h) => c.hooked && c.runs == [] && !c.failed && c.writes == 1 && h.arg == c.file
    case SwapIn => c.hooked && RanOnce(c) && c.writes == 1
    case Unlock => c.hooked && RanOnce(c) && c.writes == 2
    case Delegate => c.hooked && RanOnce(c) && c.writes == 2
    case Done(Busy) => c.hooked && c.runs == [] && c.writes == 0
    case Done(Delegated(handler, file, flags, mode)) =>
      && handler == native && file == c.file && flags == c.flags && mode == c.mode
      && (c.hooked ==> RanOnce(c) && c.writes == 2)
      && (!c.hooked ==> c.runs == [] && c.writes == 0)
  }

  ghost predicate CallsOk(s: State, native: Handler) {
    forall i :: 0 <= i < |s.calls| ==> CallOk(native, s.calls[i])
  }

  /** The mutex is held exactly while some call is in the critical section, and then by one. */
  ghost predicate MutexOk(s: State) {
    && (s.g.locked <==> exists i :: Critical(s, i))
    && (forall i, j :: Critical(s, i) && Critical(s, j) ==> i == j)
  }

  /** While loaded the entry is the original handler exactly while some call is in the window,
      and new_open otherwise; while not loaded it is the original. */
  ghost predicate TableOk(s: State, native: Handler) {
    s.g.table == if s.phase == Loaded && !exists i :: Swapped(s, i) then Hook else native
  }

  predicate AllDone(s: State) {
    forall i :: 0 <= i < |s.calls| ==> s.calls[i].pc.Done?
  }

  /** The page is the one present before the first load; writable while loaded, and otherwise as it
      was then or write-protected. */
  predicate PageOk(s: State, page: Pte) {
    && page.rest != 0 && s.g.pte.rest == page.rest
    && (if s.phase == Off then s.g.pte.rw ==> page.rw else s.g.pte.rw)
  }

  ghost predicate Inv(s: State, native: Handler, page: Pte) {
    && native.Kernel? && PageOk(s, page)
    && CallsOk(s, native) && MutexOk(s) && TableOk(s, native)
    && (s.phase == Loaded || Quiescent(s))
    && (s.g.oldOpen == native || (s.phase in {Off, Unprotected} && AllDone(s)))
    && !s.g.fault && !s.nested
  }

  /** Unloading waits until no call is inside new_open before its last statement. */
  predicate Disciplined(s: State, step: Step) {
    step.CleanUnhook? ==> Quiescent(s)
  }

  ghost predicate DisciplinedRun(env: Env, uid: nat, s: State, steps: seq<Step>)
    requires ValidEnv(env)
    decreases |steps|
  {
    steps == [] ||
    (Enabled(s, steps[0]) && Disciplined(s, steps[0]) &&
     DisciplinedRun(env, uid, Apply(env, uid, s, steps[0]), steps[1..]))
  }

  /** Before the module is loaded: its mutex free, the table's page present, nothing running. */
  predicate Initial(s: State, native: Handler, page: Pte) {
    && s.phase == Off && s.calls == [] && !s.nested
    && native.Kernel? && page.rest != 0
    && s.g.table == native && s.g.pte == page && !s.g.locked && !s.g.fault
  }

  /** Loaded and intercepting, nobody in the critical section. */
  predicate Ready(s: State) {
    s.phase == Loaded && s.g.table == Hook && s.g.oldOpen.Kernel? && !s.g.locked && s.g.pte.rw
  }

  lemma TryLockKeeps(s: State, i: nat, native: Handler, page: Pte)
    requires Inv(s, native, page) && At(s, i, {TryLock})
    ensures Inv(Statement(s, i), native, page)
  {
    var s' := Statement(s, i);
    assert forall j :: j != i ==> (Critical(s', j) <==> Critical(s, j)) && (Swapped(s', j) <==> Swapped(s, j));
    assert !Swapped(s, i) && !Swapped(s', i) && !Critical(s, i);
    assert Critical(s', i) <==> !s.g.locked;
  }

  lemma LeaveKeeps(s: State, i: nat, native: Handler, page: Pte)
    requires Inv(s, native, page) && At(s, i, {Unlock, Delegate})
    ensures Inv(Statement(s, i), native, page)
  {
    var s' := Statement(s, i);
    assert forall j :: j != i ==> (Critical(s', j) <==> Critical(s, j)) && (Swapped(s', j) <==> Swapped(s, j));
    assert !Swapped(s, i) && !Swapped(s', i) && !Critical(s', i);
    assert Critical(s, i) <==> s.calls[i].pc.Unlock?;
  }

  /** The two table stores. */
  lemma StoreStatementKeeps(s: State, i: nat, native: Handler, page: Pte)
    requires Inv(s, native, page) && Enabled(s, Advance(i))
    requires s.calls[i].pc.SwapOut? || s.calls[i].pc.SwapIn?
    ensures Inv(Statement(s, i), native, page)
  {
    var s' := Statement(s, i);
    assert forall j :: j != i ==> (Critical(s', j) <==> Critical(s, j)) && (Swapped(s', j) <==> Swapped(s, j));
    assert Critical(s, i) && Critical(s', i);
    assert Swapped(s', i) <==> s.calls[i].pc.SwapOut?;
    assert forall j :: Swapped(s', j) ==> Critical(s', j);
  }

  /** Call i stays in the window: the table, the mutex and every other call are as they were. */
  lemma WindowStepKeeps(s: State, i: nat, c: Call, s': State, native: Handler, page: Pte)
    requires Inv(s, native, page) && Swapped(s, i) && InWindow(c.pc) && CallOk(native, c)
    requires s' == WithCall(s, i, c).(fs := s'.fs)
    ensures Inv(s', native, page)
  {
    assert forall j :: (Critical(s', j) <==> Critical(s, j)) && (Swapped(s', j) <==> Swapped(s, j));
  }

  /** An open by the helper of call i goes to the original handler. */
  lemma HelperSeesNative(s: State, i: nat, native: Handler, page: Pte)
    requires Inv(s, native, page) && Helping(s, i)
    ensures s.g.table == native && s.phase == Loaded
  {
    assert Swapped(s, i);
  }

  lemma EnterKeeps(s: State, c: Call, native: Handler, page: Pte)
    requires Inv(s, native, page) && CallOk(native, c) && !InCritical(c.pc)
    requires s.phase == Loaded || c.pc.Done?
    requires c.pc.Done? || s.g.oldOpen == native
    ensures Inv(s.(calls := s.calls + [c]), native, page)
  {
    var s' := s.(calls := s.calls + [c]);
    assert forall j :: (Critical(s', j) <==> Critical(s, j)) && (Swapped(s', j) <==> Swapped(s, j));
  }

  lemma LoaderKeeps(env: Env, uid: nat, s: State, step: Step, native: Handler, page: Pte)
    requires ValidEnv(env) && Inv(s, native, page) && Enabled(s, step) && Disciplined(s, step)
    requires step.InitUnprotect? || step.InitSave? || step.InitHook? || step.CleanUnhook? || step.CleanProtect?
    ensures Inv(Apply(env, uid, s, step), native, page)
  {
    var s' := Apply(env, uid, s, step);
    assert Quiescent(s);
    assert forall j :: !Critical(s, j) && !Swapped(s, j);
    assert forall j :: !Critical(s', j) && !Swapped(s', j);
  }

  predicate IsHelperStep(step: Step) {
    step.LaunchHelper? || step.LaunchFails? || step.HelperOpens? || step.HelperStep? || step.HelperExit?
  }

  lemma HelperStepKeeps(env: Env, uid: nat, s: State, step: Step, native: Handler, page: Pte)
    requires ValidEnv(env) && Inv(s, native, page) && Enabled(s, step) && IsHelperStep(step)
    ensures Inv(Apply(env, uid, s, step), native, page)
  {
    var s', i := Apply(env, uid, s, step), step.i;
    if Helping(s, i) { HelperSeesNative(s, i, native, page); }
    assert CallOk(native, s.calls[i]);
    WindowStepKeeps(s, i, s'.calls[i], s', native, page);
  }

  lemma WorldKeeps(s: State, fs: FileSystem, native: Handler, page: Pte)
    requires Inv(s, native, page)
    ensures Inv(s.(fs := fs), native, page)
  {
    var s' := s.(fs := fs);
    assert forall j :: (Critical(s', j) <==> Critical(s, j)) && (Swapped(s', j) <==> Swapped(s, j));
  }

  lemma AdvanceKeeps(s: State, i: nat, native: Handler, page: Pte)
    requires Inv(s, native, page) && Enabled(s, Advance(i))
    ensures Inv(Statement(s, i), native, page)
  {
    if s.calls[i].pc.SwapOut? || s.calls[i].pc.SwapIn? {
      StoreStatementKeeps(s, i, native, page);
    } else if s.calls[i].pc.TryLock? {
      TryLockKeeps(s, i, native, page);
    } else {
      LeaveKeeps(s, i, native, page);
    }
  }

  /** Every step keeps the invariant. */
  lemma StepKeeps(env: Env, uid: nat, s: State, step: Step, native: Handler, page: Pte)
    requires ValidEnv(env) && Inv(s, native, page) && Enabled(s, step) && Disciplined(s, step)
    ensures Inv(Apply(env, uid, s, step), native, page)
  {
    if step.Enter? {
      EnterKeeps(s, Dispatch(s, step.file, step.flags, step.mode), native, page);
    } else if step.Advance? {
      AdvanceKeeps(s, step.i, native, page);
    } else if step.World? {
      WorldKeeps(s, step.fs, native, page);
    } else if IsHelperStep(step) {
      HelperStepKeeps(env, uid, s, step, native, page);
    } else {
      LoaderKeeps(env, uid, s, step, native, page);
    }
  }

  /** In every state of every run: mutual exclusion, the table entry, the contract of each call
      so far, no faulting store, and no open of a helper dispatched to new_open. */
  lemma {:induction false} RunKeeps(env: Env, uid: nat, s: State, steps: seq<Step>, native: Handler, page: Pte)
    requires ValidEnv(env) && Inv(s, native, page) && DisciplinedRun(env, uid, s, steps)
    ensures CanRun(env, uid, s, steps) && Inv(Run(env, uid, s, steps), native, page)
    decreases |steps|
  {
    if steps != [] {
      StepKeeps(env, uid, s, steps[0], native, page);
      RunKeeps(env, uid, Apply(env, uid, s, steps[0]), steps[1..], native, page);
    }
  }
}
