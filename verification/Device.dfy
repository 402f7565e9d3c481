/** The character-device variant of the hook: one mutex guards both a device session and the
    message buffer that intercepted opens write their file name to. */
module Device {
  import opened CString

  const MESSAGE_SIZE := 512
  const EFAULT := 14

  datatype Buffer = Buffer(message: seq<Byte>, size: nat, numberOpens: nat, locked: bool)

  /** A C string that fits the message buffer, its terminator included. */
  predicate Fits(s: seq<Byte>) {
    StrLen(s) < |s| && StrLen(s) < MESSAGE_SIZE
  }

  predicate BufferOk(b: Buffer) {
    |b.message| == MESSAGE_SIZE && Fits(b.message) && b.size < MESSAGE_SIZE
  }

  function Cleared(b: Buffer): Buffer
    requires |b.message| == MESSAGE_SIZE
  {
    b.(message := b.message[0 := NUL])
  }

  function Copied(b: Buffer, s: seq<Byte>): Buffer
    requires |b.message| == MESSAGE_SIZE && Fits(s)
  {
    b.(message := s[..StrLen(s)] + [NUL] + b.message[StrLen(s) + 1..])
  }

  function Written(b: Buffer, s: seq<Byte>): Buffer
    requires |b.message| == MESSAGE_SIZE && Fits(s)
  {
    Copied(b, s).(size := StrLen(s))
  }

  lemma CopiedString(b: Buffer, s: seq<Byte>)
    requires |b.message| == MESSAGE_SIZE && Fits(s)
    ensures |Copied(b, s).message| == MESSAGE_SIZE
    ensures StrLen(Copied(b, s).message) == StrLen(s)
    ensures Copied(Cleared(b), s) == Copied(b, s)
  {
    var m, n := Copied(b, s).message, StrLen(s);
    assert forall k :: 0 <= k < n ==> m[k] == s[k];
    SpanUnique(m, {NUL}, n);
    assert Cleared(b).message[n + 1..] == b.message[n + 1..];
  }

  class CharDevice {
    var message: array<Byte>
    var size_of_message: nat
    var numberOpens: nat
    var antv_mutex: bool

    ghost function View(): Buffer
      reads this, message
    {
      Buffer(message[..], size_of_message, numberOpens, antv_mutex)
    }

    constructor ()
      ensures fresh(message) && View() == Buffer(Zeros(MESSAGE_SIZE), 0, 0, false)
      ensures Inv(State(View(), 0, 0, [], []))
    {
      message := new Byte[MESSAGE_SIZE](_ => NUL);
      size_of_message, numberOpens, antv_mutex := 0, 0, false;
      new;
      assert message[..] == Zeros(MESSAGE_SIZE);
      SpanUnique(message[..], {NUL}, 0);
    }

    /** The part of new_open before it delegates; -EBUSY is false. */
    method NewOpen(filename: seq<Byte>) returns (delegates: bool)
      requires BufferOk(View()) && Fits(filename)
      modifies this, message
      ensures message == old(message) && delegates == !old(antv_mutex)
      ensures View() == if delegates then Copied(old(View()), filename) else old(View())
    {
      if antv_mutex { return false; }
      antv_mutex := true;
      message[0] := NUL;
      CopiedString(old(View()), filename);
      Strcpy(message, filename);
      antv_mutex := false;
      delegates := true;
    }

    method DevOpen() returns (ok: bool)
      requires BufferOk(View())
      modifies this
      ensures message == old(message) && ok == !old(antv_mutex)
      ensures View() ==
        if ok then old(View()).(numberOpens := old(numberOpens) + 1, locked := true) else old(View())
    {
      if antv_mutex { return false; }
      antv_mutex := true;
      numberOpens := numberOpens + 1;
      ok := true;
    }

    /** uncopied: how many bytes copy_to_user fails to copy; delivered: what arrives if it is 0.
        The result is 0 on success, however much was delivered. */
    method DevRead(uncopied: nat) returns (delivered: Option<seq<Byte>>, r: int)
      requires BufferOk(View())
      modifies this
      ensures message == old(message)
      ensures uncopied > 0 ==> delivered == None && View() == old(View()) && r == -EFAULT
      ensures uncopied == 0 ==> View() == old(View()).(size := 0) && r == 0
      ensures uncopied == 0 ==> delivered == Some(old(View()).message[..old(size_of_message)])
    {
      if uncopied > 0 { return None, -EFAULT; }
      delivered := Some(message[..size_of_message]);
      size_of_message := 0;
      r := size_of_message;
    }

    method DevWrite(buffer: seq<Byte>, len: int) returns (r: int)
      requires BufferOk(View()) && Fits(buffer)
      modifies this, message
      ensures message == old(message) && r == len
      ensures View() == Written(old(View()), buffer)
    {
      message[0] := NUL;
      CopiedString(old(View()), buffer);
      Strcpy(message, buffer);
      size_of_message := StrLen(message[..]);
      r := len;
    }

    method DevRelease()
      modifies this
      ensures message == old(message) && View() == old(View()).(locked := false)
    {
      antv_mutex := false;
    }
  }

  // ---- All interleavings ----

  datatype Pc = TryLock | Clear | Copy | Unlock | Delegate | Done(busy: bool)

  /** One intercepted open. */
  datatype Call = Call(file: seq<Byte>, pc: Pc)

  /** sessions: open device files; refused: dev_open calls that returned -EBUSY; delivered: what
      each successful read of the device copied out. */
  datatype State = State(b: Buffer, sessions: nat, refused: nat, calls: seq<Call>, delivered: seq<seq<Byte>>)

  datatype Step =
    | Enter(file: seq<Byte>)
    | Advance(i: nat)
    | Open
    | Read(uncopied: nat)
    | Write(buffer: seq<Byte>)
    | Release

  predicate Enabled(s: State, step: Step) {
    match step
    case Enter(file) => Fits(file)
    case Advance(i) => i < |s.calls| && !s.calls[i].pc.Done?
    case Open => true
    case Read(_) => s.sessions > 0
    case Write(buffer) => s.sessions > 0 && Fits(buffer)
    case Release => s.sessions > 0
  }

  function WithPc(s: State, i: nat, pc: Pc): State
    requires i < |s.calls|
  {
    s.(calls := s.calls[i := s.calls[i].(pc := pc)])
  }

  predicate Inside(pc: Pc) {
    pc.Clear? || pc.Copy? || pc.Unlock?
  }

  predicate Critical(s: State, i: nat) {
    i < |s.calls| && Inside(s.calls[i].pc)
  }

  /** The mutex is held exactly while a session is open or a call is between its trylock and its
      unlock; and only one of these exists. */
  ghost predicate Inv(s: State) {
    && BufferOk(s.b)
    && (forall i :: 0 <= i < |s.calls| ==> Fits(s.calls[i].file))
    && (s.b.locked <==> s.sessions > 0 || exists i :: Critical(s, i))
    && s.sessions <= 1 && (s.sessions > 0 ==> forall i :: !Critical(s, i))
    && (forall i, j :: Critical(s, i) && Critical(s, j) ==> i == j)
  }

  function Effect(s: State, step: Step): State
    requires Enabled(s, step) && BufferOk(s.b) && forall i :: 0 <= i < |s.calls| ==> Fits(s.calls[i].file)
  {
    match step
    case Enter(file) => s.(calls := s.calls + [Call(file, TryLock)])
    case Advance(i) => (
      match s.calls[i].pc
      case TryLock =>
        if s.b.locked then WithPc(s, i, Done(true))
        else WithPc(s, i, Clear).(b := s.b.(locked := true))
      case Clear => WithPc(s, i, Copy).(b := Cleared(s.b))
      case Copy => WithPc(s, i, Unlock).(b := Copied(s.b, s.calls[i].file))
      case Unlock => WithPc(s, i, Delegate).(b := s.b.(locked := false))
      case Delegate => WithPc(s, i, Done(false))
    )
    case Open =>
      if s.b.locked then s.(refused := s.refused + 1)
      else s.(b := s.b.(numberOpens := s.b.numberOpens + 1, locked := true), sessions := s.sessions + 1)
    case Read(uncopied) =>
      if uncopied > 0 then s
      else s.(b := s.b.(size := 0), delivered := s.delivered + [s.b.message[..s.b.size]])
    case Write(buffer) => s.(b := Written(s.b, buffer))
    case Release => s.(b := s.b.(locked := false), sessions := s.sessions - 1)
  }

  lemma AdvanceKeepsBuffer(s: State, i: nat)
    requires Inv(s) && Enabled(s, Advance(i))
    ensures BufferOk(Effect(s, Advance(i)).b)
  {
    var s' := Effect(s, Advance(i));
    if s.calls[i].pc.Clear? { SpanUnique(s'.b.message, {NUL}, 0); }
    if s.calls[i].pc.Copy? { CopiedString(s.b, s.calls[i].file); }
  }

  lemma AdvanceKeepsMutex(s: State, i: nat)
    requires Inv(s) && Enabled(s, Advance(i))
    ensures
      var s' := Effect(s, Advance(i));
      && (forall j :: j != i ==> (Critical(s', j) <==> Critical(s, j)))
      && (Critical(s', i) <==>
            if s.calls[i].pc.TryLock? then !s.b.locked else s.calls[i].pc.Clear? || s.calls[i].pc.Copy?)
      && (s'.b.locked <==> s.calls[i].pc.TryLock? || (s.b.locked && !s.calls[i].pc.Unlock?))
      && s'.sessions == s.sessions
  {
  }

  lemma AdvanceKeeps(s: State, i: nat)
    requires Inv(s) && Enabled(s, Advance(i))
    ensures Inv(Effect(s, Advance(i)))
  {
    var s' := Effect(s, Advance(i));
    AdvanceKeepsBuffer(s, i);
    AdvanceKeepsMutex(s, i);
    assert Critical(s, i) <==> Inside(s.calls[i].pc);
    assert forall j :: 0 <= j < |s'.calls| ==> s'.calls[j].file == s.calls[j].file;
  }

  lemma StepKeeps(s: State, step: Step)
    requires Inv(s) && Enabled(s, step)
    ensures Inv(Effect(s, step))
  {
    if step.Advance? {
      AdvanceKeeps(s, step.i);
    } else {
      assert forall j :: Critical(Effect(s, step), j) <==> Critical(s, j);
      if step.Write? { CopiedString(s.b, step.buffer); }
    }
  }

  ghost function Apply(s: State, step: Step): (s': State)
    requires Inv(s) && Enabled(s, step)
    ensures Inv(s')
  {
    StepKeeps(s, step);
    Effect(s, step)
  }

  ghost predicate CanRun(s: State, steps: seq<Step>)
    requires Inv(s)
    decreases |steps|
  {
    steps == [] || (Enabled(s, steps[0]) && CanRun(Apply(s, steps[0]), steps[1..]))
  }

  /** Every run keeps the invariant, from any state that satisfies it. */
  ghost function Run(s: State, steps: seq<Step>): (s': State)
    requires Inv(s) && CanRun(s, steps)
    ensures Inv(s')
    decreases |steps|
  {
    if steps == [] then s else Run(Apply(s, steps[0]), steps[1..])
  }

  lemma RunCons(s: State, step: Step, rest: seq<Step>)
    requires Inv(s) && Enabled(s, step) && CanRun(Apply(s, step), rest)
    ensures CanRun(s, [step] + rest) && Run(s, [step] + rest) == Run(Apply(s, step), rest)
  {
    assert ([step] + rest)[1..] == rest;
  }

  lemma RunUncons(s: State, step: Step, rest: seq<Step>)
    requires Inv(s) && CanRun(s, [step] + rest)
    ensures Enabled(s, step) && CanRun(Apply(s, step), rest)
    ensures Run(s, [step] + rest) == Run(Apply(s, step), rest)
  {
    assert ([step] + rest)[1..] == rest;
  }

  /** The states that a run goes through, the first and the last included. */
  ghost predicate IsTrace(states: seq<State>, steps: seq<Step>) {
    |states| == |steps| + 1 && Inv(states[0]) && forall k :: 0 <= k < |steps| ==> StepAt(states, steps, k)
  }

  ghost predicate StepAt(states: seq<State>, steps: seq<Step>, k: nat)
    requires |states| == |steps| + 1 && k < |steps|
  {
    Inv(states[k]) && Enabled(states[k], steps[k]) && states[k + 1] == Apply(states[k], steps[k])
  }

  lemma {:induction false} RunTrace(s: State, steps: seq<Step>) returns (states: seq<State>)
    requires Inv(s) && CanRun(s, steps)
    ensures IsTrace(states, steps) && states[0] == s && states[|steps|] == Run(s, steps)
    decreases |steps|
  {
    if steps == [] {
      states := [s];
    } else {
      var rest := RunTrace(Apply(s, steps[0]), steps[1..]);
      states := [s] + rest;
      forall k | 0 <= k < |steps| ensures StepAt(states, steps, k) {
        if k > 0 { assert StepAt(rest, steps[1..], k - 1); }
      }
    }
  }

  lemma InvAt(states: seq<State>, steps: seq<Step>, k: nat)
    requires IsTrace(states, steps) && k <= |steps|
    ensures Inv(states[k])
    ensures k < |steps| ==> Enabled(states[k], steps[k]) && states[k + 1] == Apply(states[k], steps[k])
  {
    if k < |steps| {
      assert StepAt(states, steps, k);
    } else if k > 0 {
      assert StepAt(states, steps, k - 1);
    }
  }

  // ---- What a session can rely on ----

  /** Steps of anybody but the owner of an open session. */
  predicate ByOthers(steps: seq<Step>) {
    forall k :: 0 <= k < |steps| ==> steps[k].Enter? || steps[k].Advance? || steps[k].Open?
  }

  /** Not yet at the lock, or returned with -EBUSY. */
  predicate Refusable(pc: Pc) {
    pc == TryLock || pc == Done(true)
  }

  /** While a session is open, others change neither the buffer nor the session, and every
      intercepted open among them that tries the lock is refused. */
  lemma {:induction false} OthersAreShutOut(s: State, steps: seq<Step>)
    requires Inv(s) && s.sessions == 1 && CanRun(s, steps) && ByOthers(steps)
    ensures
      var s' := Run(s, steps);
      && s'.b == s.b && s'.sessions == 1 && s'.delivered == s.delivered && |s'.calls| >= |s.calls|
      && (forall i :: 0 <= i < |s'.calls| && (i < |s.calls| ==> Refusable(s.calls[i].pc)) ==> Refusable(s'.calls[i].pc))
    decreases |steps|
  {
    if steps != [] {
      assert forall i :: !Critical(s, i);
      var s1 := Apply(s, steps[0]);
      if steps[0].Advance? { assert !Critical(s, steps[0].i); }
      assert s1.b == s.b && s1.sessions == 1;
      OthersAreShutOut(s1, steps[1..]);
    }
  }

  /** The steps by others between a write and a read, and between that read and the next. */
  ghost predicate Session(s: State, buffer: seq<Byte>, between: seq<Step>, after: seq<Step>)
    requires Inv(s)
  {
    && ByOthers(between) && ByOthers(after)
    && CanRun(s, [Write(buffer)] + between)
    && var s' := Run(s, [Write(buffer)] + between);
       CanRun(s', [Read(0)] + after)
  }

  /** A write followed by a read in one session delivers exactly the string written, a second read
      delivers nothing, whatever intercepted and device opens come in between. */
  lemma {:induction false} SessionIsolation(s: State, buffer: seq<Byte>, between: seq<Step>, after: seq<Step>)
    requires Inv(s) && Session(s, buffer, between, after)
    ensures
      var s' := Run(Run(s, [Write(buffer)] + between), [Read(0)] + after);
      Enabled(s', Read(0)) &&
      Apply(s', Read(0)).delivered == s.delivered + [buffer[..StrLen(buffer)], []]
  {
    RunUncons(s, Write(buffer), between);
    WriteThenOthers(s, buffer, between);
    var s2 := Run(s, [Write(buffer)] + between);
    RunUncons(s2, Read(0), after);
    OthersAreShutOut(Apply(s2, Read(0)), after);
  }

  lemma WriteThenOthers(s: State, buffer: seq<Byte>, between: seq<Step>)
    requires Inv(s) && Enabled(s, Write(buffer)) && ByOthers(between) && CanRun(Apply(s, Write(buffer)), between)
    ensures
      var s' := Run(Apply(s, Write(buffer)), between);
      s'.sessions == 1 && s'.delivered == s.delivered && s'.b.message[..s'.b.size] == buffer[..StrLen(buffer)]
  {
    OthersAreShutOut(Apply(s, Write(buffer)), between);
  }

  // ---- How a call ends ----

  /** Past its trylock and on the way to the original open, or there. */
  predicate Admitted(pc: Pc) {
    Inside(pc) || pc.Delegate? || pc == Done(false)
  }

  /** The call found the mutex held and returned at once, changing nothing else. */
  predicate RefusedAt(states: seq<State>, steps: seq<Step>, i: nat, k: nat)
    requires |states| == |steps| + 1 && k < |steps|
  {
    var at := states[k];
    && steps[k] == Advance(i) && i < |at.calls| && at.calls[i].pc == TryLock && at.b.locked
    && states[k + 1] == at.(calls := at.calls[i := Call(at.calls[i].file, Done(true))])
  }

  /** No statement of call i from step number lo up to step number hi. */
  predicate Still(steps: seq<Step>, i: nat, lo: nat, hi: nat) {
    hi <= |steps| && forall m :: lo <= m < hi ==> steps[m] != Advance(i)
  }

  lemma CallStep(s: State, step: Step, i: nat)
    requires Inv(s) && Enabled(s, step)
    ensures
      var s' := Apply(s, step);
      if i >= |s.calls| then step != Advance(i) && (i < |s'.calls| ==> s'.calls[i].pc == TryLock)
      else
        && i < |s'.calls|
        && (step != Advance(i) ==> s'.calls[i] == s.calls[i])
        && (step == Advance(i) && s.calls[i].pc == TryLock && s.b.locked ==>
             s' == s.(calls := s.calls[i := Call(s.calls[i].file, Done(true))]))
        && (step == Advance(i) && !(s.calls[i].pc == TryLock && s.b.locked) ==> Admitted(s'.calls[i].pc))
        && (step == Advance(i) ==> !s.calls[i].pc.Done?)
  {
  }

  /** A call that has not tried the lock has not moved. */
  lemma {:induction false} UntriedIsStill(states: seq<State>, steps: seq<Step>, i: nat, k: nat)
    requires IsTrace(states, steps) && k <= |steps|
    requires i < |states[k].calls| ==> states[k].calls[i].pc == TryLock
    ensures Still(steps, i, 0, k)
    decreases k
  {
    if k > 0 {
      InvAt(states, steps, k - 1);
      CallStep(states[k - 1], steps[k - 1], i);
      UntriedIsStill(states, steps, i, k - 1);
    }
  }

  /** In every run: a call that ends refused took one statement only, its trylock, found the mutex held
      there, and changed nothing but its own result. */
  lemma {:induction false} RefusedCall(states: seq<State>, steps: seq<Step>, i: nat, k: nat)
    requires IsTrace(states, steps) && k <= |steps|
    requires i < |states[0].calls| ==> states[0].calls[i].pc == TryLock
    requires i < |states[k].calls| && states[k].calls[i].pc == Done(true)
    ensures exists r: nat ::
      r < k && RefusedAt(states, steps, i, r) && Still(steps, i, 0, r) && Still(steps, i, r + 1, k)
    decreases k
  {
    InvAt(states, steps, k - 1);
    CallStep(states[k - 1], steps[k - 1], i);
    if steps[k - 1] == Advance(i) {
      UntriedIsStill(states, steps, i, k - 1);
      assert RefusedAt(states, steps, i, k - 1) && Still(steps, i, k, k);
    } else {
      RefusedCall(states, steps, i, k - 1);
      var r: nat :|
        r < k - 1 && RefusedAt(states, steps, i, r) && Still(steps, i, 0, r) && Still(steps, i, r + 1, k - 1);
      assert Still(steps, i, r + 1, k);
    }
  }

  /** In every run: a call that got the lock is never refused later. */
  lemma {:induction false} AdmittedCall(s: State, steps: seq<Step>, i: nat)
    requires Inv(s) && CanRun(s, steps) && i < |s.calls| && Admitted(s.calls[i].pc)
    ensures i < |Run(s, steps).calls| && Admitted(Run(s, steps).calls[i].pc)
    decreases |steps|
  {
    if steps != [] {
      AdmittedCall(Apply(s, steps[0]), steps[1..], i);
    }
  }

  // ---- Accounting ----

  function Count(steps: seq<Step>, step: Step): nat {
    if steps == [] then 0 else (if steps[0] == step then 1 else 0) + Count(steps[1..], step)
  }

  lemma StepAddsUp(s: State, step: Step)
    requires Inv(s) && Enabled(s, step)
    ensures
      var s' := Apply(s, step);
      && s'.b.numberOpens + s'.refused == s.b.numberOpens + s.refused + (if step.Open? then 1 else 0)
      && s'.sessions + (if step.Release? then 1 else 0) + s.b.numberOpens == s.sessions + s'.b.numberOpens
  {
  }

  /** Every dev_open is counted in numberOpens or refused; every counted one is still open or released. */
  lemma {:induction false} OpensAddUp(s: State, steps: seq<Step>)
    requires Inv(s) && CanRun(s, steps)
    ensures
      var s' := Run(s, steps);
      && s'.b.numberOpens + s'.refused == s.b.numberOpens + s.refused + Count(steps, Open)
      && s'.sessions + Count(steps, Release) + s.b.numberOpens == s.sessions + s'.b.numberOpens
    decreases |steps|
  {
    if steps != [] {
      StepAddsUp(s, steps[0]);
      OpensAddUp(Apply(s, steps[0]), steps[1..]);
    }
  }

  /** One delivery for each successful read, none for a failed one. */
  lemma {:induction false} ReadsAddUp(s: State, steps: seq<Step>)
    requires Inv(s) && CanRun(s, steps)
    ensures |Run(s, steps).delivered| == |s.delivered| + Count(steps, Read(0))
    decreases |steps|
  {
    if steps != [] {
      ReadsAddUp(Apply(s, steps[0]), steps[1..]);
    }
  }

  // ---- What a reader is told ----

  /** The length of the last string written and not yet read; the initial size before any of these. */
  function Pending(steps: seq<Step>, size: nat): nat {
    if steps == [] then size
    else
      match steps[|steps| - 1]
      case Write(buffer) => StrLen(buffer)
      case Read(uncopied) => if uncopied == 0 then 0 else Pending(steps[..|steps| - 1], size)
      case _ => Pending(steps[..|steps| - 1], size)
  }

  /** The string a step copies to the message, if it completes a copy. */
  function CopiedBy(s: State, step: Step): Option<seq<Byte>> {
    match step
    case Write(buffer) => Some(buffer)
    case Advance(i) => if i < |s.calls| && s.calls[i].pc.Copy? then Some(s.calls[i].file) else None
    case _ => None
  }

  /** Call i has cleared the message and not yet copied its name. */
  predicate AtCopy(s: State, i: nat) {
    i < |s.calls| && s.calls[i].pc.Copy?
  }

  ghost predicate Copying(s: State) {
    exists i :: AtCopy(s, i)
  }

  lemma SizeStep(s: State, steps: seq<Step>, k: nat, size: nat)
    requires k < |steps| && Inv(s) && Enabled(s, steps[k]) && s.b.size == Pending(steps[..k], size)
    ensures Apply(s, steps[k]).b.size == Pending(steps[..k + 1], size)
  {
    assert steps[..k + 1][..k] == steps[..k];
  }

  lemma {:induction false} SizeIsPending(states: seq<State>, steps: seq<Step>, k: nat)
    requires IsTrace(states, steps) && k <= |steps|
    ensures states[k].b.size == Pending(steps[..k], states[0].b.size)
    decreases k
  {
    if k > 0 {
      SizeIsPending(states, steps, k - 1);
      InvAt(states, steps, k - 1);
      SizeStep(states[k - 1], steps, k - 1, states[0].b.size);
    }
  }

  /** Apart from completed copies the message changes only under a call about to copy. */
  ghost predicate Holds(s: State, base: seq<Byte>)
    requires base != []
  {
    s.b.message == if Copying(s) then base[0 := NUL] else base
  }

  lemma MessageStep(s: State, step: Step, base: seq<Byte>)
    requires Inv(s) && Enabled(s, step) && CopiedBy(s, step) == None && base != [] && Holds(s, base)
    ensures Holds(Apply(s, step), base)
  {
    var s' := Apply(s, step);
    if step.Advance? && s.calls[step.i].pc.Clear? {
      assert Critical(s, step.i) && AtCopy(s', step.i);
      forall j | AtCopy(s, j) ensures false {
        assert Critical(s, j);
      }
    } else {
      assert forall j :: AtCopy(s', j) <==> AtCopy(s, j);
    }
  }

  /** While a session is open nobody is copying. */
  lemma SessionNotCopying(s: State)
    requires Inv(s) && s.sessions > 0
    ensures !Copying(s)
  {
    forall j | AtCopy(s, j) ensures false {
      assert Critical(s, j);
    }
  }

  /** From step number j on, up to step number k, no copy is completed. */
  predicate NoCopy(states: seq<State>, steps: seq<Step>, j: nat, k: nat) {
    k <= |steps| < |states| && forall m :: j <= m < k ==> CopiedBy(states[m], steps[m]) == None
  }

  lemma {:induction false} MessageSince(states: seq<State>, steps: seq<Step>, j: nat, k: nat)
    requires IsTrace(states, steps) && j <= k <= |steps| && !Copying(states[j]) && NoCopy(states, steps, j, k)
    ensures states[j].b.message != [] && Holds(states[k], states[j].b.message)
    decreases k
  {
    InvAt(states, steps, j);
    if j < k {
      MessageSince(states, steps, j, k - 1);
      InvAt(states, steps, k - 1);
      MessageStep(states[k - 1], steps[k - 1], states[j].b.message);
    }
  }

  /** After a completed copy nobody is copying, and the message is the string over what was there. */
  lemma CopyStep(s: State, step: Step)
    requires Inv(s) && Enabled(s, step) && CopiedBy(s, step).Some?
    ensures !Copying(Apply(s, step)) && Fits(CopiedBy(s, step).value)
    ensures Apply(s, step).b.message == Copied(s.b, CopiedBy(s, step).value).message
  {
    var s' := Apply(s, step);
    if step.Write? {
      SessionNotCopying(s');
    } else {
      assert Critical(s, step.i);
      forall j | AtCopy(s', j) ensures false {
        assert Critical(s', j) && Critical(s', step.i);
      }
    }
  }

  /** In every run, whatever interleaves: a successful read delivers the pending number of bytes of the
      message as it was at any moment since the last completed copy when no call was copying: at the
      start of the run, if there was none. */
  lemma {:induction false} ReadSince(states: seq<State>, steps: seq<Step>, j: nat, k: nat)
    requires IsTrace(states, steps) && j <= k < |steps| && steps[k] == Read(0)
    requires !Copying(states[j]) && NoCopy(states, steps, j, k)
    ensures
      var size := Pending(steps[..k], states[0].b.size);
      && size < MESSAGE_SIZE == |states[j].b.message|
      && states[k + 1].delivered == states[k].delivered + [states[j].b.message[..size]]
  {
    InvAt(states, steps, j);
    InvAt(states, steps, k);
    MessageSince(states, steps, j, k);
    SessionNotCopying(states[k]);
    SizeIsPending(states, steps, k);
  }

  /** A successful read that follows a completed copy with no other in between delivers the pending
      number of bytes of that string, its terminator and the older bytes behind it. */
  lemma {:induction false} ReadDelivers(states: seq<State>, steps: seq<Step>, j: nat, k: nat)
    requires IsTrace(states, steps) && j < k < |steps| && steps[k] == Read(0)
    requires CopiedBy(states[j], steps[j]).Some? && NoCopy(states, steps, j + 1, k)
    ensures
      var before, last := states[j].b.message, CopiedBy(states[j], steps[j]).value;
      var size := Pending(steps[..k], states[0].b.size);
      && Fits(last) && size < MESSAGE_SIZE == |before|
      && var message := last[..StrLen(last)] + [NUL] + before[StrLen(last) + 1..];
         size <= |message| && states[k + 1].delivered == states[k].delivered + [message[..size]]
  {
    InvAt(states, steps, j);
    CopyStep(states[j], steps[j]);
    ReadSince(states, steps, j + 1, k);
  }

  /** The first size bytes after a copy are a given string exactly when size is its length and the
      string copied starts with it. */
  lemma PrefixOfCopy(b: Buffer, last: seq<Byte>, size: nat, file: seq<Byte>)
    requires |b.message| == MESSAGE_SIZE && Fits(last) && Fits(file) && size < MESSAGE_SIZE
    ensures |Copied(b, last).message| == MESSAGE_SIZE
    ensures Copied(b, last).message[..size] == file[..StrLen(file)] <==>
      size == StrLen(file) && file[..StrLen(file)] <= last[..StrLen(last)]
  {
    var n, d, m := StrLen(file), StrLen(last), Copied(b, last).message;
    CopiedString(b, last);
    if size == n && n <= d {
      assert m[..n] == last[..d][..n];
    } else if size == n {
      assert m[..n][d] == NUL && file[..n][d] == file[d];
    }
  }

  /** In every run a reader is told a given name exactly when as many bytes are pending as the name
      has and the string copied last starts with it. */
  lemma {:induction false} ToldIff(states: seq<State>, steps: seq<Step>, j: nat, k: nat, file: seq<Byte>)
    requires IsTrace(states, steps) && j < k < |steps| && steps[k] == Read(0) && Fits(file)
    requires CopiedBy(states[j], steps[j]).Some? && NoCopy(states, steps, j + 1, k)
    ensures
      var last := CopiedBy(states[j], steps[j]).value;
      && Fits(last)
      && (states[k + 1].delivered == states[k].delivered + [file[..StrLen(file)]] <==>
          Pending(steps[..k], states[0].b.size) == StrLen(file) && file[..StrLen(file)] <= last[..StrLen(last)])
  {
    ReadDelivers(states, steps, j, k);
    var last, size := CopiedBy(states[j], steps[j]).value, Pending(steps[..k], states[0].b.size);
    PrefixOfCopy(states[j].b, last, size, file);
    LastDelivered(states[k].delivered, Copied(states[j].b, last).message[..size], file[..StrLen(file)]);
  }

  lemma LastDelivered<T>(s: seq<T>, a: T, b: T)
    ensures s + [a] == s + [b] <==> a == b
  {
    assert (s + [a])[|s|] == a && (s + [b])[|s|] == b;
  }

  predicate NoWrites(steps: seq<Step>) {
    forall k :: 0 <= k < |steps| ==> !steps[k].Write?
  }

  lemma {:induction false} NothingPending(steps: seq<Step>)
    requires NoWrites(steps)
    ensures Pending(steps, 0) == 0
    decreases |steps|
  {
    if steps != [] {
      NothingPending(steps[..|steps| - 1]);
    }
  }

  /** Everything delivered since is empty. */
  predicate OnlyEmptySince(before: seq<seq<Byte>>, delivered: seq<seq<Byte>>) {
    before <= delivered && forall k :: |before| <= k < |delivered| ==> delivered[k] == []
  }

  lemma EmptyRead(s: State, step: Step, before: seq<seq<Byte>>)
    requires Inv(s) && Enabled(s, step) && s.b.size == 0 && OnlyEmptySince(before, s.delivered)
    ensures OnlyEmptySince(before, Apply(s, step).delivered)
  {
  }

  lemma {:induction false} NoNameDelivered(states: seq<State>, steps: seq<Step>, k: nat)
    requires IsTrace(states, steps) && states[0].b.size == 0 && NoWrites(steps) && k <= |steps|
    ensures states[k].b.size == 0 && OnlyEmptySince(states[0].delivered, states[k].delivered)
    decreases k
  {
    SizeIsPending(states, steps, k);
    NothingPending(steps[..k]);
    if k > 0 {
      NoNameDelivered(states, steps, k - 1);
      InvAt(states, steps, k - 1);
      EmptyRead(states[k - 1], steps[k - 1], states[0].delivered);
    }
  }

  /** The file names of intercepted opens never reach a reader on their own: without a device write,
      in every run from an empty buffer, every read delivers the empty string. */
  lemma {:induction false} NamesAreNeverDelivered(s: State, steps: seq<Step>)
    requires Inv(s) && s.b.size == 0 && CanRun(s, steps) && NoWrites(steps)
    ensures Run(s, steps).b.size == 0
    ensures OnlyEmptySince(s.delivered, Run(s, steps).delivered)
  {
    var states := RunTrace(s, steps);
    NoNameDelivered(states, steps, |steps|);
  }

  // ---- Two such runs ----

  /** The next n statements of call i. */
  function Statements(i: nat, n: nat): seq<Step> {
    if n == 0 then [] else [Advance(i)] + Statements(i, n - 1)
  }

  /** The statements of one uncontended intercepted open, up to its delegation. */
  function HookedOpen(s: State, file: seq<Byte>): seq<Step> {
    [Enter(file)] + Statements(|s.calls|, 4)
  }

  /** s with one more call, standing at pc, and buffer b. */
  function WithCall(s: State, b: Buffer, file: seq<Byte>, pc: Pc): State {
    s.(b := b, calls := s.calls + [Call(file, pc)])
  }

  lemma StatementOfLast(s: State, b: Buffer, file: seq<Byte>, pc: Pc)
    requires Inv(WithCall(s, b, file, pc)) && !pc.Done?
    ensures
      var s' := Apply(WithCall(s, b, file, pc), Advance(|s.calls|));
      match pc
      case TryLock =>
        s' == if b.locked then WithCall(s, b, file, Done(true)) else WithCall(s, b.(locked := true), file, Clear)
      case Clear => s' == WithCall(s, Cleared(b), file, Copy)
      case Copy => s' == WithCall(s, Copied(b, file), file, Unlock)
      case Unlock => s' == WithCall(s, b.(locked := false), file, Delegate)
      case Delegate => s' == WithCall(s, b, file, Done(false))
  {
    assert forall c, c' :: (s.calls + [c])[|s.calls| := c'] == s.calls + [c'];
  }

  lemma HookedOpenRuns(s: State, file: seq<Byte>)
    requires Inv(s) && !s.b.locked && Fits(file)
    ensures CanRun(s, HookedOpen(s, file))
    ensures Run(s, HookedOpen(s, file)) == WithCall(s, Copied(s.b, file), file, Delegate)
  {
    var i := |s.calls|;
    var s1 := Apply(s, Enter(file));
    assert s1 == WithCall(s, s.b, file, TryLock);
    StatementOfLast(s, s.b, file, TryLock);
    var s2 := Apply(s1, Advance(i));
    StatementOfLast(s, s2.b, file, Clear);
    var s3 := Apply(s2, Advance(i));
    StatementOfLast(s, s3.b, file, Copy);
    var s4 := Apply(s3, Advance(i));
    StatementOfLast(s, s4.b, file, Unlock);
    CopiedString(s2.b, file);
    assert Apply(s4, Advance(i)) == WithCall(s, Copied(s.b, file), file, Delegate);
    ChainFour(s1, s2, s3, s4, i);
    RunCons(s, Enter(file), Statements(i, 4));
  }

  lemma {:induction false} ChainFour(s1: State, s2: State, s3: State, s4: State, i: nat)
    requires Inv(s1) && Inv(s2) && Inv(s3) && Inv(s4)
    requires Enabled(s1, Advance(i)) && s2 == Apply(s1, Advance(i))
    requires Enabled(s2, Advance(i)) && s3 == Apply(s2, Advance(i))
    requires Enabled(s3, Advance(i)) && s4 == Apply(s3, Advance(i)) && Enabled(s4, Advance(i))
    ensures CanRun(s1, Statements(i, 4)) && Run(s1, Statements(i, 4)) == Apply(s4, Advance(i))
  {
    RunCons(s4, Advance(i), Statements(i, 0));
    RunCons(s3, Advance(i), Statements(i, 1));
    RunCons(s2, Advance(i), Statements(i, 2));
    RunCons(s1, Advance(i), Statements(i, 3));
  }

  /** A call that nothing interleaves with ends as CharDevice.NewOpen does: refused with nothing changed
      if the mutex is held. */
  lemma BusyCall(s: State, file: seq<Byte>)
    requires Inv(s) && Fits(file) && s.b.locked
    ensures CanRun(s, [Enter(file), Advance(|s.calls|)])
    ensures Run(s, [Enter(file), Advance(|s.calls|)]) == WithCall(s, s.b, file, Done(true))
  {
    var s1 := Apply(s, Enter(file));
    assert s1 == WithCall(s, s.b, file, TryLock);
    StatementOfLast(s, s.b, file, TryLock);
    RunCons(s1, Advance(|s.calls|), []);
    RunCons(s, Enter(file), [Advance(|s.calls|)]);
  }

  /** Delegated with its name in the message if the mutex is free. */
  lemma FreeCall(s: State, file: seq<Byte>)
    requires Inv(s) && Fits(file) && !s.b.locked
    ensures CanRun(s, HookedOpen(s, file))
    ensures
      var s' := Run(s, HookedOpen(s, file));
      && CanRun(s', [Advance(|s.calls|)])
      && Run(s', [Advance(|s.calls|)]) == WithCall(s, Copied(s.b, file), file, Done(false))
  {
    HookedOpenRuns(s, file);
    var s' := Run(s, HookedOpen(s, file));
    StatementOfLast(s, s'.b, file, Delegate);
    RunCons(s', Advance(|s.calls|), []);
  }

  /** A device open is always answered: refused with only the refusal counted while a session is open or
      a call is between its trylock and its unlock, and otherwise it opens a session. */
  lemma DeviceOpenIff(s: State)
    requires Inv(s)
    ensures Enabled(s, Open)
    ensures
      var s' := Apply(s, Open);
      if s.sessions > 0 || exists i :: Critical(s, i) then s' == s.(refused := s.refused + 1)
      else s' == s.(sessions := 1, b := s.b.(numberOpens := s.b.numberOpens + 1, locked := true))
  {
  }

  /** A whole session: open, write, read twice, close. It delivers the string once and leaves the mutex
      free. */
  lemma WholeSession(s: State, buffer: seq<Byte>)
    requires Inv(s) && !s.b.locked && Fits(buffer)
    ensures CanRun(s, [Open, Write(buffer), Read(0), Read(0), Release])
    ensures
      var s' := Run(s, [Open, Write(buffer), Read(0), Read(0), Release]);
      && s'.delivered == s.delivered + [buffer[..StrLen(buffer)]] + [[]]
      && s'.sessions == 0 && !s'.b.locked && s'.b.numberOpens == s.b.numberOpens + 1 && s'.calls == s.calls
  {
    var s1 := Apply(s, Open);
    var s2 := Apply(s1, Write(buffer));
    var s3 := Apply(s2, Read(0));
    var s4 := Apply(s3, Read(0));
    assert s2.b.message[..s2.b.size] == buffer[..StrLen(buffer)];
    RunCons(s4, Release, []);
    RunCons(s3, Read(0), [Release]);
    RunCons(s2, Read(0), [Read(0), Release]);
    RunCons(s1, Write(buffer), [Read(0), Read(0), Release]);
    RunCons(s, Open, [Write(buffer), Read(0), Read(0), Release]);
  }

  lemma OpenAndRead(s: State)
    requires Inv(s) && !s.b.locked
    ensures CanRun(s, [Open, Read(0)])
    ensures Run(s, [Open, Read(0)]).delivered == s.delivered + [s.b.message[..s.b.size]]
  {
    RunCons(Apply(s, Open), Read(0), []);
    RunCons(s, Open, [Read(0)]);
  }

  /** A session is read after an intercepted open that overtook it: the device's own open was
      intercepted earlier and only its delegation was outstanding (or it was opened by a call other
      than open). It is told the file name exactly when the last write left that many bytes to deliver. */
  lemma {:induction false} OvertakenSessionIff(s: State, file: seq<Byte>)
    requires Inv(s) && !s.b.locked && Fits(file)
    ensures CanRun(s, HookedOpen(s, file))
    ensures
      var s' := Run(s, HookedOpen(s, file));
      var told := s'.b.message[..s'.b.size];
      && CanRun(s', [Open, Read(0)]) && Run(s', [Open, Read(0)]).delivered == s.delivered + [told]
      && (told == file[..StrLen(file)] <==> s.b.size == StrLen(file))
  {
    HookedOpenRuns(s, file);
    OpenAndRead(Run(s, HookedOpen(s, file)));
    CopiedString(s.b, file);
    PrefixOfCopy(s.b, file, s.b.size, file);
  }

  /** An intercepted open, then a reader that opens the device by open(2), which is intercepted as
      well and leaves the device's own path in the message: the reader is told the file's name exactly
      when the last write left that many bytes to deliver and the name is a prefix of that path. */
  lemma {:induction false} NameDeliveredIff(s: State, file: seq<Byte>, device: seq<Byte>)
    requires Inv(s) && !s.b.locked && Fits(file) && Fits(device)
    ensures CanRun(s, HookedOpen(s, file))
    ensures
      var s1 := Run(s, HookedOpen(s, file));
      CanRun(s1, HookedOpen(s1, device)) &&
      var s2 := Run(s1, HookedOpen(s1, device));
      var told := s2.b.message[..s2.b.size];
      && CanRun(s2, [Open, Read(0)]) && Run(s2, [Open, Read(0)]).delivered == s.delivered + [told]
      && (told == file[..StrLen(file)] <==>
          s.b.size == StrLen(file) && file[..StrLen(file)] <= device[..StrLen(device)])
  {
    HookedOpenRuns(s, file);
    var s1 := Run(s, HookedOpen(s, file));
    HookedOpenRuns(s1, device);
    OpenAndRead(Run(s1, HookedOpen(s1, device)));
    CopiedString(s.b, file);
    PrefixOfCopy(Copied(s.b, file), device, s.b.size, file);
  }
}
