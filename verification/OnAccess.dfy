/** The open() hook: kernel globals, the code of new_open cut into its atomic statements, the
    scanner it launches, and all interleavings of any number of calls. */
module OnAccess {
  import opened CString
  import opened Stdio
  import opened Scanner
  import opened Driver

  // ---- Kernel globals ----

  /** What a system call table entry can point to. */
  datatype Handler = Kernel(id: nat) | Hook

  /** A page table entry: its read-write bit and the value of all its other bits. */
  datatype Pte = Pte(rw: bool, rest: nat)

  function SetRw(pte: Pte): Pte {
    if pte.rest != 0 then pte.(rw := true) else pte
  }

  function SetRo(pte: Pte): Pte {
    pte.(rw := false)
  }

  /** fault: the kernel was made to store into the write-protected table. */
  datatype Globals = Globals(table: Handler, oldOpen: Handler, locked: bool, pte: Pte, fault: bool)

  function Store(g: Globals, h: Handler): Globals {
    if g.pte.rw then g.(table := h) else g.(fault := true)
  }

  function Unprotect(g: Globals): Globals {
    g.(locked := false, pte := SetRw(g.pte))
  }

  function Load(g: Globals): Globals {
    var g' := Unprotect(g);
    Store(g'.(oldOpen := g'.table), Hook)
  }

  function Unload(g: Globals): Globals {
    var g' := Store(g, g.oldOpen);
    g'.(pte := SetRo(g'.pte))
  }

  /** The file system after the scanner ran on a path. */
  ghost function Scanned(env: Env, uid: nat, fs: FileSystem, name: NameBuffer, path: string): FileSystem
    requires ValidEnv(env)
  {
    VisitAll(env, uid, Walk(fs, name, SUCCESS), Targets(env, path)).fs
  }

  /** What a call does to the mutex and the table, and the scan it waits for. */
  datatype Event = Tried(acquired: bool) | Stored(handler: Handler) | Ran(file: string) | Released

  /** The order in which new_open does these things. */
  function CallEvents(locked: bool, oldOpen: Handler, file: string, started: bool): seq<Event> {
    if locked then [Tried(false)]
    else [Tried(true), Stored(oldOpen)] + (if started then [Ran(file)] else []) + [Stored(Hook), Released]
  }

  class KernelModule {
    var sys_call_table: Handler
    var old_open: Handler
    var antv_mutex: bool
    var pte: Pte
    var fault: bool
    ghost var log: seq<Event>

    ghost function View(): Globals
      reads this
    {
      Globals(sys_call_table, old_open, antv_mutex, pte, fault)
    }

    method SetAddrRw()
      modifies this`pte
      ensures View() == old(View()).(pte := SetRw(old(pte)))
    {
      if pte.rest != 0 { pte := pte.(rw := true); }
    }

    method SetAddrRo()
      modifies this`pte
      ensures View() == old(View()).(pte := SetRo(old(pte)))
    {
      pte := pte.(rw := false);
    }

    method StoreEntry(h: Handler)
      modifies this
      ensures View() == Store(old(View()), h) && log == old(log) + [Stored(h)]
    {
      log := log + [Stored(h)];
      if pte.rw { sys_call_table := h; } else { fault := true; }
    }

    method MutexTrylock() returns (acquired: bool)
      modifies this`antv_mutex, this`log
      ensures acquired == !old(antv_mutex) && View() == old(View()).(locked := true)
      ensures log == old(log) + [Tried(acquired)]
    {
      acquired := !antv_mutex;
      log := log + [Tried(acquired)];
      antv_mutex := true;
    }

    method MutexUnlock()
      modifies this`antv_mutex, this`log
      ensures View() == old(View()).(locked := false) && log == old(log) + [Released]
    {
      log := log + [Released];
      antv_mutex := false;
    }

    method Init()
      modifies this
      ensures View() == Load(old(View()))
    {
      antv_mutex := false;
      SetAddrRw();
      old_open := sys_call_table;
      StoreEntry(Hook);
    }

    method Cleanup()
      modifies this
      ensures View() == Unload(old(View()))
    {
      StoreEntry(old_open);
      SetAddrRo();
    }

    /** call_usermodehelper on the scanner, waiting for its end. */
    method RunHelper(host: Host, virus_name: array<Byte>, starts: bool, filename: string)
      requires ValidEnv(host.env) && virus_name.Length == MAX_NAME_LEN
      modifies this`log, host, virus_name
      ensures log == old(log) + if starts then [Ran(filename)] else []
      ensures host.euid == old(host.euid)
      ensures host.fs ==
        if starts then Scanned(host.env, host.euid, old(host.fs), old(virus_name[..]), filename) else old(host.fs)
    {
      if starts {
        var cu := host.OnDemand(filename, virus_name);
        log := log + [Ran(filename)];
      }
    }

    /** new_open with no other call in flight: the scanner, if it starts, runs to completion in the middle. */
    method NewOpen(host: Host, virus_name: array<Byte>, starts: bool, filename: string, flags: int, mode: int)
      returns (r: Result)
      requires ValidEnv(host.env) && virus_name.Length == MAX_NAME_LEN && pte.rw
      modifies this, host, virus_name
      ensures old(antv_mutex) ==> r == Busy && View() == old(View()) && host.fs == old(host.fs)
      ensures !old(antv_mutex) ==>
        r == Delegated(old_open, filename, flags, mode) && View() == old(View()).(table := Hook)
      ensures !old(antv_mutex) ==>
        host.fs ==
          if starts then Scanned(host.env, host.euid, old(host.fs), old(virus_name[..]), filename) else old(host.fs)
      ensures host.euid == old(host.euid)
      ensures log == old(log) + CallEvents(old(antv_mutex), old(old_open), filename, starts)
    {
      var acquired := MutexTrylock();
      if !acquired { return Busy; }
      StoreEntry(old_open);
      RunHelper(host, virus_name, starts, filename);
      StoreEntry(Hook);
      MutexUnlock();
      return Delegated(old_open, filename, flags, mode);
    }
  }

  /** On a page that is present or writable anyway loading installs the hook and keeps the old entry,
      without a fault; otherwise the store faults and the entry stays. */
  lemma LoadMeaning(g: Globals)
    ensures !Load(g).locked && Load(g).oldOpen == g.table && Load(g).pte.rest == g.pte.rest
    ensures
      if g.pte.rest != 0 || g.pte.rw then Load(g).table == Hook && Load(g).pte.rw && Load(g).fault == g.fault
      else Load(g).table == g.table && !Load(g).pte.rw && Load(g).fault
  {
  }

  /** Unloading stores the saved entry back if the page is writable, and leaves the page protected. */
  lemma UnloadMeaning(g: Globals)
    ensures Unload(g).pte == Pte(false, g.pte.rest)
    ensures Unload(g).oldOpen == g.oldOpen && Unload(g).locked == g.locked
    ensures
      if g.pte.rw then Unload(g).table == g.oldOpen && Unload(g).fault == g.fault
      else Unload(g).table == g.table && Unload(g).fault
  {
  }

  /** Loading and then unloading, with no call in between, on a present page (some other bit of
      its entry is set): the table entry is always given back and no store faults; the page
      protection is given back exactly when the page was read-only before. */
  lemma LoadUnload(g: Globals)
    requires g.pte.rest != 0
    ensures Unload(Load(g)).table == g.table && Unload(Load(g)).fault == g.fault
    ensures Unload(Load(g)).pte == g.pte <==> !g.pte.rw
  {
    assert Load(g).table == Hook && Load(g).oldOpen == g.table;
  }

  // ---- Calls and the helper process ----

  datatype Result = Busy | Delegated(handler: Handler, file: string, flags: int, mode: int)

  /** Where the helper stands with the first file of work. */
  datatype Stage = Check | Open | Rename | Chmod

  /** The scanner process: its argument, the files still to visit, and how many further opens it
      and its children issue before it ends. */
  datatype Helper = Helper(arg: string, work: seq<string>, stage: Stage, name: NameBuffer, opens: nat)

  datatype Pc =
    | TryLock
    | SwapOut
    | Launch
    | Waiting(helper: Helper)
    | SwapIn
    | Unlock
    | Delegate
    | Done(result: Result)

  /** One open() system call. hooked: it was dispatched to new_open; runs: arguments of the helper
      runs it completed; failed: its helper could not be started; writes: its stores to the table. */
  datatype Call = Call(
    file: string, flags: int, mode: int, hooked: bool, pc: Pc, runs: seq<string>, failed: bool, writes: nat)

  datatype Phase = Off | Unprotected | Saved | Loaded | Unhooked

  /** nested: some open issued by a helper was dispatched to new_open. */
  datatype State = State(g: Globals, phase: Phase, calls: seq<Call>, fs: FileSystem, nested: bool)

  datatype Step =
    | InitUnprotect | InitSave | InitHook
    | CleanUnhook | CleanProtect
    | Enter(file: string, flags: int, mode: int)
    | Advance(i: nat)
    | LaunchHelper(i: nat, name: NameBuffer, opens: nat)
    | LaunchFails(i: nat)
    | HelperOpens(i: nat)
    | HelperStep(i: nat)
    | HelperExit(i: nat)
    | World(fs: FileSystem)

  /** One action of the helper on the first file of its work, as on_demand performs it. */
  ghost function HelperAction(env: Env, uid: nat, fs: FileSystem, h: Helper): (r: (FileSystem, Helper))
    requires ValidEnv(env) && h.work != []
    ensures r.1.arg == h.arg
  {
    var x := h.work[0];
    var next := h.(work := h.work[1..], stage := Check);
    match h.stage
    case Check =>
      if WhitelistCode(env, uid, fs, x) == 0 then (fs, h.(stage := Open)) else (fs, next)
    case Open =>
      if !CanOpen(env, uid, fs, x) then (fs, h.(work := [], stage := Check))
      else if !fs[x].loadable then (fs, next)
      else
        var name := NameAfterScan(fs[x].content, Lines(env.database), h.name);
        if name[0] == NUL then (fs, next.(name := name)) else (fs, h.(stage := Rename, name := name))
    case Rename =>
      if x in fs && env.renames(x) then (Renamed(fs, x), h.(stage := Chmod)) else (fs, next)
    case Chmod =>
      var t := x + INFECTED;
      (if t in fs && env.chmods(RaisedUid(env, uid), t) then Locked(fs, t) else fs, next)
  }

  predicate At(s: State, i: nat, pcs: set<Pc>) {
    i < |s.calls| && s.calls[i].pc in pcs
  }

  predicate Helping(s: State, i: nat) {
    i < |s.calls| && s.calls[i].pc.Waiting?
  }

  predicate Enabled(s: State, step: Step) {
    match step
    case InitUnprotect => s.phase == Off
    case InitSave => s.phase == Unprotected
    case InitHook => s.phase == Saved
    case CleanUnhook => s.phase == Loaded
    case CleanProtect => s.phase == Unhooked
    case Enter(_, _, _) => true
    case Advance(i) => At(s, i, {TryLock, SwapOut, SwapIn, Unlock, Delegate})
    case LaunchHelper(i, _, _) => At(s, i, {Launch})
    case LaunchFails(i) => At(s, i, {Launch})
    case HelperOpens(i) => Helping(s, i) && s.calls[i].pc.helper.opens > 0
    case HelperStep(i) => Helping(s, i) && s.calls[i].pc.helper.work != []
    case HelperExit(i) => Helping(s, i) && s.calls[i].pc.helper.work == []
    case World(_) => true
  }

  function WithCall(s: State, i: nat, c: Call): State
    requires i < |s.calls|
  {
    s.(calls := s.calls[i := c])
  }

  /** The next statement of new_open for call i. */
  function Statement(s: State, i: nat): State
    requires At(s, i, {TryLock, SwapOut, SwapIn, Unlock, Delegate})
  {
    var c := s.calls[i];
    match c.pc
    case TryLock =>
      if s.g.locked then WithCall(s, i, c.(pc := Done(Busy)))
      else WithCall(s, i, c.(pc := SwapOut)).(g := s.g.(locked := true))
    case SwapOut =>
      WithCall(s, i, c.(pc := Launch, writes := c.writes + 1)).(g := Store(s.g, s.g.oldOpen))
    case SwapIn =>
      WithCall(s, i, c.(pc := Unlock, writes := c.writes + 1)).(g := Store(s.g, Hook))
    case Unlock =>
      WithCall(s, i, c.(pc := Delegate)).(g := s.g.(locked := false))
    case Delegate =>
      WithCall(s, i, c.(pc := Done(Delegated(s.g.oldOpen, c.file, c.flags, c.mode))))
  }

  /** A system call dispatched through the table. */
  function Dispatch(s: State, file: string, flags: int, mode: int): Call {
    if s.g.table == Hook then Call(file, flags, mode, true, TryLock, [], false, 0)
    else Call(file, flags, mode, false, Done(Delegated(s.g.table, file, flags, mode)), [], false, 0)
  }

  ghost function Apply(env: Env, uid: nat, s: State, step: Step): State
    requires ValidEnv(env) && Enabled(s, step)
  {
    match step
    case InitUnprotect => s.(g := Unprotect(s.g), phase := Unprotected)
    case InitSave => s.(g := s.g.(oldOpen := s.g.table), phase := Saved)
    case InitHook => s.(g := Store(s.g, Hook), phase := Loaded)
    case CleanUnhook => s.(g := Store(s.g, s.g.oldOpen), phase := Unhooked)
    case CleanProtect => s.(g := s.g.(pte := SetRo(s.g.pte)), phase := Off)
    case Enter(file, flags, mode) => s.(calls := s.calls + [Dispatch(s, file, flags, mode)])
    case Advance(i) => Statement(s, i)
    case LaunchHelper(i, name, opens) =>
      var c := s.calls[i];
      WithCall(s, i, c.(pc := Waiting(Helper(c.file, Targets(env, c.file), Check, name, opens))))
    case LaunchFails(i) => WithCall(s, i, s.calls[i].(pc := SwapIn, failed := true))
    case HelperOpens(i) =>
      var h := s.calls[i].pc.helper;
      WithCall(s, i, s.calls[i].(pc := Waiting(h.(opens := h.opens - 1)))).(nested := s.nested || s.g.table == Hook)
    case HelperStep(i) =>
      var (fs', h') := HelperAction(env, uid, s.fs, s.calls[i].pc.helper);
      WithCall(s, i, s.calls[i].(pc := Waiting(h'))).(fs := fs', nested := s.nested || s.g.table == Hook)
    case HelperExit(i) =>
      var c := s.calls[i];
      WithCall(s, i, c.(pc := SwapIn, runs := c.runs + [c.pc.helper.arg]))
    case World(fs) => s.(fs := fs)
  }

  ghost predicate CanRun(env: Env, uid: nat, s: State, steps: seq<Step>)
    requires ValidEnv(env)
    decreases |steps|
  {
    steps == [] || (Enabled(s, steps[0]) && CanRun(env, uid, Apply(env, uid, s, steps[0]), steps[1..]))
  }

  ghost function Run(env: Env, uid: nat, s: State, steps: seq<Step>): State
    requires ValidEnv(env) && CanRun(env, uid, s, steps)
    decreases |steps|
  {
    if steps == [] then s else Run(env, uid, Apply(env, uid, s, steps[0]), steps[1..])
  }
}
