/** The helper's walk while other actors change the file system: which of its files it gets to. */
module HelperWalk {
  import opened CString
  import opened Scanner
  import opened Driver
  import opened OnAccess
  import opened OnAccessInvariant
  import opened OnAccessProperties
  import opened EndToEndExact

  /** The helper of call i is at this stage with a file of its work. */
  predicate AtStage(s: State, i: nat, stage: Stage) {
    Helping(s, i) && s.calls[i].pc.helper.work != [] && s.calls[i].pc.helper.stage == stage
  }

  /** The files that the helper of call i checked against the whitelist during the run, in order. */
  ghost function Checked(env: Env, uid: nat, s: State, steps: seq<Step>, i: nat): seq<string>
    requires ValidEnv(env) && CanRun(env, uid, s, steps)
    decreases |steps|
  {
    if steps == [] then []
    else
      var rest := Checked(env, uid, Apply(env, uid, s, steps[0]), steps[1..], i);
      if steps[0] == HelperStep(i) && AtStage(s, i, Check) then [s.calls[i].pc.helper.work[0]] + rest else rest
  }

  /** The helper goes to open a file that passed its check, cannot, and has more files to visit. */
  predicate VanishesAt(env: Env, uid: nat, s: State, step: Step, i: nat) {
    && step == HelperStep(i) && AtStage(s, i, Open) && |s.calls[i].pc.helper.work| > 1
    && !CanOpen(env, uid, s.fs, s.calls[i].pc.helper.work[0])
  }

  ghost predicate Vanished(env: Env, uid: nat, s: State, steps: seq<Step>, i: nat)
    requires ValidEnv(env) && CanRun(env, uid, s, steps)
    decreases |steps|
  {
    steps != [] &&
    (VanishesAt(env, uid, s, steps[0], i) || Vanished(env, uid, Apply(env, uid, s, steps[0]), steps[1..], i))
  }

  /** The files the helper has still to check if nothing ends its walk early. */
  function Unchecked(h: Helper): seq<string> {
    if h.work == [] || h.stage == Check then h.work else h.work[1..]
  }

  /** Only the helper's own actions move it along its work. */
  lemma OtherStep(env: Env, uid: nat, s: State, step: Step, i: nat)
    requires ValidEnv(env) && Helping(s, i) && Enabled(s, step) && step != HelperStep(i) && step != HelperExit(i)
    ensures
      var s' := Apply(env, uid, s, step);
      Helping(s', i) && s'.calls[i].pc.helper == s.calls[i].pc.helper.(opens := s'.calls[i].pc.helper.opens)
  {
  }

  lemma ActionUnchecked(env: Env, uid: nat, fs: FileSystem, h: Helper)
    requires ValidEnv(env) && h.work != []
    ensures
      var u, u' := Unchecked(h), Unchecked(HelperAction(env, uid, fs, h).1);
      if h.stage == Check then u == [h.work[0]] + u'
      else if h.stage == Open && |h.work| > 1 && !CanOpen(env, uid, fs, h.work[0]) then u != [] && u' == []
      else u == u'
  {
  }

  lemma OwnStep(env: Env, uid: nat, s: State, i: nat)
    requires ValidEnv(env) && Enabled(s, HelperStep(i))
    ensures
      var s' := Apply(env, uid, s, HelperStep(i));
      Helping(s', i) &&
      var u, u' := Unchecked(s.calls[i].pc.helper), Unchecked(s'.calls[i].pc.helper);
      if AtStage(s, i, Check) then u == [s.calls[i].pc.helper.work[0]] + u'
      else if VanishesAt(env, uid, s, HelperStep(i), i) then u != [] && u' == []
      else u == u'
  {
    ActionUnchecked(env, uid, s.fs, s.calls[i].pc.helper);
  }

  /** A helper followed to its exit checks exactly its files in order, if and only if no file but the
      last becomes impossible to open between its check and its open; then the walk has returned FAIL
      and the files after it are left out. Any other actor may act in between. */
  lemma {:induction false} ChecksAllIff(env: Env, uid: nat, s: State, steps: seq<Step>, i: nat)
    requires ValidEnv(env) && CanRun(env, uid, s, steps) && Helping(s, i) && HelperExit(i) !in steps
    requires Enabled(Run(env, uid, s, steps), HelperExit(i))
    ensures Checked(env, uid, s, steps, i) <= Unchecked(s.calls[i].pc.helper)
    ensures Checked(env, uid, s, steps, i) == Unchecked(s.calls[i].pc.helper) <==> !Vanished(env, uid, s, steps, i)
    decreases |steps|
  {
    if steps != [] {
      var s' := Apply(env, uid, s, steps[0]);
      assert steps[0] in steps;
      if steps[0] == HelperStep(i) {
        OwnStep(env, uid, s, i);
      } else {
        OtherStep(env, uid, s, steps[0], i);
      }
      ChecksAllIff(env, uid, s', steps[1..], i);
      VanishedIsOver(env, uid, s', steps[1..], i);
    }
  }

  /** A helper without work meets no more files. */
  lemma {:induction false} VanishedIsOver(env: Env, uid: nat, s: State, steps: seq<Step>, i: nat)
    requires ValidEnv(env) && CanRun(env, uid, s, steps) && Helping(s, i) && HelperExit(i) !in steps
    ensures s.calls[i].pc.helper.work == [] ==> !Vanished(env, uid, s, steps, i)
    decreases |steps|
  {
    if steps != [] && s.calls[i].pc.helper.work == [] {
      assert steps[0] in steps;
      OtherStep(env, uid, s, steps[0], i);
      VanishedIsOver(env, uid, Apply(env, uid, s, steps[0]), steps[1..], i);
    }
  }

  /** A new call on file, up to the start of its helper. */
  function LaunchSteps(s: State, file: string): seq<Step> {
    [Enter(file, 0, 0), Advance(|s.calls|), Advance(|s.calls|), LaunchHelper(|s.calls|, Zeros(MAX_NAME_LEN), 0)]
  }

  lemma LaunchRuns(env: Env, uid: nat, s: State, file: string)
    requires ValidEnv(env) && Ready(s)
    ensures CanRun(env, uid, s, LaunchSteps(s, file))
    ensures Run(env, uid, s, LaunchSteps(s, file)) == Launched(env, s, file)
  {
    var i := |s.calls|;
    var launch := LaunchHelper(i, Zeros(MAX_NAME_LEN), 0);
    var s1 := Apply(env, uid, s, Enter(file, 0, 0));
    var s2 := Apply(env, uid, s1, Advance(i));
    var s3 := Apply(env, uid, s2, Advance(i));
    assert s3 == Arrived(s, file);
    assert Apply(env, uid, s3, launch) == Launched(env, s, file);
    assert CanRun(env, uid, Launched(env, s, file), []);
    RunCons(env, uid, s3, launch, []);
    RunCons(env, uid, s2, Advance(i), [launch]);
    RunCons(env, uid, s1, Advance(i), [Advance(i), launch]);
    RunCons(env, uid, s, Enter(file, 0, 0), [Advance(i), Advance(i), launch]);
  }

  lemma TraceCons(env: Env, uid: nat, s: State, step: Step, rest: seq<Step>, i: nat)
    requires ValidEnv(env) && Enabled(s, step) && CanRun(env, uid, Apply(env, uid, s, step), rest)
    ensures CanRun(env, uid, s, [step] + rest)
    ensures Run(env, uid, s, [step] + rest) == Run(env, uid, Apply(env, uid, s, step), rest)
    ensures
      var s' := Apply(env, uid, s, step);
      && (Vanished(env, uid, s, [step] + rest, i) <==>
           VanishesAt(env, uid, s, step, i) || Vanished(env, uid, s', rest, i))
      && Checked(env, uid, s, [step] + rest, i) ==
           if step == HelperStep(i) && AtStage(s, i, Check)
           then [s.calls[i].pc.helper.work[0]] + Checked(env, uid, s', rest, i)
           else Checked(env, uid, s', rest, i)
  {
    assert ([step] + rest)[1..] == rest;
  }

  /** The helper's check of a file, its removal by another program, and the helper's attempt to open it. */
  function VanishSteps(s: State, i: nat, x: string): seq<Step> {
    [HelperStep(i), World(s.fs - {x}), HelperStep(i)]
  }

  /** Such a run, from any loaded and idle state: a new call on a directory starts its helper, another
      program removes the first file between its check and its open, and the helper is ready to exit
      with the other files unchecked. */
  lemma VanishingRun(env: Env, uid: nat, s: State, dir: string)
    requires ValidEnv(env) && Ready(s) && |Targets(env, dir)| > 1
    requires WhitelistCode(env, uid, s.fs, Targets(env, dir)[0]) == 0
    ensures CanRun(env, uid, s, LaunchSteps(s, dir))
    ensures
      var launched, i, x := Run(env, uid, s, LaunchSteps(s, dir)), |s.calls|, Targets(env, dir)[0];
      var steps := VanishSteps(s, i, x);
      && Helping(launched, i) && launched.calls[i].pc.helper.work == Targets(env, dir)
      && CanRun(env, uid, launched, steps) && Enabled(Run(env, uid, launched, steps), HelperExit(i))
      && Vanished(env, uid, launched, steps, i) && Checked(env, uid, launched, steps, i) == [x]
  {
    LaunchRuns(env, uid, s, dir);
    VanishAfterLaunch(env, uid, Launched(env, s, dir), |s.calls|);
  }

  lemma VanishAfterLaunch(env: Env, uid: nat, s: State, i: nat)
    requires ValidEnv(env) && AtStage(s, i, Check) && |s.calls[i].pc.helper.work| > 1
    requires WhitelistCode(env, uid, s.fs, s.calls[i].pc.helper.work[0]) == 0
    ensures
      var x := s.calls[i].pc.helper.work[0];
      var steps := VanishSteps(s, i, x);
      && CanRun(env, uid, s, steps) && Enabled(Run(env, uid, s, steps), HelperExit(i))
      && Vanished(env, uid, s, steps, i) && Checked(env, uid, s, steps, i) == [x]
  {
    var x := s.calls[i].pc.helper.work[0];
    var fs := s.fs - {x};
    var s1 := Apply(env, uid, s, HelperStep(i));
    var s2 := Apply(env, uid, s1, World(fs));
    var s3 := Apply(env, uid, s2, HelperStep(i));
    assert CanRun(env, uid, s3, []) && Run(env, uid, s3, []) == s3 && Checked(env, uid, s3, [], i) == [];
    TraceCons(env, uid, s2, HelperStep(i), [], i);
    TraceCons(env, uid, s1, World(fs), [HelperStep(i)], i);
    TraceCons(env, uid, s, HelperStep(i), [World(fs), HelperStep(i)], i);
  }

  // ---- Without outside changes ----

  /** A file that passed its check can still be opened. */
  predicate OpenOk(env: Env, uid: nat, s: State, i: nat) {
    AtStage(s, i, Open) ==> CanOpen(env, uid, s.fs, s.calls[i].pc.helper.work[0])
  }

  lemma StepKeepsOpenOk(env: Env, uid: nat, s: State, step: Step, native: Handler, page: Pte, i: nat)
    requires ValidEnv(env) && Inv(s, native, page) && Enabled(s, step) && !step.World? && step != HelperExit(i)
    requires Helping(s, i) && OpenOk(env, uid, s, i)
    ensures OpenOk(env, uid, Apply(env, uid, s, step), i)
  {
    if step != HelperStep(i) {
      OtherStep(env, uid, s, step, i);
      if step.HelperStep? { assert Critical(s, i) && Critical(s, step.i); }
    }
  }

  /** While only the hook and its helpers change the file system, no helper loses a file: mutual
      exclusion keeps other helpers out. */
  lemma {:induction false} OwnFilesNeverVanish(
      env: Env, uid: nat, s: State, steps: seq<Step>, native: Handler, page: Pte, i: nat)
    requires ValidEnv(env) && Inv(s, native, page) && DisciplinedRun(env, uid, s, steps)
    requires Helping(s, i) && OpenOk(env, uid, s, i)
    requires HelperExit(i) !in steps && forall k :: 0 <= k < |steps| ==> !steps[k].World?
    ensures CanRun(env, uid, s, steps) && !Vanished(env, uid, s, steps, i)
    decreases |steps|
  {
    RunKeeps(env, uid, s, steps, native, page);
    if steps != [] {
      var s' := Apply(env, uid, s, steps[0]);
      assert steps[0] in steps;
      StepKeeps(env, uid, s, steps[0], native, page);
      StepKeepsOpenOk(env, uid, s, steps[0], native, page, i);
      if steps[0] == HelperStep(i) {
        OwnStep(env, uid, s, i);
      } else {
        OtherStep(env, uid, s, steps[0], i);
      }
      OwnFilesNeverVanish(env, uid, s', steps[1..], native, page, i);
    }
  }

  // ---- What a helper changes ----

  /** At this step the helper of call i renames the file it is at. */
  ghost predicate RenamesAt(env: Env, uid: nat, states: seq<State>, steps: seq<Step>, i: nat, k: nat)
    requires ValidEnv(env) && |states| == |steps| + 1 && k < |steps|
  {
    && steps[k] == HelperStep(i) && AtStage(states[k], i, Rename)
    && var x, fs := states[k].calls[i].pc.helper.work[0], states[k].fs;
       x in fs && states[k + 1].fs == (fs - {x})[x + INFECTED := fs[x]]
  }

  /** The helper of call i takes no action from step number lo up to step number hi. */
  predicate Idle(steps: seq<Step>, i: nat, lo: nat, hi: nat) {
    hi <= |steps| && forall m :: lo <= m < hi ==> steps[m] != HelperStep(i)
  }

  /** The last action of the helper was to rename x. */
  ghost predicate JustRenamed(env: Env, uid: nat, states: seq<State>, steps: seq<Step>, i: nat, k: nat, x: string)
    requires ValidEnv(env) && |states| == |steps| + 1 && k <= |steps|
  {
    exists r :: 0 <= r < k && RenamesAt(env, uid, states, steps, i, r) &&
      states[r].calls[i].pc.helper.work[0] == x && Idle(steps, i, r + 1, k)
  }

  /** A file that is gone when its rename is due is passed by. */
  lemma RenameStage(env: Env, uid: nat, fs: FileSystem, h: Helper)
    requires ValidEnv(env) && h.work != [] && h.stage == Rename
    ensures
      var x, r := h.work[0], HelperAction(env, uid, fs, h);
      if x in fs && env.renames(x) then r == ((fs - {x})[x + INFECTED := fs[x]], h.(stage := Chmod))
      else r == (fs, h.(work := h.work[1..], stage := Check))
  {
  }

  /** What one action of a helper changes, by its stage. */
  lemma ActionChanges(env: Env, uid: nat, s: State, i: nat)
    requires ValidEnv(env) && Enabled(s, HelperStep(i))
    ensures
      var h, s' := s.calls[i].pc.helper, Apply(env, uid, s, HelperStep(i));
      var x := h.work[0];
      && (AtStage(s', i, Chmod) ==>
           AtStage(s, i, Rename) && x in s.fs && s'.fs == (s.fs - {x})[x + INFECTED := s.fs[x]] &&
           s'.calls[i].pc.helper.work == h.work)
      && (s'.fs != s.fs ==>
           || (AtStage(s, i, Rename) && x in s.fs && s'.fs == (s.fs - {x})[x + INFECTED := s.fs[x]])
           || (AtStage(s, i, Chmod) && x + INFECTED in s.fs &&
               s'.fs == s.fs[x + INFECTED := s.fs[x + INFECTED].(mode := 0)]))
  {
  }

  lemma OtherStepStage(env: Env, uid: nat, s: State, step: Step, i: nat)
    requires ValidEnv(env) && Enabled(s, step) && step != HelperStep(i)
    ensures
      var s' := Apply(env, uid, s, step);
      AtStage(s', i, Chmod) ==> AtStage(s, i, Chmod) && s'.calls[i].pc.helper.work == s.calls[i].pc.helper.work
  {
    if step.Advance? { StatementOnCall(s, step.i); }
  }

  /** A helper about to lock a file has just renamed it, however many steps of others ago. */
  lemma {:induction false} LockFollowsRename(
      env: Env, uid: nat, states: seq<State>, steps: seq<Step>, i: nat, k: nat)
    requires ValidEnv(env) && IsTrace(env, uid, states, steps) && k <= |steps| && !AtStage(states[0], i, Chmod)
    requires AtStage(states[k], i, Chmod)
    ensures JustRenamed(env, uid, states, steps, i, k, states[k].calls[i].pc.helper.work[0])
    decreases k
  {
    assert StepAt(env, uid, states, steps, k - 1);
    if steps[k - 1] == HelperStep(i) {
      ActionChanges(env, uid, states[k - 1], i);
      assert RenamesAt(env, uid, states, steps, i, k - 1) && Idle(steps, i, k, k);
    } else {
      OtherStepStage(env, uid, states[k - 1], steps[k - 1], i);
      LockFollowsRename(env, uid, states, steps, i, k - 1);
      var x := states[k].calls[i].pc.helper.work[0];
      var r :| 0 <= r < k - 1 && RenamesAt(env, uid, states, steps, i, r) &&
        states[r].calls[i].pc.helper.work[0] == x && Idle(steps, i, r + 1, k - 1);
      assert Idle(steps, i, r + 1, k);
    }
  }

  /** In every run a helper's action either leaves the file system alone, or renames a file to its
      quarantine name, or sets to 0 the mode of the very path to which its own previous action renamed. */
  lemma HelperChanges(env: Env, uid: nat, states: seq<State>, steps: seq<Step>, i: nat, k: nat)
    requires ValidEnv(env) && IsTrace(env, uid, states, steps) && k < |steps| && !AtStage(states[0], i, Chmod)
    requires steps[k] == HelperStep(i) && states[k + 1].fs != states[k].fs
    ensures
      var fs, fs' := states[k].fs, states[k + 1].fs;
      || RenamesAt(env, uid, states, steps, i, k)
      || exists x :: JustRenamed(env, uid, states, steps, i, k, x) &&
           x + INFECTED in fs && fs' == fs[x + INFECTED := fs[x + INFECTED].(mode := 0)]
  {
    assert StepAt(env, uid, states, steps, k);
    ActionChanges(env, uid, states[k], i);
    if AtStage(states[k], i, Chmod) {
      LockFollowsRename(env, uid, states, steps, i, k);
    }
  }
}
