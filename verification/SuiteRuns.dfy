/** What becomes of concurrent Run calls, and that nothing hangs. Over the transition system of
    conformance/utils/suite/suite.go. */
module SuiteRuns {
  import opened Wrappers
  import opened TestRun
  import opened SuiteLock

  // ----- When a run fails, and what it leaves -----

  /** The outcome a step supplies to a run: that of one of its test bodies. */
  function Supplied(s: State, step: Step, id: nat): seq<bool>
  {
    if step.Advance? && step.id == id && id in s.calls && s.calls[id].RunTesting? && |s.calls[id].passes| < |s.calls[id].tests|
    then [step.passes] else []
  }

  /** All outcomes the steps have supplied to a run, in order. */
  function Outcomes(c: Config, steps: seq<Step>, id: nat): seq<bool>
  {
    if steps == [] then []
    else
      var before := steps[..|steps| - 1];
      Outcomes(c, before, id) + if After(c, before).None? then [] else Supplied(After(c, before).value, steps[|steps| - 1], id)
  }

  /** A run that has just got the lock is turned away if and only if another run is in progress. */
  lemma RunRejectedIffBusy(c: Config, steps: seq<Step>, id: nat, passes: bool, name: string)
    requires After(c, steps).Some? && id in After(c, steps).value.calls && After(c, steps).value.calls[id].RunLocked?
    ensures var s := After(c, steps).value;
            var next := Next(c, s, Advance(id, passes, name));
            && next.Some? && id in next.value.calls
            && (next.value.calls[id] == RunRejecting <==> exists other | other in s.calls :: other != id && InProgress(s.calls[other]))
            && (next.value.calls[id] == RunMarked(s.calls[id].tests) <==> !exists other | other in s.calls :: other != id && InProgress(s.calls[other]))
  {
    ReachableInv(c, steps);
    RunningIffBusy(c, After(c, steps).value);
  }

  /** What may have become of a run of these tests that got the lock with `busy` saying whether another
      run was in progress and `n` runs finished, and that has been supplied these outcomes. */
  predicate RunFate(s: State, id: nat, tests: seq<Test>, busy: bool, n: nat, outcomes: seq<bool>)
  {
    id in s.calls &&
    match s.calls[id]
    case RunLocked(ts) => ts == tests && s.running == busy && |s.finished| == n && outcomes == []
    case RunRejecting => busy
    case RunFailed => busy
    case RunMarked(ts) => !busy && ts == tests && |s.finished| == n && outcomes == []
    case RunCleared(ts) => !busy && ts == tests && |s.finished| == n && outcomes == []
    case RunTesting(ts, done) => !busy && ts == tests && |s.finished| == n && done == outcomes
    case RunRelocked(ts, done) => !busy && ts == tests && |s.finished| == n && done == outcomes
    case RunUnmarked(ts, done) => !busy && ts == tests && |s.finished| == n && done == outcomes
    case RunPublished => !busy && n < |s.finished| && s.finished[n] == Finished(tests, outcomes)
    case RunReturned => !busy && n < |s.finished| && s.finished[n] == Finished(tests, outcomes)
    case _ => false
  }

  lemma StartKeepsFate(c: Config, s: State, id: nat, tests: seq<Test>, busy: bool, n: nat, outcomes: seq<bool>)
    requires RunFate(s, id, tests, busy, n, outcomes) && Starting(s.calls[id]) && AdvanceStart(s, id).Some?
    ensures RunFate(AdvanceStart(s, id).value, id, tests, busy, n, outcomes)
  {
  }

  lemma FinishKeepsFate(c: Config, s: State, step: Step, tests: seq<Test>, busy: bool, n: nat, outcomes: seq<bool>)
    requires step.Advance? && RunFate(s, step.id, tests, busy, n, outcomes) && AdvanceFinish(c, s, step.id, step.passes).Some?
    ensures RunFate(AdvanceFinish(c, s, step.id, step.passes).value, step.id, tests, busy, n, outcomes + Supplied(s, step, step.id))
  {
    assert outcomes + [] == outcomes;
  }

  lemma OwnRunStep(c: Config, s: State, step: Step, tests: seq<Test>, busy: bool, n: nat, outcomes: seq<bool>)
    requires step.Advance? && Next(c, s, step).Some? && RunFate(s, step.id, tests, busy, n, outcomes)
    ensures RunFate(Next(c, s, step).value, step.id, tests, busy, n, outcomes + Supplied(s, step, step.id))
  {
    if Starting(s.calls[step.id]) {
      StartKeepsFate(c, s, step.id, tests, busy, n, outcomes);
      assert outcomes + [] == outcomes;
    } else {
      FinishKeepsFate(c, s, step, tests, busy, n, outcomes);
    }
  }

  /** While a run owns the suite or holds the lock, no other call finishes a run, and while it holds the
      lock none changes the flag. */
  lemma OthersFinishNothing(c: Config, s: State, step: Step, id: nat)
    requires Inv(c, s) && Next(c, s, step).Some? && id in s.calls && (Owns(s.calls[id]) || HoldsWrite(s.calls[id]))
    requires !(step.Advance? && step.id == id)
    ensures Next(c, s, step).value.finished == s.finished
    ensures HoldsWrite(s.calls[id]) ==> Next(c, s, step).value.running == s.running
  {
    assert CallInv(c, s, id, s.calls[id]);
    if step.Advance? && step.id in s.calls {
      assert CallInv(c, s, step.id, s.calls[step.id]);
    }
  }

  lemma StepKeepsRunFate(c: Config, s: State, step: Step, id: nat, tests: seq<Test>, busy: bool, n: nat, outcomes: seq<bool>)
    requires Inv(c, s) && Next(c, s, step).Some? && RunFate(s, id, tests, busy, n, outcomes)
    ensures RunFate(Next(c, s, step).value, id, tests, busy, n, outcomes + Supplied(s, step, id))
  {
    if step.Advance? && step.id == id {
      OwnRunStep(c, s, step, tests, busy, n, outcomes);
    } else {
      OthersUntouched(c, s, step, id);
      StepKeepsFinished(c, s, step);
      if Owns(s.calls[id]) || HoldsWrite(s.calls[id]) {
        OthersFinishNothing(c, s, step, id);
      }
      assert outcomes + [] == outcomes;
    }
  }

  lemma {:induction false} RunFateKept(c: Config, steps: seq<Step>, more: seq<Step>, id: nat, tests: seq<Test>, busy: bool, n: nat)
    requires After(c, steps).Some? && After(c, steps + more).Some?
    requires RunFate(After(c, steps).value, id, tests, busy, n, Outcomes(c, steps, id))
    ensures RunFate(After(c, steps + more).value, id, tests, busy, n, Outcomes(c, steps + more, id))
    decreases |more|
  {
    if more == [] {
      assert steps + more == steps;
    } else {
      var all, before := steps + more, steps + more[..|more| - 1];
      assert all[..|all| - 1] == before && all[|all| - 1] == more[|more| - 1];
      RunFateKept(c, steps, more[..|more| - 1], id, tests, busy, n);
      ReachableInv(c, before);
      StepKeepsRunFate(c, After(c, before).value, more[|more| - 1], id, tests, busy, n, Outcomes(c, before, id));
    }
  }

  /** Before its tests begin a run has been supplied nothing. */
  predicate NotBegun(s: State, id: nat)
  {
    id in s.calls ==> s.calls[id].RunWaiting? || s.calls[id].RunLocked? || s.calls[id].RunMarked? || s.calls[id].RunCleared?
  }

  lemma NotBegunBefore(c: Config, s: State, step: Step, id: nat)
    requires Next(c, s, step).Some? && NotBegun(Next(c, s, step).value, id)
    ensures NotBegun(s, id) && Supplied(s, step, id) == []
  {
    if id in s.calls && !(step.Advance? && step.id == id) {
      OthersUntouched(c, s, step, id);
    }
  }

  lemma {:induction false} NothingSupplied(c: Config, steps: seq<Step>, id: nat)
    requires After(c, steps).Some? && NotBegun(After(c, steps).value, id)
    ensures Outcomes(c, steps, id) == []
  {
    if steps != [] {
      var before := steps[..|steps| - 1];
      NotBegunBefore(c, After(c, before).value, steps[|steps| - 1], id);
      NothingSupplied(c, before, id);
    }
  }

  /** Whatever happens after a run has got the lock, when it ends it has failed if and only if another run
      was in progress at that moment. Otherwise the next run on record after those finished by then is this
      one, with its tests and exactly the outcomes its steps supplied, one for each test. */
  lemma RunFailsIff(c: Config, steps: seq<Step>, more: seq<Step>, id: nat)
    requires After(c, steps).Some? && After(c, steps + more).Some?
    requires id in After(c, steps).value.calls && After(c, steps).value.calls[id].RunLocked?
    ensures var s, s' := After(c, steps).value, After(c, steps + more).value;
            && id in s'.calls
            && (s'.calls[id].RunFailed? ==> Busy(s))
            && (s'.calls[id].RunReturned? ==>
                  && !Busy(s) && |s.finished| < |s'.finished|
                  && s'.finished[|s.finished|] == Finished(s.calls[id].tests, Outcomes(c, steps + more, id))
                  && |Outcomes(c, steps + more, id)| == |s.calls[id].tests|)
            && !s'.calls[id].RunWaiting?
  {
    var s, s' := After(c, steps).value, After(c, steps + more).value;
    ReachableInv(c, steps);
    RunningIffBusy(c, s);
    NothingSupplied(c, steps, id);
    RunFateKept(c, steps, more, id, s.calls[id].tests, Busy(s), |s.finished|);
    ReachableInv(c, steps + more);
  }

  /** Where a run of these tests stands that has been supplied these outcomes. */
  predicate Course(s: State, id: nat, tests: seq<Test>, outcomes: seq<bool>)
  {
    id in s.calls &&
    match s.calls[id]
    case RunWaiting(ts) => ts == tests && outcomes == []
    case RunLocked(ts) => ts == tests && outcomes == []
    case RunRejecting => outcomes == []
    case RunFailed => outcomes == []
    case RunMarked(ts) => ts == tests && outcomes == []
    case RunCleared(ts) => ts == tests && outcomes == []
    case RunTesting(ts, done) => ts == tests && done == outcomes
    case RunRelocked(ts, done) => ts == tests && done == outcomes
    case RunUnmarked(ts, done) => ts == tests && done == outcomes
    case RunPublished => Finished(tests, outcomes) in s.finished
    case RunReturned => Finished(tests, outcomes) in s.finished
    case _ => false
  }

  lemma StartKeepsCourse(s: State, id: nat, tests: seq<Test>, outcomes: seq<bool>)
    requires Course(s, id, tests, outcomes) && Starting(s.calls[id]) && AdvanceStart(s, id).Some?
    ensures Course(AdvanceStart(s, id).value, id, tests, outcomes)
  {
  }

  lemma FinishKeepsCourse(c: Config, s: State, step: Step, tests: seq<Test>, outcomes: seq<bool>)
    requires step.Advance? && Course(s, step.id, tests, outcomes) && AdvanceFinish(c, s, step.id, step.passes).Some?
    ensures Course(AdvanceFinish(c, s, step.id, step.passes).value, step.id, tests, outcomes + Supplied(s, step, step.id))
  {
    assert outcomes + [] == outcomes;
  }

  lemma StepKeepsCourse(c: Config, s: State, step: Step, id: nat, tests: seq<Test>, outcomes: seq<bool>)
    requires Next(c, s, step).Some? && Course(s, id, tests, outcomes)
    ensures Course(Next(c, s, step).value, id, tests, outcomes + Supplied(s, step, id))
  {
    assert outcomes + [] == outcomes;
    if !(step.Advance? && step.id == id) {
      OthersUntouched(c, s, step, id);
      StepKeepsFinished(c, s, step);
    } else if Starting(s.calls[id]) {
      StartKeepsCourse(s, id, tests, outcomes);
    } else {
      FinishKeepsCourse(c, s, step, tests, outcomes);
    }
  }

  lemma {:induction false} CourseKept(c: Config, steps: seq<Step>, more: seq<Step>, id: nat, tests: seq<Test>)
    requires After(c, steps).Some? && After(c, steps + more).Some? && Course(After(c, steps).value, id, tests, Outcomes(c, steps, id))
    ensures Course(After(c, steps + more).value, id, tests, Outcomes(c, steps + more, id))
    decreases |more|
  {
    if more == [] {
      assert steps + more == steps;
    } else {
      var all, before := steps + more, steps + more[..|more| - 1];
      assert all[..|all| - 1] == before && all[|all| - 1] == more[|more| - 1];
      CourseKept(c, steps, more[..|more| - 1], id, tests);
      StepKeepsCourse(c, After(c, before).value, more[|more| - 1], id, tests, Outcomes(c, before, id));
    }
  }

  /** A run that was started with some tests runs those tests, and if it returns it is on record with
      them and the outcomes its steps supplied. */
  lemma RunKeepsItsTests(c: Config, steps: seq<Step>, more: seq<Step>, id: nat, tests: seq<Test>)
    requires After(c, steps + [StartRun(id, tests)]).Some? && After(c, steps + [StartRun(id, tests)] + more).Some?
    ensures var all := steps + [StartRun(id, tests)] + more; Course(After(c, all).value, id, tests, Outcomes(c, all, id))
  {
    var start := steps + [StartRun(id, tests)];
    assert start[..|start| - 1] == steps;
    NothingSupplied(c, start, id);
    CourseKept(c, start, more, id, tests);
  }

  // ----- Who gets the lock -----

  /** In every reachable state a report gets the lock if and only if no run holds it, whatever other
      reports do; a run gets it if and only if nobody holds it. */
  lemma LockFreeIff(c: Config, steps: seq<Step>, id: nat, passes: bool, name: string)
    requires After(c, steps).Some? && id in After(c, steps).value.calls
    ensures var s := After(c, steps).value;
            var next := Next(c, s, Advance(id, passes, name));
            && (s.calls[id].ReportWaiting? ==> (next.Some? <==> forall other | other in s.calls :: !HoldsWrite(s.calls[other])))
            && (s.calls[id].RunWaiting? ==>
                  (next.Some? <==> forall other | other in s.calls :: !HoldsWrite(s.calls[other]) && !HoldsRead(s.calls[other])))
  {
    ReachableInv(c, steps);
    var s := After(c, steps).value;
    assert forall other | other in s.calls :: CallInv(c, s, other, s.calls[other]);
    if s.readers != {} {
      var reader :| reader in s.readers;
      assert reader in s.calls && HoldsRead(s.calls[reader]);
    }
  }

  // ----- Nothing hangs -----

  predicate Ended(call: Call)
  {
    call.RunReturned? || call.RunFailed? || call.ReportReturned? || call.ReportFailed?
  }

  ghost predicate Enabled(c: Config, s: State, id: nat)
  {
    exists passes, name :: Next(c, s, Advance(id, passes, name)).Some?
  }

  lemma HolderEnabled(c: Config, s: State, id: nat)
    requires Inv(c, s) && id in s.calls && (HoldsWrite(s.calls[id]) || HoldsRead(s.calls[id]))
    ensures Enabled(c, s, id)
  {
    assert CallInv(c, s, id, s.calls[id]);
    if s.calls[id].ReportReading? && s.calls[id].left != {} {
      var name :| name in s.calls[id].left;
      assert Next(c, s, Advance(id, true, name)).Some?;
    } else {
      assert Next(c, s, Advance(id, true, "")).Some?;
    }
  }

  lemma FreeEnabled(c: Config, s: State, id: nat)
    requires Inv(c, s) && id in s.calls && !Ended(s.calls[id]) && Free(s)
    ensures Enabled(c, s, id)
  {
    if HoldsWrite(s.calls[id]) || HoldsRead(s.calls[id]) {
      HolderEnabled(c, s, id);
    } else {
      assert Next(c, s, Advance(id, true, "")).Some?;
    }
  }

  /** In every reachable state in which some call has not ended, some call can take a step. */
  lemma NoDeadlock(c: Config, steps: seq<Step>, id: nat)
    requires After(c, steps).Some? && id in After(c, steps).value.calls && !Ended(After(c, steps).value.calls[id])
    ensures exists other | other in After(c, steps).value.calls :: Enabled(c, After(c, steps).value, other)
  {
    var s := After(c, steps).value;
    ReachableInv(c, steps);
    if s.writer.Some? {
      HolderEnabled(c, s, s.writer.value);
    } else if s.readers != {} {
      var reader :| reader in s.readers;
      assert CallInv(c, s, reader, s.calls[reader]);
      HolderEnabled(c, s, reader);
    } else {
      FreeEnabled(c, s, id);
    }
  }

  /** How far a call is from its end, and how much it still has to do where it stands. */
  function Phase(call: Call): nat
  {
    match call
    case RunWaiting(_) => 8
    case RunLocked(_) => 7
    case RunRejecting => 1
    case RunMarked(_) => 6
    case RunCleared(_) => 5
    case RunTesting(_, _) => 4
    case RunRelocked(_, _) => 3
    case RunUnmarked(_, _) => 2
    case RunPublished => 1
    case ReportWaiting => 4
    case ReportLocked => 3
    case ReportRejecting => 1
    case ReportReading(_, _) => 2
    case ReportComplete(_) => 1
    case _ => 0
  }

  function ToDo(call: Call): nat
  {
    match call
    case RunTesting(tests, done) => if |done| <= |tests| then |tests| - |done| else 0
    case ReportReading(left, _) => |left|
    case _ => 0
  }

  predicate Nearer(before: Call, after: Call)
  {
    Phase(after) < Phase(before) || (Phase(after) == Phase(before) && ToDo(after) < ToDo(before))
  }

  lemma StartEnds(s: State, id: nat)
    requires id in s.calls && AdvanceStart(s, id).Some?
    ensures var s' := AdvanceStart(s, id).value; id in s'.calls && Nearer(s.calls[id], s'.calls[id])
  {
  }

  lemma FinishEnds(c: Config, s: State, id: nat, passes: bool)
    requires id in s.calls && AdvanceFinish(c, s, id, passes).Some?
    ensures var s' := AdvanceFinish(c, s, id, passes).value; id in s'.calls && Nearer(s.calls[id], s'.calls[id])
  {
  }

  lemma ReportEnds(s: State, id: nat, name: string)
    requires id in s.calls && AdvanceReport(s, id, name).Some?
    ensures var s' := AdvanceReport(s, id, name).value; id in s'.calls && Nearer(s.calls[id], s'.calls[id])
  {
  }

  /** Every step of a call brings it nearer to its end, so no call goes on for ever. */
  lemma StepsEnd(c: Config, s: State, step: Step)
    requires step.Advance? && Next(c, s, step).Some?
    ensures step.id in s.calls && step.id in Next(c, s, step).value.calls
    ensures Nearer(s.calls[step.id], Next(c, s, step).value.calls[step.id])
  {
    if Starting(s.calls[step.id]) {
      StartEnds(s, step.id);
    } else if s.calls[step.id].ReportWaiting? || HoldsRead(s.calls[step.id]) {
      ReportEnds(s, step.id, step.name);
    } else {
      FinishEnds(c, s, step.id, step.passes);
    }
  }

  // ----- One run, then a report -----

  /** Where a run of one test stands after `k` steps. */
  function StoryCall(t: Test, passes: bool, k: nat): Call
  {
    if k == 0 then RunWaiting([t])
    else if k == 1 then RunLocked([t])
    else if k == 2 then RunMarked([t])
    else if k == 3 then RunCleared([t])
    else if k == 4 then RunTesting([t], [])
    else if k == 5 then RunTesting([t], [passes])
    else if k == 6 then RunRelocked([t], [passes])
    else if k == 7 then RunUnmarked([t], [passes])
    else if k == 8 then RunPublished
    else RunReturned
  }

  /** The suite in which that is the only call. */
  function Story(c: Config, t: Test, passes: bool, k: nat): State
  {
    var call := StoryCall(t, passes, k);
    State(2 <= k <= 6,
          if k <= 2 then Some(map[]) else if k <= 7 then None else Some(Collected(c, [t], [passes])),
          if 1 <= k <= 3 || 6 <= k <= 8 then Some(0) else None, {}, map[0 := call],
          if k < 8 then [] else [Finished([t], [passes])],
          if 2 <= k <= 7 then Some(0) else None)
  }

  lemma StoryBegins(c: Config, t: Test, passes: bool, k: nat, step: Step)
    requires k < 4 && step == Advance(0, passes, "")
    ensures Next(c, Story(c, t, passes, k), step) == Some(Story(c, t, passes, k + 1))
  {
    assert map[0 := StoryCall(t, passes, k)][0 := StoryCall(t, passes, k + 1)] == map[0 := StoryCall(t, passes, k + 1)];
  }

  lemma StoryEnds(c: Config, t: Test, passes: bool, k: nat, step: Step)
    requires 4 <= k < 9 && step == Advance(0, passes, "")
    ensures Next(c, Story(c, t, passes, k), step) == Some(Story(c, t, passes, k + 1))
  {
    assert map[0 := StoryCall(t, passes, k)][0 := StoryCall(t, passes, k + 1)] == map[0 := StoryCall(t, passes, k + 1)];
    var noOutcomes: seq<bool>, noRuns: seq<Finished> := [], [];
    assert noOutcomes + [passes] == [passes] && noRuns + [Finished([t], [passes])] == [Finished([t], [passes])];
  }

  function Repeat(step: Step, k: nat): seq<Step>
  {
    if k == 0 then [] else Repeat(step, k - 1) + [step]
  }

  lemma RepeatTo(c: Config, start: seq<Step>, step: Step, k: nat, s: State, s': State)
    requires After(c, start + Repeat(step, k)) == Some(s) && Next(c, s, step) == Some(s')
    ensures After(c, start + Repeat(step, k + 1)) == Some(s')
  {
    AfterOne(c, start + Repeat(step, k), step);
    assert start + Repeat(step, k) + [step] == start + Repeat(step, k + 1);
  }

  lemma {:induction false} StoryTold(c: Config, t: Test, passes: bool, k: nat, step: Step, start: seq<Step>)
    requires k <= 9 && step == Advance(0, passes, "") && After(c, start) == Some(Story(c, t, passes, 0))
    ensures After(c, start + Repeat(step, k)) == Some(Story(c, t, passes, k))
  {
    if k == 0 {
      assert start + Repeat(step, 0) == start;
    } else {
      StoryTold(c, t, passes, k - 1, step, start);
      StoryStep(c, t, passes, k - 1, step);
      RepeatTo(c, start, step, k - 1, Story(c, t, passes, k - 1), Story(c, t, passes, k));
    }
  }

  lemma StoryStep(c: Config, t: Test, passes: bool, k: nat, step: Step)
    requires k < 9 && step == Advance(0, passes, "")
    ensures Next(c, Story(c, t, passes, k), step) == Some(Story(c, t, passes, k + 1))
  {
    if k < 4 {
      StoryBegins(c, t, passes, k, step);
    } else {
      StoryEnds(c, t, passes, k, step);
    }
  }

  lemma StoryStarts(c: Config, t: Test, passes: bool, start: seq<Step>)
    requires start == [StartRun(0, [t])]
    ensures After(c, start) == Some(Story(c, t, passes, 0))
  {
    AfterOne(c, [], StartRun(0, [t]));
    assert [] + [StartRun(0, [t])] == start;
  }

  /** Where a report that follows stands after `k` steps. */
  function ReportCall(name: string, results: Results, k: nat): Call
  {
    if k == 0 then ReportWaiting
    else if k == 1 then ReportLocked
    else if k == 2 then ReportReading({name}, map[])
    else if k == 3 then ReportReading({}, results)
    else if k == 4 then ReportComplete(results)
    else ReportReturned(results, 1)
  }

  function Sequel(c: Config, t: Test, passes: bool, k: nat): State
  {
    var results := OneResult(c, t, passes);
    State(false, Some(results), None, if 1 <= k <= 4 then {1} else {}, map[0 := RunReturned, 1 := ReportCall(t.shortName, results, k)],
          [Finished([t], [passes])], None)
  }

  function OneResult(c: Config, t: Test, passes: bool): Results
  {
    map[t.shortName := TestResult(t, Recorded(c, t, passes))]
  }

  lemma CollectsOne(c: Config, t: Test, passes: bool)
    ensures Collected(c, [t], [passes]) == OneResult(c, t, passes)
  {
    assert [passes][..0] == [];
  }

  lemma SequelStep(c: Config, t: Test, passes: bool, k: nat, step: Step)
    requires k < 5 && step == Advance(1, passes, t.shortName)
    ensures Next(c, Sequel(c, t, passes, k), step) == Some(Sequel(c, t, passes, k + 1))
  {
    var results, none: set<nat> := OneResult(c, t, passes), {};
    var before, after := ReportCall(t.shortName, results, k), ReportCall(t.shortName, results, k + 1);
    assert map[0 := RunReturned, 1 := before][1 := after] == map[0 := RunReturned, 1 := after];
    assert none + {1} == {1} && {1} - {1} == none && results.Keys == {t.shortName} && {t.shortName} - {t.shortName} == {};
    assert map[][t.shortName := results[t.shortName]] == results;
  }

  lemma {:induction false} SequelTold(c: Config, t: Test, passes: bool, k: nat, step: Step, start: seq<Step>)
    requires k <= 5 && step == Advance(1, passes, t.shortName) && After(c, start) == Some(Sequel(c, t, passes, 0))
    ensures After(c, start + Repeat(step, k)) == Some(Sequel(c, t, passes, k))
  {
    if k == 0 {
      assert start + Repeat(step, 0) == start;
    } else {
      SequelTold(c, t, passes, k - 1, step, start);
      SequelStep(c, t, passes, k - 1, step);
      RepeatTo(c, start, step, k - 1, Sequel(c, t, passes, k - 1), Sequel(c, t, passes, k));
    }
  }

  lemma SequelStarts(c: Config, t: Test, passes: bool, run: seq<Step>)
    requires After(c, run) == Some(Story(c, t, passes, 9))
    ensures After(c, run + [StartReport(1)]) == Some(Sequel(c, t, passes, 0))
  {
    CollectsOne(c, t, passes);
    AfterOne(c, run, StartReport(1));
    assert map[0 := RunReturned][1 := ReportWaiting] == map[0 := RunReturned, 1 := ReportWaiting];
  }

  /** One run of one test and then a report: the report shows the recorded result of that test. */
  lemma RunThenReport(c: Config, t: Test, passes: bool)
    ensures var run := [StartRun(0, [t])] + Repeat(Advance(0, passes, ""), 9);
            var end := After(c, run + [StartReport(1)] + Repeat(Advance(1, passes, t.shortName), 5));
            && end.Some? && end.value.finished == [Finished([t], [passes])]
            && end.value.calls == map[0 := RunReturned, 1 := ReportReturned(map[t.shortName := TestResult(t, Recorded(c, t, passes))], 1)]
  {
    var start := [StartRun(0, [t])];
    StoryStarts(c, t, passes, start);
    StoryTold(c, t, passes, 9, Advance(0, passes, ""), start);
    var run := start + Repeat(Advance(0, passes, ""), 9);
    SequelStarts(c, t, passes, run);
    SequelTold(c, t, passes, 5, Advance(1, passes, t.shortName), run + [StartReport(1)]);
  }
}
