/** Any number of concurrent Run and Report calls on one suite. Models the use of the lock and of the
    fields running and results in conformance/utils/suite/suite.go as a transition system in which
    every lock operation and every read or write of a shared field is a step of its own. */
module SuiteLock {
  import opened Wrappers
  import opened TestRun

  /** Where a call stands. A `RunX` call holds the write lock in the states Locked, Rejecting, Marked,
      Cleared, Relocked, Unmarked and Published; a `ReportX` call holds the read lock from Locked to Complete. */
  datatype Call =
    | RunWaiting(tests: seq<Test>)
    | RunLocked(tests: seq<Test>)
    | RunRejecting
    | RunMarked(tests: seq<Test>)
    | RunCleared(tests: seq<Test>)
    | RunTesting(tests: seq<Test>, passes: seq<bool>)
    | RunRelocked(tests: seq<Test>, passes: seq<bool>)
    | RunUnmarked(tests: seq<Test>, passes: seq<bool>)
    | RunPublished
    | RunReturned
    | RunFailed
    | ReportWaiting
    | ReportLocked
    | ReportRejecting
    | ReportReading(left: set<string>, seen: Results)
    | ReportComplete(seen: Results)
    | ReportReturned(seen: Results, after: nat)
    | ReportFailed

  datatype Finished = Finished(tests: seq<Test>, passes: seq<bool>)

  /** The shared fields, the lock, the calls, and two fields for the record only: which runs have
      published their results so far, and which run is between setting running and publishing. */
  datatype State = State(
    running: bool, results: Option<Results>,
    writer: Option<nat>, readers: set<nat>,
    calls: map<nat, Call>,
    finished: seq<Finished>, owner: Option<nat>)

  function Initial(): State
  {
    State(false, Some(map[]), None, {}, map[], [], None)
  }

  /** A new call arrives, or the call `id` takes its next step. `passes` is the outcome of a test body
      and `name` the next test name a report reads, where the step needs one. */
  datatype Step =
    | StartRun(id: nat, tests: seq<Test>)
    | StartReport(id: nat)
    | Advance(id: nat, passes: bool, name: string)

  function Goto(s: State, id: nat, call: Call): State
  {
    s.(calls := s.calls[id := call])
  }

  /** `None` when the step is not enabled: a lock is not free, or the call has returned. */
  function Next(c: Config, s: State, step: Step): Option<State>
  {
    match step
    case StartRun(id, tests) => if id in s.calls then None else Some(Goto(s, id, RunWaiting(tests)))
    case StartReport(id) => if id in s.calls then None else Some(Goto(s, id, ReportWaiting))
    case Advance(id, passes, name) =>
      if id !in s.calls then None
      else if Starting(s.calls[id]) then AdvanceStart(s, id)
      else if s.calls[id].ReportWaiting? || HoldsRead(s.calls[id]) then AdvanceReport(s, id, name)
      else AdvanceFinish(c, s, id, passes)
  }

  predicate Starting(call: Call)
  {
    call.RunWaiting? || call.RunLocked? || call.RunRejecting? || call.RunMarked? || call.RunCleared?
  }

  predicate Free(s: State)
  {
    s.writer.None? && s.readers == {}
  }

  /** The first critical section of a run, and the lock around it. */
  function AdvanceStart(s: State, id: nat): Option<State>
    requires id in s.calls
  {
    match s.calls[id]
    case RunWaiting(tests) => if Free(s) then Some(Goto(s.(writer := Some(id)), id, RunLocked(tests))) else None
    case RunLocked(tests) =>
      if s.running then Some(Goto(s, id, RunRejecting))
      else Some(Goto(s.(running := true, owner := Some(id)), id, RunMarked(tests)))
    case RunRejecting => Some(Goto(s.(writer := None), id, RunFailed))
    case RunMarked(tests) => Some(Goto(s.(results := None), id, RunCleared(tests)))
    case RunCleared(tests) => Some(Goto(s.(writer := None), id, RunTesting(tests, [])))
    case _ => None
  }

  /** The tests, one by one, and the second critical section. */
  function AdvanceFinish(c: Config, s: State, id: nat, passes: bool): Option<State>
    requires id in s.calls
  {
    match s.calls[id]
    case RunTesting(tests, done) =>
      if |done| < |tests| then Some(Goto(s, id, RunTesting(tests, done + [passes])))
      else if Free(s) then Some(Goto(s.(writer := Some(id)), id, RunRelocked(tests, done))) else None
    case RunRelocked(tests, done) => Some(Goto(s.(running := false), id, RunUnmarked(tests, done)))
    case RunUnmarked(tests, done) =>
      if |done| > |tests| then None
      else
        var published := s.(results := Some(Collected(c, tests, done)), finished := s.finished + [Finished(tests, done)], owner := None);
        Some(Goto(published, id, RunPublished))
    case RunPublished => Some(Goto(s.(writer := None), id, RunReturned))
    case _ => None
  }

  function AdvanceReport(s: State, id: nat, name: string): Option<State>
    requires id in s.calls
  {
    match s.calls[id]
    case ReportWaiting => if s.writer.None? then Some(Goto(s.(readers := s.readers + {id}), id, ReportLocked)) else None
    case ReportLocked =>
      if s.running then Some(Goto(s, id, ReportRejecting))
      else Some(Goto(s, id, ReportReading(if s.results.Some? then s.results.value.Keys else {}, map[])))
    case ReportRejecting => Some(Goto(s.(readers := s.readers - {id}), id, ReportFailed))
    case ReportReading(left, seen) =>
      if left == {} then Some(Goto(s, id, ReportComplete(seen)))
      else if name in left && s.results.Some? && name in s.results.value
      then Some(Goto(s, id, ReportReading(left - {name}, seen[name := s.results.value[name]])))
      else None
    case ReportComplete(seen) => Some(Goto(s.(readers := s.readers - {id}), id, ReportReturned(seen, |s.finished|)))
    case _ => None
  }

  /** Every state a sequence of steps leads to. */
  function After(c: Config, steps: seq<Step>): Option<State>
  {
    if steps == [] then Some(Initial())
    else
      match After(c, steps[..|steps| - 1])
      case None => None
      case Some(s) => Next(c, s, steps[|steps| - 1])
  }

  // ----- The invariant -----

  predicate HoldsWrite(call: Call)
  {
    call.RunLocked? || call.RunRejecting? || call.RunMarked? || call.RunCleared? || call.RunRelocked? ||
    call.RunUnmarked? || call.RunPublished?
  }

  predicate HoldsRead(call: Call)
  {
    call.ReportLocked? || call.ReportRejecting? || call.ReportReading? || call.ReportComplete?
  }

  /** From setting running to publishing the results. */
  predicate Owns(call: Call)
  {
    call.RunMarked? || call.RunCleared? || call.RunTesting? || call.RunRelocked? || call.RunUnmarked?
  }

  /** What reports should show after these runs: nothing before the first, then the complete results of the last. */
  function Shown(c: Config, finished: seq<Finished>): Results
  {
    if finished == [] then map[]
    else
      var last := finished[|finished| - 1];
      if |last.passes| == |last.tests| then Collected(c, last.tests, last.passes) else map[]
  }

  predicate SharedInv(c: Config, s: State)
  {
    && (s.writer.Some? ==> s.readers == {})
    && (s.writer.Some? ==> s.writer.value in s.calls && HoldsWrite(s.calls[s.writer.value]))
    && (s.owner.Some? ==> s.owner.value in s.calls && Owns(s.calls[s.owner.value]))
    && (s.running <==> s.owner.Some? && !s.calls[s.owner.value].RunUnmarked?)
    && (s.results.None? <==> s.owner.Some? && !s.calls[s.owner.value].RunMarked?)
    && (s.results.Some? ==> s.results.value == Shown(c, s.finished))
    && (forall i | 0 <= i < |s.finished| :: |s.finished[i].passes| == |s.finished[i].tests|)
  }

  /** What one call's position says about the shared state. */
  predicate CallInv(c: Config, s: State, id: nat, call: Call)
  {
    && (HoldsWrite(call) ==> s.writer == Some(id))
    && (HoldsRead(call) <==> id in s.readers)
    && (Owns(call) ==> s.owner == Some(id))
    && match call
       case RunTesting(tests, done) => |done| <= |tests|
       case RunRelocked(tests, done) => |done| == |tests|
       case RunUnmarked(tests, done) => |done| == |tests|
       case ReportReading(left, seen) =>
         && !s.running && s.results.Some? && left <= s.results.value.Keys
         && seen == s.results.value - left
       case ReportComplete(seen) => !s.running && s.results == Some(seen)
       case ReportReturned(seen, after) => after <= |s.finished| && seen == Shown(c, s.finished[..after])
       case _ => true
  }

  /** The part of the invariant every step needs: shared state, the call that moves, and the owner. */
  predicate AroundInv(c: Config, s: State, id: nat)
  {
    && SharedInv(c, s)
    && id in s.calls && CallInv(c, s, id, s.calls[id])
    && (s.owner.Some? ==> CallInv(c, s, s.owner.value, s.calls[s.owner.value]))
  }

  predicate Inv(c: Config, s: State)
  {
    && SharedInv(c, s)
    && s.readers <= s.calls.Keys
    && forall id | id in s.calls :: CallInv(c, s, id, s.calls[id])
  }

  /** What a step of one call may do to the shared state: it takes a free lock or ownership, gives up
      its own, and writes running and results only while it alone holds the lock. */
  predicate Entitled(s: State, s': State, id: nat)
  {
    && s'.readers == s.readers && s.finished <= s'.finished
    && (s'.owner != s.owner ==> s.owner == None || s.owner == Some(id))
    && (s'.writer != s.writer ==> s.writer == None || s.writer == Some(id))
    && ((s'.running, s'.results) != (s.running, s.results) ==> s.writer == Some(id) && s.readers == {})
  }

  lemma OthersKept(c: Config, s: State, s': State, id: nat, other: nat)
    requires Entitled(s, s', id) && SharedInv(c, s)
    requires other != id && other in s.calls && CallInv(c, s, other, s.calls[other])
    ensures CallInv(c, s', other, s.calls[other])
  {
  }

  lemma StartKeepsInv(c: Config, s: State, id: nat)
    requires Inv(c, s) && id in s.calls && AdvanceStart(s, id).Some?
    ensures Inv(c, AdvanceStart(s, id).value)
  {
    var s' := AdvanceStart(s, id).value;
    assert AroundInv(c, s, id);
    StartShared(c, s, id);
    StartSelf(c, s, id);
    forall other | other in s'.calls && other != id ensures CallInv(c, s', other, s'.calls[other]) {
      assert CallInv(c, s, other, s.calls[other]);
      StartEffect(c, s, id);
      OthersKept(c, s, s', id, other);
    }
  }

  lemma StartShared(c: Config, s: State, id: nat)
    requires AroundInv(c, s, id) && AdvanceStart(s, id).Some?
    ensures SharedInv(c, AdvanceStart(s, id).value)
  {
  }

  lemma StartSelf(c: Config, s: State, id: nat)
    requires AroundInv(c, s, id) && AdvanceStart(s, id).Some?
    ensures CallInv(c, AdvanceStart(s, id).value, id, AdvanceStart(s, id).value.calls[id])
  {
  }

  lemma StartEffect(c: Config, s: State, id: nat)
    requires AroundInv(c, s, id) && AdvanceStart(s, id).Some?
    ensures Entitled(s, AdvanceStart(s, id).value, id)
  {
  }

  lemma FinishKeepsInv(c: Config, s: State, id: nat, passes: bool)
    requires Inv(c, s) && id in s.calls && AdvanceFinish(c, s, id, passes).Some?
    ensures Inv(c, AdvanceFinish(c, s, id, passes).value)
  {
    var s' := AdvanceFinish(c, s, id, passes).value;
    assert AroundInv(c, s, id);
    FinishShared(c, s, id, passes);
    FinishSelf(c, s, id, passes);
    forall other | other in s'.calls && other != id ensures CallInv(c, s', other, s'.calls[other]) {
      assert CallInv(c, s, other, s.calls[other]);
      FinishEffect(c, s, id, passes);
      OthersKept(c, s, s', id, other);
    }
  }

  lemma FinishShared(c: Config, s: State, id: nat, passes: bool)
    requires AroundInv(c, s, id) && AdvanceFinish(c, s, id, passes).Some?
    ensures SharedInv(c, AdvanceFinish(c, s, id, passes).value)
  {
  }

  lemma FinishSelf(c: Config, s: State, id: nat, passes: bool)
    requires AroundInv(c, s, id) && AdvanceFinish(c, s, id, passes).Some?
    ensures CallInv(c, AdvanceFinish(c, s, id, passes).value, id, AdvanceFinish(c, s, id, passes).value.calls[id])
  {
  }

  lemma FinishEffect(c: Config, s: State, id: nat, passes: bool)
    requires AroundInv(c, s, id) && AdvanceFinish(c, s, id, passes).Some?
    ensures Entitled(s, AdvanceFinish(c, s, id, passes).value, id)
  {
  }

  lemma ReportStepKeepsInv(c: Config, s: State, id: nat, name: string)
    requires Inv(c, s) && id in s.calls && AdvanceReport(s, id, name).Some?
    ensures Inv(c, AdvanceReport(s, id, name).value)
  {
    var s' := AdvanceReport(s, id, name).value;
    assert AroundInv(c, s, id);
    ReportStepSelf(c, s, id, name);
    forall other | other in s'.calls && other != id ensures CallInv(c, s', other, s'.calls[other]) {
      assert CallInv(c, s, other, s.calls[other]);
    }
  }

  lemma ReportStepSelf(c: Config, s: State, id: nat, name: string)
    requires AroundInv(c, s, id) && AdvanceReport(s, id, name).Some?
    ensures CallInv(c, AdvanceReport(s, id, name).value, id, AdvanceReport(s, id, name).value.calls[id])
  {
    assert s.finished[..|s.finished|] == s.finished;
    var call := s.calls[id];
    if call.ReportLocked? && !s.running {
      assert s.results.value - s.results.value.Keys == map[];
    }
    if call.ReportReading? {
      if call.left == {} {
        assert s.results.value - {} == s.results.value;
      } else {
        assert s.results.value - (call.left - {name}) == (s.results.value - call.left)[name := s.results.value[name]];
      }
    }
  }

  lemma StepKeepsInv(c: Config, s: State, step: Step)
    requires Inv(c, s) && Next(c, s, step).Some?
    ensures Inv(c, Next(c, s, step).value)
  {
    match step
    case Advance(id, passes, name) =>
      if AdvanceReport(s, id, name).Some? {
        ReportStepKeepsInv(c, s, id, name);
      }
      if AdvanceStart(s, id).Some? {
        StartKeepsInv(c, s, id);
      }
      if AdvanceFinish(c, s, id, passes).Some? {
        FinishKeepsInv(c, s, id, passes);
      }
    case _ =>
      var s' := Next(c, s, step).value;
      forall id | id in s'.calls ensures CallInv(c, s', id, s'.calls[id]) {
        assert id in s.calls ==> CallInv(c, s, id, s.calls[id]);
      }
  }

  lemma {:induction false} ReachableInv(c: Config, steps: seq<Step>)
    requires After(c, steps).Some?
    ensures Inv(c, After(c, steps).value)
  {
    if steps != [] {
      ReachableInv(c, steps[..|steps| - 1]);
      StepKeepsInv(c, After(c, steps[..|steps| - 1]).value, steps[|steps| - 1]);
    }
  }

  // ----- What callers can rely on, over every interleaving -----

  /** Between setting and clearing running. */
  predicate InProgress(call: Call)
  {
    call.RunMarked? || call.RunCleared? || call.RunTesting? || call.RunRelocked?
  }

  /** At most one run is in progress, the suite says it is running exactly then, and while tests run
      there are no results. */
  lemma OneRunAtATime(c: Config, steps: seq<Step>, a: nat, b: nat)
    requires After(c, steps).Some?
    ensures var s := After(c, steps).value;
            && (a in s.calls && b in s.calls && InProgress(s.calls[a]) && InProgress(s.calls[b]) ==> a == b)
            && (a in s.calls && InProgress(s.calls[a]) ==> s.running)
            && (a in s.calls && s.calls[a].RunTesting? ==> s.results == None)
            && (s.running ==> exists id | id in s.calls :: InProgress(s.calls[id]))
  {
    ReachableInv(c, steps);
    var s := After(c, steps).value;
    assert a in s.calls ==> CallInv(c, s, a, s.calls[a]);
    assert b in s.calls ==> CallInv(c, s, b, s.calls[b]);
    if s.running {
      assert InProgress(s.calls[s.owner.value]);
    }
  }

  /** A report that returns has read the complete results of the run that had finished last when it
      returned, or the initial empty map if none had: never a part of them, never a mixture. */
  lemma ReportsAreComplete(c: Config, steps: seq<Step>, id: nat)
    requires After(c, steps).Some? && id in After(c, steps).value.calls && After(c, steps).value.calls[id].ReportReturned?
    ensures var s := After(c, steps).value;
            var ReportReturned(seen, after) := s.calls[id];
            && after <= |s.finished|
            && (if after == 0 then seen == map[]
                else
                  var last := s.finished[after - 1];
                  |last.passes| == |last.tests| && seen == Collected(c, last.tests, last.passes))
  {
    ReachableInv(c, steps);
    var s := After(c, steps).value;
    assert CallInv(c, s, id, s.calls[id]);
    ShownAfter(c, s.finished, s.calls[id].after);
  }

  lemma ShownAfter(c: Config, finished: seq<Finished>, after: nat)
    requires after <= |finished| && forall i | 0 <= i < |finished| :: |finished[i].passes| == |finished[i].tests|
    ensures Shown(c, finished[..after]) ==
            if after == 0 then map[] else Collected(c, finished[after - 1].tests, finished[after - 1].passes)
  {
  }

  /** While a report holds the lock, no step of any call changes the results, the running flag or the
      record of finished runs. */
  lemma ResultsStandStill(c: Config, steps: seq<Step>, step: Step, id: nat)
    requires After(c, steps).Some? && Next(c, After(c, steps).value, step).Some?
    requires id in After(c, steps).value.calls && HoldsRead(After(c, steps).value.calls[id])
    ensures var s := After(c, steps).value;
            var s' := Next(c, s, step).value;
            && s'.results == s.results && s'.running == s.running && s'.finished == s.finished
            && (s.calls[id].ReportReading? || s.calls[id].ReportComplete? ==> s.results.Some?)
  {
    ReachableInv(c, steps);
    StandStill(c, After(c, steps).value, step, id);
  }

  lemma StandStill(c: Config, s: State, step: Step, id: nat)
    requires Inv(c, s) && Next(c, s, step).Some? && id in s.calls && HoldsRead(s.calls[id])
    ensures var s' := Next(c, s, step).value;
            && s'.results == s.results && s'.running == s.running && s'.finished == s.finished
            && (s.calls[id].ReportReading? || s.calls[id].ReportComplete? ==> s.results.Some?)
  {
    assert CallInv(c, s, id, s.calls[id]);
    if step.Advance? && step.id in s.calls {
      assert CallInv(c, s, step.id, s.calls[step.id]);
    }
  }

  // ----- When a report fails -----

  predicate Busy(s: State)
  {
    exists id | id in s.calls :: InProgress(s.calls[id])
  }

  lemma RunningIffBusy(c: Config, s: State)
    requires Inv(c, s)
    ensures s.running <==> Busy(s)
  {
    if s.running {
      assert InProgress(s.calls[s.owner.value]);
    }
  }

  /** A report that has just got the lock is turned away if and only if a run is in progress. */
  lemma RejectedIffBusy(c: Config, steps: seq<Step>, id: nat, passes: bool, name: string)
    requires After(c, steps).Some? && id in After(c, steps).value.calls && After(c, steps).value.calls[id].ReportLocked?
    ensures var s := After(c, steps).value;
            var next := Next(c, s, Advance(id, passes, name));
            next.Some? && id in next.value.calls && (next.value.calls[id].ReportRejecting? <==> Busy(s))
  {
    ReachableInv(c, steps);
    RunningIffBusy(c, After(c, steps).value);
  }

  /** What may have become of a report that got the lock with `busy` saying whether a run was in
      progress and `n` runs finished. */
  predicate Fate(s: State, id: nat, busy: bool, n: nat)
  {
    id in s.calls &&
    match s.calls[id]
    case ReportLocked => s.running == busy && |s.finished| == n
    case ReportRejecting => busy
    case ReportFailed => busy
    case ReportReading(_, _) => !busy && |s.finished| == n
    case ReportComplete(_) => !busy && |s.finished| == n
    case ReportReturned(_, after) => !busy && after == n
    case _ => false
  }

  lemma StepKeepsFate(c: Config, s: State, step: Step, id: nat, busy: bool, n: nat)
    requires Inv(c, s) && Next(c, s, step).Some? && Fate(s, id, busy, n)
    ensures Fate(Next(c, s, step).value, id, busy, n)
  {
    if HoldsRead(s.calls[id]) {
      StandStill(c, s, step, id);
    }
    if step.Advance? && step.id == id {
      OwnStepKeepsFate(c, s, step, busy, n);
    } else {
      OthersUntouched(c, s, step, id);
    }
  }

  lemma OwnStepKeepsFate(c: Config, s: State, step: Step, busy: bool, n: nat)
    requires step.Advance? && Next(c, s, step).Some? && Fate(s, step.id, busy, n)
    ensures Fate(Next(c, s, step).value, step.id, busy, n)
  {
  }

  predicate Untouched(s: State, s': State, id: nat)
  {
    id in s.calls && id in s'.calls && s'.calls[id] == s.calls[id]
  }

  lemma OthersUntouched(c: Config, s: State, step: Step, id: nat)
    requires Next(c, s, step).Some? && id in s.calls && !(step.Advance? && step.id == id)
    ensures Untouched(s, Next(c, s, step).value, id)
  {
    if step.Advance? {
      StartMovesOne(s, step.id, id);
      FinishMovesOne(c, s, step.id, step.passes, id);
      ReportMovesOne(s, step.id, step.name, id);
    }
  }

  lemma StartMovesOne(s: State, mover: nat, id: nat)
    requires mover in s.calls && id in s.calls && mover != id
    ensures AdvanceStart(s, mover).Some? ==> Untouched(s, AdvanceStart(s, mover).value, id)
  {
  }

  lemma FinishMovesOne(c: Config, s: State, mover: nat, passes: bool, id: nat)
    requires mover in s.calls && id in s.calls && mover != id
    ensures AdvanceFinish(c, s, mover, passes).Some? ==> Untouched(s, AdvanceFinish(c, s, mover, passes).value, id)
  {
  }

  lemma ReportMovesOne(s: State, mover: nat, name: string, id: nat)
    requires mover in s.calls && id in s.calls && mover != id
    ensures AdvanceReport(s, mover, name).Some? ==> Untouched(s, AdvanceReport(s, mover, name).value, id)
  {
  }

  lemma {:induction false} FateKept(c: Config, steps: seq<Step>, more: seq<Step>, id: nat, busy: bool, n: nat)
    requires After(c, steps).Some? && After(c, steps + more).Some? && Fate(After(c, steps).value, id, busy, n)
    ensures Fate(After(c, steps + more).value, id, busy, n)
    decreases |more|
  {
    if more == [] {
      assert steps + more == steps;
    } else {
      var before := more[..|more| - 1];
      assert (steps + more)[..|steps + more| - 1] == steps + before;
      FateKept(c, steps, before, id, busy, n);
      ReachableInv(c, steps + before);
      StepKeepsFate(c, After(c, steps + before).value, more[|more| - 1], id, busy, n);
    }
  }

  /** Whatever happens after a report has got the lock, when it ends it has failed if and only if a run
      was in progress at that moment; otherwise it is the report of the last run finished by then. */
  lemma ReportFailsIff(c: Config, steps: seq<Step>, more: seq<Step>, id: nat)
    requires After(c, steps).Some? && After(c, steps + more).Some?
    requires id in After(c, steps).value.calls && After(c, steps).value.calls[id].ReportLocked?
    ensures var s, s' := After(c, steps).value, After(c, steps + more).value;
            && id in s'.calls
            && (s'.calls[id].ReportFailed? ==> Busy(s))
            && (s'.calls[id].ReportReturned? ==> !Busy(s) && s'.calls[id].after == |s.finished| &&
                                                 s'.calls[id].seen == Shown(c, s.finished))
            && (s'.calls[id].ReportFailed? || s'.calls[id].ReportReturned? || HoldsRead(s'.calls[id]))
  {
    var s, s' := After(c, steps).value, After(c, steps + more).value;
    ReachableInv(c, steps);
    RunningIffBusy(c, s);
    FateKept(c, steps, more, id, Busy(s), |s.finished|);
    ReachableInv(c, steps + more);
    assert CallInv(c, s', id, s'.calls[id]);
    FinishedKept(c, steps, more);
  }

  lemma {:induction false} FinishedKept(c: Config, steps: seq<Step>, more: seq<Step>)
    requires After(c, steps + more).Some?
    ensures After(c, steps).Some? && After(c, steps).value.finished <= After(c, steps + more).value.finished
    decreases |more|
  {
    if more == [] {
      assert steps + more == steps;
    } else {
      assert (steps + more)[..|steps + more| - 1] == steps + more[..|more| - 1];
      FinishedKept(c, steps, more[..|more| - 1]);
      StepKeepsFinished(c, After(c, steps + more[..|more| - 1]).value, more[|more| - 1]);
    }
  }

  lemma StepKeepsFinished(c: Config, s: State, step: Step)
    requires Next(c, s, step).Some?
    ensures s.finished <= Next(c, s, step).value.finished
  {
  }

  /** The documented failure before the first completed run: a report that gets the lock then and ends
      keeps that promise if and only if the first run was in progress. */
  lemma EmptyReportIff(c: Config, steps: seq<Step>, more: seq<Step>, id: nat)
    requires After(c, steps).Some? && After(c, steps + more).Some? && After(c, steps).value.finished == []
    requires id in After(c, steps).value.calls && After(c, steps).value.calls[id].ReportLocked?
    requires id in After(c, steps + more).value.calls && !HoldsRead(After(c, steps + more).value.calls[id])
    ensures var s, s' := After(c, steps).value, After(c, steps + more).value;
            && (s'.calls[id].ReportFailed? <==> Busy(s))
            && (s'.calls[id] == ReportReturned(map[], 0) <==> !Busy(s))
  {
    ReportFailsIff(c, steps, more, id);
  }

  lemma AfterOne(c: Config, steps: seq<Step>, step: Step)
    requires After(c, steps).Some?
    ensures After(c, steps + [step]) == Next(c, After(c, steps).value, step)
  {
    assert (steps + [step])[..|steps|] == steps;
  }

  /** A suite that has seen nothing but one report call. */
  function Alone(call: Call): State
  {
    Initial().(readers := if HoldsRead(call) then {0} else {}, calls := map[0 := call])
  }

  function AloneNext(call: Call): Call
  {
    match call
    case ReportWaiting => ReportLocked
    case ReportLocked => ReportReading({}, map[])
    case ReportReading(_, seen) => ReportComplete(seen)
    case _ => ReportReturned(map[], 0)
  }

  lemma AloneStep(c: Config, call: Call, step: Step)
    requires step.Advance? && step.id == 0
    requires call in {ReportWaiting, ReportLocked, ReportReading({}, map[]), ReportComplete(map[])}
    ensures Next(c, Alone(call), step) == Some(Alone(AloneNext(call)))
  {
    var none: set<nat>, nothing: Results := {}, map[];
    assert none + {0} == {0} && {0} - {0} == none && nothing.Keys == {};
    assert map[0 := call][0 := AloneNext(call)] == map[0 := AloneNext(call)];
  }

  lemma AloneAfter(c: Config, steps: seq<Step>, call: Call, step: Step)
    requires After(c, steps) == Some(Alone(call)) && step.Advance? && step.id == 0
    requires call in {ReportWaiting, ReportLocked, ReportReading({}, map[]), ReportComplete(map[])}
    ensures After(c, steps + [step]) == Some(Alone(AloneNext(call)))
  {
    AloneStep(c, call, step);
    AfterOne(c, steps, step);
  }

  lemma AloneTwice(c: Config, steps: seq<Step>, call: Call, step: Step, all: seq<Step>)
    requires After(c, steps) == Some(Alone(call)) && step.Advance? && step.id == 0
    requires call in {ReportWaiting, ReportReading({}, map[])} && all == steps + [step, step]
    ensures After(c, all) == Some(Alone(AloneNext(AloneNext(call))))
  {
    AloneAfter(c, steps, call, step);
    AloneAfter(c, steps + [step], AloneNext(call), step);
    assert steps + [step] + [step] == all;
  }

  lemma AloneStart(c: Config, steps: seq<Step>)
    requires steps == [StartReport(0)]
    ensures After(c, steps) == Some(Alone(ReportWaiting))
  {
    AfterOne(c, [], StartReport(0));
    assert [] + [StartReport(0)] == steps;
  }

  /** A report on a suite that has never run succeeds, and is empty. */
  lemma ReportBeforeAnyRun(c: Config, passes: bool, name: string)
    ensures var step := Advance(0, passes, name);
            After(c, [StartReport(0), step, step, step, step]) == Some(Alone(ReportReturned(map[], 0)))
  {
    var step := Advance(0, passes, name);
    AloneStart(c, [StartReport(0)]);
    AloneTwice(c, [StartReport(0)], ReportWaiting, step, [StartReport(0), step, step]);
    AloneTwice(c, [StartReport(0), step, step], ReportReading({}, map[]), step, [StartReport(0), step, step, step, step]);
  }
}
