/**
 The timestamp handshakes: a change (or received webhook alerts) stores a requested time, a
 rebuild reads it, builds, and stores it as rebuilt (nautobot_maps/scheduler.py,
 nautobot_maps/webhooks.py).  A time stays pending while it is later than the rebuilt one.
 */
module MarkerHandshake {
  import opened Wrappers

  /** A committed change: the time it stored, and when it was committed. */
  datatype Change = Change(marker: int, at: nat)

  datatype Rebuild =
    | Read(marker: Option<int>)
    | Building(marker: Option<int>, began: nat)
    | Built(marker: Option<int>, began: nat)

  /** *acked*: when the reads of the build behind the rebuilt marker began. */
  datatype State = State(clock: nat, requested: Option<int>, rebuilt: Option<int>, acked: nat,
                         rebuilds: map<nat, Rebuild>, changes: seq<Change>, completed: set<nat>)

  datatype Step =
    | Request(marker: int)
    | ReadPending(r: nat)
    | BeginBuild(r: nat)
    | FinishBuild(r: nat)
    | Acknowledge(r: nat)
    | Die(r: nat)

  predicate IsPending(s: State) {
    s.requested.Some? && (s.rebuilt.None? || s.requested.value > s.rebuilt.value)
  }

  predicate Enabled(s: State, step: Step) {
    match step
    case Request(_) => true
    case ReadPending(r) => r !in s.rebuilds
    case BeginBuild(r) => r in s.rebuilds && s.rebuilds[r].Read?
    case FinishBuild(r) => r in s.rebuilds && s.rebuilds[r].Building?
    case Acknowledge(r) => r in s.rebuilds && s.rebuilds[r].Built?
    case Die(r) => r in s.rebuilds
  }

  function Act(s: State, step: Step): State
    requires Enabled(s, step)
  {
    match step
    case Request(m) => s.(requested := Some(m), changes := s.changes + [Change(m, s.clock)])
    case ReadPending(r) =>
      s.(rebuilds := s.rebuilds[r := Read(if IsPending(s) then s.requested else None)])
    case BeginBuild(r) => s.(rebuilds := s.rebuilds[r := Building(s.rebuilds[r].marker, s.clock)])
    case FinishBuild(r) =>
      s.(rebuilds := s.rebuilds[r := Built(s.rebuilds[r].marker, s.rebuilds[r].began)],
         completed := s.completed + {s.rebuilds[r].began})
    case Acknowledge(r) =>
      var x := s.rebuilds[r];
      if x.marker.Some?
      then s.(rebuilt := x.marker, acked := x.began, rebuilds := s.rebuilds - {r})
      else s.(rebuilds := s.rebuilds - {r})
    case Die(r) => s.(rebuilds := s.rebuilds - {r})
  }

  function Apply(s: State, step: Step): State
    requires Enabled(s, step)
  {
    Act(s, step).(clock := s.clock + 1)
  }

  const START := State(0, None, None, 0, map[], [], {})

  // ----- when a change is not lost ----------------------------------------

  ghost predicate TakenIn(s: State, at: nat) {
    exists b :: b in s.completed && b > at
  }

  ghost predicate NothingLost(s: State) {
    forall i :: 0 <= i < |s.changes| ==> TakenIn(s, s.changes[i].at) || IsPending(s)
  }

  predicate Exceeds(marker: int, x: Rebuild) {
    !x.Read? && x.marker.Some? ==> marker > x.marker.value
  }

  /** Later than the rebuilt marker and than every marker a running build will acknowledge. */
  predicate SafeMarker(s: State, marker: int) {
    && (s.rebuilt.Some? ==> marker > s.rebuilt.value)
    && (forall r :: r in s.rebuilds ==> Exceeds(marker, s.rebuilds[r]))
  }

  predicate SafeStep(s: State, step: Step) {
    step.Request? ==> SafeMarker(s, step.marker)
  }

  predicate LaterExceed(s: State, from: nat, marker: int) {
    forall i :: 0 <= i < |s.changes| && s.changes[i].at >= from ==> s.changes[i].marker > marker
  }

  predicate RebuildOk(s: State, x: Rebuild) {
    && (!x.Read? ==> x.began < s.clock)
    && (!x.Read? && x.marker.Some? ==> LaterExceed(s, x.began, x.marker.value))
    && (x.Built? ==> x.began in s.completed)
  }

  predicate Inv(s: State) {
    && (forall i, j :: 0 <= i < j < |s.changes| ==> s.changes[i].at < s.changes[j].at)
    && (forall i :: 0 <= i < |s.changes| ==> s.changes[i].at < s.clock)
    && s.requested == (if s.changes == [] then None else Some(s.changes[|s.changes| - 1].marker))
    && (forall r :: r in s.rebuilds ==> RebuildOk(s, s.rebuilds[r]))
    && (s.rebuilt.Some? ==> s.acked in s.completed && LaterExceed(s, s.acked, s.rebuilt.value))
    && (forall b :: b in s.completed ==> b < s.clock)
  }

  lemma RebuildStaysOk(s: State, step: Step, r: nat)
    requires Inv(s) && Enabled(s, step) && SafeStep(s, step) && r in Apply(s, step).rebuilds
    ensures RebuildOk(Apply(s, step), Apply(s, step).rebuilds[r])
  {
    if r in s.rebuilds { assert RebuildOk(s, s.rebuilds[r]); }
    if step.Request? { assert Exceeds(step.marker, s.rebuilds[r]); }
  }

  lemma StepKeepsInv(s: State, step: Step)
    requires Inv(s) && Enabled(s, step) && SafeStep(s, step)
    ensures Inv(Apply(s, step))
  {
    var t := Apply(s, step);
    forall r | r in t.rebuilds ensures RebuildOk(t, t.rebuilds[r]) { RebuildStaysOk(s, step, r); }
    if step.Acknowledge? { assert RebuildOk(s, s.rebuilds[step.r]); }
  }

  lemma InvMeansNothingLost(s: State)
    requires Inv(s)
    ensures NothingLost(s)
  {
    forall i | 0 <= i < |s.changes| && !TakenIn(s, s.changes[i].at) ensures IsPending(s) {
      var last := s.changes[|s.changes| - 1];
      assert s.changes[i].at <= last.at;
      if s.rebuilt.Some? { assert s.acked <= s.changes[i].at; }
    }
  }

  function After(s: State, steps: seq<Step>): Option<State>
    decreases |steps|
  {
    if steps == [] then Some(s)
    else if Enabled(s, steps[0]) then After(Apply(s, steps[0]), steps[1..])
    else None
  }

  /** Every step of the run stores a safe marker, if any. */
  predicate AllSafe(s: State, steps: seq<Step>)
    decreases |steps|
  {
    steps == [] ||
    (Enabled(s, steps[0]) ==> SafeStep(s, steps[0]) && AllSafe(Apply(s, steps[0]), steps[1..]))
  }

  lemma {:induction false} SafeRunsKeepInv(s: State, steps: seq<Step>)
    requires Inv(s) && After(s, steps).Some? && AllSafe(s, steps)
    ensures Inv(After(s, steps).value)
    decreases |steps|
  {
    if steps != [] {
      StepKeepsInv(s, steps[0]);
      SafeRunsKeepInv(Apply(s, steps[0]), steps[1..]);
    }
  }

  /**
   While each stored time is later than the rebuilt one and than those of running builds, no
   change is lost: one not taken in by a completed build that began after it is pending.
   */
  lemma SafeRunsLoseNothing(steps: seq<Step>)
    requires After(START, steps).Some? && AllSafe(START, steps)
    ensures NothingLost(After(START, steps).value)
  {
    SafeRunsKeepInv(START, steps);
    InvMeansNothingLost(After(START, steps).value);
  }

  /** A rebuild with no request meanwhile leaves nothing pending. */
  lemma RebuildClears(s: State, r: nat)
    requires r !in s.rebuilds
    ensures var steps := [ReadPending(r), BeginBuild(r), FinishBuild(r), Acknowledge(r)];
            && After(s, steps).Some? && !IsPending(After(s, steps).value)
            && After(s, steps).value.requested == s.requested
  {
    var steps := [ReadPending(r), BeginBuild(r), FinishBuild(r), Acknowledge(r)];
    assert steps[1..] == [BeginBuild(r), FinishBuild(r), Acknowledge(r)];
    assert steps[1..][1..] == [FinishBuild(r), Acknowledge(r)] && steps[1..][1..][1..] == [Acknowledge(r)];
    assert steps[1..][1..][1..][1..] == [];
    var read := Apply(s, ReadPending(r));
    var begun := Apply(read, BeginBuild(r));
    var built := Apply(begun, FinishBuild(r));
    assert After(built, [Acknowledge(r)]) == After(Apply(built, Acknowledge(r)), []);
    assert After(begun, steps[1..][1..]) == After(built, steps[1..][1..][1..]);
    assert After(read, steps[1..]) == After(begun, steps[1..][1..]);
  }

  // ----- the condition is exact -------------------------------------------

  /** A change stored last and neither pending nor taken in: no rebuild will ever look for it. */
  ghost predicate Lost(s: State, c: Change) {
    c in s.changes && !IsPending(s) && !TakenIn(s, c.at)
  }

  /**
   A time that is not safe can be lost: at once when it is not later than the rebuilt one,
   else as soon as the running build with a later time finishes and acknowledges.
   */
  lemma UnsafeMarkerCanBeLost(s: State, marker: int) returns (steps: seq<Step>)
    requires Inv(s) && !SafeMarker(s, marker)
    ensures After(Apply(s, Request(marker)), steps).Some?
    ensures Lost(After(Apply(s, Request(marker)), steps).value, Change(marker, s.clock))
  {
    var t := Apply(s, Request(marker));
    if s.rebuilt.Some? && marker <= s.rebuilt.value {
      steps := [];
    } else {
      var r :| r in s.rebuilds && !Exceeds(marker, s.rebuilds[r]);
      assert RebuildOk(s, s.rebuilds[r]);
      if s.rebuilds[r].Built? {
        steps := [Acknowledge(r)];
        assert steps[1..] == [];
      } else {
        steps := [FinishBuild(r), Acknowledge(r)];
        assert steps[1..] == [Acknowledge(r)] && steps[1..][1..] == [];
        var u := Apply(t, FinishBuild(r));
        assert After(u, [Acknowledge(r)]) == After(Apply(u, Acknowledge(r)), []);
        assert After(t, steps) == After(u, steps[1..]);
      }
    }
  }

  // ----- increasing times are safe ----------------------------------------

  predicate IncreasingStep(s: State, step: Step) {
    step.Request? && s.requested.Some? ==> step.marker > s.requested.value
  }

  predicate AllIncreasing(s: State, steps: seq<Step>)
    decreases |steps|
  {
    steps == [] ||
    (Enabled(s, steps[0]) ==> IncreasingStep(s, steps[0]) && AllIncreasing(Apply(s, steps[0]), steps[1..]))
  }

  predicate NotAhead(s: State, marker: Option<int>) {
    marker.Some? ==> s.requested.Some? && marker.value <= s.requested.value
  }

  /** No marker read or acknowledged is later than the requested one. */
  predicate Behind(s: State) {
    NotAhead(s, s.rebuilt) && forall r :: r in s.rebuilds ==> NotAhead(s, s.rebuilds[r].marker)
  }

  lemma StepKeepsBehind(s: State, step: Step)
    requires Behind(s) && Enabled(s, step) && IncreasingStep(s, step)
    ensures SafeStep(s, step) && Behind(Apply(s, step))
  {
    forall r | r in s.rebuilds && step.Request? ensures Exceeds(step.marker, s.rebuilds[r]) {
      assert NotAhead(s, s.rebuilds[r].marker);
    }
    forall r | r in Apply(s, step).rebuilds ensures NotAhead(Apply(s, step), Apply(s, step).rebuilds[r].marker) {
      if r in s.rebuilds { assert NotAhead(s, s.rebuilds[r].marker); }
    }
  }

  lemma {:induction false} IncreasingRunsAreSafe(s: State, steps: seq<Step>)
    requires Behind(s) && AllIncreasing(s, steps)
    ensures AllSafe(s, steps)
    decreases |steps|
  {
    if steps != [] && Enabled(s, steps[0]) {
      StepKeepsBehind(s, steps[0]);
      IncreasingRunsAreSafe(Apply(s, steps[0]), steps[1..]);
    }
  }

  /** With times strictly increasing in commit order, no change is ever lost. */
  lemma IncreasingTimesLoseNothing(steps: seq<Step>)
    requires After(START, steps).Some? && AllIncreasing(START, steps)
    ensures NothingLost(After(START, steps).value)
  {
    IncreasingRunsAreSafe(START, steps);
    SafeRunsLoseNothing(steps);
  }
}
