/**
 Whether the stored board contains what was acknowledged (nautobot_maps/alerts.py,
 nautobot_maps/scheduler.py).  A push changes no snapshot version, so nothing but the build
 lock keeps a build that read before a push from storing its board after the rebuild that took
 the push in.  A build goes on without the lock when it has waited too long.
 */
module PushedBoard {
  import opened Wrappers

  /**
   A build: of a request, or of a rebuild with the pushes it read as pending.  *seen*: how
   many pushes there were when it began to read.
   */
  datatype Actor =
    | Idle
    | Waiting(pending: Option<set<nat>>)
    | Building(pending: Option<set<nat>>, locked: bool, seen: Option<nat>)
    | Stored(taken: set<nat>)            // a rebuild that has not acknowledged yet

  /**
   Pushes are numbered as they are committed; *acked*: those acknowledged; *cache*: how many
   the stored board contains.
   */
  datatype State = State(pushes: nat, acked: set<nat>, cache: Option<nat>, holder: Option<nat>, actors: map<nat, Actor>)

  datatype Step =
    | Push
    | Begin(a: nat, rebuild: bool)
    | Acquire(a: nat)
    | GiveUp(a: nat)
    | Read(a: nat)
    | Finish(a: nat)
    | Acknowledge(a: nat)
    | Drop
    | Crash(a: nat)

  function Of(s: State, a: nat): Actor { if a in s.actors then s.actors[a] else Idle }

  function Pending(s: State): set<nat> { set p | 0 <= p < s.pushes && p !in s.acked }

  predicate Enabled(s: State, step: Step) {
    match step
    case Push => true
    case Begin(a, _) => Of(s, a).Idle?
    case Acquire(a) => Of(s, a).Waiting? && s.holder.None?
    case GiveUp(a) => Of(s, a).Waiting?
    case Read(a) => Of(s, a).Building?
    case Finish(a) => Of(s, a).Building? && Of(s, a).seen.Some?
    case Acknowledge(a) => Of(s, a).Stored?
    case Drop => true
    case Crash(a) => true
  }

  function Released(s: State, a: nat): Option<nat> { if s.holder == Some(a) then None else s.holder }

  function Apply(s: State, step: Step): State
    requires Enabled(s, step)
  {
    match step
    case Push => s.(pushes := s.pushes + 1)
    case Begin(a, rebuild) =>
      s.(actors := s.actors[a := Waiting(if rebuild then Some(Pending(s)) else None)])
    case Acquire(a) =>
      s.(holder := Some(a), actors := s.actors[a := Building(Of(s, a).pending, true, None)])
    case GiveUp(a) => s.(actors := s.actors[a := Building(Of(s, a).pending, false, None)])
    case Read(a) =>
      if Of(s, a).seen.Some? then s
      else s.(actors := s.actors[a := Of(s, a).(seen := Some(s.pushes))])
    case Finish(a) =>
      var x := Of(s, a);
      s.(cache := x.seen, holder := Released(s, a),
         actors := s.actors[a := if x.pending.Some? then Stored(x.pending.value) else Idle])
    case Acknowledge(a) => s.(acked := s.acked + Of(s, a).taken, actors := s.actors[a := Idle])
    case Drop => s.(cache := None)
    case Crash(a) => s.(actors := s.actors[a := Idle], holder := Released(s, a))
  }

  const START := State(0, {}, None, None, map[])

  function After(s: State, steps: seq<Step>): Option<State>
    decreases |steps|
  {
    if steps == [] then Some(s)
    else if Enabled(s, steps[0]) then After(Apply(s, steps[0]), steps[1..])
    else None
  }

  /** A board of *n* pushes contains these. */
  predicate Covers(n: nat, pushes: set<nat>) { forall p <- pushes :: p < n }

  /** The stored board, if any, contains every acknowledged push. */
  predicate IsUpToDate(s: State) { s.cache.Some? ==> Covers(s.cache.value, s.acked) }

  predicate StaysUpToDate(s: State, steps: seq<Step>)
    requires After(s, steps).Some?
    decreases |steps|
  {
    IsUpToDate(s) && (steps != [] ==> StaysUpToDate(Apply(s, steps[0]), steps[1..]))
  }

  /**
   A build is stored that began to read before a push since acknowledged, or a rebuild
   acknowledges a push that a board stored after its own lacks.
   */
  predicate Overtaken(s: State, step: Step)
    requires Enabled(s, step)
  {
    || (step.Finish? && !Covers(Of(s, step.a).seen.value, s.acked))
    || (step.Acknowledge? && s.cache.Some? && !Covers(s.cache.value, Of(s, step.a).taken))
  }

  predicate NoneIsOvertaken(s: State, steps: seq<Step>)
    requires After(s, steps).Some?
    decreases |steps|
  {
    steps != [] ==> !Overtaken(s, steps[0]) && NoneIsOvertaken(Apply(s, steps[0]), steps[1..])
  }

  /** The stored board contains every acknowledged push all along exactly when no build of the run is overtaken so. */
  lemma {:induction false} UpToDateExactly(s: State, steps: seq<Step>)
    requires IsUpToDate(s) && After(s, steps).Some?
    ensures StaysUpToDate(s, steps) <==> NoneIsOvertaken(s, steps)
    decreases |steps|
  {
    if steps != [] {
      var next := Apply(s, steps[0]);
      assert IsUpToDate(next) <==> !Overtaken(s, steps[0]);
      if IsUpToDate(next) { UpToDateExactly(next, steps[1..]); }
    }
  }

  // ----- with the lock ----------------------------------------------------

  /** A board of *n* pushes contains everything acknowledged or about to be. */
  ghost predicate Sees(s: State, n: nat) {
    && Covers(n, s.acked)
    && forall a <- s.actors | s.actors[a].Stored? :: Covers(n, s.actors[a].taken)
  }

  predicate PendingBy(x: Actor, n: nat) {
    match x
    case Idle => true
    case Waiting(pending) => pending.Some? ==> Covers(n, pending.value)
    case Building(pending, _, _) => pending.Some? ==> Covers(n, pending.value)
    case Stored(taken) => Covers(n, taken)
  }

  ghost predicate Inv(s: State) {
    && Sees(s, s.pushes) && (forall a <- s.actors :: PendingBy(s.actors[a], s.pushes))
    && (s.cache.Some? ==> Sees(s, s.cache.value))
    && (forall a <- s.actors | s.actors[a].Building? :: IsLockedBuild(s, a))
  }

  /** A build that has the lock; what it has read contains all that, and its own pushes. */
  ghost predicate IsLockedBuild(s: State, a: nat)
    requires a in s.actors && s.actors[a].Building?
  {
    var x := s.actors[a];
    && x.locked && s.holder == Some(a)
    && (x.seen.Some? ==>
          Sees(s, x.seen.value) && x.seen.value <= s.pushes
          && (x.pending.Some? ==> Covers(x.seen.value, x.pending.value)))
  }

  lemma StepKeepsInv(s: State, step: Step)
    requires Inv(s) && Enabled(s, step) && !step.GiveUp?
    ensures Inv(Apply(s, step))
  {
  }

  lemma {:induction false} RunKeepsInv(s: State, steps: seq<Step>)
    requires Inv(s) && After(s, steps).Some? && forall step <- steps :: !step.GiveUp?
    ensures Inv(After(s, steps).value)
    decreases |steps|
  {
    if steps != [] {
      assert steps[0] in steps && forall step <- steps[1..] :: step in steps;
      StepKeepsInv(s, steps[0]);
      RunKeepsInv(Apply(s, steps[0]), steps[1..]);
    }
  }

  /** While no build goes on without the lock, the stored board contains every acknowledged push. */
  lemma LockedBuildsStayUpToDate(steps: seq<Step>)
    requires After(START, steps).Some? && forall step <- steps :: !step.GiveUp?
    ensures IsUpToDate(After(START, steps).value)
  {
    RunKeepsInv(START, steps);
  }

  // ----- and without it ---------------------------------------------------

  lemma {:induction false} Then(s: State, steps: seq<Step>, t: State, step: Step)
    requires After(s, steps) == Some(t) && Enabled(t, step)
    ensures After(s, steps + [step]) == Some(Apply(t, step))
    decreases |steps|
  {
    if steps == [] {
      assert steps + [step] == [step] && [step][1..] == [];
      assert After(Apply(s, step), []) == Some(Apply(s, step));
    } else {
      Then(Apply(s, steps[0]), steps[1..], t, step);
      assert (steps + [step])[1..] == steps[1..] + [step];
    }
  }

  /** A request's build with the lock has begun to read when a push comes. */
  lemma OvertakenBuild() returns (steps: seq<Step>, t: State)
    ensures After(START, steps) == Some(t)
    ensures t == State(1, {}, None, Some(0), map[0 := Building(None, true, Some(0))])
  {
    steps, t := [], START;
    Then(START, steps, t, Begin(0, false));
    steps, t := steps + [Begin(0, false)], Apply(t, Begin(0, false));
    Then(START, steps, t, Acquire(0));
    steps, t := steps + [Acquire(0)], Apply(t, Acquire(0));
    Then(START, steps, t, Read(0));
    steps, t := steps + [Read(0)], Apply(t, Read(0));
    Then(START, steps, t, Push);
    steps, t := steps + [Push], Apply(t, Push);
    assert t.actors == map[0 := Building(None, true, Some(0))];
  }

  /** The push's rebuild waits in vain, builds without the lock, stores and acknowledges. */
  lemma ImpatientRebuild(first: seq<Step>, s: State) returns (steps: seq<Step>, t: State)
    requires After(START, first) == Some(s)
    requires s == State(1, {}, None, Some(0), map[0 := Building(None, true, Some(0))])
    ensures After(START, steps) == Some(t) && IsUpToDate(t)
    ensures t.pushes == 1 && t.acked == {0} && Of(t, 0) == Building(None, true, Some(0))
  {
    steps, t := first, s;
    assert Pending(s) == {0};
    Then(START, steps, t, Begin(1, true));
    steps, t := steps + [Begin(1, true)], Apply(t, Begin(1, true));
    Then(START, steps, t, GiveUp(1));
    steps, t := steps + [GiveUp(1)], Apply(t, GiveUp(1));
    Then(START, steps, t, Read(1));
    steps, t := steps + [Read(1)], Apply(t, Read(1));
    Then(START, steps, t, Finish(1));
    steps, t := steps + [Finish(1)], Apply(t, Finish(1));
    Then(START, steps, t, Acknowledge(1));
    steps, t := steps + [Acknowledge(1)], Apply(t, Acknowledge(1));
  }

  /**
   Then the first build stores what it read before the push: the push is acknowledged, so no
   rebuild will look for it, and the stored board is without it.
   */
  lemma AcknowledgedPushIsMissing() returns (steps: seq<Step>, t: State)
    ensures After(START, steps) == Some(t)
    ensures !IsUpToDate(t) && t.acked == {0} && t.cache == Some(0) && Pending(t) == {}
  {
    var first, s := OvertakenBuild();
    steps, t := ImpatientRebuild(first, s);
    Then(START, steps, t, Finish(0));
    steps, t := steps + [Finish(0)], Apply(t, Finish(0));
    assert !Covers(0, {0});
    assert forall p :: p in Pending(t) ==> p == 0;
  }
}
