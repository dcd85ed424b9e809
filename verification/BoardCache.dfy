/**
 The shared alert board cache (nautobot_maps/alerts.py, `board`), as a protocol between
 syncs that commit, requests and forced rebuilds that read and store, and the build lock.

 A data version counts the committed syncs of each source.  The version string a board is
 labelled with holds each source's last success, which changes in the transaction of its
 data; completion times being distinct, the string identifies the version.
 */
module BoardCache {
  import opened Wrappers

  datatype Version = Version(nautobot: nat, librenms: nat)

  predicate AtMost(a: Version, b: Version) {
    a.nautobot <= b.nautobot && a.librenms <= b.librenms
  }

  /** Per source, the oldest data a build has read; nothing for a source it has not read yet. */
  datatype Seen = Seen(nautobot: Option<nat>, librenms: Option<nat>)

  function Older(seen: Option<nat>, now: nat): Option<nat> {
    if seen.Some? && seen.value <= now then seen else Some(now)
  }

  predicate IsComplete(seen: Seen) { seen.nautobot.Some? && seen.librenms.Some? }

  function DataOf(seen: Seen): Version
    requires IsComplete(seen)
  {
    Version(seen.nautobot.value, seen.librenms.value)
  }

  predicate AtLeast(seen: Seen, v: Version) {
    && (seen.nautobot.Some? ==> v.nautobot <= seen.nautobot.value)
    && (seen.librenms.Some? ==> v.librenms <= seen.librenms.value)
  }

  /**
   A stored or served board: its label (none when the snapshot could not be read), and per
   source the oldest data it was built from.  A build reads both.
   */
  datatype Board = Board(version: Option<Version>, data: Version)

  /**
   One call of `board`.  *version*: what it read of the snapshot first, nothing when that
   failed; *since*: the syncs committed by then, which its answer must not be older than.
   */
  datatype Call = Call(rebuild: bool, version: Option<Version>, since: Version)

  datatype Actor =
    | Idle
    | Checking(call: Call)              // before the first look at the cache
    | Waiting(call: Call)               // for the build lock
    | Rechecking(call: Call, locked: bool) // second look, with the lock or after the time limit
    | Building(call: Call, locked: bool, seen: Seen)

  datatype Answer = Answer(call: Call, board: Board, cached: bool)

  datatype State = State(db: Version, cache: Option<Board>, holder: Option<nat>, actors: map<nat, Actor>,
                         answers: seq<Answer>)

  datatype Step =
    | CommitNautobot
    | CommitLibrenms
    | Drop                                  // invalidated by a sync or a change, or expired
    | Ask(a: nat, rebuild: bool, readable: bool)
    | Check(a: nat)
    | Acquire(a: nat)
    | Poll(a: nat)                          // the lock is held: ask for the stored board
    | GiveUp(a: nat)                        // time limit, no database or a failed lock: build anyway
    | Recheck(a: nat)
    | ReadNautobot(a: nat)
    | ReadLibrenms(a: nat)
    | Finish(a: nat, store: bool)           // stored unless empty before the first sync
    | Crash(a: nat)

  /** `_board_current`. */
  predicate Current(stored: Board, version: Option<Version>) {
    version.None? || stored.version.None? || stored.version == version
  }

  predicate Found(s: State, call: Call) {
    s.cache.Some? && Current(s.cache.value, call.version)
  }

  function Of(s: State, a: nat): Actor {
    if a in s.actors then s.actors[a] else Idle
  }

  function Serve(s: State, a: nat, call: Call, board: Board, cached: bool): State {
    s.(actors := s.actors[a := Idle], answers := s.answers + [Answer(call, board, cached)],
       holder := if s.holder == Some(a) then None else s.holder)
  }

  predicate Enabled(s: State, step: Step) {
    match step
    case CommitNautobot => true
    case CommitLibrenms => true
    case Drop => true
    case Ask(a, _, _) => Of(s, a).Idle?
    case Check(a) => Of(s, a).Checking?
    case Acquire(a) => Of(s, a).Waiting? && s.holder.None?
    case Poll(a) => Of(s, a).Waiting? && !Of(s, a).call.rebuild && Found(s, Of(s, a).call)
    case GiveUp(a) => Of(s, a).Waiting?
    case Recheck(a) => Of(s, a).Rechecking?
    case ReadNautobot(a) => Of(s, a).Building?
    case ReadLibrenms(a) => Of(s, a).Building?
    case Finish(a, _) => Of(s, a).Building? && IsComplete(Of(s, a).seen)
    case Crash(a) => true
  }

  function Apply(s: State, step: Step): State
    requires Enabled(s, step)
  {
    match step
    case CommitNautobot => s.(db := s.db.(nautobot := s.db.nautobot + 1))
    case CommitLibrenms => s.(db := s.db.(librenms := s.db.librenms + 1))
    case Drop => s.(cache := None)
    case Ask(a, rebuild, readable) =>
      s.(actors := s.actors[a := Checking(Call(rebuild, if readable then Some(s.db) else None, s.db))])
    case Check(a) =>
      var call := Of(s, a).call;
      if !call.rebuild && Found(s, call) then Serve(s, a, call, s.cache.value, true)
      else s.(actors := s.actors[a := Waiting(call)])
    case Acquire(a) =>
      s.(holder := Some(a), actors := s.actors[a := Rechecking(Of(s, a).call, true)])
    case Poll(a) =>
      Serve(s, a, Of(s, a).call, s.cache.value, true)
    case GiveUp(a) =>
      s.(actors := s.actors[a := Rechecking(Of(s, a).call, false)])
    case Recheck(a) =>
      var call := Of(s, a).call;
      if !call.rebuild && Found(s, call) then Serve(s, a, call, s.cache.value, true)
      else s.(actors := s.actors[a := Building(call, Of(s, a).locked, Seen(None, None))])
    case ReadNautobot(a) =>
      var b := Of(s, a);
      s.(actors := s.actors[a := b.(seen := b.seen.(nautobot := Older(b.seen.nautobot, s.db.nautobot)))])
    case ReadLibrenms(a) =>
      var b := Of(s, a);
      s.(actors := s.actors[a := b.(seen := b.seen.(librenms := Older(b.seen.librenms, s.db.librenms)))])
    case Finish(a, store) =>
      var b := Of(s, a);
      var board := Board(b.call.version, DataOf(b.seen));
      Serve(if store then s.(cache := Some(board)) else s, a, b.call, board, false)
    case Crash(a) =>
      s.(actors := s.actors[a := Idle], holder := if s.holder == Some(a) then None else s.holder)
  }

  const START := State(Version(0, 0), None, None, map[], [])

  /** The state after *steps* from *s*; nothing when one of them was not enabled in its turn. */
  function After(s: State, steps: seq<Step>): Option<State>
    decreases |steps|
  {
    if steps == [] then Some(s)
    else if Enabled(s, steps[0]) then After(Apply(s, steps[0]), steps[1..])
    else None
  }

  predicate Possible(steps: seq<Step>) {
    After(START, steps).Some?
  }

  function Reached(steps: seq<Step>): State
    requires Possible(steps)
  {
    After(START, steps).value
  }

  // ----- safety -----------------------------------------------------------

  predicate CallOk(call: Call, db: Version) {
    AtMost(call.since, db) && (call.version.Some? ==> call.version.value == call.since)
  }

  /** A labelled board's data is never older than its label. */
  predicate BoardOk(b: Board) {
    b.version.Some? ==> AtMost(b.version.value, b.data)
  }

  predicate ActorOk(x: Actor, db: Version) {
    !x.Idle? ==> CallOk(x.call, db) && (x.Building? ==> AtLeast(x.seen, x.call.since))
  }

  predicate Fresh(x: Answer) {
    AtMost(x.call.since, x.board.data)
  }

  /** An answer that had to be fresh: built by the call itself, or both versions known. */
  predicate Checked(x: Answer) {
    !x.cached || (x.call.version.Some? && x.board.version.Some?)
  }

  predicate Holds(x: Actor) {
    (x.Rechecking? || x.Building?) && x.locked
  }

  predicate Inv(s: State) {
    && (s.cache.Some? ==> BoardOk(s.cache.value))
    && (forall a :: a in s.actors ==> ActorOk(s.actors[a], s.db))
    && (forall a :: a in s.actors ==> (Holds(s.actors[a]) <==> s.holder == Some(a)))
    && (s.holder.Some? ==> s.holder.value in s.actors)
    && (forall i :: 0 <= i < |s.answers| ==> Checked(s.answers[i]) ==> Fresh(s.answers[i]))
  }

  lemma ServeKeepsInv(s: State, a: nat, call: Call, board: Board, cached: bool)
    requires Inv(s) && (Checked(Answer(call, board, cached)) ==> Fresh(Answer(call, board, cached)))
    ensures Inv(Serve(s, a, call, board, cached))
  {
  }

  lemma MoveKeepsInv(s: State, a: nat, x: Actor)
    requires Inv(s) && ActorOk(x, s.db) && (Holds(x) <==> s.holder == Some(a))
    ensures Inv(s.(actors := s.actors[a := x]))
  {
  }

  lemma CachedIsFresh(s: State, call: Call)
    requires Inv(s) && CallOk(call, s.db) && Found(s, call)
    ensures Checked(Answer(call, s.cache.value, true)) ==> Fresh(Answer(call, s.cache.value, true))
  {
  }

  lemma StepKeepsInv(s: State, step: Step)
    requires Inv(s) && Enabled(s, step)
    ensures Inv(Apply(s, step))
  {
    match step
    case Check(a) =>
      if Found(s, Of(s, a).call) {
        CachedIsFresh(s, Of(s, a).call);
        ServeKeepsInv(s, a, Of(s, a).call, s.cache.value, true);
      }
      MoveKeepsInv(s, a, Waiting(Of(s, a).call));
    case Poll(a) =>
      CachedIsFresh(s, Of(s, a).call);
      ServeKeepsInv(s, a, Of(s, a).call, s.cache.value, true);
    case Recheck(a) =>
      if Found(s, Of(s, a).call) {
        CachedIsFresh(s, Of(s, a).call);
        ServeKeepsInv(s, a, Of(s, a).call, s.cache.value, true);
      }
      MoveKeepsInv(s, a, Building(Of(s, a).call, Of(s, a).locked, Seen(None, None)));
    case Finish(a, store) =>
      var b := Of(s, a);
      var board := Board(b.call.version, DataOf(b.seen));
      ServeKeepsInv(s.(cache := Some(board)), a, b.call, board, false);
      ServeKeepsInv(s, a, b.call, board, false);
    case _ =>
  }

  lemma {:induction false} RunKeepsInv(s: State, steps: seq<Step>)
    requires Inv(s) && After(s, steps).Some?
    ensures Inv(After(s, steps).value)
    decreases |steps|
  {
    if steps != [] {
      StepKeepsInv(s, steps[0]);
      RunKeepsInv(Apply(s, steps[0]), steps[1..]);
    }
  }

  /**
   Under any interleaving, a board served to a call is built from data at least as new as
   every sync committed before the call read its version, if the call built it itself or
   both the call's and the board's version are known.
   */
  lemma ServedBoardsAreFresh(steps: seq<Step>, i: nat)
    requires Possible(steps) && i < |Reached(steps).answers|
    ensures Checked(Reached(steps).answers[i]) ==> Fresh(Reached(steps).answers[i])
  {
    RunKeepsInv(START, steps);
  }

  predicate IsBuiltIfRebuild(s: State) {
    forall i :: 0 <= i < |s.answers| && s.answers[i].call.rebuild ==> !s.answers[i].cached
  }

  lemma {:induction false} RunBuildsRebuilds(s: State, steps: seq<Step>)
    requires IsBuiltIfRebuild(s) && After(s, steps).Some?
    ensures IsBuiltIfRebuild(After(s, steps).value)
    decreases |steps|
  {
    if steps != [] {
      assert IsBuiltIfRebuild(Apply(s, steps[0]));
      RunBuildsRebuilds(Apply(s, steps[0]), steps[1..]);
    }
  }

  /** A rebuild always answers with a board it built itself, with every sync committed before it began. */
  lemma RebuildsAreFresh(steps: seq<Step>, i: nat)
    requires Possible(steps) && i < |Reached(steps).answers| && Reached(steps).answers[i].call.rebuild
    ensures !Reached(steps).answers[i].cached && Fresh(Reached(steps).answers[i])
  {
    RunBuildsRebuilds(START, steps);
    ServedBoardsAreFresh(steps, i);
  }

  predicate Readable(step: Step) {
    step.Ask? ==> step.readable
  }

  predicate ActorLabelled(x: Actor) {
    !x.Idle? ==> x.call.version.Some?
  }

  predicate Labelled(s: State) {
    && (s.cache.Some? ==> s.cache.value.version.Some?)
    && (forall a :: a in s.actors ==> ActorLabelled(s.actors[a]))
    && (forall i :: 0 <= i < |s.answers| ==> s.answers[i].call.version.Some? && s.answers[i].board.version.Some?)
  }

  lemma StepKeepsLabels(s: State, step: Step)
    requires Labelled(s) && Enabled(s, step) && Readable(step)
    ensures Labelled(Apply(s, step))
  {
  }

  lemma {:induction false} RunKeepsLabels(s: State, steps: seq<Step>)
    requires Labelled(s) && After(s, steps).Some? && forall k :: 0 <= k < |steps| ==> Readable(steps[k])
    ensures Labelled(After(s, steps).value)
    decreases |steps|
  {
    if steps != [] {
      StepKeepsLabels(s, steps[0]);
      RunKeepsLabels(Apply(s, steps[0]), steps[1..]);
    }
  }

  /** With every snapshot read succeeding, no answer is ever older than its call's syncs. */
  lemma ReadableRunsServeFresh(steps: seq<Step>, i: nat)
    requires Possible(steps) && i < |Reached(steps).answers|
    requires forall k :: 0 <= k < |steps| ==> Readable(steps[k])
    ensures Fresh(Reached(steps).answers[i])
  {
    RunKeepsLabels(START, steps);
    ServedBoardsAreFresh(steps, i);
  }

  /** Two builds run at once only when one of them went on without the lock. */
  lemma OneLockedBuild(steps: seq<Step>, a: nat, b: nat)
    requires Possible(steps) && a != b && Of(Reached(steps), a).Building? && Of(Reached(steps), b).Building?
    ensures !Of(Reached(steps), a).locked || !Of(Reached(steps), b).locked
  {
    RunKeepsInv(START, steps);
  }

  // ----- exactly when an answer is stale ----------------------------------

  /** The call whose actor is about to be answered from the cache by this step. */
  predicate ServesStored(s: State, step: Step) {
    match step
    case Check(a) => Of(s, a).Checking? && !Of(s, a).call.rebuild && Found(s, Of(s, a).call)
    case Poll(a) => Enabled(s, step)
    case Recheck(a) => Of(s, a).Rechecking? && !Of(s, a).call.rebuild && Found(s, Of(s, a).call)
    case _ => false
  }

  predicate AddsStaleAnswer(s: State, step: Step)
    requires Enabled(s, step)
  {
    var answers := Apply(s, step).answers;
    |answers| > |s.answers| && !Fresh(answers[|answers| - 1])
  }

  /**
   In every reachable state, a step gives a stale answer exactly when it serves a stored
   board with data older than the syncs its call must see, and the call could not read the
   version or the board has no label.
   */
  lemma StaleAnswerExactly(steps: seq<Step>, step: Step)
    requires Possible(steps) && Enabled(Reached(steps), step)
    ensures var s := Reached(steps);
            AddsStaleAnswer(s, step) <==>
            && ServesStored(s, step)
            && var call := Of(s, step.a).call;
               !AtMost(call.since, s.cache.value.data) && (call.version.None? || s.cache.value.version.None?)
  {
    RunKeepsInv(START, steps);
    var s := Reached(steps);
    if ServesStored(s, step) { CachedIsFresh(s, Of(s, step.a).call); }
  }

  /** A request, that can read the version or not, finds a stored board at once, a stale one. */
  predicate RequestIsServedStale(s: State, a: nat, readable: bool) {
    && Of(s, a).Idle?
    && var t := Apply(Apply(s, Ask(a, false, readable)), Check(a));
       |t.answers| > |s.answers| && !Fresh(t.answers[|s.answers|])
  }

  /**
   A request to any reachable state is answered with a stale board exactly when one is stored
   that is older than the data there is, and it has no label or the request cannot read the
   version.
   */
  lemma RequestIsServedStaleExactly(steps: seq<Step>, a: nat, readable: bool)
    requires Possible(steps) && Of(Reached(steps), a).Idle?
    ensures var s := Reached(steps);
            RequestIsServedStale(s, a, readable) <==>
            && s.cache.Some? && !AtMost(s.db, s.cache.value.data)
            && (!readable || s.cache.value.version.None?)
  {
    RunKeepsInv(START, steps);
    var s := Reached(steps);
    StepKeepsInv(s, Ask(a, false, readable));
    var asked := Apply(s, Ask(a, false, readable));
    if Found(asked, Of(asked, a).call) { CachedIsFresh(asked, Of(asked, a).call); }
  }

  // ----- and that it happens ----------------------------------------------

  /** An unlabelled stored board older than the data there is now. */
  predicate StaleUnlabelled(s: State) {
    s.cache.Some? && s.cache.value.version.None? && !AtMost(s.db, s.cache.value.data)
  }

  lemma {:induction false} Then(s: State, steps: seq<Step>, t: State, step: Step)
    requires After(s, steps) == Some(t) && Enabled(t, step)
    ensures After(s, steps + [step]) == Some(Apply(t, step))
    decreases |steps|
  {
    if steps == [] {
      assert steps + [step] == [step];
    } else {
      Then(Apply(s, steps[0]), steps[1..], t, step);
      assert (steps + [step])[1..] == steps[1..] + [step];
    }
  }

  /** A forced rebuild that gets the lock. */
  lemma StartedBuild(s: State, a: nat, readable: bool) returns (steps: seq<Step>, t: State)
    requires Of(s, a).Idle? && s.holder.None?
    ensures After(s, steps) == Some(t) && t.db == s.db && t.cache == s.cache
    ensures Of(t, a) == Building(Call(true, if readable then Some(s.db) else None, s.db), true, Seen(None, None))
  {
    steps, t := [], s;
    Then(s, steps, t, Ask(a, true, readable));
    steps, t := steps + [Ask(a, true, readable)], Apply(t, Ask(a, true, readable));
    Then(s, steps, t, Check(a));
    steps, t := steps + [Check(a)], Apply(t, Check(a));
    Then(s, steps, t, Acquire(a));
    steps, t := steps + [Acquire(a)], Apply(t, Acquire(a));
    Then(s, steps, t, Recheck(a));
    steps, t := steps + [Recheck(a)], Apply(t, Recheck(a));
  }

  lemma OvertakenBuild(s: State, a: nat) returns (steps: seq<Step>, t: State)
    requires Of(s, a).Building? && Of(s, a).call.version.None? && Of(s, a).seen == Seen(None, None)
    ensures After(s, steps) == Some(t) && StaleUnlabelled(t) && Of(t, a).Idle?
  {
    steps, t := [], s;
    Then(s, steps, t, ReadNautobot(a));
    steps, t := steps + [ReadNautobot(a)], Apply(t, ReadNautobot(a));
    Then(s, steps, t, ReadLibrenms(a));
    steps, t := steps + [ReadLibrenms(a)], Apply(t, ReadLibrenms(a));
    Then(s, steps, t, CommitNautobot);
    steps, t := steps + [CommitNautobot], Apply(t, CommitNautobot);
    Then(s, steps, t, Drop);
    steps, t := steps + [Drop], Apply(t, Drop);
    Then(s, steps, t, Finish(a, true));
    steps, t := steps + [Finish(a, true)], Apply(t, Finish(a, true));
  }

  /**
   The guard is needed.  A build whose snapshot read failed, overtaken by a sync, leaves
   such a board, and it is served to any request, also one that knows the version.
   */
  lemma UnlabelledBoardIsServedStale(s: State, a: nat) returns (steps: seq<Step>, t: State)
    requires StaleUnlabelled(s) && Of(s, a).Idle?
    ensures After(s, steps) == Some(t) && |t.answers| == |s.answers| + 1
    ensures t.answers[|s.answers|].call.version == Some(s.db) && !Fresh(t.answers[|s.answers|])
  {
    steps, t := [], s;
    Then(s, steps, t, Ask(a, false, true));
    steps, t := steps + [Ask(a, false, true)], Apply(t, Ask(a, false, true));
    assert Found(t, Of(t, a).call);
    Then(s, steps, t, Check(a));
    steps, t := steps + [Check(a)], Apply(t, Check(a));
  }

  lemma {:induction false} AfterConcat(s: State, a: seq<Step>, b: seq<Step>)
    requires After(s, a).Some?
    ensures After(s, a + b) == After(After(s, a).value, b)
    decreases |a|
  {
    if a == [] {
      assert a + b == b;
    } else {
      AfterConcat(Apply(s, a[0]), a[1..], b);
      assert (a + b)[1..] == a[1..] + b;
    }
  }

  /** The last answer is stale, although its call knew the version. */
  predicate LastIsStale(s: State) {
    s.answers != [] && var x := s.answers[|s.answers| - 1]; x.call.version.Some? && !Fresh(x)
  }

  /** So from the start there is a run that serves a stale board to a call with a known version. */
  lemma StaleAnswerIsReachable() returns (steps: seq<Step>)
    ensures Possible(steps) && LastIsStale(Reached(steps))
  {
    var first, s := StartedBuild(START, 0, false);
    var second, t := OvertakenBuild(s, 0);
    var third, u := UnlabelledBoardIsServedStale(t, 0);
    AfterConcat(START, first, second);
    AfterConcat(START, first + second, third);
    steps := first + second + third;
  }

  predicate HasLabelledBoard(s: State) { s.cache.Some? && s.cache.value.version.Some? }

  lemma FinishedBuild(s: State, a: nat) returns (steps: seq<Step>, t: State)
    requires Of(s, a).Building? && Of(s, a).seen == Seen(None, None)
    ensures After(s, steps) == Some(t) && Of(t, a).Idle? && t.db == s.db
    ensures t.cache == Some(Board(Of(s, a).call.version, s.db))
  {
    steps, t := [], s;
    Then(s, steps, t, ReadNautobot(a));
    steps, t := steps + [ReadNautobot(a)], Apply(t, ReadNautobot(a));
    Then(s, steps, t, ReadLibrenms(a));
    steps, t := steps + [ReadLibrenms(a)], Apply(t, ReadLibrenms(a));
    Then(s, steps, t, Finish(a, true));
    steps, t := steps + [Finish(a, true)], Apply(t, Finish(a, true));
  }

  /**
   A request that cannot read the version is served any stored board, a labelled one too, if
   it comes between a sync's commit and the drop of the stored board.
   */
  lemma LabelledBoardIsServedStale() returns (steps: seq<Step>)
    ensures Possible(steps) && HasLabelledBoard(Reached(steps)) && RequestIsServedStale(Reached(steps), 0, false)
  {
    var first, s := StartedBuild(START, 0, true);
    var second, t := FinishedBuild(s, 0);
    AfterConcat(START, first, second);
    Then(START, first + second, t, CommitNautobot);
    steps := first + second + [CommitNautobot];
    RequestIsServedStaleExactly(steps, 0, false);
  }
}
