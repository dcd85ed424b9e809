/**
 The LibreNMS push handshake: a push marks its row, a rebuild reads the marks, builds, and
 clears the marks it read (nautobot_maps/scheduler.py, nautobot_maps/inventory.py).
 Rebuilds may overlap, die at any point, and meet pushes at any point.
 */
module PushHandshake {
  import opened Wrappers

  /** A stored push: its device, and when it was committed. */
  datatype Push = Push(device: int, at: nat)

  datatype Rebuild =
    | Read(seqs: set<int>)                  // pending marks read
    | Building(seqs: set<int>, began: nat)  // reading the data since *began*
    | Built(seqs: set<int>, began: nat)     // stored; not acknowledged yet

  /**
   *marks*: each cached device's push_seq.  *pushes*: every push so far, by its number;
   *deleted*: when a sync last deleted a device's row; *completed*: when the reads of each
   completed build began.
   */
  datatype State = State(clock: nat, marks: map<int, Option<int>>, rebuilds: map<nat, Rebuild>,
                         pushes: map<int, Push>, deleted: map<int, nat>, completed: set<nat>)

  datatype Step =
    | StorePush(device: int, seqNo: int)    // a new number, in no particular order
    | SyncInsert(device: int)
    | SyncDelete(device: int)
    | ReadPending(r: nat)
    | BeginBuild(r: nat)
    | FinishBuild(r: nat)
    | Acknowledge(r: nat)
    | Die(r: nat)

  function Pending(marks: map<int, Option<int>>): set<int> {
    set d | d in marks && marks[d].Some? :: marks[d].value
  }

  /** Clears exactly the marks with a number in *seqs*. */
  function Cleared(marks: map<int, Option<int>>, seqs: set<int>): map<int, Option<int>> {
    map d | d in marks :: if marks[d].Some? && marks[d].value in seqs then None else marks[d]
  }

  predicate Enabled(s: State, step: Step) {
    match step
    case StorePush(d, k) => d in s.marks && k !in s.pushes
    case SyncInsert(d) => d !in s.marks
    case SyncDelete(d) => d in s.marks
    case ReadPending(r) => r !in s.rebuilds
    case BeginBuild(r) => r in s.rebuilds && s.rebuilds[r].Read?
    case FinishBuild(r) => r in s.rebuilds && s.rebuilds[r].Building?
    case Acknowledge(r) => r in s.rebuilds && s.rebuilds[r].Built?
    case Die(r) => r in s.rebuilds
  }

  function Act(s: State, step: Step): State
    requires Enabled(s, step)
  {
    match step
    case StorePush(d, k) =>
      s.(marks := s.marks[d := Some(k)], pushes := s.pushes[k := Push(d, s.clock)])
    case SyncInsert(d) => s.(marks := s.marks[d := None])
    case SyncDelete(d) => s.(marks := s.marks - {d}, deleted := s.deleted[d := s.clock])
    case ReadPending(r) => s.(rebuilds := s.rebuilds[r := Read(Pending(s.marks))])
    case BeginBuild(r) => s.(rebuilds := s.rebuilds[r := Building(s.rebuilds[r].seqs, s.clock)])
    case FinishBuild(r) =>
      s.(rebuilds := s.rebuilds[r := Built(s.rebuilds[r].seqs, s.rebuilds[r].began)],
         completed := s.completed + {s.rebuilds[r].began})
    case Acknowledge(r) =>
      s.(marks := Cleared(s.marks, s.rebuilds[r].seqs), rebuilds := s.rebuilds - {r})
    case Die(r) => s.(rebuilds := s.rebuilds - {r})
  }

  function Apply(s: State, step: Step): State
    requires Enabled(s, step)
  {
    Act(s, step).(clock := s.clock + 1)
  }

  // ----- no push is lost --------------------------------------------------

  /** The device's row still carries this push's mark, or a later push's. */
  predicate Marked(s: State, p: Push) {
    && p.device in s.marks && s.marks[p.device].Some?
    && s.marks[p.device].value in s.pushes
    && s.pushes[s.marks[p.device].value].at >= p.at
  }

  ghost predicate TakenIn(s: State, at: nat) {
    exists b :: b in s.completed && b > at
  }

  predicate Gone(s: State, p: Push) {
    p.device in s.deleted && s.deleted[p.device] > p.at
  }

  ghost predicate Safe(s: State, p: Push) {
    Marked(s, p) || TakenIn(s, p.at) || Gone(s, p)
  }

  /** A rebuild's marks were set before its reads began. */
  predicate RebuildOk(s: State, x: Rebuild) {
    && (forall k :: k in x.seqs ==> k in s.pushes)
    && (!x.Read? ==> x.began < s.clock && forall k :: k in x.seqs ==> s.pushes[k].at < x.began)
    && (x.Built? ==> x.began in s.completed)
  }

  ghost predicate Inv(s: State) {
    && (forall d :: d in s.marks && s.marks[d].Some? ==>
          s.marks[d].value in s.pushes && s.pushes[s.marks[d].value].device == d)
    && (forall k :: k in s.pushes ==> s.pushes[k].at < s.clock && Safe(s, s.pushes[k]))
    && (forall r :: r in s.rebuilds ==> RebuildOk(s, s.rebuilds[r]))
    && (forall d :: d in s.deleted ==> s.deleted[d] < s.clock)
  }

  lemma StoreKeepsSafe(s: State, d: int, k: int, j: int)
    requires Inv(s) && Enabled(s, StorePush(d, k)) && j in s.pushes
    ensures Safe(Apply(s, StorePush(d, k)), s.pushes[j])
  {
  }

  lemma AcknowledgeKeepsSafe(s: State, r: nat, j: int)
    requires Inv(s) && Enabled(s, Acknowledge(r)) && j in s.pushes
    ensures Safe(Apply(s, Acknowledge(r)), s.pushes[j])
  {
    var p, x, t := s.pushes[j], s.rebuilds[r], Apply(s, Acknowledge(r));
    assert RebuildOk(s, x);
    if Marked(s, p) && s.marks[p.device].value in x.seqs {
      var k := s.marks[p.device].value;
      assert k in x.seqs && s.pushes[k].at < x.began;
      assert x.began in t.completed && x.began > p.at;
    }
  }

  lemma DeleteKeepsSafe(s: State, d: int, j: int)
    requires Inv(s) && Enabled(s, SyncDelete(d)) && j in s.pushes
    ensures Safe(Apply(s, SyncDelete(d)), s.pushes[j])
  {
  }

  lemma StepKeepsInv(s: State, step: Step)
    requires Inv(s) && Enabled(s, step)
    ensures Inv(Apply(s, step))
  {
    var t := Apply(s, step);
    forall j | j in s.pushes ensures Safe(t, s.pushes[j]) {
      match step
      case StorePush(d, k) => StoreKeepsSafe(s, d, k, j);
      case Acknowledge(r) => AcknowledgeKeepsSafe(s, r, j);
      case SyncDelete(d) => DeleteKeepsSafe(s, d, j);
      case _ =>
        assert forall b :: b in s.completed ==> b in t.completed;
    }
    RebuildsStayOk(s, step);
  }

  lemma RebuildsStayOk(s: State, step: Step)
    requires Inv(s) && Enabled(s, step)
    ensures forall r :: r in Apply(s, step).rebuilds ==> RebuildOk(Apply(s, step), Apply(s, step).rebuilds[r])
  {
    var t := Apply(s, step);
    forall r | r in t.rebuilds ensures RebuildOk(t, t.rebuilds[r]) {
      if r in s.rebuilds { assert RebuildOk(s, s.rebuilds[r]); }
    }
  }

  function After(s: State, steps: seq<Step>): Option<State>
    decreases |steps|
  {
    if steps == [] then Some(s)
    else if Enabled(s, steps[0]) then After(Apply(s, steps[0]), steps[1..])
    else None
  }

  function Start(devices: set<int>): State {
    State(0, map d | d in devices :: None, map[], map[], map[], {})
  }

  lemma {:induction false} RunKeepsInv(s: State, steps: seq<Step>)
    requires Inv(s) && After(s, steps).Some?
    ensures Inv(After(s, steps).value)
    decreases |steps|
  {
    if steps != [] {
      StepKeepsInv(s, steps[0]);
      RunKeepsInv(Apply(s, steps[0]), steps[1..]);
    }
  }

  /**
   No push is lost.  In every reachable state each push's device still carries its mark or
   a later one, or a completed build began its reads after it (or a sync removed the row).
   */
  lemma NoPushIsLost(devices: set<int>, steps: seq<Step>, k: int)
    requires After(Start(devices), steps).Some? && k in After(Start(devices), steps).value.pushes
    ensures Safe(After(Start(devices), steps).value, After(Start(devices), steps).value.pushes[k])
  {
    RunKeepsInv(Start(devices), steps);
  }

  // ----- the bounded loop -------------------------------------------------

  const MAX_ROUNDS := 5

  /** A request by time, of webhook alerts or of a change: pending while later than what was rebuilt. */
  datatype Marker = Marker(requested: Option<int>, rebuilt: Option<int>) {
    function Pending(): Option<int> {
      if requested.Some? && (rebuilt.None? || requested.value > rebuilt.value) then requested else None
    }

    function Requested(time: Option<int>): Marker { if time.Some? then this.(requested := time) else this }

    function Acknowledged(time: Option<int>): Marker { if time.Some? then this.(rebuilt := time) else this }
  }

  /** What may be pending; *pushes*: the numbers of the marks there are. */
  datatype Requests = Requests(pushes: set<int>, webhook: Marker, change: Marker) {
    predicate AnyPending() { pushes != {} || webhook.Pending().Some? || change.Pending().Some? }
  }

  /** What arrives during a build: the marks set by the end of it, and the last times stored. */
  datatype Arrivals = Arrivals(pushes: set<int>, webhook: Option<int>, change: Option<int>)

  /** A round: what is pending is read, arrivals come during the build, then what was read is acknowledged. */
  function Round(before: Requests, during: Arrivals): Requests {
    Requests(
      (before.pushes + during.pushes) - before.pushes,
      before.webhook.Requested(during.webhook).Acknowledged(before.webhook.Pending()),
      before.change.Requested(during.change).Acknowledged(before.change.Pending()))
  }

  function Rounds(before: Requests, during: seq<Arrivals>): Requests {
    if during == [] then before else Round(Rounds(before, during[..|during| - 1]), during[|during| - 1])
  }

  predicate IsPendingAfter(before: Requests, during: seq<Arrivals>, k: nat)
    requires k <= |during|
  {
    Rounds(before, during[..k]).AnyPending()
  }

  lemma RoundsOneMore(before: Requests, during: seq<Arrivals>, k: nat)
    requires k < |during|
    ensures Rounds(before, during[..k + 1]) == Round(Rounds(before, during[..k]), during[k])
  {
    assert during[..k + 1][..k] == during[..k];
  }

  /** The build, during which requests arrive, and then the acknowledgement of what was read before it. */
  method Rebuilt(before: Requests, pushes: set<int>, received: Option<int>, changed: Option<int>, during: Arrivals)
    returns (left: Requests)
    requires pushes == before.pushes && received == before.webhook.Pending() && changed == before.change.Pending()
    ensures left == Round(before, during)
  {
    left := Requests(before.pushes + during.pushes, before.webhook.Requested(during.webhook),
                     before.change.Requested(during.change));
    left := Requests(left.pushes - pushes, left.webhook.Acknowledged(received), left.change.Acknowledged(changed));
  }

  /**
   `rebuild_after_push`: again while something arrived during the build, at most five times,
   and once in any case with *always*.
   */
  method RebuildAfterPush(queued: Requests, arrivals: seq<Arrivals>, always: bool)
    returns (left: Requests, rounds: nat)
    requires |arrivals| == MAX_ROUNDS
    ensures rounds <= MAX_ROUNDS && left == Rounds(queued, arrivals[..rounds])
    ensures rounds == 0 <==> !queued.AnyPending() && !always
    ensures rounds < MAX_ROUNDS ==> !left.AnyPending()
    ensures forall k :: 0 < k < rounds ==> IsPendingAfter(queued, arrivals, k)
  {
    left, rounds := queued, 0;
    for attempt := 0 to MAX_ROUNDS
      invariant rounds == attempt && left == Rounds(queued, arrivals[..attempt])
      invariant rounds > 0 ==> queued.AnyPending() || always
      invariant forall k :: 0 < k < rounds ==> IsPendingAfter(queued, arrivals, k)
    {
      var pushes, received, changed := left.pushes, left.webhook.Pending(), left.change.Pending();
      if pushes == {} && received.None? && changed.None? && !(attempt == 0 && always) { break; }
      var during := arrivals[attempt];
      RoundsOneMore(queued, arrivals, attempt);
      left := Rebuilt(left, pushes, received, changed, during);
      rounds := rounds + 1;
    }
  }

  /** Later than what was requested and rebuilt before. */
  predicate IsLater(time: Option<int>, marker: Marker) {
    time.Some? ==>
      && (marker.requested.Some? ==> time.value > marker.requested.value)
      && (marker.rebuilt.Some? ==> time.value > marker.rebuilt.value)
  }

  /** With new numbers and later times, a round leaves pending exactly what arrived in it. */
  lemma RoundLeavesArrivals(before: Requests, during: Arrivals)
    requires during.pushes !! before.pushes
    requires IsLater(during.webhook, before.webhook) && IsLater(during.change, before.change)
    ensures var left := Round(before, during);
            && left.pushes == during.pushes
            && left.webhook.Pending() == during.webhook && left.change.Pending() == during.change
  {
  }

  // ----- a round is a run of the steps ------------------------------------

  /** Steps of pushes and syncs, not of rebuilds. */
  predicate IsArrival(step: Step) { step.StorePush? || step.SyncInsert? || step.SyncDelete? }

  lemma {:induction false} ArrivalsKeepRebuilds(s: State, steps: seq<Step>)
    requires After(s, steps).Some? && forall step <- steps :: IsArrival(step)
    ensures After(s, steps).value.rebuilds == s.rebuilds
    decreases |steps|
  {
    if steps != [] {
      assert steps[0] in steps && forall step <- steps[1..] :: step in steps;
      ArrivalsKeepRebuilds(Apply(s, steps[0]), steps[1..]);
    }
  }

  lemma {:induction false} AfterConcat(s: State, a: seq<Step>, b: seq<Step>)
    requires After(s, a).Some?
    ensures After(s, a + b) == After(After(s, a).value, b)
    decreases |a|
  {
    if a == [] {
      assert a + b == b;
    } else {
      AfterConcat(Apply(s, a[0]), a[1..], b);
      assert (a + b)[1..] == a[1..] + b;
    }
  }

  lemma AfterTwo(s: State, a: Step, b: Step)
    requires Enabled(s, a) && Enabled(Apply(s, a), b)
    ensures After(s, [a, b]) == Some(Apply(Apply(s, a), b))
  {
    var t := Apply(s, a);
    assert [a, b][1..] == [b] && [b][1..] == [];
    assert After(t, [b]) == After(Apply(t, b), []);
  }

  lemma PendingOfCleared(marks: map<int, Option<int>>, seqs: set<int>)
    ensures Pending(Cleared(marks, seqs)) == Pending(marks) - seqs
  {
    var cleared := Cleared(marks, seqs);
    forall k | k in Pending(marks) - seqs ensures k in Pending(cleared) {
      var d :| d in marks && marks[d] == Some(k);
      assert cleared[d] == Some(k);
    }
  }

  /**
   A round with pushes and syncs during its build: what is pending after it is what is marked
   at the end of the build without what was pending before it.
   */
  lemma RoundIsRun(s: State, r: nat, arrivals: seq<Step>)
    requires r !in s.rebuilds && forall step <- arrivals :: IsArrival(step)
    requires var begun := Apply(Apply(s, ReadPending(r)), BeginBuild(r)); After(begun, arrivals).Some?
    ensures var run := [ReadPending(r), BeginBuild(r)] + arrivals + [FinishBuild(r), Acknowledge(r)];
            var begun := Apply(Apply(s, ReadPending(r)), BeginBuild(r));
            && After(s, run).Some?
            && Pending(After(s, run).value.marks) == Pending(After(begun, arrivals).value.marks) - Pending(s.marks)
  {
    var begun := Apply(Apply(s, ReadPending(r)), BeginBuild(r));
    var first, last := [ReadPending(r), BeginBuild(r)], [FinishBuild(r), Acknowledge(r)];
    AfterTwo(s, ReadPending(r), BeginBuild(r));
    AfterConcat(s, first, arrivals);
    AfterConcat(s, first + arrivals, last);
    ArrivalsKeepRebuilds(begun, arrivals);
    var t := After(begun, arrivals).value;
    AfterTwo(t, FinishBuild(r), Acknowledge(r));
    PendingOfCleared(t.marks, Pending(s.marks));
  }
}
