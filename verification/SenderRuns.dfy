/**
 Any run of concurrent senders over one outbox (nautobot_maps/notify.py): each claims the
 due rows no other holds, delivers them in batches, and commits, or crashes at any moment,
 which rolls its rows back although the receiver may have taken them.  Clocks may jump.
 */
module SenderRuns {
  import opened Wrappers
  import opened Sender

  /** An open transaction: what is left to deliver, and what became of the rest. */
  datatype Pass = Pass(now: int, todo: seq<nat>, outcomes: map<nat, bool>) {
    function Holds(): set<nat> { (set id <- todo) + outcomes.Keys }
  }

  /**
   What happened to a row: how often the receiver took it, how often it did not, and when
   the failed deliveries that a commit saved were due to be made.
   */
  datatype History = History(taken: nat, refused: nat, failures: seq<int>)

  datatype State = State(rows: seq<Row>, passes: map<string, Pass>, histories: seq<History>)

  datatype Step =
    | Enqueue(channel: string, created: int)
    | Claim(sender: string, target: string, now: int)
    | Deliver(sender: string, size: nat, accepted: bool)
    | Commit(sender: string)
    | Crash(sender: string)

  function Held(s: State): set<nat> {
    set sender <- s.passes, id <- s.passes[sender].Holds() :: id
  }

  predicate Enabled(s: State, step: Step) {
    match step
    case Enqueue(_, _) => true
    case Claim(sender, _, _) => sender !in s.passes
    case Deliver(sender, size, _) => sender in s.passes && 1 <= size <= |s.passes[sender].todo|
    case Commit(sender) => sender in s.passes && s.passes[sender].todo == []
    case Crash(sender) => sender in s.passes
  }

  function Noted(h: History, accepted: bool): History {
    if accepted then h.(taken := h.taken + 1) else h.(refused := h.refused + 1)
  }

  function Delivered(s: State, sender: string, size: nat, accepted: bool): State
    requires sender in s.passes && size <= |s.passes[sender].todo|
  {
    var pass := s.passes[sender];
    var batch := pass.todo[..size];
    var outcomes := map id | id in pass.outcomes.Keys + (set id <- batch) ::
                      if id in batch then accepted else pass.outcomes[id];
    s.(passes := s.passes[sender := Pass(pass.now, pass.todo[size..], outcomes)],
       histories := seq(|s.histories|, i requires 0 <= i < |s.histories| =>
                      if i in batch then Noted(s.histories[i], accepted) else s.histories[i]))
  }

  function Committed(s: State, sender: string): State
    requires sender in s.passes
  {
    var pass := s.passes[sender];
    State(
      seq(|s.rows|, i requires 0 <= i < |s.rows| =>
        if i in pass.outcomes then AfterDelivery(s.rows[i], pass.outcomes[i], pass.now) else s.rows[i]),
      s.passes - {sender},
      seq(|s.histories|, i requires 0 <= i < |s.histories| =>
        if i in pass.outcomes && !pass.outcomes[i]
        then s.histories[i].(failures := s.histories[i].failures + [pass.now])
        else s.histories[i]))
  }

  function Next(s: State, step: Step): State
    requires Enabled(s, step)
  {
    match step
    case Enqueue(channel, created) =>
      s.(rows := s.rows + [Row(channel, Pending, 0, created)], histories := s.histories + [History(0, 0, [])])
    case Claim(sender, channel, now) =>
      var ids := Due(s.rows, channel, now, Held(s));
      if ids == [] then s else s.(passes := s.passes[sender := Pass(now, ids, map[])])
    case Deliver(sender, size, accepted) => Delivered(s, sender, size, accepted)
    case Commit(sender) => Committed(s, sender)
    case Crash(sender) => s.(passes := s.passes - {sender})
  }

  function After(s: State, steps: seq<Step>): Option<State>
    decreases |steps|
  {
    if steps == [] then Some(s)
    else if Enabled(s, steps[0]) then After(Next(s, steps[0]), steps[1..])
    else None
  }

  const EMPTY := State([], map[], [])

  // ---------------------------------------------------------------- the invariant

  /** Each failure came at least its delay after the one before. */
  predicate Spaced(failures: seq<int>) {
    forall k :: 1 <= k < |failures| ==> failures[k] >= failures[k - 1] + RetryDelay(k)
  }

  predicate RowInv(row: Row, h: History) {
    && Spaced(h.failures) && |h.failures| <= h.refused
    && match row.status
       case Sent => h.taken >= 1 && row.attempts == |h.failures| + 1 <= MAX_ATTEMPTS
       case Failed => row.attempts == |h.failures| == MAX_ATTEMPTS
       case Pending =>
         && row.attempts == |h.failures| < MAX_ATTEMPTS
         && (h.failures != [] ==> row.nextAttempt == h.failures[|h.failures| - 1] + RetryDelay(|h.failures|))
  }

  /** A row a sender holds: pending and due, and its outcome, if any, is in its history. */
  predicate HeldInv(row: Row, h: History, pass: Pass, id: nat) {
    && row.status == Pending && row.nextAttempt <= pass.now
    && (id in pass.outcomes ==> if pass.outcomes[id] then h.taken >= 1 else h.refused > |h.failures|)
  }

  predicate PassInv(s: State, sender: string)
    requires |s.histories| == |s.rows| && sender in s.passes
  {
    var pass := s.passes[sender];
    && Distinct(pass.todo) && (forall id <- pass.todo :: id !in pass.outcomes)
    && (forall id <- pass.Holds() :: id < |s.rows| && HeldInv(s.rows[id], s.histories[id], pass, id))
  }

  predicate RowsInv(s: State) {
    |s.histories| == |s.rows| && forall id :: 0 <= id < |s.rows| ==> RowInv(s.rows[id], s.histories[id])
  }

  /** No two senders hold the same row. */
  predicate Apart(passes: map<string, Pass>) {
    forall a <- passes, b <- passes :: a != b ==> passes[a].Holds() !! passes[b].Holds()
  }

  predicate Inv(s: State) {
    RowsInv(s) && Apart(s.passes) && forall sender <- s.passes :: PassInv(s, sender)
  }

  lemma CommittedRow(row: Row, h: History, pass: Pass, id: nat)
    requires RowInv(row, h) && HeldInv(row, h, pass, id) && id in pass.outcomes
    ensures RowInv(AfterDelivery(row, pass.outcomes[id], pass.now),
                   if pass.outcomes[id] then h else h.(failures := h.failures + [pass.now]))
  {
  }

  lemma ClaimIsApart(s: State, sender: string, pass: Pass)
    requires Apart(s.passes) && sender !in s.passes && pass.Holds() !! Held(s)
    ensures Apart(s.passes[sender := pass])
  {
    forall a | a in s.passes ensures s.passes[a].Holds() !! pass.Holds() {
      assert forall id <- s.passes[a].Holds() :: id in Held(s);
    }
  }

  lemma ClaimKeepsInv(s: State, sender: string, channel: string, now: int)
    requires Inv(s) && sender !in s.passes
    ensures Inv(Next(s, Claim(sender, channel, now)))
  {
    var ids, t := Due(s.rows, channel, now, Held(s)), Next(s, Claim(sender, channel, now));
    if ids != [] {
      assert t.passes[sender].Holds() == set id <- ids;
      ClaimIsApart(s, sender, t.passes[sender]);
      forall a | a in t.passes ensures PassInv(t, a) {
        if a != sender { assert PassInv(s, a); }
      }
    }
  }

  lemma DeliverKeepsPass(s: State, sender: string, size: nat, accepted: bool)
    requires Inv(s) && Enabled(s, Deliver(sender, size, accepted))
    ensures var t := Delivered(s, sender, size, accepted);
            t.passes[sender].Holds() == s.passes[sender].Holds() && |t.histories| == |t.rows| && PassInv(t, sender)
  {
    var pass, t := s.passes[sender], Delivered(s, sender, size, accepted);
    var batch, rest := pass.todo[..size], pass.todo[size..];
    assert pass.todo == batch + rest;
    assert PassInv(s, sender);
    PartsOfDistinct(batch, rest);
    assert t.passes[sender].Holds() == pass.Holds();
    forall id | id in t.passes[sender].Holds()
      ensures id < |t.rows| && HeldInv(t.rows[id], t.histories[id], t.passes[sender], id)
    {
      assert HeldInv(s.rows[id], s.histories[id], pass, id);
      assert RowInv(s.rows[id], s.histories[id]);
    }
  }

  lemma DeliverKeepsOther(s: State, sender: string, size: nat, accepted: bool, other: string)
    requires Inv(s) && Enabled(s, Deliver(sender, size, accepted))
    requires other in s.passes && other != sender
    ensures var t := Delivered(s, sender, size, accepted);
            other in t.passes && t.passes[other] == s.passes[other] && |t.histories| == |t.rows| && PassInv(t, other)
  {
    var pass, t := s.passes[sender], Delivered(s, sender, size, accepted);
    assert PassInv(s, other) && pass.Holds() !! s.passes[other].Holds();
    forall id | id in s.passes[other].Holds() ensures id < |s.rows| && t.histories[id] == s.histories[id] {
      assert id !in pass.Holds();
    }
  }

  lemma DeliverKeepsRows(s: State, sender: string, size: nat, accepted: bool)
    requires RowsInv(s) && Enabled(s, Deliver(sender, size, accepted))
    ensures RowsInv(Delivered(s, sender, size, accepted))
  {
    var t := Delivered(s, sender, size, accepted);
    forall id | 0 <= id < |t.rows| ensures RowInv(t.rows[id], t.histories[id]) {
      assert RowInv(s.rows[id], s.histories[id]);
    }
  }

  lemma StillApart(passes: map<string, Pass>, sender: string, pass: Pass)
    requires Apart(passes) && sender in passes && pass.Holds() == passes[sender].Holds()
    ensures Apart(passes[sender := pass])
  {
  }

  lemma DeliverKeepsInv(s: State, sender: string, size: nat, accepted: bool)
    requires Inv(s) && Enabled(s, Deliver(sender, size, accepted))
    ensures Inv(Delivered(s, sender, size, accepted))
  {
    var t := Delivered(s, sender, size, accepted);
    DeliverKeepsRows(s, sender, size, accepted);
    DeliverKeepsPass(s, sender, size, accepted);
    StillApart(s.passes, sender, t.passes[sender]);
    forall a | a in t.passes ensures PassInv(t, a) {
      if a != sender { DeliverKeepsOther(s, sender, size, accepted, a); }
    }
  }

  lemma CommitKeepsInv(s: State, sender: string)
    requires Inv(s) && Enabled(s, Commit(sender))
    ensures Inv(Committed(s, sender))
  {
    var pass, t := s.passes[sender], Committed(s, sender);
    assert PassInv(s, sender);
    forall id | 0 <= id < |t.rows| ensures RowInv(t.rows[id], t.histories[id]) {
      if id in pass.outcomes { CommittedRow(s.rows[id], s.histories[id], pass, id); }
    }
    forall a | a in t.passes ensures PassInv(t, a) {
      assert PassInv(s, a) && s.passes[a].Holds() !! pass.Holds();
    }
  }

  lemma StepKeepsInv(s: State, step: Step)
    requires Inv(s) && Enabled(s, step)
    ensures Inv(Next(s, step))
  {
    match step
    case Enqueue(_, _) =>
      forall a | a in s.passes ensures PassInv(Next(s, step), a) { assert PassInv(s, a); }
    case Claim(sender, channel, now) => ClaimKeepsInv(s, sender, channel, now);
    case Deliver(sender, size, accepted) => DeliverKeepsInv(s, sender, size, accepted);
    case Commit(sender) => CommitKeepsInv(s, sender);
    case Crash(sender) =>
      forall a | a in s.passes && a != sender ensures PassInv(Next(s, step), a) { assert PassInv(s, a); }
  }

  lemma {:induction false} RunKeepsInv(s: State, steps: seq<Step>)
    requires Inv(s) && After(s, steps).Some?
    ensures Inv(After(s, steps).value)
    decreases |steps|
  {
    if steps != [] {
      StepKeepsInv(s, steps[0]);
      RunKeepsInv(Next(s, steps[0]), steps[1..]);
    }
  }

  // ---------------------------------------------------------------- what follows

  /** A row that is over stays as it is, and no sender takes it up again. */
  lemma {:induction false} OverStaysOver(s: State, steps: seq<Step>, id: nat)
    requires Inv(s) && After(s, steps).Some?
    requires id < |s.rows| && s.rows[id].status != Pending
    ensures var t := After(s, steps).value;
            id < |t.rows| == |t.histories| && t.rows[id] == s.rows[id] && t.histories[id] == s.histories[id] && id !in Held(t)
    decreases |steps|
  {
    if steps == [] {
      forall a | a in s.passes ensures id !in s.passes[a].Holds() { assert PassInv(s, a); }
    } else {
      var t := Next(s, steps[0]);
      StepKeepsInv(s, steps[0]);
      if steps[0].Deliver? || steps[0].Commit? { assert PassInv(s, steps[0].sender); }
      OverStaysOver(t, steps[1..], id);
    }
  }

  lemma {:induction false} SpacedSpan(failures: seq<int>, k: nat)
    requires Spaced(failures) && k < |failures|
    ensures failures[k] >= failures[0] + TotalDelay(k)
  {
    if k > 0 { SpacedSpan(failures, k - 1); }
  }

  /** The delays before attempt n + 1, together. */
  function TotalDelay(n: nat): nat {
    if n == 0 then 0 else TotalDelay(n - 1) + RetryDelay(n)
  }

  /**
   In every state any run reaches: a row was sent only if the receiver took it; it was given
   up only after ten deliveries the receiver did not take, the tenth at least 153 minutes
   after the first; and no two senders hold the same row.
   */
  lemma RunsAreSound(steps: seq<Step>, id: nat)
    requires After(EMPTY, steps).Some?
    requires var s := After(EMPTY, steps).value; id < |s.rows|
    ensures var s := After(EMPTY, steps).value;
            && Inv(s)
            && s.rows[id].attempts <= MAX_ATTEMPTS
            && (s.rows[id].status == Sent ==> s.histories[id].taken >= 1)
            && (s.rows[id].status == Failed ==>
                  && s.histories[id].refused >= |s.histories[id].failures| == MAX_ATTEMPTS
                  && s.histories[id].failures[9] - s.histories[id].failures[0] >= 153 * 60)
  {
    RunKeepsInv(EMPTY, steps);
    var s := After(EMPTY, steps).value;
    assert RowInv(s.rows[id], s.histories[id]);
    if s.rows[id].status == Failed {
      SpacedSpan(s.histories[id].failures, 9);
      TotalOfAll();
    }
  }

  lemma TotalOfAll()
    ensures TotalDelay(9) == 153 * 60
  {
    assert TotalDelay(3) == 8 * 60;
    assert TotalDelay(6) == 63 * 60;
  }

  // ---------------------------------------------------------------- a pass is such a run

  function Deliveries(sender: string, batches: seq<seq<nat>>, accepted: seq<bool>): seq<Step>
    requires |accepted| == |batches|
  {
    if batches == [] then []
    else
      var k := |batches| - 1;
      Deliveries(sender, batches[..k], accepted[..k]) + [Deliver(sender, |batches[k]|, accepted[k])]
  }

  lemma {:induction false} AfterOneMore(s: State, steps: seq<Step>, step: Step)
    requires After(s, steps).Some? && Enabled(After(s, steps).value, step)
    ensures After(s, steps + [step]) == Some(Next(After(s, steps).value, step))
    decreases |steps|
  {
    if steps == [] {
      assert [step][1..] == [];
    } else {
      AfterOneMore(Next(s, steps[0]), steps[1..], step);
      assert (steps + [step])[1..] == steps[1..] + [step];
    }
  }

  /** The rows a pass would leave if it committed now. */
  ghost predicate WouldLeave(rows: seq<Row>, pass: Pass, after: seq<Row>) {
    |after| == |rows|
    && forall id: nat :: id < |rows| ==>
         after[id] == if id in pass.outcomes then AfterDelivery(rows[id], pass.outcomes[id], pass.now) else rows[id]
  }

  /** Where a pass stands after these batches of its rows. */
  ghost predicate Stands(s: State, t: State, sender: string, all: seq<nat>, now: int,
                         batches: seq<seq<nat>>, accepted: seq<bool>)
    requires |accepted| == |batches|
  {
    && t.rows == s.rows && sender in t.passes && t.passes - {sender} == s.passes - {sender}
    && var pass, done := t.passes[sender], Concat(batches);
       && pass.now == now && all == done + pass.todo
       && (forall id: nat :: id in pass.outcomes <==> id in done)
       && WouldLeave(s.rows, pass, AfterBatches(s.rows, batches, accepted, now))
  }

  lemma DeliveriesOneMore(sender: string, batches: seq<seq<nat>>, accepted: seq<bool>, batch: seq<nat>, answer: bool)
    requires |accepted| == |batches|
    ensures Deliveries(sender, batches + [batch], accepted + [answer]) ==
            Deliveries(sender, batches, accepted) + [Deliver(sender, |batch|, answer)]
  {
    assert (batches + [batch])[..|batches|] == batches && (accepted + [answer])[..|batches|] == accepted;
  }

  lemma AfterBatchesOneMore(rows: seq<Row>, batches: seq<seq<nat>>, accepted: seq<bool>, now: int,
                            batch: seq<nat>, answer: bool)
    requires |accepted| == |batches|
    ensures var before := AfterBatches(rows, batches, accepted, now);
            var after := AfterBatches(rows, batches + [batch], accepted + [answer], now);
            forall id: nat :: id < |rows| ==>
              after[id] == if id in batch then AfterDelivery(before[id], answer, now) else before[id]
  {
    assert (batches + [batch])[..|batches|] == batches && (accepted + [answer])[..|batches|] == accepted;
  }

  /** What is left of *all* after *done* starts with *batch*. */
  lemma NextOfRest(all: seq<nat>, done: seq<nat>, rest: seq<nat>, batch: seq<nat>)
    requires all == done + rest && done + batch <= all
    ensures |batch| <= |rest| && rest[..|batch|] == batch && all == (done + batch) + rest[|batch|..]
  {
    forall i | 0 <= i < |batch| ensures rest[i] == batch[i] {
      assert (done + batch)[|done| + i] == all[|done| + i];
    }
  }

  lemma DeliverOutcomes(t: State, sender: string, batch: seq<nat>, answer: bool)
    requires sender in t.passes && |batch| <= |t.passes[sender].todo| && t.passes[sender].todo[..|batch|] == batch
    ensures var pass, next := t.passes[sender], Delivered(t, sender, |batch|, answer).passes[sender];
            && next.now == pass.now && next.todo == pass.todo[|batch|..]
            && (forall id: nat :: id in next.outcomes <==> id in pass.outcomes || id in batch)
            && (forall id: nat :: id in batch ==> next.outcomes[id] == answer)
            && (forall id: nat :: id in pass.outcomes && id !in batch ==> next.outcomes[id] == pass.outcomes[id])
  {
  }

  lemma OutcomesLeave(rows: seq<Row>, pass: Pass, next: Pass, batch: seq<nat>, answer: bool,
                      before: seq<Row>, after: seq<Row>)
    requires WouldLeave(rows, pass, before) && |after| == |rows| && next.now == pass.now
    requires forall id: nat :: id in next.outcomes <==> id in pass.outcomes || id in batch
    requires forall id: nat :: id in batch ==> id !in pass.outcomes && next.outcomes[id] == answer
    requires forall id: nat :: id in pass.outcomes && id !in batch ==> next.outcomes[id] == pass.outcomes[id]
    requires forall id: nat :: id < |rows| ==>
               after[id] == if id in batch then AfterDelivery(before[id], answer, pass.now) else before[id]
    ensures WouldLeave(rows, next, after)
  {
  }

  lemma DeliverKeepsRest(t: State, sender: string, size: nat, answer: bool)
    requires sender in t.passes && size <= |t.passes[sender].todo|
    ensures var next := Delivered(t, sender, size, answer);
            next.rows == t.rows && sender in next.passes && next.passes - {sender} == t.passes - {sender}
  {
  }

  lemma DeliverStands(s: State, t: State, sender: string, all: seq<nat>, now: int,
                      batches: seq<seq<nat>>, accepted: seq<bool>, batch: seq<nat>, answer: bool)
    requires |accepted| == |batches| && Stands(s, t, sender, all, now, batches, accepted)
    requires Distinct(all) && Concat(batches) + batch <= all && batch != []
    ensures Enabled(t, Deliver(sender, |batch|, answer))
    ensures Stands(s, Delivered(t, sender, |batch|, answer), sender, all, now, batches + [batch], accepted + [answer])
  {
    var done, pass := Concat(batches), t.passes[sender];
    NextOfRest(all, done, pass.todo, batch);
    PartsOfDistinct(done, pass.todo);
    assert forall id <- batch :: id in pass.todo;
    ConcatOneMore(batches, batch);
    DeliverKeepsRest(t, sender, |batch|, answer);
    DeliverOutcomes(t, sender, batch, answer);
    AfterBatchesOneMore(s.rows, batches, accepted, now, batch, answer);
    OutcomesLeave(s.rows, pass, Delivered(t, sender, |batch|, answer).passes[sender], batch, answer,
                  AfterBatches(s.rows, batches, accepted, now),
                  AfterBatches(s.rows, batches + [batch], accepted + [answer], now));
  }

  /** One delivery more of a pass. */
  lemma OneDeliveryMore(s: State, sender: string, all: seq<nat>, now: int,
                        batches: seq<seq<nat>>, accepted: seq<bool>, batch: seq<nat>, answer: bool)
    requires |accepted| == |batches| && After(s, Deliveries(sender, batches, accepted)).Some?
    requires Stands(s, After(s, Deliveries(sender, batches, accepted)).value, sender, all, now, batches, accepted)
    requires Distinct(all) && Concat(batches) + batch <= all && batch != []
    ensures var more := Deliveries(sender, batches + [batch], accepted + [answer]);
            After(s, more).Some?
            && Stands(s, After(s, more).value, sender, all, now, batches + [batch], accepted + [answer])
  {
    var steps := Deliveries(sender, batches, accepted);
    DeliverStands(s, After(s, steps).value, sender, all, now, batches, accepted, batch, answer);
    DeliveriesOneMore(sender, batches, accepted, batch, answer);
    AfterOneMore(s, steps, Deliver(sender, |batch|, answer));
  }

  lemma NoDeliveryYet(s: State, sender: string, all: seq<nat>, now: int)
    requires sender in s.passes && s.passes[sender] == Pass(now, all, map[])
    ensures Stands(s, s, sender, all, now, [], [])
  {
  }

  lemma {:induction false} DeliveriesStand(s: State, sender: string, all: seq<nat>, now: int,
                                           batches: seq<seq<nat>>, accepted: seq<bool>)
    requires sender in s.passes && s.passes[sender] == Pass(now, all, map[]) && Distinct(all)
    requires |accepted| == |batches| && (forall b <- batches :: b != []) && Concat(batches) <= all
    ensures After(s, Deliveries(sender, batches, accepted)).Some?
    ensures Stands(s, After(s, Deliveries(sender, batches, accepted)).value, sender, all, now, batches, accepted)
    decreases |batches|
  {
    if batches == [] {
      NoDeliveryYet(s, sender, all, now);
    } else {
      var k := |batches| - 1;
      var front, answers := batches[..k], accepted[..k];
      assert batches[k] in batches && forall b <- front :: b in batches;
      assert front + [batches[k]] == batches && answers + [accepted[k]] == accepted;
      ConcatOneMore(front, batches[k]);
      PrefixOfPrefix(Concat(front), batches[k], all);
      DeliveriesStand(s, sender, all, now, front, answers);
      OneDeliveryMore(s, sender, all, now, front, answers, batches[k], accepted[k]);
    }
  }

  lemma PrefixOfPrefix(a: seq<nat>, b: seq<nat>, all: seq<nat>)
    requires a + b <= all
    ensures a <= all
  {
    assert forall i :: 0 <= i < |a| ==> (a + b)[i] == a[i];
  }

  lemma CommitLeaves(s: State, t: State, sender: string, now: int, batches: seq<seq<nat>>, accepted: seq<bool>)
    requires |accepted| == |batches| && Stands(s, t, sender, Concat(batches), now, batches, accepted)
    ensures Enabled(t, Commit(sender))
    ensures Committed(t, sender).rows == AfterBatches(s.rows, batches, accepted, now)
    ensures Committed(t, sender).passes == s.passes - {sender}
  {
    assert t.passes[sender].todo == [];
  }

  lemma ClaimTakes(s: State, sender: string, channel: string, now: int, all: seq<nat>)
    requires sender !in s.passes && all == Due(s.rows, channel, now, Held(s)) && all != []
    ensures var t := Next(s, Claim(sender, channel, now));
            && t.rows == s.rows && t.passes - {sender} == s.passes
            && sender in t.passes && t.passes[sender] == Pass(now, all, map[])
  {
  }

  /** A sender's pass, with no other in between, is a claim, its deliveries and a commit. */
  lemma PassIsRun(s: State, sender: string, channel: string, now: int, batches: seq<seq<nat>>, accepted: seq<bool>)
    requires sender !in s.passes && |accepted| == |batches| && batches != [] && forall b <- batches :: b != []
    requires Concat(batches) == Due(s.rows, channel, now, Held(s))
    ensures var run := [Claim(sender, channel, now)] + (Deliveries(sender, batches, accepted) + [Commit(sender)]);
            && After(s, run).Some?
            && After(s, run).value.rows == AfterBatches(s.rows, batches, accepted, now)
            && After(s, run).value.passes == s.passes
  {
    var all, steps := Concat(batches), Deliveries(sender, batches, accepted);
    assert batches[|batches| - 1] in batches;
    ClaimTakes(s, sender, channel, now, all);
    var claimed := Next(s, Claim(sender, channel, now));
    DeliveriesStand(claimed, sender, all, now, batches, accepted);
    var t := After(claimed, steps).value;
    CommitLeaves(claimed, t, sender, now, batches, accepted);
    AfterOneMore(claimed, steps, Commit(sender));
    var run := [Claim(sender, channel, now)] + (steps + [Commit(sender)]);
    assert run[0] == Claim(sender, channel, now) && run[1..] == steps + [Commit(sender)];
  }
}
