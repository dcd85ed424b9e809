/**
 Sending what is due from the outbox (nautobot_maps/notify.py): one pass over a channel, and
 any run of concurrent senders that may crash.  Times are in seconds; a row's id is its
 place in the table.
 */
module Sender {
  import opened Wrappers

  const MAX_ATTEMPTS := 10
  const SUMMARY_MAX_EVENTS := 25

  datatype Status = Pending | Sent | Failed

  /** A row of notification_outbox. */
  datatype Row = Row(channel: string, status: Status, attempts: nat, nextAttempt: int)

  /** The delay before attempt n + 1, in seconds. */
  function RetryDelay(attempts: nat): (seconds: nat)
    requires attempts >= 1
  {
    60 * (if attempts == 1 then 1 else if attempts == 2 then 2 else if attempts == 3 then 5
          else if attempts == 4 then 10 else if attempts == 5 then 15 else 30)
  }

  /** A row after one delivery it was in. */
  function AfterDelivery(row: Row, accepted: bool, now: int): Row {
    var attempts := row.attempts + 1;
    if accepted then row.(status := Sent, attempts := attempts)
    else row.(attempts := attempts,
              status := if attempts >= MAX_ATTEMPTS then Failed else Pending,
              nextAttempt := now + RetryDelay(attempts))
  }

  /**
   Taken: sent.  Not taken: due again a minute later, then after 2, 5, 10 and 15 minutes, then
   every half hour, and given up at the tenth time.
   */
  lemma DeliveryMeaning(row: Row, accepted: bool, now: int)
    ensures var after, minutes := AfterDelivery(row, accepted, now), [1, 2, 5, 10, 15];
            && after.channel == row.channel && after.attempts == row.attempts + 1
            && (after.status == Sent <==> accepted) && (after.status == Failed <==> !accepted && row.attempts >= 9)
            && after.nextAttempt ==
               if accepted then row.nextAttempt else now + 60 * (if row.attempts < 5 then minutes[row.attempts] else 30)
  {
  }

  predicate IsDue(row: Row, channel: string, now: int) {
    row.channel == channel && row.status == Pending && row.nextAttempt <= now
  }

  /** The due rows no other sender holds, by id. */
  function Due(rows: seq<Row>, channel: string, now: int, held: set<nat>): (ids: seq<nat>)
    ensures forall id: nat :: id in ids <==>
              && id < |rows| && id !in held && rows[id].channel == channel
              && rows[id].status == Pending && rows[id].nextAttempt <= now
    ensures forall i :: 0 <= i < |ids| ==> ids[i] < |rows|
    ensures forall i, j :: 0 <= i < j < |ids| ==> ids[i] < ids[j]
  {
    if rows == [] then []
    else
      var last := |rows| - 1;
      var front := Due(rows[..last], channel, now, held);
      if last !in held && IsDue(rows[last], channel, now) then front + [last] else front
  }

  // ---------------------------------------------------------------- one pass

  function Concat(batches: seq<seq<nat>>): seq<nat> {
    if batches == [] then [] else Concat(batches[..|batches| - 1]) + batches[|batches| - 1]
  }

  lemma ConcatOneMore(batches: seq<seq<nat>>, batch: seq<nat>)
    ensures Concat(batches + [batch]) == Concat(batches) + batch
  {
    assert (batches + [batch])[..|batches|] == batches;
  }

  lemma SliceMore(ids: seq<nat>, start: nat, end: nat)
    requires start <= end <= |ids|
    ensures ids[..start] + ids[start..end] == ids[..end]
  {
  }

  /** The rows of one message each, or, above the threshold, of one summary each. */
  method Split(ids: seq<nat>, threshold: int) returns (batches: seq<seq<nat>>)
    ensures Concat(batches) == ids
    ensures forall b <- batches :: 1 <= |b| <= SUMMARY_MAX_EVENTS
    ensures |ids| <= threshold ==> forall b <- batches :: |b| == 1
    ensures |ids| > threshold ==>
              forall i :: 0 <= i < |batches| - 1 ==> |batches[i]| == SUMMARY_MAX_EVENTS
  {
    var size := if |ids| > threshold then SUMMARY_MAX_EVENTS else 1;
    batches := [];
    var start := 0;
    while start < |ids|
      invariant 0 <= start && Concat(batches) == ids[..if start < |ids| then start else |ids|]
      invariant forall b <- batches :: 1 <= |b| <= size
      invariant forall i :: 0 <= i < |batches| - 1 ==> |batches[i]| == size
      invariant start < |ids| && batches != [] ==> |batches[|batches| - 1]| == size
    {
      var end := if start + size < |ids| then start + size else |ids|;
      ConcatOneMore(batches, ids[start..end]);
      SliceMore(ids, start, end);
      batches := batches + [ids[start..end]];
      start := start + size;
    }
  }

  /** The table after the batches, each delivered or not. */
  function AfterBatches(rows: seq<Row>, batches: seq<seq<nat>>, accepted: seq<bool>, now: int): (after: seq<Row>)
    requires |accepted| == |batches|
    ensures |after| == |rows|
  {
    if batches == [] then rows
    else
      var k := |batches| - 1;
      var before := AfterBatches(rows, batches[..k], accepted[..k], now);
      seq(|rows|, id requires 0 <= id < |rows| =>
        if id in batches[k] then AfterDelivery(before[id], accepted[k], now) else before[id])
  }

  predicate Distinct(ids: seq<nat>) { forall i, j :: 0 <= i < j < |ids| ==> ids[i] != ids[j] }

  lemma {:induction false} Untouched(rows: seq<Row>, batches: seq<seq<nat>>, accepted: seq<bool>, now: int, id: nat)
    requires |accepted| == |batches| && id < |rows| && id !in Concat(batches)
    ensures AfterBatches(rows, batches, accepted, now)[id] == rows[id]
  {
    if batches != [] {
      var k := |batches| - 1;
      Untouched(rows, batches[..k], accepted[..k], now, id);
    }
  }

  lemma PartsOfDistinct(ys: seq<nat>, zs: seq<nat>)
    requires Distinct(ys + zs)
    ensures Distinct(ys) && Distinct(zs)
    ensures forall id <- zs :: id !in ys
  {
    assert forall i :: 0 <= i < |ys| ==> ys[i] == (ys + zs)[i];
    assert forall j :: 0 <= j < |zs| ==> zs[j] == (ys + zs)[|ys| + j];
  }

  /** A batch's rows are in no batch before it, and each is in it once. */
  lemma {:induction false} BatchIsNew(batches: seq<seq<nat>>, k: nat)
    requires k < |batches| && Distinct(Concat(batches))
    ensures Distinct(Concat(batches[..k])) && Distinct(batches[k])
    ensures forall id <- batches[k] :: id in Concat(batches) && id !in Concat(batches[..k])
    decreases |batches|
  {
    var last := |batches| - 1;
    PartsOfDistinct(Concat(batches[..last]), batches[last]);
    if k < last {
      BatchIsNew(batches[..last], k);
      assert batches[..last][..k] == batches[..k];
    }
  }

  lemma BatchIsUntouched(rows: seq<Row>, batches: seq<seq<nat>>, k: nat, accepted: seq<bool>, now: int)
    requires k < |batches| && |accepted| == k && Distinct(Concat(batches))
    requires forall id <- Concat(batches) :: id < |rows|
    ensures Distinct(batches[k])
    ensures forall id <- batches[k] ::
              id < |rows| && id in Concat(batches) && AfterBatches(rows, batches[..k], accepted, now)[id] == rows[id]
  {
    BatchIsNew(batches, k);
    forall id | id in batches[k]
      ensures id < |rows| && AfterBatches(rows, batches[..k], accepted, now)[id] == rows[id]
    {
      assert id in Concat(batches);
      Untouched(rows, batches[..k], accepted, now, id);
    }
  }

  /**
   Every due row ends the pass with what became of its own batch: sent, or one more
   attempt.  No other row changes.
   */
  lemma {:induction false} PassMeaning(
      rows: seq<Row>, batches: seq<seq<nat>>, accepted: seq<bool>, now: int, id: nat)
    requires |accepted| == |batches| && Distinct(Concat(batches)) && id < |rows|
    ensures var after := AfterBatches(rows, batches, accepted, now);
            if id in Concat(batches)
            then exists k: nat | k < |batches| ::
                   id in batches[k] && after[id] == AfterDelivery(rows[id], accepted[k], now)
            else after[id] == rows[id]
    decreases |batches|
  {
    if batches != [] {
      var last := |batches| - 1;
      var front, answers := batches[..last], accepted[..last];
      BatchIsNew(batches, last);
      PassMeaning(rows, front, answers, now, id);
      if id in Concat(front) {
        var k: nat :| k < |front| && id in front[k]
                      && AfterBatches(rows, front, answers, now)[id] == AfterDelivery(rows[id], answers[k], now);
        assert id !in batches[last] && id in batches[k] && accepted[k] == answers[k];
      }
    }
  }

  class OutboxTable {
    var rows: seq<Row>

    method SaveFailure(id: nat, now: int)
      requires id < |rows|
      modifies this
      ensures rows == old(rows)[id := AfterDelivery(old(rows)[id], false, now)]
    {
      var attempts := rows[id].attempts + 1;
      var failed := attempts >= MAX_ATTEMPTS;
      rows := rows[id := rows[id].(
        attempts := attempts,
        status := if failed then Failed else Pending,
        nextAttempt := now + RetryDelay(attempts))];
    }

    /** What a batch's delivery leaves in the table; a failed one goes row by row. */
    method SaveBatch(batch: seq<nat>, accepted: bool, now: int)
      requires Distinct(batch) && forall id <- batch :: id < |rows| && rows[id].status == Pending
      modifies this
      ensures |rows| == |old(rows)|
      ensures forall id: nat :: id < |rows| ==>
                rows[id] == if id in batch then AfterDelivery(old(rows)[id], accepted, now) else old(rows)[id]
    {
      for i := 0 to |batch|
        invariant |rows| == |old(rows)| && forall id <- batch :: id < |rows|
        invariant forall id: nat :: id < |rows| ==>
                    rows[id] == if id in batch[..i] then AfterDelivery(old(rows)[id], accepted, now) else old(rows)[id]
      {
        assert batch[i] in batch && batch[i] !in batch[..i];
        assert batch[..i + 1] == batch[..i] + [batch[i]];
        if accepted {
          rows := rows[batch[i] := rows[batch[i]].(status := Sent, attempts := rows[batch[i]].attempts + 1)];
        } else {
          SaveFailure(batch[i], now);
        }
      }
      assert batch[..|batch|] == batch;
    }

    /** The next batch of a pass that began with *before*, and how many messages went out with it. */
    method SendBatch(ghost before: seq<Row>, batches: seq<seq<nat>>, k: nat, accepted: seq<bool>, now: int)
      returns (more: nat)
      requires k < |batches| && |accepted| == |batches| && Distinct(Concat(batches))
      requires forall id <- Concat(batches) :: id < |before| && before[id].status == Pending
      requires rows == AfterBatches(before, batches[..k], accepted[..k], now)
      modifies this
      ensures rows == AfterBatches(before, batches[..k + 1], accepted[..k + 1], now)
      ensures SentIn(batches[..k + 1], accepted[..k + 1]) == SentIn(batches[..k], accepted[..k]) + more
    {
      BatchIsUntouched(before, batches, k, accepted[..k], now);
      assert batches[..k + 1][..k] == batches[..k] && accepted[..k + 1][..k] == accepted[..k];
      SaveBatch(batches[k], accepted[k], now);
      more := if accepted[k] then |batches[k]| else 0;
    }

    method SendBatches(batches: seq<seq<nat>>, now: int, accepted: seq<bool>) returns (sent: nat)
      requires |accepted| == |batches| && Distinct(Concat(batches))
      requires forall id <- Concat(batches) :: id < |rows| && rows[id].status == Pending
      modifies this
      ensures rows == AfterBatches(old(rows), batches, accepted, now)
      ensures sent == SentIn(batches, accepted)
    {
      sent := 0;
      for k := 0 to |batches|
        invariant rows == AfterBatches(old(rows), batches[..k], accepted[..k], now)
        invariant sent == SentIn(batches[..k], accepted[..k])
      {
        var more := SendBatch(old(rows), batches, k, accepted, now);
        sent := sent + more;
      }
      assert batches[..|batches|] == batches && accepted[..|accepted|] == accepted;
    }

    /**
     One pass over a channel.  *held*: rows other senders hold; *answers*: whether the
     receiver takes the delivery of that number.
     */
    method SendChannel(channel: string, now: int, threshold: int, held: set<nat>, answers: nat -> bool)
      returns (sent: nat, batches: seq<seq<nat>>, accepted: seq<bool>)
      modifies this
      ensures Concat(batches) == Due(old(rows), channel, now, held)
      ensures forall b <- batches :: 1 <= |b| <= SUMMARY_MAX_EVENTS
      ensures |Concat(batches)| <= threshold ==> forall b <- batches :: |b| == 1
      ensures |Concat(batches)| > threshold ==>
                forall i :: 0 <= i < |batches| - 1 ==> |batches[i]| == SUMMARY_MAX_EVENTS
      ensures |accepted| == |batches| && forall k: nat :: k < |batches| ==> accepted[k] == answers(k)
      ensures rows == AfterBatches(old(rows), batches, accepted, now)
      ensures sent == SentIn(batches, accepted)
    {
      var ids := Due(rows, channel, now, held);
      if ids == [] { return 0, [], []; }
      batches := Split(ids, threshold);
      accepted := seq(|batches|, k requires k >= 0 => answers(k));
      sent := SendBatches(batches, now, accepted);
    }
  }

  /** How many messages went out. */
  function SentIn(batches: seq<seq<nat>>, accepted: seq<bool>): nat
    requires |accepted| == |batches|
  {
    if batches == [] then 0
    else
      var k := |batches| - 1;
      SentIn(batches[..k], accepted[..k]) + if accepted[k] then |batches[k]| else 0
  }

  function SentNow(rows: seq<Row>, after: seq<Row>): set<nat>
    requires |after| == |rows|
  {
    set id: nat | id < |rows| && rows[id].status == Pending && after[id].status == Sent
  }

  function IdSet(ids: seq<nat>): (all: set<nat>)
    ensures forall id :: id in all <==> id in ids
    ensures Distinct(ids) ==> |all| == |ids|
  {
    if ids == [] then {}
    else
      var front, last := ids[..|ids| - 1], ids[|ids| - 1];
      assert ids == front + [last];
      IdSet(front) + {last}
  }

  /** One batch more of rows that were pending, and are not sent yet. */
  lemma SentByBatch(rows: seq<Row>, before: seq<Row>, after: seq<Row>, batch: seq<nat>, accepted: bool, now: int)
    requires |before| == |after| == |rows| && Distinct(batch)
    requires forall id <- batch :: id < |rows| && rows[id].status == Pending && before[id] == rows[id]
    requires forall id: nat :: id < |rows| ==>
               after[id] == if id in batch then AfterDelivery(before[id], accepted, now) else before[id]
    ensures |SentNow(rows, after)| == |SentNow(rows, before)| + if accepted then |batch| else 0
  {
    var ids, earlier := IdSet(batch), SentNow(rows, before);
    assert earlier !! ids;
    assert SentNow(rows, after) == if accepted then earlier + ids else earlier;
  }

  /** It counts the rows of the pass that became sent. */
  lemma {:induction false} SentIsCounted(rows: seq<Row>, batches: seq<seq<nat>>, accepted: seq<bool>, now: int)
    requires |accepted| == |batches| && Distinct(Concat(batches))
    requires forall id <- Concat(batches) :: id < |rows| && rows[id].status == Pending
    ensures SentIn(batches, accepted) == |SentNow(rows, AfterBatches(rows, batches, accepted, now))|
    decreases |batches|
  {
    if batches == [] {
      assert SentNow(rows, rows) == {};
    } else {
      var k := |batches| - 1;
      BatchIsNew(batches, k);
      assert forall id <- Concat(batches[..k]) :: id in Concat(batches);
      SentIsCounted(rows, batches[..k], accepted[..k], now);
      BatchIsUntouched(rows, batches, k, accepted[..k], now);
      SentByBatch(rows, AfterBatches(rows, batches[..k], accepted[..k], now), AfterBatches(rows, batches, accepted, now),
                  batches[k], accepted[k], now);
    }
  }
}
