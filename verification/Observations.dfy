/**
 The cache of LibreNMS device statuses (nautobot_maps/inventory.py): whole-list syncs and
 single-device pushes, ordered by an observation number taken before each request.
 */
module Observations {
  import opened Wrappers

  datatype Answer = Answer(status: string, reason: string, ip: string)

  /** A row of librenms_device_status; older rows have no observation number. */
  datatype Row = Row(answer: Answer, observed: Option<int>, pushed: Option<int>)

  type Rows = map<int, Row>

  /** Whether an answer numbered *n* may replace the row. */
  predicate Yields(row: Row, n: int) {
    row.observed.None? || row.observed.value < n
  }

  // ----- the statements ---------------------------------------------------

  function Upsert(rows: Rows, id: int, answer: Answer, n: int): Rows {
    if id !in rows then rows[id := Row(answer, Some(n), None)]
    else if Yields(rows[id], n) then rows[id := Row(answer, Some(n), rows[id].pushed)]
    else rows
  }

  function Written(rows: Rows, list: seq<(int, Answer)>, n: int): Rows {
    if list == [] then rows
    else Upsert(Written(rows, list[..|list| - 1], n), list[|list| - 1].0, list[|list| - 1].1, n)
  }

  predicate Listed(list: seq<(int, Answer)>, id: int) {
    exists k :: 0 <= k < |list| && list[k].0 == id
  }

  /** A sync's transaction: its list written, then older rows it does not list deleted. */
  function Synced(rows: Rows, list: seq<(int, Answer)>, n: int): Rows {
    var written := Written(rows, list, n);
    map id | id in written && (Listed(list, id) || !Yields(written[id], n)) :: written[id]
  }

  function Pushed(rows: Rows, id: int, answer: Answer, n: int, seqNo: int): Rows {
    if id in rows && Yields(rows[id], n) then rows[id := Row(answer, Some(n), Some(seqNo))] else rows
  }

  function Acked(rows: Rows, seqs: set<int>): Rows {
    map id | id in rows ::
      if rows[id].pushed.Some? && rows[id].pushed.value in seqs then rows[id].(pushed := None) else rows[id]
  }

  class StatusTable {
    var rows: Rows

    constructor ()
      ensures rows == map[]
    {
      rows := map[];
    }

    method WriteDevices(devices: seq<(int, Answer)>, observation: int) returns (written: set<int>)
      modifies this
      ensures rows == Written(old(rows), devices, observation)
      ensures forall id :: id in written ==> Listed(devices, id) && id in rows && rows[id].observed == Some(observation)
    {
      written := {};
      for k := 0 to |devices|
        invariant rows == Written(old(rows), devices[..k], observation)
        invariant forall id :: id in written ==> Listed(devices, id) && id in rows && rows[id].observed == Some(observation)
      {
        var (id, answer) := devices[k];
        assert devices[..k + 1][..k] == devices[..k];
        if id !in rows {
          rows := rows[id := Row(answer, Some(observation), None)];
          written := written + {id};
        } else if Yields(rows[id], observation) {
          rows := rows[id := Row(answer, Some(observation), rows[id].pushed)];
          written := written + {id};
        }
      }
      assert devices[..|devices|] == devices;
    }

    /** Refused (nothing changes) when an empty list would drop a filled cache. */
    method CommitSync(devices: seq<(int, Answer)>, observation: int) returns (ok: bool)
      modifies this
      ensures ok <==> (old(rows) == map[] || devices != [])
      ensures rows == if ok then Synced(old(rows), devices, observation) else old(rows)
    {
      if rows != map[] && devices == [] { return false; }
      var written := WriteDevices(devices, observation);
      rows := map id | id in rows && (Listed(devices, id) || !Yields(rows[id], observation)) :: rows[id];
      ok := true;
    }

    method PushRefresh(id: int, found: Answer, observation: int, seqNo: int) returns (updated: bool)
      modifies this
      ensures rows == Pushed(old(rows), id, found, observation, seqNo)
      ensures updated <==> id in old(rows) && Yields(old(rows)[id], observation)
      ensures rows == if updated then old(rows)[id := Row(found, Some(observation), Some(seqNo))] else old(rows)
    {
      updated := id in rows && Yields(rows[id], observation);
      if updated { rows := rows[id := Row(found, Some(observation), Some(seqNo))]; }
    }

    method PendingPushes() returns (seqs: set<int>)
      ensures forall k :: k in seqs <==> exists id :: id in rows && rows[id].pushed == Some(k)
    {
      seqs := set id | id in rows && rows[id].pushed.Some? :: rows[id].pushed.value;
    }

    /** Clears exactly the pushes a rebuild was built from. */
    method AckPushes(seqs: set<int>)
      modifies this
      ensures rows == Acked(old(rows), seqs)
    {
      if seqs == {} {
        assert Acked(rows, seqs) == rows;
        return;
      }
      rows := map id | id in rows ::
        if rows[id].pushed.Some? && rows[id].pushed.value in seqs then rows[id].(pushed := None) else rows[id];
    }
  }

  // ----- what a sync leaves -----------------------------------------------

  function FirstAnswer(list: seq<(int, Answer)>, id: int): Answer
    requires Listed(list, id)
  {
    if list[0].0 == id then list[0].1 else ListedLater(list, id); FirstAnswer(list[1..], id)
  }

  lemma {:induction false} FirstAnswerIsFirst(list: seq<(int, Answer)>, k: nat)
    requires k < |list| && forall j :: 0 <= j < k ==> list[j].0 != list[k].0
    ensures Listed(list, list[k].0) && FirstAnswer(list, list[k].0) == list[k].1
  {
    if k > 0 {
      FirstAnswerIsFirst(list[1..], k - 1);
      assert list[1..][k - 1] == list[k];
    }
  }

  lemma ListedLater(list: seq<(int, Answer)>, id: int)
    requires Listed(list, id) && list[0].0 != id
    ensures Listed(list[1..], id)
  {
    var k :| 0 <= k < |list| && list[k].0 == id;
    assert list[1..][k - 1] == list[k];
  }

  lemma {:induction false} FirstAnswerOfFront(list: seq<(int, Answer)>, id: int)
    requires list != [] && Listed(list[..|list| - 1], id)
    ensures Listed(list, id) && FirstAnswer(list, id) == FirstAnswer(list[..|list| - 1], id)
    decreases |list|
  {
    var front := list[..|list| - 1];
    var k :| 0 <= k < |front| && front[k].0 == id;
    assert list[k].0 == id;
    if front[0].0 != id {
      ListedLater(front, id);
      assert list[1..][..|list| - 2] == front[1..];
      FirstAnswerOfFront(list[1..], id);
    }
  }

  lemma {:induction false} FirstAnswerIsLast(list: seq<(int, Answer)>, id: int)
    requires list != [] && !Listed(list[..|list| - 1], id) && list[|list| - 1].0 == id
    ensures Listed(list, id) && FirstAnswer(list, id) == list[|list| - 1].1
    decreases |list|
  {
    var front := list[..|list| - 1];
    if |list| > 1 {
      assert front[0].0 == list[0].0 != id;
      assert list[1..][..|list| - 2] == front[1..];
      forall k | 0 <= k < |front| - 1 ensures front[1..][k].0 != id { assert front[k + 1].0 != id; }
      FirstAnswerIsLast(list[1..], id);
    }
  }

  /** Per device: the newer of the stored row and the list's (first) entry. */
  lemma {:induction false} WrittenRow(rows: Rows, list: seq<(int, Answer)>, n: int, id: int)
    ensures id in Written(rows, list, n) <==> id in rows || Listed(list, id)
    ensures id in rows && (!Listed(list, id) || !Yields(rows[id], n)) ==> Written(rows, list, n)[id] == rows[id]
    ensures Listed(list, id) && !(id in rows && !Yields(rows[id], n)) ==>
              Written(rows, list, n)[id] ==
              Row(FirstAnswer(list, id), Some(n), if id in rows then rows[id].pushed else None)
  {
    if list != [] {
      var front, last := list[..|list| - 1], list[|list| - 1];
      WrittenRow(rows, front, n, id);
      if Listed(front, id) {
        FirstAnswerOfFront(list, id);
      } else if last.0 == id {
        FirstAnswerIsLast(list, id);
      } else {
        forall k | 0 <= k < |list| ensures list[k].0 != id { if k < |front| { assert front[k].0 != id; } }
      }
    }
  }

  /**
   After sync *n* commits the rows are exactly its list plus the rows that already held
   that number or a higher one, and those kept their answers.
   */
  lemma SyncLeavesListAndNewer(rows: Rows, list: seq<(int, Answer)>, n: int, id: int)
    ensures id in Synced(rows, list, n) <==> Listed(list, id) || (id in rows && !Yields(rows[id], n))
    ensures id in rows && !Yields(rows[id], n) ==> Synced(rows, list, n)[id] == rows[id]
    ensures Listed(list, id) && !(id in rows && !Yields(rows[id], n)) ==>
              Synced(rows, list, n)[id] ==
              Row(FirstAnswer(list, id), Some(n), if id in rows then rows[id].pushed else None)
  {
    WrittenRow(rows, list, n, id);
  }

  // ----- the protocol -----------------------------------------------------

  datatype Sync = NoSync | Asked(n: int) | Fetched(n: int, list: seq<(int, Answer)>)

  /**
   *sync*: the one sync at work; *pushes*: each push request's number.  *applied*: per row,
   every numbered answer a sync or push brought for it since the row was created.
   */
  datatype State = State(rows: Rows, next: int, sync: Sync, pushes: map<nat, int>,
                         applied: map<int, set<(int, Answer)>>)

  datatype Step =
    | SyncAsk
    | SyncFetch(list: seq<(int, Answer)>)
    | SyncCommit
    | SyncFail
    | PushAsk(p: nat)
    | PushStore(p: nat, id: int, answer: Answer, seqNo: int)
    | PushFail(p: nat)

  predicate Enabled(s: State, step: Step) {
    match step
    case SyncAsk => s.sync.NoSync?
    case SyncFetch(_) => s.sync.Asked?
    case SyncCommit => s.sync.Fetched? && (s.rows == map[] || s.sync.list != [])
    case SyncFail => !s.sync.NoSync?
    case PushAsk(p) => p !in s.pushes
    case PushStore(p, _, _, _) => p in s.pushes
    case PushFail(p) => p in s.pushes
  }

  function AppliedBefore(s: State, id: int): set<(int, Answer)> {
    if id in s.applied then s.applied[id] else {}
  }

  ghost function Brought(list: seq<(int, Answer)>, n: int, id: int): set<(int, Answer)> {
    set k | 0 <= k < |list| && list[k].0 == id :: (n, list[k].1)
  }

  ghost function Apply(s: State, step: Step): State
    requires Enabled(s, step)
  {
    match step
    case SyncAsk => s.(sync := Asked(s.next), next := s.next + 1)
    case SyncFetch(list) => s.(sync := Fetched(s.sync.n, list))
    case SyncCommit =>
      var rows := Synced(s.rows, s.sync.list, s.sync.n);
      s.(rows := rows, sync := NoSync,
         applied := map id | id in rows :: AppliedBefore(s, id) + Brought(s.sync.list, s.sync.n, id))
    case SyncFail => s.(sync := NoSync)
    case PushAsk(p) => s.(pushes := s.pushes[p := s.next], next := s.next + 1)
    case PushStore(p, id, answer, seqNo) =>
      s.(rows := Pushed(s.rows, id, answer, s.pushes[p], seqNo), pushes := s.pushes - {p},
         applied := if id in s.rows then s.applied[id := AppliedBefore(s, id) + {(s.pushes[p], answer)}] else s.applied)
    case PushFail(p) => s.(pushes := s.pushes - {p})
  }

  /** The row holds the highest-numbered answer among *brought*. */
  ghost predicate HoldsHighest(row: Row, brought: set<(int, Answer)>) {
    && (forall x :: x in brought ==> row.observed.Some? && x.0 <= row.observed.value)
    && (row.observed.Some? ==> (row.observed.value, row.answer) in brought)
  }

  /** A number still out is in no row. */
  predicate Unused(rows: Rows, n: int) {
    forall id :: id in rows ==> rows[id].observed != Some(n)
  }

  ghost predicate Inv(s: State) {
    && s.applied.Keys == s.rows.Keys
    && (forall id :: id in s.rows ==> HoldsHighest(s.rows[id], s.applied[id]))
    && (forall id :: id in s.rows && s.rows[id].observed.Some? ==> s.rows[id].observed.value < s.next)
    && (!s.sync.NoSync? ==> s.sync.n < s.next && Unused(s.rows, s.sync.n))
    && (forall p :: p in s.pushes ==> s.pushes[p] < s.next && Unused(s.rows, s.pushes[p]))
    && (forall p :: p in s.pushes && !s.sync.NoSync? ==> s.pushes[p] != s.sync.n)
    && (forall p, q :: p in s.pushes && q in s.pushes && p != q ==> s.pushes[p] != s.pushes[q])
  }

  /** Any table as found, its rows' own answers counted as brought. */
  ghost function Initial(rows: Rows, next: int): State {
    State(rows, next, NoSync, map[],
          map id | id in rows ::
            if rows[id].observed.Some? then {(rows[id].observed.value, rows[id].answer)} else {})
  }

  lemma CommitKeepsHighest(s: State, id: int)
    requires Inv(s) && Enabled(s, SyncCommit) && id in Apply(s, SyncCommit).rows
    ensures HoldsHighest(Apply(s, SyncCommit).rows[id], Apply(s, SyncCommit).applied[id])
    ensures var row := Apply(s, SyncCommit).rows[id];
            row.observed == Some(s.sync.n) || (id in s.rows && row == s.rows[id])
  {
    var list, n := s.sync.list, s.sync.n;
    SyncLeavesListAndNewer(s.rows, list, n, id);
    if Listed(list, id) && !(id in s.rows && !Yields(s.rows[id], n)) {
      FirstAnswerBrought(list, n, id);
    }
  }

  lemma {:induction false} FirstAnswerBrought(list: seq<(int, Answer)>, n: int, id: int)
    requires Listed(list, id)
    ensures (n, FirstAnswer(list, id)) in Brought(list, n, id)
  {
    if list[0].0 != id {
      ListedLater(list, id);
      FirstAnswerBrought(list[1..], n, id);
      var k :| 0 <= k < |list[1..]| && list[1..][k].0 == id && (n, list[1..][k].1) == (n, FirstAnswer(list, id));
      assert list[k + 1] == list[1..][k];
    }
  }

  lemma CommitKeepsInv(s: State)
    requires Inv(s) && Enabled(s, SyncCommit)
    ensures Inv(Apply(s, SyncCommit))
  {
    var t := Apply(s, SyncCommit);
    forall id | id in t.rows
      ensures HoldsHighest(t.rows[id], t.applied[id])
      ensures t.rows[id].observed == Some(s.sync.n) || (id in s.rows && t.rows[id] == s.rows[id])
    {
      CommitKeepsHighest(s, id);
    }
  }

  lemma PushKeepsHighest(row: Row, brought: set<(int, Answer)>, answer: Answer, n: int, seqNo: int)
    requires HoldsHighest(row, brought) && row.observed != Some(n)
    ensures HoldsHighest(if Yields(row, n) then Row(answer, Some(n), Some(seqNo)) else row, brought + {(n, answer)})
  {
  }

  lemma PushKeepsInv(s: State, p: nat, id: int, answer: Answer, seqNo: int)
    requires Inv(s) && p in s.pushes
    ensures Inv(Apply(s, PushStore(p, id, answer, seqNo)))
  {
    if id in s.rows { PushKeepsHighest(s.rows[id], s.applied[id], answer, s.pushes[p], seqNo); }
  }

  lemma StepKeepsInv(s: State, step: Step)
    requires Inv(s) && Enabled(s, step)
    ensures Inv(Apply(s, step))
  {
    match step
    case SyncCommit => CommitKeepsInv(s);
    case PushStore(p, id, answer, seqNo) => PushKeepsInv(s, p, id, answer, seqNo);
    case _ =>
  }

  ghost function After(s: State, steps: seq<Step>): Option<State>
    decreases |steps|
  {
    if steps == [] then Some(s)
    else if Enabled(s, steps[0]) then After(Apply(s, steps[0]), steps[1..])
    else None
  }

  lemma {:induction false} RunKeepsInv(s: State, steps: seq<Step>)
    requires Inv(s) && After(s, steps).Some?
    ensures Inv(After(s, steps).value)
    decreases |steps|
  {
    if steps != [] {
      StepKeepsInv(s, steps[0]);
      RunKeepsInv(Apply(s, steps[0]), steps[1..]);
    }
  }

  /** A run goes on with any step that is enabled. */
  lemma {:induction false} AfterOneMore(s: State, steps: seq<Step>, t: State, step: Step)
    requires After(s, steps) == Some(t) && Enabled(t, step)
    ensures After(s, steps + [step]) == Some(Apply(t, step))
    decreases |steps|
  {
    if steps == [] {
      assert steps + [step] == [step] && [step][1..] == [];
      assert After(Apply(s, step), []) == Some(Apply(s, step));
    } else {
      AfterOneMore(Apply(s, steps[0]), steps[1..], t, step);
      assert (steps + [step])[1..] == steps[1..] + [step];
    }
  }

  lemma InitialInv(rows: Rows, next: int)
    requires forall id :: id in rows && rows[id].observed.Some? ==> rows[id].observed.value < next
    ensures Inv(Initial(rows, next))
  {
  }

  /**
   Under any interleaving of one sync at a time with any number of pushes, from any table as
   found whose numbers were given out, each cached row holds the answer with the highest
   observation number brought for it.
   */
  lemma RowsHoldHighest(rows: Rows, next: int, steps: seq<Step>)
    requires forall id :: id in rows && rows[id].observed.Some? ==> rows[id].observed.value < next
    requires After(Initial(rows, next), steps).Some?
    ensures var t := After(Initial(rows, next), steps).value;
            t.applied.Keys == t.rows.Keys && forall id <- t.rows :: HoldsHighest(t.rows[id], t.applied[id])
  {
    InitialInv(rows, next);
    RunKeepsInv(Initial(rows, next), steps);
  }

  /** A row's number never goes down while the row exists, whatever happens. */
  lemma NumbersNeverGoDown(s: State, step: Step, id: int)
    requires Inv(s) && Enabled(s, step) && id in s.rows && id in Apply(s, step).rows
    ensures s.rows[id].observed.Some? ==>
              Apply(s, step).rows[id].observed.Some? &&
              s.rows[id].observed.value <= Apply(s, step).rows[id].observed.value
    ensures s.rows[id].observed == Apply(s, step).rows[id].observed ==>
              s.rows[id].answer == Apply(s, step).rows[id].answer || s.rows[id].observed.None?
  {
    if step.SyncCommit? { SyncLeavesListAndNewer(s.rows, s.sync.list, s.sync.n, id); }
  }

  /** A push changes at most the one row it asked about, and never creates or revives one. */
  lemma PushKeepsRows(s: State, p: nat, id: int, answer: Answer, seqNo: int)
    requires Inv(s) && p in s.pushes
    ensures var t := Apply(s, PushStore(p, id, answer, seqNo));
            && t.rows.Keys == s.rows.Keys
            && (forall other :: other in s.rows && other != id ==> t.rows[other] == s.rows[other])
  {
  }

  /** In the protocol no row holds the sync's own number, so what stays is strictly newer. */
  lemma CommittedSyncRows(s: State, id: int)
    requires Inv(s) && Enabled(s, SyncCommit)
    ensures id in Apply(s, SyncCommit).rows <==>
            Listed(s.sync.list, id) || (id in s.rows && s.rows[id].observed.Some? && s.rows[id].observed.value > s.sync.n)
  {
    SyncLeavesListAndNewer(s.rows, s.sync.list, s.sync.n, id);
  }
}
