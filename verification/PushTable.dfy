/**
 The push handshake on the table itself (nautobot_maps/inventory.py): the marks of the
 LibreNMS status rows, as refreshes, syncs and acknowledgements write them, are those of the
 handshake, so no push that was stored in the table is lost.
 */
module PushTable {
  import opened Wrappers
  import opened Observations
  import PH = PushHandshake

  /** Each row's push number. */
  function Marks(rows: Rows): map<int, Option<int>> { map id | id in rows :: rows[id].pushed }

  // ----- each statement is a step -----------------------------------------

  /** A refresh that is stored marks its row with the push's number, whatever mark it had; another changes nothing. */
  lemma RefreshMarks(s: PH.State, rows: Rows, id: int, answer: Answer, n: int, k: int)
    requires s.marks == Marks(rows) && k !in s.pushes
    ensures var stored := id in rows && Yields(rows[id], n);
            if stored then PH.Enabled(s, PH.StorePush(id, k)) &&
                           Marks(Pushed(rows, id, answer, n, k)) == PH.Apply(s, PH.StorePush(id, k)).marks
            else Pushed(rows, id, answer, n, k) == rows
  {
  }

  lemma PendingMarks(rows: Rows, k: int)
    ensures k in PH.Pending(Marks(rows)) <==> exists id :: id in rows && rows[id].pushed == Some(k)
  {
    if id :| id in rows && rows[id].pushed == Some(k) { assert Marks(rows)[id] == Some(k); }
  }

  lemma AckClearsMarks(rows: Rows, seqs: set<int>)
    ensures Marks(Acked(rows, seqs)) == PH.Cleared(Marks(rows), seqs)
  {
  }

  // ----- a sync is a run of deletes and inserts ---------------------------

  /** The handshake after these rows were deleted, one after the other. */
  ghost function Deleted(s: PH.State, ids: set<int>): (t: PH.State)
    requires PH.Inv(s) && ids <= s.marks.Keys
    ensures PH.Inv(t) && t.marks == s.marks - ids && t.pushes == s.pushes && t.rebuilds == s.rebuilds
    decreases |ids|
  {
    if !exists id :: id in ids then s
    else
      var id :| id in ids;
      PH.StepKeepsInv(s, PH.SyncDelete(id));
      Deleted(PH.Apply(s, PH.SyncDelete(id)), ids - {id})
  }

  function Unmarked(ids: set<int>): map<int, Option<int>> { map id | id in ids :: None }

  lemma InsertOne(marks: map<int, Option<int>>, ids: set<int>, id: int)
    requires id in ids && ids !! marks.Keys
    ensures marks[id := None] + Unmarked(ids - {id}) == marks + Unmarked(ids)
    ensures ids - {id} !! marks[id := None].Keys
  {
  }

  lemma InsertNone(marks: map<int, Option<int>>, ids: set<int>)
    requires forall id :: id !in ids
    ensures marks + Unmarked(ids) == marks
  {
    assert forall id :: id !in Unmarked(ids);
    assert (marks + Unmarked(ids)).Keys == marks.Keys;
  }

  /** And after these were inserted. */
  ghost function Inserted(s: PH.State, ids: set<int>): (t: PH.State)
    requires PH.Inv(s) && ids !! s.marks.Keys
    ensures PH.Inv(t) && t.marks == s.marks + Unmarked(ids) && t.pushes == s.pushes && t.rebuilds == s.rebuilds
    decreases |ids|
  {
    if !exists id :: id in ids then
      InsertNone(s.marks, ids);
      s
    else
      var id :| id in ids;
      PH.StepKeepsInv(s, PH.SyncInsert(id));
      InsertOne(s.marks, ids, id);
      Inserted(PH.Apply(s, PH.SyncInsert(id)), ids - {id})
  }

  /** A sync keeps the marks of the rows that stay; new rows have none. */
  lemma SyncMarks(rows: Rows, list: seq<(int, Answer)>, n: int)
    ensures var synced := Synced(rows, list, n);
            Marks(synced) == Marks(rows) - (rows.Keys - synced.Keys) + Unmarked(synced.Keys - rows.Keys)
  {
    var synced := Synced(rows, list, n);
    forall id ensures id in synced ==> synced[id].pushed == if id in rows then rows[id].pushed else None {
      SyncLeavesListAndNewer(rows, list, n, id);
    }
  }

  /** The handshake after a sync: it deletes the rows that go, and inserts those that come. */
  ghost function Resynced(s: PH.State, before: Rows, after: Rows): PH.State
    requires PH.Inv(s) && s.marks == Marks(before)
  {
    Inserted(Deleted(s, before.Keys - after.Keys), after.Keys - before.Keys)
  }

  // ----- any run of the table ---------------------------------------------

  /** The table, and the handshake as its history tells it. */
  datatype Table = Table(rows: Rows, handshake: PH.State)

  datatype Operation =
    | Refresh(id: int, answer: Answer, n: int, k: int)
    | Sync(list: seq<(int, Answer)>, n: int)
    | Rebuild(step: PH.Step)             // a step of a rebuild, not of a push or sync

  ghost predicate Inv(s: Table) { PH.Inv(s.handshake) && s.handshake.marks == Marks(s.rows) }

  predicate Enabled(s: Table, op: Operation) {
    match op
    case Refresh(_, _, _, k) => k !in s.handshake.pushes
    case Sync(list, _) => s.rows == map[] || list != []
    case Rebuild(step) => !PH.IsArrival(step) && PH.Enabled(s.handshake, step)
  }

  ghost function Apply(s: Table, op: Operation): (t: Table)
    requires Inv(s) && Enabled(s, op)
    ensures Inv(t)
  {
    match op
    case Refresh(id, answer, n, k) =>
      RefreshMarks(s.handshake, s.rows, id, answer, n, k);
      if id in s.rows && Yields(s.rows[id], n) then
        PH.StepKeepsInv(s.handshake, PH.StorePush(id, k));
        Table(Pushed(s.rows, id, answer, n, k), PH.Apply(s.handshake, PH.StorePush(id, k)))
      else s
    case Sync(list, n) =>
      SyncMarks(s.rows, list, n);
      Table(Synced(s.rows, list, n), Resynced(s.handshake, s.rows, Synced(s.rows, list, n)))
    case Rebuild(step) =>
      PH.StepKeepsInv(s.handshake, step);
      if step.Acknowledge? then
        AckClearsMarks(s.rows, s.handshake.rebuilds[step.r].seqs);
        Table(Acked(s.rows, s.handshake.rebuilds[step.r].seqs), PH.Apply(s.handshake, step))
      else Table(s.rows, PH.Apply(s.handshake, step))
  }

  ghost function After(s: Table, ops: seq<Operation>): (t: Option<Table>)
    requires Inv(s)
    ensures t.Some? ==> Inv(t.value)
    decreases |ops|
  {
    if ops == [] then Some(s)
    else if Enabled(s, ops[0]) then After(Apply(s, ops[0]), ops[1..])
    else None
  }

  /** A table without pushes to take in. */
  ghost function Start(rows: Rows): (s: Table)
    requires forall id :: id in rows ==> rows[id].pushed.None?
    ensures Inv(s)
  {
    assert forall id :: id in rows ==> Marks(rows)[id] == PH.Start(rows.Keys).marks[id];
    assert Marks(rows) == PH.Start(rows.Keys).marks;
    Table(rows, PH.Start(rows.Keys))
  }

  lemma StepKeepsPushes(s: Table, op: Operation, k: int)
    requires Inv(s) && Enabled(s, op) && k in s.handshake.pushes
    ensures k in Apply(s, op).handshake.pushes && Apply(s, op).handshake.pushes[k] == s.handshake.pushes[k]
  {
  }

  lemma {:induction false} PushesStay(s: Table, ops: seq<Operation>, k: int)
    requires Inv(s) && After(s, ops).Some? && k in s.handshake.pushes
    ensures k in After(s, ops).value.handshake.pushes
    ensures After(s, ops).value.handshake.pushes[k] == s.handshake.pushes[k]
    decreases |ops|
  {
    if ops != [] {
      StepKeepsPushes(s, ops[0], k);
      PushesStay(Apply(s, ops[0]), ops[1..], k);
    }
  }

  lemma {:induction false} AfterConcat(s: Table, a: seq<Operation>, b: seq<Operation>)
    requires Inv(s) && After(s, a + b).Some?
    ensures After(s, a).Some? && After(s, a + b) == After(After(s, a).value, b)
    decreases |a|
  {
    if a == [] {
      assert a + b == b;
    } else {
      assert (a + b)[1..] == a[1..] + b && (a + b)[0] == a[0];
      AfterConcat(Apply(s, a[0]), a[1..], b);
    }
  }

  /** The row still carries this push's number or that of a later push. */
  ghost predicate CarriesMark(t: Table, push: PH.Push) {
    && push.device in t.rows && t.rows[push.device].pushed.Some?
    && t.rows[push.device].pushed.value in t.handshake.pushes
    && t.handshake.pushes[t.rows[push.device].pushed.value].at >= push.at
  }

  /**
   No push stored in the table is lost: after any run of refreshes, syncs and steps of
   rebuilds, its row carries its mark or a later one, or a completed build began its reads
   after it, or a sync has deleted the row since.
   */
  lemma NoStoredPushIsLost(rows: Rows, ops: seq<Operation>, i: nat)
    requires forall id :: id in rows ==> rows[id].pushed.None?
    requires After(Start(rows), ops).Some? && i < |ops| && ops[i].Refresh?
    ensures After(Start(rows), ops[..i]).Some?
    ensures var s, t, op := After(Start(rows), ops[..i]).value, After(Start(rows), ops).value, ops[i];
            op.id in s.rows && Yields(s.rows[op.id], op.n) ==>
              && op.k in t.handshake.pushes && t.handshake.pushes[op.k] == PH.Push(op.id, s.handshake.clock)
              && (CarriesMark(t, t.handshake.pushes[op.k])
                  || PH.TakenIn(t.handshake, s.handshake.clock)
                  || PH.Gone(t.handshake, t.handshake.pushes[op.k]))
  {
    assert ops == ops[..i] + ops[i..];
    AfterConcat(Start(rows), ops[..i], ops[i..]);
    var s, op := After(Start(rows), ops[..i]).value, ops[i];
    assert ops[i..][0] == op && ops[i..][1..] == ops[i + 1..];
    if op.id in s.rows && Yields(s.rows[op.id], op.n) {
      PushesStay(Apply(s, op), ops[i + 1..], op.k);
      var t := After(Start(rows), ops).value;
      assert PH.Safe(t.handshake, t.handshake.pushes[op.k]);
    }
  }
}
