/**
 Full and incremental Nautobot syncs around a watermark (nautobot_maps/inventory.py,
 nautobot_maps/timeutil.py).  An object is its value and its upstream last_updated.
 */
module InventorySync {
  import opened Wrappers

  datatype Object = Object(value: string, stamp: int)

  type Objects = map<string, Object>

  // ----- the watermark ----------------------------------------------------

  function Later(a: Option<int>, b: Option<int>): Option<int> {
    if b.Some? && (a.None? || b.value > a.value) then b else a
  }

  function MaxOf(stamps: seq<Option<int>>, fallback: Option<int>): (r: Option<int>)
    ensures r.None? <==> fallback.None? && forall k :: 0 <= k < |stamps| ==> stamps[k].None?
    ensures forall k :: 0 <= k < |stamps| && stamps[k].Some? ==> stamps[k].value <= r.value
    ensures fallback.Some? ==> fallback.value <= r.value
    ensures r == fallback || r in stamps
  {
    if stamps == [] then fallback else Later(MaxOf(stamps[..|stamps| - 1], fallback), stamps[|stamps| - 1])
  }

  /** `max_last_updated`: the latest time of *items*, those that have one, or *fallback*. */
  method MaxLastUpdated(items: seq<Option<int>>, fallback: Option<int>) returns (result: Option<int>)
    ensures result == MaxOf(items, fallback)
  {
    var latest := fallback;
    result := fallback;
    for k := 0 to |items|
      invariant latest == result == MaxOf(items[..k], fallback)
    {
      var candidate := items[k];
      assert items[..k + 1][..k] == items[..k];
      if candidate.Some? && (latest.None? || candidate.value > latest.value) {
        latest := candidate;
        result := candidate;
      }
    }
    assert items[..|items|] == items;
  }

  /** One microsecond after the latest time seen. */
  function NextWatermark(observed: int): int { observed + 1 }

  predicate IsMaxStamp(items: Objects, observed: Option<int>) {
    && (observed.None? <==> items == map[])
    && (observed.Some? ==> (forall id :: id in items ==> items[id].stamp <= observed.value) &&
                           exists id :: id in items && items[id].stamp == observed.value)
  }

  function Watermark(before: Option<int>, observed: Option<int>, full: bool, startedAt: int): Option<int> {
    var moved := if observed.Some? && (before.None? || observed.value > before.value)
                 then Some(NextWatermark(observed.value)) else before;
    if full then Later(moved, Some(startedAt)) else moved
  }

  // ----- one sync ---------------------------------------------------------

  datatype Sync = Sync(force: bool, full: bool, startedAt: int)

  /** What the database holds: the cached objects and the watermark of the last success. */
  datatype Cache = Cache(objects: Objects, watermark: Option<int>)

  function Base(c: Cache, sync: Sync): Option<int> {
    if sync.force then None else c.watermark
  }

  predicate IsFull(c: Cache, sync: Sync) {
    sync.force || sync.full || c.watermark.None?
  }

  /** The upstream answer: everything, or what was updated at or after the watermark. */
  function Fetched(upstream: Objects, c: Cache, sync: Sync): Objects {
    map id | id in upstream && (IsFull(c, sync) || upstream[id].stamp >= c.watermark.value) :: upstream[id]
  }

  /** A full sync that finds nothing while something is cached is refused. */
  predicate Refused(upstream: Objects, c: Cache, sync: Sync) {
    IsFull(c, sync) && c.objects != map[] && Fetched(upstream, c, sync) == map[]
  }

  ghost function MaxStamp(items: Objects): (r: Option<int>)
    ensures IsMaxStamp(items, r)
  {
    if items == map[] then None
    else
      var id :| id in items;
      var rest := items - {id};
      assert items == rest[id := items[id]];
      var r := MaxStamp(rest);
      if r.Some? && r.value >= items[id].stamp then
        assert exists i :: i in rest && rest[i].stamp == r.value;
        r
      else Some(items[id].stamp)
  }

  lemma MaxStampUnique(items: Objects, a: Option<int>)
    requires IsMaxStamp(items, a)
    ensures a == MaxStamp(items)
  {
  }

  /** A sync that does not succeed: a forced one has already forgotten the watermark. */
  function Unsynced(c: Cache, force: bool): Cache {
    c.(watermark := if force then None else c.watermark)
  }

  ghost function Synced(upstream: Objects, c: Cache, sync: Sync): Cache {
    if Refused(upstream, c, sync) then Unsynced(c, sync.force)
    else
      var items := Fetched(upstream, c, sync);
      Cache(if IsFull(c, sync) then items else c.objects + items,
            Watermark(Base(c, sync), MaxStamp(items), IsFull(c, sync), sync.startedAt))
  }

  /**
   A sync is refused exactly when it asks for everything, nothing is there and something is
   cached; then the cached objects stay, and the watermark too unless it was forced.
   */
  lemma RefusedExactly(upstream: Objects, c: Cache, sync: Sync)
    ensures Refused(upstream, c, sync) <==>
            (sync.force || sync.full || c.watermark.None?) && upstream == map[] && c.objects != map[]
    ensures Refused(upstream, c, sync) ==>
              Synced(upstream, c, sync) == Cache(c.objects, if sync.force then None else c.watermark)
  {
    if IsFull(c, sync) { assert Fetched(upstream, c, sync) == upstream; }
  }

  class InventoryTables {
    var objects: Objects
    var watermark: Option<int>

    constructor ()
      ensures Contents() == Cache(map[], None)
    {
      objects, watermark := map[], None;
    }

    ghost function Contents(): Cache
      reads this
    {
      Cache(objects, watermark)
    }

    /** *observed* is the latest time in the answer, by `MaxLastUpdated`. */
    method SyncNautobot(upstream: Objects, sync: Sync, observed: Option<int>) returns (ok: bool)
      requires IsMaxStamp(Fetched(upstream, Contents(), sync), observed)
      modifies this
      ensures Contents() == Synced(upstream, old(Contents()), sync)
      ensures ok <==> !Refused(upstream, old(Contents()), sync)
    {
      var last := if sync.force then None else watermark;
      var full := sync.force || sync.full || last.None?;
      var items := map id | id in upstream && (full || upstream[id].stamp >= last.value) :: upstream[id];
      assert items == Fetched(upstream, Contents(), sync);
      MaxStampUnique(items, observed);
      watermark := last;  // as soon as it begins, and again when it fails
      if full && objects != map[] && items == map[] { return false; }
      var moved := last;
      if observed.Some? && (moved.None? || observed.value > moved.value) {
        moved := Some(NextWatermark(observed.value));
      }
      if full { moved := Later(moved, Some(sync.startedAt)); }
      if full { objects := map[]; }
      objects := objects + items;
      watermark := moved;
      ok := true;
    }
  }

  /**
   The watermark after a sync that succeeds: just after the latest of the objects fetched, if
   that is later than the watermark was; and after everything was fetched, when the sync
   started, if that is later.
   */
  lemma WatermarkExactly(upstream: Objects, c: Cache, sync: Sync, id: string)
    requires !Refused(upstream, c, sync) && id in Fetched(upstream, c, sync)
    requires forall other <- Fetched(upstream, c, sync) :: upstream[other].stamp <= upstream[id].stamp
    ensures var latest := upstream[id].stamp;
            var moved := if !sync.force && c.watermark.Some? && latest <= c.watermark.value then c.watermark.value
                         else latest + 1;
            Synced(upstream, c, sync).watermark ==
            if (sync.force || sync.full || c.watermark.None?) && sync.startedAt > moved then Some(sync.startedAt)
            else Some(moved)
  {
    var items := Fetched(upstream, c, sync);
    assert items[id].stamp == upstream[id].stamp;
    MaxStampUnique(items, Some(upstream[id].stamp));
  }

  // ----- incremental equals full ------------------------------------------

  /** The object is cached at its current value. */
  predicate Current(upstream: Objects, c: Cache, id: string)
    requires id in upstream
  {
    id in c.objects && c.objects[id] == upstream[id]
  }

  /**
   One incremental sync leaves the cache equal to upstream exactly when every object it
   does not hold at its current value is stamped at or after the watermark, and it holds
   no object that is gone.
   */
  lemma IncrementalExactly(upstream: Objects, c: Cache, sync: Sync)
    requires !IsFull(c, sync)
    ensures Synced(upstream, c, sync).objects == upstream <==>
            (forall id :: id in upstream && !Current(upstream, c, id) ==> upstream[id].stamp >= c.watermark.value)
            && c.objects.Keys <= upstream.Keys
  {
    var after := Synced(upstream, c, sync).objects;
    if after == upstream {
      forall id | id in upstream && !Current(upstream, c, id) ensures upstream[id].stamp >= c.watermark.value {
        assert after[id] == upstream[id];
      }
      forall id | id in c.objects ensures id in upstream { assert id in after; }
    }
    if (forall id :: id in upstream && !Current(upstream, c, id) ==> upstream[id].stamp >= c.watermark.value)
       && c.objects.Keys <= upstream.Keys {
      forall id ensures (id in after <==> id in upstream) && (id in upstream ==> after[id] == upstream[id]) {
        if id in upstream && upstream[id].stamp < c.watermark.value { assert Current(upstream, c, id); }
      }
    }
  }

  /** An object changed with a time below the watermark stays stale through incremental syncs. */
  lemma StampBelowWatermarkIsMissed(upstream: Objects, c: Cache, sync: Sync, id: string)
    requires !IsFull(c, sync) && id in upstream && !Current(upstream, c, id)
    requires upstream[id].stamp < c.watermark.value
    ensures var after := Synced(upstream, c, sync);
            && !Current(upstream, after, id)
            && after.watermark.Some? && upstream[id].stamp < after.watermark.value
  {
  }

  // ----- any mix of syncs -------------------------------------------------

  /**
   *latest*: the latest time ever stamped; *fullStart*: when the last full sync began.  A sync
   that fails, or whose process dies, is a step of its own.
   */
  datatype State = State(upstream: Objects, cache: Cache, latest: Option<int>, fullStart: Option<int>)

  datatype Step = Change(id: string, value: string, stamp: int) | Run(sync: Sync) | Failed(force: bool)

  /** Times strictly increase, and a change after a full sync began is not stamped before it. */
  predicate Orderly(s: State, step: Step) {
    step.Change? ==>
      && (s.latest.Some? ==> step.stamp > s.latest.value)
      && (s.fullStart.Some? ==> step.stamp >= s.fullStart.value)
  }

  ghost function Apply(s: State, step: Step): State {
    match step
    case Change(id, value, stamp) => s.(upstream := s.upstream[id := Object(value, stamp)], latest := Some(stamp))
    case Run(sync) =>
      s.(cache := Synced(s.upstream, s.cache, sync),
         fullStart := if IsFull(s.cache, sync) then Later(s.fullStart, Some(sync.startedAt)) else s.fullStart)
    case Failed(force) => s.(cache := Unsynced(s.cache, force))
  }

  const EMPTY := State(map[], Cache(map[], None), None, None)

  predicate Inv(s: State) {
    && s.cache.objects.Keys <= s.upstream.Keys
    && (forall id :: id in s.upstream ==> s.latest.Some? && s.upstream[id].stamp <= s.latest.value)
    && (s.cache.watermark.Some? ==>
          && (|| (s.latest.Some? && s.cache.watermark.value <= s.latest.value + 1)
              || (s.fullStart.Some? && s.cache.watermark.value <= s.fullStart.value))
          && forall id :: id in s.upstream && s.upstream[id].stamp < s.cache.watermark.value ==>
               Current(s.upstream, s.cache, id))
  }

  lemma SyncLeavesUpstream(s: State, sync: Sync)
    requires Inv(s)
    ensures !Refused(s.upstream, s.cache, sync)
    ensures Synced(s.upstream, s.cache, sync).objects == s.upstream
  {
    var items := Fetched(s.upstream, s.cache, sync);
    if IsFull(s.cache, sync) {
      assert items == s.upstream;
      if s.cache.objects != map[] {
        assert |s.cache.objects.Keys| != 0;
        var id :| id in s.cache.objects;
        assert id in s.upstream;
      }
    } else {
      IncrementalExactly(s.upstream, s.cache, sync);
    }
  }

  lemma WatermarkBounded(s: State, sync: Sync)
    requires Inv(s)
    ensures var t := Apply(s, Run(sync));
            t.cache.watermark.Some? ==>
              || (t.latest.Some? && t.cache.watermark.value <= t.latest.value + 1)
              || (t.fullStart.Some? && t.cache.watermark.value <= t.fullStart.value)
  {
    SyncLeavesUpstream(s, sync);
    var observed := MaxStamp(Fetched(s.upstream, s.cache, sync));
    if observed.Some? {
      var id :| id in Fetched(s.upstream, s.cache, sync) &&
                Fetched(s.upstream, s.cache, sync)[id].stamp == observed.value;
      assert s.upstream[id].stamp <= s.latest.value;
    }
  }

  lemma StepKeepsInv(s: State, step: Step)
    requires Inv(s) && Orderly(s, step)
    ensures Inv(Apply(s, step))
    ensures step.Run? ==> Apply(s, step).cache.objects == Apply(s, step).upstream
  {
    match step
    case Run(sync) =>
      SyncLeavesUpstream(s, sync);
      WatermarkBounded(s, sync);
    case _ =>
  }

  ghost function After(s: State, steps: seq<Step>): State {
    if steps == [] then s else Apply(After(s, steps[..|steps| - 1]), steps[|steps| - 1])
  }

  ghost predicate AllOrderly(s: State, steps: seq<Step>) {
    steps == [] ||
    (AllOrderly(s, steps[..|steps| - 1]) && Orderly(After(s, steps[..|steps| - 1]), steps[|steps| - 1]))
  }

  /**
   Any mix of full, forced and incremental syncs, changes and failures leaves the cached
   rows equal to upstream after each sync; in between, every object stamped below the
   watermark is cached at its current value.
   */
  lemma {:induction false} SyncsEqualFull(steps: seq<Step>)
    requires AllOrderly(EMPTY, steps)
    ensures Inv(After(EMPTY, steps))
    ensures steps != [] && steps[|steps| - 1].Run? ==>
              After(EMPTY, steps).cache.objects == After(EMPTY, steps).upstream
  {
    if steps != [] {
      SyncsEqualFull(steps[..|steps| - 1]);
      StepKeepsInv(After(EMPTY, steps[..|steps| - 1]), steps[|steps| - 1]);
    }
  }

  // ----- a change stamped too early ----------------------------------------

  /** Neither a sync of everything nor a change of this object. */
  predicate LeavesMissed(s: State, step: Step, id: string) {
    match step
    case Change(other, _, _) => other != id
    case Run(sync) => !IsFull(s.cache, sync)
    case Failed(force) => !force
  }

  ghost predicate AllLeaveMissed(s: State, steps: seq<Step>, id: string) {
    steps == [] ||
    (AllLeaveMissed(s, steps[..|steps| - 1], id) && LeavesMissed(After(s, steps[..|steps| - 1]), steps[|steps| - 1], id))
  }

  predicate IsMissed(s: State, id: string) {
    && id in s.upstream && !Current(s.upstream, s.cache, id)
    && s.cache.watermark.Some? && s.upstream[id].stamp < s.cache.watermark.value
  }

  /** It stays missed for however many incremental syncs, until a full one or its next change. */
  lemma {:induction false} MissedUntilFullSync(s: State, steps: seq<Step>, id: string)
    requires IsMissed(s, id) && AllLeaveMissed(s, steps, id)
    ensures IsMissed(After(s, steps), id)
  {
    if steps != [] {
      var before, step := After(s, steps[..|steps| - 1]), steps[|steps| - 1];
      MissedUntilFullSync(s, steps[..|steps| - 1], id);
      if step.Run? { StampBelowWatermarkIsMissed(before.upstream, before.cache, step.sync, id); }
    }
  }

  /**
   It happens: an object, a full sync that starts at 10, and a change of the object stamped 5
   that was not there to be read yet.  The next incremental sync leaves the cache unequal.
   */
  lemma EarlyStampIsMissed(id: string)
    ensures var full, next := Run(Sync(false, true, 10)), Run(Sync(false, false, 20));
            var before := After(EMPTY, [Change(id, "a", 1), full, Change(id, "b", 5)]);
            && IsMissed(before, id) && IsMissed(Apply(before, next), id)
            && Apply(before, next).cache.objects != Apply(before, next).upstream
  {
    var full, next := Sync(false, true, 10), Sync(false, false, 20);
    var steps := [Change(id, "a", 1), Run(full), Change(id, "b", 5)];
    var s1 := State(map[id := Object("a", 1)], Cache(map[], None), Some(1), None);
    assert steps[..2] == [Change(id, "a", 1), Run(full)] && steps[..2][..1] == [Change(id, "a", 1)];
    assert After(EMPTY, [Change(id, "a", 1)]) == s1;
    var items := Fetched(s1.upstream, s1.cache, full);
    assert items == s1.upstream;
    assert id in items && IsMaxStamp(items, MaxStamp(items));
    var s2 := Apply(s1, Run(full));
    assert s2.cache == Cache(s1.upstream, Some(10));
    var before := Apply(s2, steps[2]);
    assert After(EMPTY, steps) == before;
    assert IsMissed(before, id);
    StampBelowWatermarkIsMissed(before.upstream, before.cache, next, id);
  }
}
