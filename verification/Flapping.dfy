/**
 Flap detection with hysteresis and lazily written rows (nautobot_maps/alerts.py): a
 device's stored state keeps only recent changes, steady rows are dropped, and rows that
 would not change are not written.
 */
module Flapping {
  import opened Numbers
  import opened Wrappers

  const FLAP_WINDOW := 30 * 60 * 1_000_000
  const RETENTION := 7 * 24 * 60 * 60 * 1_000_000

  /** A row of device_states. */
  datatype Stored = Stored(down: bool, since: int, changes: seq<int>, flappingSince: Option<int>, source: string)

  /**
   What one build sees of the device.  *downSince*: when it went down as far as its sources
   say; *edited*: Nautobot's last edit; *source*: what says it is down.
   */
  datatype Seen = Seen(down: bool, downSince: int, edited: Option<int>, source: string, now: int)

  function Recent(changes: seq<int>, now: int): seq<int> {
    if changes == [] then []
    else
      Recent(changes[..|changes| - 1], now)
      + if changes[|changes| - 1] > now - FLAP_WINDOW then [changes[|changes| - 1]] else []
  }

  /** When a device that was down came back up: Nautobot's edit, when it said so, else now. */
  function CameUpAt(stored: Option<Stored>, seen: Seen): int {
    if stored.Some? && stored.value.down && stored.value.source == "nautobot" && seen.edited.Some?
       && stored.value.since < seen.edited.value <= seen.now
    then seen.edited.value
    else seen.now
  }

  /** Since when the device is in its new state, as the build works it out. */
  function SinceOf(stored: Option<Stored>, seen: Seen): int {
    if seen.down then
      if stored.Some? && stored.value.down then Min(seen.downSince, stored.value.since) else seen.downSince
    else CameUpAt(stored, seen)
  }

  method NextDeviceState(stored: Option<Stored>, down: bool, given: int, now: int, source: string, flapChanges: nat)
    returns (row: Option<Stored>)
    ensures row == Next(stored, down, given, now, source, flapChanges)
  {
    var previous := stored.Some? && stored.value.down;
    var since := given;
    if !down && stored.Some? && !previous { since := stored.value.since; }
    var changes := if stored.Some? then stored.value.changes else [];
    var flappingSince := if stored.Some? then stored.value.flappingSince else None;
    if flapChanges > 0 {
      if down != previous { changes := changes + [since]; }
      changes := Recent(changes, now);
      if |changes| >= flapChanges {
        if flappingSince.None? { flappingSince := Some(now); }
      } else if changes == [] {
        flappingSince := None;
      }
    } else {
      changes, flappingSince := [], None;
    }
    if !down && changes == [] && flappingSince.None? { return None; }
    row := Some(Stored(down, since, changes, flappingSince, if down then source else ""));
  }

  function NextFlapping(flappingSince: Option<int>, count: nat, now: int, flapChanges: nat): Option<int> {
    if count >= flapChanges then Some(flappingSince.GetOr(now)) else if count == 0 then None else flappingSince
  }

  function WasDown(stored: Option<Stored>): bool { stored.Some? && stored.value.down }

  function Kept(stored: Option<Stored>): seq<int> { if stored.Some? then stored.value.changes else [] }

  function SinceKept(stored: Option<Stored>, down: bool, given: int): int {
    if !down && stored.Some? && !stored.value.down then stored.value.since else given
  }

  function WithChange(changes: seq<int>, changed: bool, since: int): seq<int> {
    if changed then changes + [since] else changes
  }

  function Next(stored: Option<Stored>, down: bool, given: int, now: int, source: string, flapChanges: nat): Option<Stored> {
    var since := SinceKept(stored, down, given);
    var changes :=
      if flapChanges == 0 then [] else Recent(WithChange(Kept(stored), down != WasDown(stored), since), now);
    var before := if stored.Some? then stored.value.flappingSince else None;
    var flapping := if flapChanges == 0 then None else NextFlapping(before, |changes|, now, flapChanges);
    if !down && changes == [] && flapping.None? then None
    else Some(Stored(down, since, changes, flapping, if down then source else ""))
  }

  /** The row this build works out for the device from what is stored. */
  function Observe(stored: Option<Stored>, seen: Seen, flapChanges: nat): Option<Stored> {
    Next(stored, seen.down, SinceOf(stored, seen), seen.now, seen.source, flapChanges)
  }

  predicate SameState(stored: Stored, row: Stored, now: int) {
    && stored.down == row.down && stored.source == row.source && stored.since == row.since
    && stored.flappingSince == row.flappingSince && Recent(stored.changes, now) == row.changes
  }

  /** A row with the time the database wrote it. */
  datatype TableRow = TableRow(state: Stored, updatedAt: int)

  function StateOf(row: Option<TableRow>): Option<Stored> {
    if row.Some? then Some(row.value.state) else None
  }

  /**
   What is stored afterwards: nothing for a steady row, the old row when it is the same, with
   its old time; *stamp* is the database's time.
   */
  function Write(row: Option<TableRow>, next: Option<Stored>, now: int, stamp: int): Option<TableRow> {
    if next.None? then None
    else if row.Some? && SameState(row.value.state, next.value, now) then row
    else Some(TableRow(next.value, stamp))
  }

  predicate Expired(row: TableRow, now: int) { row.updatedAt < now - RETENTION }

  /** What a build leaves of the row of a device it does not see. */
  function Swept(row: Option<TableRow>, now: int): Option<TableRow> {
    if row.Some? && Expired(row.value, now) then None else row
  }

  // ----- the whole history ------------------------------------------------

  /** What a build would know that forgot nothing: every transition of the device so far. */
  datatype Full = Full(down: bool, since: int, transitions: seq<int>, flappingSince: Option<int>, source: string)

  const UNSEEN := Full(false, 0, [], None, "")

  function FullSince(f: Full, seen: Seen): int {
    if seen.down then if f.down then Min(seen.downSince, f.since) else seen.downSince
    else if !f.down then f.since
    else if f.source == "nautobot" && seen.edited.Some? && f.since < seen.edited.value <= seen.now
    then seen.edited.value
    else seen.now
  }

  function FullNext(f: Full, seen: Seen, flapChanges: nat): Full {
    var since := FullSince(f, seen);
    var transitions := WithChange(f.transitions, seen.down != f.down, since);
    Full(seen.down, since, transitions,
         NextFlapping(f.flappingSince, |Recent(transitions, seen.now)|, seen.now, flapChanges),
         if seen.down then seen.source else "")
  }

  function FullAfter(obs: seq<Seen>, flapChanges: nat): Full {
    if obs == [] then UNSEEN else FullNext(FullAfter(obs[..|obs| - 1], flapChanges), obs[|obs| - 1], flapChanges)
  }

  /** A build sees a change when it finds the device in another state than the build before, up at first. */
  predicate IsChange(obs: seq<Seen>)
    requires obs != []
  {
    obs[|obs| - 1].down != (|obs| > 1 && obs[|obs| - 2].down)
  }

  /** The history: each change is one more transition, at the time the new state began. */
  lemma HistoryGrows(obs: seq<Seen>, flapChanges: nat)
    requires obs != []
    ensures var f, before := FullAfter(obs, flapChanges), FullAfter(obs[..|obs| - 1], flapChanges);
            && f.down == obs[|obs| - 1].down
            && f.source == (if f.down then obs[|obs| - 1].source else "")
            && f.transitions == (if IsChange(obs) then before.transitions + [f.since] else before.transitions)
            && (!f.down && !IsChange(obs) ==> f.since == before.since)
  {
    if |obs| > 1 { HistoryGrows(obs[..|obs| - 1], flapChanges); }
  }

  lemma DownSinceStep(obs: seq<Seen>, flapChanges: nat)
    requires obs != [] && obs[|obs| - 1].down
    ensures var before, last := FullAfter(obs[..|obs| - 1], flapChanges), obs[|obs| - 1];
            FullAfter(obs, flapChanges).since == if IsChange(obs) then last.downSince else Min(last.downSince, before.since)
  {
    if |obs| > 1 { HistoryGrows(obs[..|obs| - 1], flapChanges); }
  }

  /** The build *m* found the device down after it was up, and every one since found it down. */
  predicate IsOutage(obs: seq<Seen>, m: nat) {
    && m < |obs| && (m > 0 ==> !obs[m - 1].down)
    && forall k :: m <= k < |obs| ==> obs[k].down
  }

  /** The earliest of the times told from build *m* on. */
  predicate IsEarliest(since: int, obs: seq<Seen>, m: nat) {
    && (exists k :: m <= k < |obs| && obs[k].downSince == since)
    && (forall k :: m <= k < |obs| ==> since <= obs[k].downSince)
  }

  lemma EarliestOneMore(since: int, obs: seq<Seen>, m: nat)
    requires m < |obs| - 1 && IsEarliest(since, obs[..|obs| - 1], m)
    ensures IsEarliest(Min(obs[|obs| - 1].downSince, since), obs, m)
  {
    var front, earliest := obs[..|obs| - 1], Min(obs[|obs| - 1].downSince, since);
    var k :| m <= k < |front| && front[k].downSince == since;
    assert obs[if earliest == since then k else |obs| - 1].downSince == earliest;
    forall k | m <= k < |obs| ensures earliest <= obs[k].downSince {
      assert k < |front| ==> front[k] == obs[k];
    }
  }

  lemma OutageOneMore(obs: seq<Seen>, m: nat, before: int, since: int)
    requires IsOutage(obs, m)
    requires since == if IsChange(obs) then obs[|obs| - 1].downSince else Min(obs[|obs| - 1].downSince, before)
    requires m < |obs| - 1 ==> IsEarliest(before, obs[..|obs| - 1], m)
    ensures IsEarliest(since, obs, m)
  {
    if m < |obs| - 1 {
      assert obs[|obs| - 2].down && obs[|obs| - 1].down;
      EarliestOneMore(before, obs, m);
    }
  }

  /** A device has been down since the earliest time any build of its outage was told. */
  lemma {:induction false} OutageBegan(obs: seq<Seen>, m: nat, flapChanges: nat)
    requires IsOutage(obs, m)
    ensures IsEarliest(FullAfter(obs, flapChanges).since, obs, m)
  {
    var front := obs[..|obs| - 1];
    if m < |front| { OutageBegan(front, m, flapChanges); }
    DownSinceStep(obs, flapChanges);
    OutageOneMore(obs, m, FullAfter(front, flapChanges).since, FullAfter(obs, flapChanges).since);
  }

  /**
   It came up when Nautobot was edited, if Nautobot had said it was down and the edit came
   after that and by now; else at the build that found it up.
   */
  lemma CameUpAgain(obs: seq<Seen>, flapChanges: nat)
    requires obs != [] && IsChange(obs) && !obs[|obs| - 1].down
    ensures var since, seen := FullAfter(obs[..|obs| - 1], flapChanges).since, obs[|obs| - 1];
            FullAfter(obs, flapChanges).since ==
            if obs[|obs| - 2].source == "nautobot" && seen.edited.Some? && since < seen.edited.value <= seen.now
            then seen.edited.value else seen.now
  {
    HistoryGrows(obs[..|obs| - 1], flapChanges);
  }

  /**
   A build that saw the device, or one that did not: its site failed, or it was gone.  *at*:
   when it writes, after all its sites; *stamp*: the database's time then.
   */
  datatype Build = Saw(seen: Seen, at: int, stamp: int) | Missed(at: int) {
    function Begun(): int { if Saw? then seen.now else at }
  }

  function RowStep(row: Option<TableRow>, b: Build, flapChanges: nat): Option<TableRow> {
    match b
    case Saw(seen, at, stamp) => Write(row, Observe(StateOf(row), seen, flapChanges), at, stamp)
    case Missed(at) => Swept(row, at)
  }

  /** The device's stored row after the builds, each reading what the last one left. */
  function StoredAfter(builds: seq<Build>, flapChanges: nat): Option<TableRow> {
    if builds == [] then None
    else RowStep(StoredAfter(builds[..|builds| - 1], flapChanges), builds[|builds| - 1], flapChanges)
  }

  /** What was seen of the device. */
  function SeenIn(builds: seq<Build>): seq<Seen> {
    if builds == [] then []
    else if builds[|builds| - 1].Saw? then SeenIn(builds[..|builds| - 1]) + [builds[|builds| - 1].seen]
    else SeenIn(builds[..|builds| - 1])
  }

  /** The row the last build worked out. */
  function RowAfter(builds: seq<Build>, flapChanges: nat): Option<Stored>
    requires builds != [] && builds[|builds| - 1].Saw?
  {
    Observe(StateOf(StoredAfter(builds[..|builds| - 1], flapChanges)), builds[|builds| - 1].seen, flapChanges)
  }

  /** Each build writes after it looked, and before the next looks. */
  predicate InOrder(builds: seq<Build>) {
    && (forall i :: 0 <= i < |builds| ==> builds[i].Begun() <= builds[i].at)
    && (forall i, j :: 0 <= i < j < |builds| ==> builds[i].at <= builds[j].Begun())
  }

  /** With flap detection off a device that is down is all that is stored. */
  lemma NotDetected(stored: Option<Stored>, seen: Seen)
    ensures Observe(stored, seen, 0) ==
            if seen.down then Some(Stored(true, SinceOf(stored, seen), [], None, seen.source)) else None
  {
  }

  // ----- what is recent ---------------------------------------------------

  /** Less than half an hour ago. */
  predicate IsRecent(change: int, now: int) { change > now - 30 * 60 * 1_000_000 }

  predicate Ascending(places: seq<nat>) { forall j, k :: 0 <= j < k < |places| ==> places[j] < places[k] }

  /** *recent* are the changes of the last half hour, in order and each as often: those at *places*. */
  predicate AreRecentAt(recent: seq<int>, changes: seq<int>, now: int, places: seq<nat>) {
    && |places| == |recent|
    && (forall k :: 0 <= k < |places| ==> places[k] < |changes| && recent[k] == changes[places[k]])
    && Ascending(places)
    && (forall i :: 0 <= i < |changes| ==> (i in places <==> IsRecent(changes[i], now)))
  }

  ghost predicate AreRecent(recent: seq<int>, changes: seq<int>, now: int) {
    exists places :: AreRecentAt(recent, changes, now, places)
  }

  lemma {:induction false} RecentPlaces(changes: seq<int>, now: int) returns (places: seq<nat>)
    ensures AreRecentAt(Recent(changes, now), changes, now, places)
  {
    places := [];
    if changes != [] {
      var front, last := changes[..|changes| - 1], changes[|changes| - 1];
      var before := RecentPlaces(front, now);
      places := before + if IsRecent(last, now) then [|front|] else [];
      forall i | 0 <= i < |changes| ensures i in places <==> IsRecent(changes[i], now) {
        if i < |front| { assert front[i] == changes[i]; }
      }
    }
  }

  /** Forgetting leaves exactly the changes of the last half hour, in order and each as often as it is there. */
  lemma RecentMeaning(changes: seq<int>, now: int)
    ensures AreRecent(Recent(changes, now), changes, now)
    ensures forall c :: c in Recent(changes, now) <==> c in changes && c > now - 30 * 60 * 1_000_000
  {
    var places := RecentPlaces(changes, now);
    forall c ensures c in Recent(changes, now) <==> c in changes && c > now - 30 * 60 * 1_000_000 {
      if c in changes && c > now - 30 * 60 * 1_000_000 {
        var i :| 0 <= i < |changes| && changes[i] == c;
        assert IsRecent(changes[i], now);
        var k :| 0 <= k < |places| && places[k] == i;
        assert Recent(changes, now)[k] == c;
      }
      if c in Recent(changes, now) {
        var k :| 0 <= k < |places| && Recent(changes, now)[k] == c;
        assert places[k] in places && IsRecent(changes[places[k]], now);
      }
    }
  }

  lemma LastIsGreatest(places: seq<nat>)
    requires Ascending(places) && places != []
    ensures forall i: nat :: i in places <==> i in places[..|places| - 1] || i == places[|places| - 1]
    ensures forall i: nat | i in places :: i <= places[|places| - 1]
    ensures places[|places| - 1] !in places[..|places| - 1]
  {
    assert places == places[..|places| - 1] + [places[|places| - 1]];
  }

  lemma {:induction false} SameAscending(a: seq<nat>, b: seq<nat>)
    requires Ascending(a) && Ascending(b) && forall i: nat :: i in a <==> i in b
    ensures a == b
  {
    assert (a != [] ==> a[0] in a) && (b != [] ==> b[0] in b);
    if a != [] && b != [] {
      var front, other := a[..|a| - 1], b[..|b| - 1];
      LastIsGreatest(a);
      LastIsGreatest(b);
      assert a[|a| - 1] in b && b[|b| - 1] in a;
      assert a[|a| - 1] == b[|b| - 1];
      forall i: nat ensures i in front <==> i in other {
        assert i in a <==> i in b;
      }
      SameAscending(front, other);
    }
  }

  lemma RecentIsUnique(recent: seq<int>, changes: seq<int>, now: int)
    ensures AreRecent(recent, changes, now) <==> recent == Recent(changes, now)
  {
    var places := RecentPlaces(changes, now);
    if AreRecent(recent, changes, now) {
      var others :| AreRecentAt(recent, changes, now, others);
      forall i: nat ensures i in places <==> i in others {
      }
      SameAscending(places, others);
    }
  }

  // ----- forgetting is harmless -------------------------------------------

  lemma {:induction false} RecentConcat(a: seq<int>, b: seq<int>, now: int)
    ensures Recent(a + b, now) == Recent(a, now) + Recent(b, now)
  {
    if b == [] {
      assert a + b == a;
    } else {
      assert (a + b)[..|a + b| - 1] == a + b[..|b| - 1];
      RecentConcat(a, b[..|b| - 1], now);
    }
  }

  lemma {:induction false} RecentTwice(changes: seq<int>, earlier: int, now: int)
    requires earlier <= now
    ensures Recent(Recent(changes, earlier), now) == Recent(changes, now)
  {
    if changes != [] {
      var front, last := changes[..|changes| - 1], changes[|changes| - 1];
      RecentTwice(front, earlier, now);
      RecentConcat(Recent(front, earlier), if last > earlier - FLAP_WINDOW then [last] else [], now);
    }
  }

  /** What is still recent later depends only on what is recent now. */
  lemma RecentLater(a: seq<int>, b: seq<int>, earlier: int, now: int)
    requires earlier <= now && Recent(a, earlier) == Recent(b, earlier)
    ensures Recent(a, now) == Recent(b, now)
  {
    RecentTwice(a, earlier, now);
    RecentTwice(b, earlier, now);
  }

  /** *stored* stands for *f*: everything a later build can still tell from it. */
  predicate StandsFor(stored: Option<Stored>, f: Full, now: int) {
    if stored.None? then !f.down && Recent(f.transitions, now) == [] && f.flappingSince.None?
    else
      && stored.value.down == f.down && stored.value.since == f.since && stored.value.source == f.source
      && stored.value.flappingSince == f.flappingSince
      && Recent(stored.value.changes, now) == Recent(f.transitions, now)
  }

  /** *row* is exactly what the whole history gives. */
  predicate Exactly(row: Option<Stored>, f: Full, now: int) {
    && StandsFor(row, f, now)
    && (row.Some? ==> row.value.changes == Recent(f.transitions, now))
    && (row.Some? ==> f.down || Recent(f.transitions, now) != [] || f.flappingSince.Some?)
  }

  lemma SinceAgrees(stored: Option<Stored>, f: Full, earlier: int, seen: Seen)
    requires StandsFor(stored, f, earlier) && (stored.Some? || seen.down)
    ensures SinceKept(stored, seen.down, SinceOf(stored, seen)) == FullSince(f, seen)
  {
  }

  lemma ChangesAgree(a: seq<int>, b: seq<int>, changed: bool, since: int, earlier: int, now: int)
    requires earlier <= now && Recent(a, earlier) == Recent(b, earlier)
    ensures Recent(WithChange(a, changed, since), now) == Recent(WithChange(b, changed, since), now)
  {
    RecentLater(a, b, earlier, now);
    RecentConcat(a, [since], now);
    RecentConcat(b, [since], now);
  }

  lemma ObserveExactly(stored: Option<Stored>, f: Full, earlier: int, seen: Seen, flapChanges: nat)
    requires StandsFor(stored, f, earlier) && earlier <= seen.now && flapChanges > 0
    ensures Exactly(Observe(stored, seen, flapChanges), FullNext(f, seen, flapChanges), seen.now)
  {
    var since, changed := FullSince(f, seen), seen.down != f.down;
    if stored.Some? || seen.down { SinceAgrees(stored, f, earlier, seen); }
    assert Recent([], earlier) == [];
    ChangesAgree(Kept(stored), f.transitions, changed, since, earlier, seen.now);
    RecentTwice(WithChange(f.transitions, changed, since), seen.now, seen.now);
  }

  lemma StandsLater(stored: Option<Stored>, f: Full, earlier: int, now: int)
    requires StandsFor(stored, f, earlier) && earlier <= now
    ensures StandsFor(stored, f, now)
  {
    RecentLater(if stored.Some? then stored.value.changes else [], f.transitions, earlier, now);
  }

  /** Also when the row is compared later than it was worked out, as the write does. */
  lemma WriteStandsFor(row: Option<TableRow>, next: Option<Stored>, f: Full, now: int, at: int, stamp: int)
    requires Exactly(next, f, now) && now <= at
    ensures StandsFor(StateOf(Write(row, next, at, stamp)), f, at)
  {
    StandsLater(next, f, now, at);
    if row.Some? && next.Some? && SameState(row.value.state, next.value, at) {
      RecentTwice(row.value.state.changes, at, at);
      RecentTwice(f.transitions, now, at);
    }
  }

  /** A row that says something still: the device is down or flapping, or changed lately. */
  predicate Matters(row: Stored, now: int) {
    row.down || row.flappingSince.Some? || Recent(row.changes, now) != []
  }

  /** The last build did not see the device, and dropped a row that says something. */
  predicate Loses(builds: seq<Build>, flapChanges: nat)
    requires builds != []
  {
    var row, last := StoredAfter(builds[..|builds| - 1], flapChanges), builds[|builds| - 1];
    last.Missed? && row.Some? && Expired(row.value, last.at) && Matters(row.value.state, last.at)
  }

  /** No build so far did. */
  predicate NothingIsLost(builds: seq<Build>, flapChanges: nat) {
    builds == [] || (NothingIsLost(builds[..|builds| - 1], flapChanges) && !Loses(builds, flapChanges))
  }

  /** What is stored stands for the whole history. */
  predicate IsTrue(builds: seq<Build>, flapChanges: nat)
    requires builds != []
  {
    StandsFor(StateOf(StoredAfter(builds, flapChanges)), FullAfter(SeenIn(builds), flapChanges),
              builds[|builds| - 1].at)
  }

  /** After every build so far it did. */
  predicate IsAlwaysTrue(builds: seq<Build>, flapChanges: nat) {
    builds == [] || (IsAlwaysTrue(builds[..|builds| - 1], flapChanges) && IsTrue(builds, flapChanges))
  }

  /** One build more, from a row that stands for the history. */
  lemma StepIsTrueExactly(builds: seq<Build>, flapChanges: nat)
    requires builds != [] && InOrder(builds) && flapChanges > 0
    requires |builds| > 1 ==> IsTrue(builds[..|builds| - 1], flapChanges)
    ensures IsTrue(builds, flapChanges) <==> !Loses(builds, flapChanges)
    ensures builds[|builds| - 1].Saw? ==>
              Exactly(RowAfter(builds, flapChanges), FullAfter(SeenIn(builds), flapChanges),
                      builds[|builds| - 1].seen.now)
  {
    var front, last := builds[..|builds| - 1], builds[|builds| - 1];
    var row, f := StoredAfter(front, flapChanges), FullAfter(SeenIn(front), flapChanges);
    var earlier := if front == [] then last.Begun() else front[|front| - 1].at;
    assert StandsFor(StateOf(row), f, earlier);
    if last.Saw? {
      ObserveExactly(StateOf(row), f, earlier, last.seen, flapChanges);
      assert SeenIn(builds)[..|SeenIn(front)|] == SeenIn(front);
      WriteStandsFor(row, RowAfter(builds, flapChanges), FullAfter(SeenIn(builds), flapChanges),
                     last.seen.now, last.at, last.stamp);
    } else {
      StandsLater(StateOf(row), f, earlier, last.at);
    }
  }

  /**
   Dropping steady rows, forgetting old changes and skipping writes that would change
   nothing is harmless, and so is dropping the row of a device no build has seen, exactly as
   long as no build that does not see it drops a row that says something.  The row's time is
   that of its last write, not of the last build that saw the device.
   */
  lemma {:induction false} StoredIsTrueExactly(builds: seq<Build>, flapChanges: nat)
    requires InOrder(builds) && flapChanges > 0
    ensures IsAlwaysTrue(builds, flapChanges) <==> NothingIsLost(builds, flapChanges)
    decreases |builds|
  {
    if builds != [] {
      StoredIsTrueExactly(builds[..|builds| - 1], flapChanges);
      if IsAlwaysTrue(builds[..|builds| - 1], flapChanges) { StepIsTrueExactly(builds, flapChanges); }
    }
  }

  /**
   What the row says of the whole history: none for a device that is up, steady and not
   flapping; else its state, since when, and the transitions of the last half hour.
   */
  ghost predicate SaysHistory(row: Option<Stored>, f: Full, now: int) {
    && (row.None? <==>
          !f.down && f.flappingSince.None? && forall i :: 0 <= i < |f.transitions| ==> !IsRecent(f.transitions[i], now))
    && (row.Some? ==>
          && row.value.down == f.down && row.value.since == f.since && row.value.source == f.source
          && row.value.flappingSince == f.flappingSince && AreRecent(row.value.changes, f.transitions, now))
  }

  lemma ExactlySaysHistory(row: Option<Stored>, f: Full, now: int)
    requires Exactly(row, f, now)
    ensures SaysHistory(row, f, now)
  {
    RecentMeaning(f.transitions, now);
    if i :| 0 <= i < |f.transitions| && IsRecent(f.transitions[i], now) {
      assert f.transitions[i] in Recent(f.transitions, now);
    } else if Recent(f.transitions, now) != [] {
      assert Recent(f.transitions, now)[0] in Recent(f.transitions, now);
    }
  }

  /**
   So a build works out exactly what the whole history gives, its changes exactly the
   transitions inside the window.
   */
  lemma RowsAreExact(builds: seq<Build>, flapChanges: nat)
    requires builds != [] && InOrder(builds) && flapChanges > 0 && builds[|builds| - 1].Saw?
    requires NothingIsLost(builds, flapChanges)
    ensures Exactly(RowAfter(builds, flapChanges), FullAfter(SeenIn(builds), flapChanges), builds[|builds| - 1].seen.now)
    ensures SaysHistory(RowAfter(builds, flapChanges), FullAfter(SeenIn(builds), flapChanges), builds[|builds| - 1].seen.now)
  {
    StoredIsTrueExactly(builds[..|builds| - 1], flapChanges);
    StepIsTrueExactly(builds, flapChanges);
    ExactlySaysHistory(RowAfter(builds, flapChanges), FullAfter(SeenIn(builds), flapChanges), builds[|builds| - 1].seen.now);
  }

  /** No build without the device came later than the retention after the row's last write. */
  predicate SweptInTime(builds: seq<Build>, flapChanges: nat) {
    builds == []
    || (SweptInTime(builds[..|builds| - 1], flapChanges)
        && var row, last := StoredAfter(builds[..|builds| - 1], flapChanges), builds[|builds| - 1];
           (last.Missed? && row.Some? ==> !Expired(row.value, last.at)))
  }

  lemma {:induction false} SweptInTimeLosesNothing(builds: seq<Build>, flapChanges: nat)
    requires SweptInTime(builds, flapChanges)
    ensures NothingIsLost(builds, flapChanges)
  {
    if builds != [] { SweptInTimeLosesNothing(builds[..|builds| - 1], flapChanges); }
  }

  lemma DownShows(f: Full, earlier: int, flapChanges: nat)
    requires flapChanges > 0 && f.down
    ensures var seen := Seen(true, f.since + 1, None, f.source, earlier);
            !Exactly(Observe(None, seen, flapChanges), FullNext(f, seen, flapChanges), seen.now)
  {
    var seen := Seen(true, f.since + 1, None, f.source, earlier);
    assert Observe(None, seen, flapChanges).value.since == f.since + 1;
    assert FullNext(f, seen, flapChanges).since == f.since;
  }

  lemma FlappingShows(f: Full, now: int, flapChanges: nat)
    requires flapChanges > 0 && !f.down && f.flappingSince.Some? && f.flappingSince.value < now
    ensures var seen := Seen(true, now, None, "", now);
            !Exactly(Observe(None, seen, flapChanges), FullNext(f, seen, flapChanges), seen.now)
  {
    var seen := Seen(true, now, None, "", now);
    RecentIsOne(now);
    RecentConcat(f.transitions, [now], now);
    assert FullNext(f, seen, flapChanges).flappingSince == f.flappingSince;
    FirstDown(now, flapChanges);
  }

  lemma RecentIsOne(now: int)
    ensures Recent([now], now) == [now]
  {
    assert [now][..0] == [] && Recent([], now) == [];
  }

  /** An outage of a device about which nothing is stored. */
  lemma FirstDown(now: int, flapChanges: nat)
    requires flapChanges > 0
    ensures var row := Observe(None, Seen(true, now, None, "", now), flapChanges);
            row.Some? && row.value.flappingSince == if flapChanges == 1 then Some(now) else None
  {
    RecentIsOne(now);
    assert [] + [now] == [now];
  }

  lemma ChangesShow(f: Full, earlier: int, flapChanges: nat)
    requires flapChanges > 0 && !f.down && Recent(f.transitions, earlier) != []
    ensures var seen := Seen(false, 0, None, "", earlier);
            !Exactly(Observe(None, seen, flapChanges), FullNext(f, seen, flapChanges), seen.now)
  {
    assert Recent([], earlier) == [];
  }

  /** And a loss shows: there is something to see that a later build gets wrong. */
  lemma LossShows(f: Full, earlier: int, flapChanges: nat) returns (seen: Seen)
    requires flapChanges > 0 && !StandsFor(None, f, earlier)
    ensures seen.now >= earlier
    ensures !Exactly(Observe(None, seen, flapChanges), FullNext(f, seen, flapChanges), seen.now)
  {
    if f.down {
      seen := Seen(true, f.since + 1, None, f.source, earlier);
      DownShows(f, earlier, flapChanges);
    } else if f.flappingSince.Some? {
      var now := Max(earlier, f.flappingSince.value + 1);
      seen := Seen(true, now, None, "", now);
      FlappingShows(f, now, flapChanges);
    } else {
      seen := Seen(false, 0, None, "", earlier);
      ChangesShow(f, earlier, flapChanges);
    }
  }

  lemma LossIsUntrue(builds: seq<Build>, flapChanges: nat)
    requires builds != [] && InOrder(builds) && flapChanges > 0
    requires NothingIsLost(builds[..|builds| - 1], flapChanges) && Loses(builds, flapChanges)
    ensures StoredAfter(builds, flapChanges) == None
    ensures !StandsFor(None, FullAfter(SeenIn(builds), flapChanges), builds[|builds| - 1].at)
  {
    StoredIsTrueExactly(builds[..|builds| - 1], flapChanges);
    StepIsTrueExactly(builds, flapChanges);
  }

  lemma OneMoreInOrder(builds: seq<Build>, next: Build)
    requires builds != [] && InOrder(builds) && builds[|builds| - 1].at <= next.Begun() <= next.at
    ensures InOrder(builds + [next])
  {
    forall i | 0 <= i < |builds| ensures builds[i].at <= next.Begun() {
      if i < |builds| - 1 { assert builds[i].at <= builds[|builds| - 1].Begun(); }
    }
  }

  lemma OneMoreSeen(builds: seq<Build>, seen: Seen, flapChanges: nat)
    ensures var more := builds + [Saw(seen, seen.now, seen.now)];
            && RowAfter(more, flapChanges) == Observe(StateOf(StoredAfter(builds, flapChanges)), seen, flapChanges)
            && FullAfter(SeenIn(more), flapChanges) == FullNext(FullAfter(SeenIn(builds), flapChanges), seen, flapChanges)
  {
    assert (builds + [Saw(seen, seen.now, seen.now)])[..|builds|] == builds;
    assert (SeenIn(builds) + [seen])[..|SeenIn(builds)|] == SeenIn(builds);
  }

  /** So once a build loses a row there is a next one that finds something else than happened. */
  lemma LossShowsInRun(builds: seq<Build>, flapChanges: nat) returns (next: Build)
    requires builds != [] && InOrder(builds) && flapChanges > 0
    requires NothingIsLost(builds[..|builds| - 1], flapChanges) && Loses(builds, flapChanges)
    ensures next.Saw? && InOrder(builds + [next])
    ensures !Exactly(RowAfter(builds + [next], flapChanges), FullAfter(SeenIn(builds + [next]), flapChanges), next.seen.now)
  {
    LossIsUntrue(builds, flapChanges);
    var seen := LossShows(FullAfter(SeenIn(builds), flapChanges), builds[|builds| - 1].at, flapChanges);
    next := Saw(seen, seen.now, seen.now);
    OneMoreInOrder(builds, next);
    OneMoreSeen(builds, seen, flapChanges);
  }

  // ----- a long outage ----------------------------------------------------

  /** What a build at *now* sees of a device that LibreNMS says is down since then. */
  function DownAt(now: int): Build { Saw(Seen(true, now, None, "librenms", now), now, now) }

  /** The device goes down at 0; over a week later one build misses it, and the next sees it. */
  const MISSED := [DownAt(0), Missed(RETENTION + 1)]

  lemma FirstSeen(flapChanges: nat)
    requires flapChanges > 1
    ensures FullAfter([DownAt(0).seen], flapChanges) == Full(true, 0, [0], None, "librenms")
  {
    assert [DownAt(0).seen][..0] == [];
    assert [] + [0] == [0];
  }

  lemma AfterFirst(flapChanges: nat)
    requires flapChanges > 1
    ensures StoredAfter([DownAt(0)], flapChanges) == Some(TableRow(Stored(true, 0, [0], None, "librenms"), 0))
    ensures SeenIn([DownAt(0)]) == [DownAt(0).seen]
    ensures FullAfter([DownAt(0).seen], flapChanges) == Full(true, 0, [0], None, "librenms")
  {
    FirstSeen(flapChanges);
    assert [DownAt(0)][..0] == [];
    assert [] + [0] == [0] && Recent([0], 0) == [0];
  }

  lemma AfterMissed(flapChanges: nat)
    requires flapChanges > 1
    ensures StoredAfter(MISSED, flapChanges) == None && Loses(MISSED, flapChanges)
    ensures SeenIn(MISSED) == SeenIn([DownAt(0)])
  {
    AfterFirst(flapChanges);
    assert MISSED[..1] == [DownAt(0)];
  }

  /**
   The row of a device that has been down for over a week, written when it went down, is
   dropped by one build that does not see it, and the next finds an outage that has just begun.
   */
  lemma LongOutageIsForgotten(flapChanges: nat)
    requires flapChanges > 1
    ensures var now := RETENTION + 2;
            var builds := MISSED + [DownAt(now)];
            && InOrder(builds) && !NothingIsLost(MISSED, flapChanges)
            && RowAfter(builds, flapChanges) == Some(Stored(true, now, [now], None, "librenms"))
            && FullAfter(SeenIn(builds), flapChanges).since == 0
  {
    var now := RETENTION + 2;
    var builds := MISSED + [DownAt(now)];
    AfterMissed(flapChanges);
    AfterFirst(flapChanges);
    assert builds[..2] == MISSED;
    assert [] + [now] == [now] && Recent([now], now) == [now];
    var first := SeenIn([DownAt(0)]);
    assert SeenIn(builds) == first + [DownAt(now).seen];
    assert (first + [DownAt(now).seen])[..|first|] == first;
  }

  // ----- when a device is flapping ----------------------------------------

  /** Which of *changes* are of the last half hour. */
  function RecentOnes(changes: seq<int>, now: int): set<nat> {
    set i: nat | i < |changes| && IsRecent(changes[i], now)
  }

  lemma {:induction false} RecentCount(changes: seq<int>, now: int)
    ensures |Recent(changes, now)| == |RecentOnes(changes, now)|
  {
    if changes != [] {
      var front, last := changes[..|changes| - 1], changes[|changes| - 1];
      RecentCount(front, now);
      assert RecentOnes(changes, now) == RecentOnes(front, now) + if IsRecent(last, now) then {|front|} else {};
    }
  }

  /** How many of the device's changes are of the last half hour at the last of the builds *obs*. */
  function InWindow(obs: seq<Seen>, flapChanges: nat): nat
    requires obs != []
  {
    |RecentOnes(FullAfter(obs, flapChanges).transitions, obs[|obs| - 1].now)|
  }

  /** Build *m* saw enough changes in its window, and every build since at least one. */
  predicate StartedAt(obs: seq<Seen>, m: nat, flapChanges: nat) {
    && 0 < m <= |obs| && InWindow(obs[..m], flapChanges) >= flapChanges
    && forall k :: m <= k <= |obs| ==> InWindow(obs[..k], flapChanges) >= 1
  }

  lemma StartedEarlier(obs: seq<Seen>, m: nat, flapChanges: nat)
    requires obs != [] && m < |obs| && StartedAt(obs, m, flapChanges)
    ensures StartedAt(obs[..|obs| - 1], m, flapChanges) && InWindow(obs, flapChanges) >= 1
  {
    var front := obs[..|obs| - 1];
    assert obs[..|obs|] == obs && front[..m] == obs[..m];
    forall k | m <= k <= |front| ensures InWindow(front[..k], flapChanges) >= 1 {
      assert front[..k] == obs[..k];
    }
  }

  lemma StartedStill(obs: seq<Seen>, m: nat, flapChanges: nat)
    requires obs != [] && StartedAt(obs[..|obs| - 1], m, flapChanges) && InWindow(obs, flapChanges) >= 1
    ensures StartedAt(obs, m, flapChanges)
  {
    var front := obs[..|obs| - 1];
    assert front[..m] == obs[..m];
    forall k | m <= k <= |obs| ensures InWindow(obs[..k], flapChanges) >= 1 {
      if k < |obs| { assert front[..k] == obs[..k]; } else { assert obs[..k] == obs; }
    }
  }

  lemma {:induction false} FlappingSinceStart(obs: seq<Seen>, flapChanges: nat)
    requires flapChanges > 0
    ensures FullAfter(obs, flapChanges).flappingSince.Some? <==> exists m :: StartedAt(obs, m, flapChanges)
    decreases |obs|
  {
    if obs != [] {
      var front := obs[..|obs| - 1];
      FlappingSinceStart(front, flapChanges);
      RecentCount(FullAfter(obs, flapChanges).transitions, obs[|obs| - 1].now);
      if InWindow(obs, flapChanges) >= flapChanges {
        assert obs[..|obs|] == obs;
        assert StartedAt(obs, |obs|, flapChanges);
      } else if FullAfter(obs, flapChanges).flappingSince.Some? {
        var m :| StartedAt(front, m, flapChanges);
        StartedStill(obs, m, flapChanges);
      }
      if m: nat :| StartedAt(obs, m, flapChanges) {
        if m < |obs| { StartedEarlier(obs, m, flapChanges); } else { assert obs[..m] == obs; }
      }
    }
  }

  /** It has been flapping since the first build of those. */
  lemma {:induction false} FlappingBegan(obs: seq<Seen>, flapChanges: nat) returns (m: nat)
    requires flapChanges > 0 && FullAfter(obs, flapChanges).flappingSince.Some?
    ensures StartedAt(obs, m, flapChanges) && FullAfter(obs, flapChanges).flappingSince == Some(obs[m - 1].now)
    ensures FullAfter(obs[..m - 1], flapChanges).flappingSince.None?
    decreases |obs|
  {
    var front := obs[..|obs| - 1];
    RecentCount(FullAfter(obs, flapChanges).transitions, obs[|obs| - 1].now);
    assert obs[..|obs|] == obs;
    if FullAfter(front, flapChanges).flappingSince.Some? {
      m := FlappingBegan(front, flapChanges);
      StartedStill(obs, m, flapChanges);
      assert front[..m - 1] == obs[..m - 1];
    } else {
      m := |obs|;
    }
  }

  lemma FlapsAsHistorySays(row: Option<Stored>, f: Full, now: int)
    requires Exactly(row, f, now)
    ensures (row.Some? && row.value.flappingSince.Some?) <==> f.flappingSince.Some?
  {
  }

  /**
   A device is flapping at a build exactly when some build up to it that saw it had at least
   FLAP_CHANGES changes in its window and every such build since had at least one.
   */
  lemma FlappingExactly(builds: seq<Build>, flapChanges: nat)
    requires builds != [] && InOrder(builds) && flapChanges > 0 && builds[|builds| - 1].Saw?
    requires NothingIsLost(builds, flapChanges)
    ensures var row := RowAfter(builds, flapChanges);
            (row.Some? && row.value.flappingSince.Some?) <==> exists m :: StartedAt(SeenIn(builds), m, flapChanges)
  {
    RowsAreExact(builds, flapChanges);
    FlapsAsHistorySays(RowAfter(builds, flapChanges), FullAfter(SeenIn(builds), flapChanges), builds[|builds| - 1].seen.now);
    FlappingSinceStart(SeenIn(builds), flapChanges);
  }

  // ----- the table --------------------------------------------------------

  type Table = map<string, TableRow>

  function RowIn(rows: Table, id: string): Option<TableRow> {
    if id in rows then Some(rows[id]) else None
  }

  predicate Unchanged(rows: Table, id: string, row: Stored, now: int) {
    id in rows && SameState(rows[id].state, row, now)
  }

  predicate IsSwept(rows: Table, next: map<string, Option<Stored>>, id: string, now: int) {
    id in rows && id !in next && Expired(rows[id], now)
  }

  /** `device_states_to_write`: whether a build has anything to store. */
  predicate ToWrite(next: map<string, Option<Stored>>, rows: Table, now: int) {
    || (exists id :: id in next && (if next[id].None? then id in rows else !Unchanged(rows, id, next[id].value, now)))
    || (exists id :: id in rows && IsSwept(rows, next, id, now))
  }

  /** The table after a build's write; *stamp* is the database's time. */
  function AfterWrite(rows: Table, next: map<string, Option<Stored>>, now: int, stamp: int): Table {
    map id | id in rows.Keys + next.Keys &&
             (if id in next then next[id].Some? else !IsSwept(rows, next, id, now)) ::
      if id !in next || Unchanged(rows, id, next[id].value, now) then rows[id] else TableRow(next[id].value, stamp)
  }

  /** With *todo* still to come, those whose stored row is to go. */
  function ToDrop(rows: Table, next: map<string, Option<Stored>>, todo: set<string>): set<string> {
    set id | id in next && id !in todo && next[id].None? && id in rows
  }

  lemma ToDropOneMore(rows: Table, next: map<string, Option<Stored>>, todo: set<string>, id: string)
    requires id in next && id in todo
    ensures ToDrop(rows, next, todo - {id}) ==
            ToDrop(rows, next, todo) + if next[id].None? && id in rows then {id} else {}
  {
  }

  class DeviceStates {
    var rows: Table

    constructor ()
      ensures rows == map[]
    {
      rows := map[];
    }

    method UpsertOne(stored: Table, id: string, row: Option<Stored>, now: int, stamp: int) returns (drop: bool)
      modifies this
      ensures rows == if row.Some? && !Unchanged(stored, id, row.value, now)
                      then old(rows)[id := TableRow(row.value, stamp)] else old(rows)
      ensures drop <==> row.None? && id in stored
    {
      drop := false;
      if row.None? {
        drop := id in stored;
        return;
      }
      if Unchanged(stored, id, row.value, now) { return; }
      rows := rows[id := TableRow(row.value, stamp)];
    }

    method UpsertNext(stored: Table, next: map<string, Option<Stored>>, ghost todo: set<string>,
                      id: string, now: int, stamp: int) returns (drop: bool)
      requires id in next && id in todo
      requires rows == Upserted(stored, next, todo, now, stamp)
      modifies this
      ensures rows == Upserted(stored, next, todo - {id}, now, stamp)
      ensures ToDrop(stored, next, todo - {id}) == ToDrop(stored, next, todo) + if drop then {id} else {}
    {
      UpsertedOneMore(stored, next, todo, id, now, stamp);
      ToDropOneMore(stored, next, todo, id);
      drop := UpsertOne(stored, id, next[id], now, stamp);
    }

    /** Upserts the changed rows; returns the devices whose stored row is to go. */
    method UpsertChanged(next: map<string, Option<Stored>>, now: int, stamp: int) returns (dropped: set<string>)
      modifies this
      ensures rows == Upserted(old(rows), next, {}, now, stamp)
      ensures dropped == ToDrop(old(rows), next, {})
    {
      var stored := rows;
      dropped := {};
      var todo := next.Keys;
      NoneUpserted(stored, next, now, stamp);
      while todo != {}
        invariant todo <= next.Keys
        invariant dropped == ToDrop(stored, next, todo)
        invariant rows == Upserted(stored, next, todo, now, stamp)
        decreases |todo|
      {
        var id :| id in todo;
        var drop := UpsertNext(stored, next, todo, id, now, stamp);
        if drop { dropped := dropped + {id}; }
        todo := todo - {id};
      }
    }

    method WriteDeviceStates(next: map<string, Option<Stored>>, now: int, stamp: int)
      modifies this
      ensures rows == AfterWrite(old(rows), next, now, stamp)
    {
      var dropped := UpsertChanged(next, now, stamp);
      rows := rows - dropped;
      rows := rows - UnseenFor(rows, next.Keys, now);
      DeletesLeaveAfterWrite(old(rows), next, now, stamp, dropped);
    }
  }

  function UnseenFor(rows: Table, seen: set<string>, now: int): set<string> {
    set id | id in rows && id !in seen && Expired(rows[id], now)
  }

  lemma DeletesLeaveAfterWrite(rows: Table, next: map<string, Option<Stored>>, now: int, stamp: int, dropped: set<string>)
    requires dropped == ToDrop(rows, next, {})
    ensures var upserted := Upserted(rows, next, {}, now, stamp) - dropped;
            upserted - UnseenFor(upserted, next.Keys, now) == AfterWrite(rows, next, now, stamp)
  {
    var upserted := Upserted(rows, next, {}, now, stamp) - dropped;
    var kept := upserted - UnseenFor(upserted, next.Keys, now);
    var after := AfterWrite(rows, next, now, stamp);
    forall id ensures (id in kept <==> id in after) && (id in kept ==> kept[id] == after[id]) {
    }
  }

  /** With *todo* still to come, the rows upserted as far as they changed. */
  function Upserted(rows: Table, next: map<string, Option<Stored>>, todo: set<string>, now: int, stamp: int): Table {
    rows + map id | id in next && id !in todo && next[id].Some? && !Unchanged(rows, id, next[id].value, now) ::
             TableRow(next[id].value, stamp)
  }

  lemma NoneUpserted(rows: Table, next: map<string, Option<Stored>>, now: int, stamp: int)
    ensures Upserted(rows, next, next.Keys, now, stamp) == rows && ToDrop(rows, next, next.Keys) == {}
  {
  }

  lemma UpsertedOneMore(rows: Table, next: map<string, Option<Stored>>, todo: set<string>, id: string, now: int, stamp: int)
    requires id in next && id in todo
    ensures Upserted(rows, next, todo - {id}, now, stamp) ==
            if next[id].Some? && !Unchanged(rows, id, next[id].value, now)
            then Upserted(rows, next, todo, now, stamp)[id := TableRow(next[id].value, stamp)]
            else Upserted(rows, next, todo, now, stamp)
  {
  }

  /** The stored row says what the new one does, but for changes since forgotten. */
  ghost predicate SaysTheSame(stored: Stored, row: Stored, now: int) {
    stored == row.(changes := stored.changes) && AreRecent(row.changes, stored.changes, now)
  }

  /**
   The row of a device after a build's write: gone when the build wants none; the old one with
   its old time when it says the same; and without the device in the build, gone when it was
   written over a week ago.
   */
  lemma RowAfterWrite(rows: Table, next: map<string, Option<Stored>>, now: int, stamp: int, id: string)
    ensures var after := AfterWrite(rows, next, now, stamp);
            RowIn(after, id) ==
            if id in next then
              if next[id].None? then None
              else if id in rows && SaysTheSame(rows[id].state, next[id].value, now) then Some(rows[id])
              else Some(TableRow(next[id].value, stamp))
            else if id in rows && rows[id].updatedAt >= now - 7 * 24 * 60 * 60 * 1_000_000 then Some(rows[id])
            else None
  {
    if id in next && next[id].Some? && id in rows {
      RecentIsUnique(next[id].value.changes, rows[id].state.changes, now);
    }
  }

  /** Per device, seen by the build or not, the table then holds what a step of its run says. */
  lemma TableFollowsRun(rows: Table, next: map<string, Option<Stored>>, now: int, stamp: int, id: string)
    ensures RowIn(AfterWrite(rows, next, now, stamp), id) ==
            if id in next then Write(RowIn(rows, id), next[id], now, stamp) else Swept(RowIn(rows, id), now)
  {
  }

  /**
   The write is skipped exactly when it would leave the table as it is, whenever the rows were
   worked out; the database's time is a new one.
   */
  lemma SkippedExactlyWhenNothingChanges(rows: Table, next: map<string, Option<Stored>>, now: int, stamp: int)
    requires forall id :: id in rows ==> rows[id].updatedAt != stamp
    ensures ToWrite(next, rows, now) <==> AfterWrite(rows, next, now, stamp) != rows
  {
    var after := AfterWrite(rows, next, now, stamp);
    if ToWrite(next, rows, now) {
      if id :| id in next && (if next[id].None? then id in rows else !Unchanged(rows, id, next[id].value, now)) {
        if next[id].Some? && id in rows { assert after[id].updatedAt == stamp; }
        assert id in after <==> next[id].Some?;
      } else {
        var id :| id in rows && IsSwept(rows, next, id, now);
        assert id !in after;
      }
    } else {
      forall id ensures id in after <==> id in rows {
        if id in next && next[id].Some? { assert Unchanged(rows, id, next[id].value, now); }
      }
      assert after == rows;
    }
  }
}
