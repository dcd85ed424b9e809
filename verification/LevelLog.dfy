/**
 The log of site level changes that board builds write (nautobot_maps/alerts.py) and
 the replay of it that gives the time at Critical (nautobot_maps/availability.py).
 */
module LevelLog {
  import opened Wrappers
  import opened Levels
  import opened Numbers
  import opened Intervals

  /** One change of a site's level, as logged. */
  datatype Change = Change(from: Level, to: Level, at: int)

  /** A site's stored level; older rows do not know when it was first seen. */
  datatype SiteLevel = SiteLevel(level: Level, updatedAt: int, firstSeen: Option<int>)

  /** What the database holds of one site. */
  datatype SiteState = SiteState(row: Option<SiteLevel>, log: seq<Change>)

  /** What a board build observed of one site. */
  datatype Observation = Observation(level: Level, at: int)

  // ----- writing the log --------------------------------------------------

  function Observe(s: SiteState, o: Observation): SiteState {
    if s.row.None? then
      SiteState(Some(SiteLevel(o.level, o.at, Some(o.at))), s.log)
    else if s.row.value.level != o.level then
      SiteState(Some(s.row.value.(level := o.level, updatedAt := o.at)),
                s.log + [Change(s.row.value.level, o.level, o.at)])
    else s
  }

  /** The site's state after the builds that observed it. */
  function Recorded(obs: seq<Observation>): SiteState {
    if obs == [] then SiteState(None, []) else Observe(Recorded(obs[..|obs| - 1]), obs[|obs| - 1])
  }

  function SiteLog(changes: seq<(string, Change)>, site: string): seq<Change> {
    if changes == [] then []
    else
      SiteLog(changes[..|changes| - 1], site)
      + if changes[|changes| - 1].0 == site then [changes[|changes| - 1].1] else []
  }

  lemma SiteLogAppend(changes: seq<(string, Change)>, site: string, c: Change)
    ensures forall s :: SiteLog(changes + [(site, c)], s) == SiteLog(changes, s) + if s == site then [c] else []
  {
    assert (changes + [(site, c)])[..|changes|] == changes;
  }

  /** The tables site_alert_levels and site_level_changes. */
  class LevelTables {
    var levels: map<string, SiteLevel>
    var changes: seq<(string, Change)>

    constructor ()
      ensures forall s :: StateOf(s) == Recorded([])
    {
      levels, changes := map[], [];
    }

    ghost function StateOf(site: string): SiteState
      reads this
    {
      SiteState(if site in levels then Some(levels[site]) else None, SiteLog(changes, site))
    }

    method RecordLevel(site: string, level: Level, checkedAt: int) returns (changed: bool)
      modifies this
      ensures forall s :: StateOf(s) ==
                          if s == site then Observe(old(StateOf(s)), Observation(level, checkedAt)) else old(StateOf(s))
      ensures changed <==> |changes| > |old(changes)|
      ensures |changes| == |old(changes)| + if changed then 1 else 0
    {
      changed := false;
      if site !in levels {
        levels := levels[site := SiteLevel(level, checkedAt, Some(checkedAt))];
        return;
      }
      var before := levels[site];
      if before.level != level {
        var change := Change(before.level, level, checkedAt);
        SiteLogAppend(changes, site, change);
        levels := levels[site := before.(level := level, updatedAt := checkedAt)];
        changes := changes + [(site, change)];
        changed := true;
      }
    }

    /** One build records every site it observed, in one transaction. */
    method RecordSiteLevelChanges(observed: map<string, Level>, checkedAt: int) returns (count: nat)
      modifies this
      ensures forall s :: StateOf(s) ==
                          if s in observed then Observe(old(StateOf(s)), Observation(observed[s], checkedAt))
                          else old(StateOf(s))
      ensures count == |changes| - |old(changes)|
    {
      count := 0;
      var todo := observed.Keys;
      while todo != {}
        invariant todo <= observed.Keys
        invariant forall s :: StateOf(s) ==
                              if s in observed && s !in todo
                              then Observe(old(StateOf(s)), Observation(observed[s], checkedAt))
                              else old(StateOf(s))
        invariant count == |changes| - |old(changes)|
        decreases |todo|
      {
        var site :| site in todo;
        var changed := RecordLevel(site, observed[site], checkedAt);
        if changed { count := count + 1; }
        todo := todo - {site};
      }
    }
  }

  // ----- what the log says ------------------------------------------------

  predicate Increasing(obs: seq<Observation>) {
    forall i, j :: 0 <= i < j < |obs| ==> obs[i].at <= obs[j].at
  }

  /** The level the last build at or before *t* observed. */
  function LevelAt(obs: seq<Observation>, t: int): Level
    requires obs != []
  {
    if |obs| == 1 || obs[|obs| - 1].at <= t then obs[|obs| - 1].level else LevelAt(obs[..|obs| - 1], t)
  }

  predicate CriticalAt(obs: seq<Observation>, t: int) {
    obs != [] && obs[0].at <= t && LevelAt(obs, t) == Critical
  }

  /** The level after the changes of *log* up to *t*, from *first*. */
  function Replay(first: Level, log: seq<Change>, t: int): Level {
    if log == [] then first
    else if log[|log| - 1].at <= t then log[|log| - 1].to
    else Replay(first, log[..|log| - 1], t)
  }

  predicate Sorted(log: seq<Change>) {
    forall i, j :: 0 <= i < j < |log| ==> log[i].at <= log[j].at
  }

  /** The level a chain of changes has reached before its change *k*. */
  function LevelBefore(first: Level, log: seq<Change>, k: nat): Level
    requires k <= |log|
  {
    if k == 0 then first else log[k - 1].to
  }

  /** Each change starts at the level the one before it led to, and changes it. */
  predicate Chain(first: Level, log: seq<Change>, last: Level) {
    && (forall i :: 0 <= i < |log| ==> log[i].from == LevelBefore(first, log, i) && log[i].from != log[i].to)
    && last == LevelBefore(first, log, |log|)
  }

  lemma LevelBeforeAppend(first: Level, log: seq<Change>, c: Change, k: nat)
    requires k <= |log|
    ensures LevelBefore(first, log + [c], k) == LevelBefore(first, log, k)
  {
    assert k > 0 ==> (log + [c])[k - 1] == log[k - 1];
  }

  lemma ChainAppend(first: Level, log: seq<Change>, last: Level, c: Change)
    requires Chain(first, log, last) && c.from == last && c.to != last
    ensures Chain(first, log + [c], c.to)
  {
    forall i | 0 <= i <= |log|
      ensures (log + [c])[i].from == LevelBefore(first, log + [c], i) && (log + [c])[i].from != (log + [c])[i].to
    {
      LevelBeforeAppend(first, log, c, i);
    }
  }

  /** The stored row and log, for a site first seen as *first*, at the latest build's time. */
  predicate LoggedFrom(s: SiteState, first: Observation, latest: int) {
    && s.row.Some? && s.row.value.firstSeen == Some(first.at)
    && Sorted(s.log) && Chain(first.level, s.log, s.row.value.level)
    && (forall i :: 0 <= i < |s.log| ==> first.at <= s.log[i].at <= latest)
  }

  lemma ObserveKeepsLog(s: SiteState, first: Observation, latest: int, o: Observation)
    requires LoggedFrom(s, first, latest) && first.at <= latest <= o.at
    ensures LoggedFrom(Observe(s, o), first, o.at)
  {
    if s.row.value.level != o.level {
      ChainAppend(first.level, s.log, s.row.value.level, Change(s.row.value.level, o.level, o.at));
    }
  }

  lemma ObserveReplays(s: SiteState, first: Observation, latest: int, o: Observation, t: int)
    requires LoggedFrom(s, first, latest) && latest <= o.at
    ensures Replay(first.level, Observe(s, o).log, t) ==
            if o.at <= t then o.level else Replay(first.level, s.log, t)
  {
    if s.row.value.level != o.level {
      var c := Change(s.row.value.level, o.level, o.at);
      assert (s.log + [c])[..|s.log|] == s.log;
    }
  }

  /** The logged changes form a chain, in time order, and replaying them gives the trace. */
  lemma {:induction false} LogReplaysTrace(obs: seq<Observation>, t: int)
    requires obs != [] && Increasing(obs)
    ensures LoggedFrom(Recorded(obs), obs[0], obs[|obs| - 1].at)
    ensures obs[0].at <= t ==> Replay(obs[0].level, Recorded(obs).log, t) == LevelAt(obs, t)
  {
    if |obs| == 1 {
      assert Recorded(obs[..0]) == SiteState(None, []);
    } else {
      var front, o := obs[..|obs| - 1], obs[|obs| - 1];
      LogReplaysTrace(front, t);
      ObserveKeepsLog(Recorded(front), obs[0], front[|front| - 1].at, o);
      ObserveReplays(Recorded(front), obs[0], front[|front| - 1].at, o, t);
    }
  }

  // ----- read_critical ----------------------------------------------------

  function LastBefore(log: seq<Change>, t: int): Option<Change> {
    if log == [] then None
    else if log[|log| - 1].at <= t then Some(log[|log| - 1])
    else LastBefore(log[..|log| - 1], t)
  }

  function FirstAfter(log: seq<Change>, t: int): Option<Change> {
    if log == [] then None else if log[0].at >= t then Some(log[0]) else FirstAfter(log[1..], t)
  }

  function During(log: seq<Change>, start: int, end: int): seq<Change> {
    if log == [] then []
    else During(log[..|log| - 1], start, end) + if start < log[|log| - 1].at < end then [log[|log| - 1]] else []
  }

  /** The intervals at Critical from *since*, at *level*, through *changes*, until *end*. */
  function Walk(changes: seq<Change>, level: Level, since: int, end: int): seq<Interval> {
    if changes == [] then if level == Critical then [Interval(since, end)] else []
    else
      (if level == Critical then [Interval(since, changes[0].at)] else [])
      + Walk(changes[1..], changes[0].to, changes[0].at, end)
  }

  /** One change of the walk, and the rest of it behind what is done. */
  lemma WalkOneMore(done: seq<Interval>, during: seq<Change>, i: nat, level: Level, since: int, end: int)
    requires i < |during|
    ensures var first := if level == Critical then [Interval(since, during[i].at)] else [];
            done + Walk(during[i..], level, since, end) ==
            (done + first) + Walk(during[i + 1..], during[i].to, during[i].at, end)
  {
    var first := if level == Critical then [Interval(since, during[i].at)] else [];
    var rest := Walk(during[i + 1..], during[i].to, during[i].at, end);
    assert during[i..][1..] == during[i + 1..] && during[i..][0] == during[i];
    assert Walk(during[i..], level, since, end) == first + rest;
    assert done + (first + rest) == (done + first) + rest;
  }

  method ComputeWalk(during: seq<Change>, first: Level, from: int, end: int) returns (intervals: seq<Interval>)
    ensures intervals == Walk(during, first, from, end)
  {
    intervals := [];
    var level, since := first, from;
    for i := 0 to |during|
      invariant intervals + Walk(during[i..], level, since, end) == Walk(during, first, from, end)
    {
      var change := during[i];
      WalkOneMore(intervals, during, i, level, since, end);
      assert intervals + [] == intervals;
      if level == Critical {
        intervals := intervals + [Interval(since, change.at)];
      }
      level, since := change.to, change.at;
    }
    if level == Critical {
      intervals := intervals + [Interval(since, end)];
    }
  }

  /** Since when the replay of a log with no change up to *start* counts. */
  function Since(row: SiteLevel, start: int, end: int): int {
    if row.firstSeen.Some? && row.firstSeen.value > start then Min(row.firstSeen.value, end) else start
  }

  /** Where the replay starts: the level and since when. */
  function StartOf(before: Option<Change>, next: Change, row: SiteLevel, start: int, end: int): (Level, int) {
    if before.Some? then (before.value.to, start) else (next.from, Since(row, start, end))
  }

  function CriticalIntervals(log: seq<Change>, row: SiteLevel, start: int, end: int): seq<Interval> {
    var before, during, after := LastBefore(log, start), During(log, start, end), FirstAfter(log, end);
    if before.None? && during == [] && after.None? then
      if row.level != Critical then []
      else
        var seen := Max(row.firstSeen.GetOr(row.updatedAt), start);
        if seen < end then [Interval(seen, end)] else []
    else
      var next := if during != [] then during[0] else if after.Some? then after.value else before.value;
      var (level, since) := StartOf(before, next, row, start, end);
      Walk(during, level, since, end)
  }

  /** Reads only the changes in the period, the last before it and the first after it. */
  method ReadCritical(log: seq<Change>, row: SiteLevel, start: int, end: int) returns (intervals: seq<Interval>)
    ensures intervals == CriticalIntervals(log, row, start, end)
  {
    var before, during, after := LastBefore(log, start), During(log, start, end), FirstAfter(log, end);
    if before.None? && during == [] && after.None? {
      // No change: Critical since it was first seen, or not at all.
      if row.level != Critical { return []; }
      var seen := Max(row.firstSeen.GetOr(row.updatedAt), start);
      return if seen < end then [Interval(seen, end)] else [];
    }
    var level, since;
    if before.Some? {
      level, since := before.value.to, start;
    } else {
      level := (if during != [] then during[0] else after.value).from;
      since := start;
      if row.firstSeen.Some? && row.firstSeen.value > start { since := Min(row.firstSeen.value, end); }
    }
    intervals := ComputeWalk(during, level, since, end);
  }

  // ----- the read gives the trace -----------------------------------------

  /** *log* split at the period: up to *start*, inside, from *end* on. */
  predicate SplitAt(log: seq<Change>, b: nat, d: nat, start: int, end: int) {
    && b <= d <= |log|
    && (forall i :: 0 <= i < b ==> log[i].at <= start)
    && (forall i :: b <= i < d ==> start < log[i].at < end)
    && (forall i :: d <= i < |log| ==> log[i].at >= end)
  }

  lemma SplitExists(log: seq<Change>, start: int, end: int) returns (b: nat, d: nat)
    requires Sorted(log) && start < end
    ensures SplitAt(log, b, d, start, end)
  {
    b := 0;
    while b < |log| && log[b].at <= start
      invariant b <= |log| && forall i :: 0 <= i < b ==> log[i].at <= start
    {
      b := b + 1;
    }
    d := b;
    while d < |log| && log[d].at < end
      invariant b <= d <= |log| && forall i :: b <= i < d ==> start < log[i].at < end
    {
      d := d + 1;
    }
  }

  lemma {:induction false} LastBeforeIs(log: seq<Change>, b: nat, d: nat, start: int, end: int)
    requires SplitAt(log, b, d, start, end) && start < end
    ensures LastBefore(log, start) == if b > 0 then Some(log[b - 1]) else None
  {
    if |log| > b {
      var front := log[..|log| - 1];
      LastBeforeIs(front, b, Min(d, |front|), start, end);
    }
  }

  lemma {:induction false} FirstAfterIs(log: seq<Change>, b: nat, d: nat, start: int, end: int)
    requires SplitAt(log, b, d, start, end) && start < end
    ensures FirstAfter(log, end) == if d < |log| then Some(log[d]) else None
  {
    if d > 0 {
      FirstAfterIs(log[1..], if b > 0 then b - 1 else 0, d - 1, start, end);
    }
  }

  lemma SliceOfFront(log: seq<Change>, b: nat, d: nat)
    requires b <= d < |log|
    ensures log[b..d] == log[..|log| - 1][b..d]
  {
    assert forall i :: b <= i < d ==> log[i] == log[..|log| - 1][i];
  }

  lemma {:induction false} DuringIs(log: seq<Change>, b: nat, d: nat, start: int, end: int)
    requires SplitAt(log, b, d, start, end) && start < end
    ensures During(log, start, end) == log[b..d]
  {
    if log == [] {
    } else {
      var front := log[..|log| - 1];
      if d < |log| {
        DuringIs(front, b, d, start, end);
        SliceOfFront(log, b, d);
      } else if b < d {
        DuringIs(front, b, |front|, start, end);
        assert log[b..] == front[b..] + [log[|log| - 1]] && log[b..d] == log[b..] && front[b..|front|] == front[b..];
      } else {
        DuringIs(front, |front|, |front|, start, end);
      }
    }
  }

  /** Replay forwards: one change more at the front. */
  lemma {:induction false} ReplayForwards(first: Level, log: seq<Change>, t: int)
    requires Sorted(log) && log != []
    ensures Replay(first, log, t) == if t < log[0].at then first else Replay(log[0].to, log[1..], t)
  {
    if |log| > 1 && log[|log| - 1].at > t {
      var front := log[..|log| - 1];
      ReplayForwards(first, front, t);
      assert log[1..][..|log| - 2] == front[1..];
    }
  }

  lemma {:induction false} WalkMeaning(changes: seq<Change>, level: Level, since: int, end: int, t: int)
    requires Sorted(changes) && since <= end
    requires forall i :: 0 <= i < |changes| ==> since <= changes[i].at <= end
    ensures t in Points(Walk(changes, level, since, end)) <==>
            since <= t < end && Replay(level, changes, t) == Critical
  {
    if changes == [] {
      PointsOne(Interval(since, end));
    } else {
      var c := changes[0];
      var head := if level == Critical then [Interval(since, c.at)] else [];
      WalkMeaning(changes[1..], c.to, c.at, end, t);
      ReplayForwards(level, changes, t);
      PointsConcat(head, Walk(changes[1..], c.to, c.at, end));
      PointsOne(Interval(since, c.at));
    }
  }

  lemma {:induction false} ReplayWithoutFuture(first: Level, log: seq<Change>, d: nat, t: int)
    requires Sorted(log) && d <= |log| && forall i :: d <= i < |log| ==> t < log[i].at
    ensures Replay(first, log, t) == Replay(first, log[..d], t)
  {
    if d < |log| {
      ReplayWithoutFuture(first, log[..|log| - 1], d, t);
      assert log[..|log| - 1][..d] == log[..d];
    } else {
      assert log[..d] == log;
    }
  }

  lemma {:induction false} ReplayWithoutPast(first: Level, log: seq<Change>, b: nat, t: int)
    requires Sorted(log) && b <= |log| && forall i :: 0 <= i < b ==> log[i].at <= t
    ensures Replay(first, log, t) == Replay(LevelBefore(first, log, b), log[b..], t)
    decreases b
  {
    if b == 0 {
      assert log[0..] == log;
    } else {
      ReplayForwards(first, log, t);
      ReplayWithoutPast(log[0].to, log[1..], b - 1, t);
      assert log[1..][b - 1..] == log[b..];
    }
  }

  /** The level replayed in the period needs only the changes in it and the level before them. */
  lemma ReplayOfPeriod(first: Level, log: seq<Change>, b: nat, d: nat, start: int, end: int, t: int)
    requires Sorted(log) && SplitAt(log, b, d, start, end) && start <= t < end
    ensures Replay(first, log, t) == Replay(LevelBefore(first, log, b), log[b..d], t)
  {
    ReplayWithoutFuture(first, log, d, t);
    ReplayWithoutPast(first, log[..d], b, t);
    assert log[..d][b..] == log[b..d];
  }

  /**
   What read_critical finds, for the log with any number *k* of its changes up to the
   period's start deleted by the retention: the instants since first seen at Critical.
   */
  lemma CriticalIsReplayed(s: SiteState, first: Observation, latest: int, k: nat, start: int, end: int, t: int)
    requires LoggedFrom(s, first, latest) && start < end && k <= |s.log|
    requires forall i :: 0 <= i < k ==> s.log[i].at <= start
    ensures t in Points(CriticalIntervals(s.log[k..], s.row.value, start, end)) <==>
            start <= t < end && first.at <= t && Replay(first.level, s.log, t) == Critical
  {
    var log, row := s.log[k..], s.row.value;
    var base := LevelBefore(first.level, s.log, k);
    var b, d := SplitExists(log, start, end);
    LastBeforeIs(log, b, d, start, end);
    FirstAfterIs(log, b, d, start, end);
    DuringIs(log, b, d, start, end);
    if start <= t < end {
      ReplayWithoutPast(first.level, s.log, k, t);
      ReplayOfPeriod(base, log, b, d, start, end, t);
    }
    if log == [] {
      PointsOne(Interval(Max(first.at, start), end));
    } else {
      CriticalIsWalk(log, row, b, d, start, end);
      if b > 0 {
        LaterStart(s, first, latest, k, start, end, b, d, t);
      } else {
        EarlyStart(s, first, latest, k, start, end, b, d, t);
      }
    }
  }

  lemma CriticalIsWalk(log: seq<Change>, row: SiteLevel, b: nat, d: nat, start: int, end: int)
    requires SplitAt(log, b, d, start, end) && log != [] && start < end
    requires During(log, start, end) == log[b..d]
    requires LastBefore(log, start) == if b > 0 then Some(log[b - 1]) else None
    requires FirstAfter(log, end) == if d < |log| then Some(log[d]) else None
    ensures CriticalIntervals(log, row, start, end) ==
            if b > 0 then Walk(log[b..d], log[b - 1].to, start, end)
            else Walk(log[b..d], log[0].from, Since(row, start, end), end)
  {
  }

  lemma LaterStart(s: SiteState, first: Observation, latest: int, k: nat, start: int, end: int, b: nat, d: nat, t: int)
    requires LoggedFrom(s, first, latest) && start < end && k < |s.log|
    requires forall i :: 0 <= i < k ==> s.log[i].at <= start
    requires SplitAt(s.log[k..], b, d, start, end)
    requires b > 0
    ensures t in Points(Walk(s.log[k..][b..d], s.log[k..][b - 1].to, start, end)) <==>
            start <= t < end && first.at <= t && Replay(s.log[k..][b - 1].to, s.log[k..][b..d], t) == Critical
  {
    var log := s.log[k..];
    assert first.at <= s.log[k + b - 1].at <= start by { assert log[b - 1] == s.log[k + b - 1]; }
    WalkMeaning(log[b..d], log[b - 1].to, start, end, t);
  }

  /** Without a change read from before the period, the walk begins when the site was first seen, or with the period. */
  lemma EarlySince(s: SiteState, first: Observation, latest: int, k: nat, start: int, end: int, d: nat, t: int)
    requires LoggedFrom(s, first, latest) && start < end && k < |s.log|
    requires forall i :: 0 <= i < k ==> s.log[i].at <= start
    requires SplitAt(s.log[k..], 0, d, start, end)
    ensures var since := Since(s.row.value, start, end);
            && (since <= t < end <==> start <= t < end && first.at <= t)
            && forall i :: 0 <= i < d ==> since <= s.log[k..][i].at <= end
  {
    if k > 0 { assert first.at <= s.log[k - 1].at <= start; }
    forall i | 0 <= i < d ensures first.at <= s.log[k..][i].at { assert s.log[k..][i] == s.log[k + i]; }
  }

  lemma EarlyStart(s: SiteState, first: Observation, latest: int, k: nat, start: int, end: int, b: nat, d: nat, t: int)
    requires LoggedFrom(s, first, latest) && start < end && k < |s.log|
    requires forall i :: 0 <= i < k ==> s.log[i].at <= start
    requires SplitAt(s.log[k..], b, d, start, end)
    requires b == 0
    ensures t in Points(Walk(s.log[k..][b..d], s.log[k].from, Since(s.row.value, start, end), end)) <==>
            start <= t < end && first.at <= t && Replay(s.log[k].from, s.log[k..][b..d], t) == Critical
  {
    EarlySince(s, first, latest, k, start, end, d, t);
    WalkMeaning(s.log[k..][b..d], s.log[k].from, Since(s.row.value, start, end), end, t);
  }

  /**
   Replaying the level log gives back the trace: for any run of builds in time order and
   any period, read_critical yields exactly the instants since the site was first seen at
   which its recorded level was Critical, also after the retention deleted changes that
   were over by the period's start.
   */
  lemma ReadCriticalGivesTrace(obs: seq<Observation>, k: nat, start: int, end: int, t: int)
    requires obs != [] && Increasing(obs) && start < end
    requires k <= |Recorded(obs).log| && forall i :: 0 <= i < k ==> Recorded(obs).log[i].at <= start
    ensures Recorded(obs).row.Some?
    ensures t in Points(CriticalIntervals(Recorded(obs).log[k..], Recorded(obs).row.value, start, end)) <==>
            start <= t < end && CriticalAt(obs, t)
  {
    LogReplaysTrace(obs, t);
    CriticalIsReplayed(Recorded(obs), obs[0], obs[|obs| - 1].at, k, start, end, t);
  }
}
