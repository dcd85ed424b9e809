/**
 Queueing alarms and recoveries when a site's level changes (nautobot_maps/notify.py), and
 what a site's last queued message says after any run of changes.
 */
module Notify {
  import opened Levels
  import opened Wrappers

  datatype Kind = Alarm | Recovery

  const DAY := 24 * 60 * 60
  const KEEP_DAYS := 30

  /** A row of notification_outbox, in the order of its id; *over*: sent, or given up. */
  datatype Message = Message(
    channel: string, kind: Kind, site: string, from: Level, to: Level, created: int, over: bool)

  /** *minimum*: the rank of the site's minimum level. */
  function EventKind(from: Level, to: Level, minimum: nat): Option<Kind> {
    if to == Maintenance then None
    else if Rank(to) >= minimum && Rank(to) > Rank(from) then Some(Alarm)
    else if Rank(from) >= minimum > Rank(to) then Some(Recovery)
    else None
  }

  predicate DroppedBelowMinimum(from: Level, to: Level, minimum: nat) {
    to != Maintenance && Rank(to) < Rank(from) < minimum
  }

  /** The kind of the site's newest row. */
  function LastKind(rows: seq<Message>, site: string): Option<Kind> {
    if rows == [] then None
    else if rows[|rows| - 1].site == site then Some(rows[|rows| - 1].kind)
    else LastKind(rows[..|rows| - 1], site)
  }

  /** What a change queues, if anything; *last*: what was queued last for the site. */
  function KindOf(last: Option<Kind>, from: Level, to: Level, minimum: nat, quiet: bool): Option<Kind> {
    var event := EventKind(from, to, minimum);
    var kind :=
      if event.None? && DroppedBelowMinimum(from, to, minimum) && last == Some(Alarm) then Some(Recovery)
      else event;
    if quiet && kind == Some(Recovery) then None else kind
  }

  /**
   An alarm when the level rises to the minimum or above; a recovery when it falls below the
   minimum, or falls further with an alarm as the last message, unless it is to be quiet;
   maintenance queues nothing.
   */
  lemma KindExactly(last: Option<Kind>, from: Level, to: Level, minimum: nat, quiet: bool)
    ensures KindOf(last, from, to, minimum, quiet) == Some(Alarm) <==>
            to != Maintenance && Rank(from) < Rank(to) && minimum <= Rank(to)
    ensures KindOf(last, from, to, minimum, quiet) == Some(Recovery) <==>
            && to != Maintenance && !quiet && Rank(to) < minimum
            && (minimum <= Rank(from) || (Rank(to) < Rank(from) && last == Some(Alarm)))
  {
  }

  function Messages(channels: seq<string>, kind: Kind, site: string, from: Level, to: Level, at: int): seq<Message> {
    seq(|channels|, i requires 0 <= i < |channels| => Message(channels[i], kind, site, from, to, at, false))
  }

  /** What is queued: one row for each channel, in the order of the channels, still to be sent. */
  lemma OneRowPerChannel(rows: seq<Message>, channels: seq<string>, kind: Kind, site: string, from: Level, to: Level, at: int,
                         i: nat)
    requires i < |channels|
    ensures var after := rows + Messages(channels, kind, site, from, to, at);
            && |after| == |rows| + |channels| && after[..|rows|] == rows
            && after[|rows| + i] == Message(channels[i], kind, site, from, to, at, false)
  {
  }

  /** The row may be deleted: it is over and was queued more than 30 days ago. */
  predicate IsOld(m: Message, now: int) { m.over && m.created < now - KEEP_DAYS * DAY }

  /** The rows that `send_pending` leaves. */
  function Unpruned(rows: seq<Message>, now: int): seq<Message> {
    if rows == [] then []
    else if IsOld(rows[|rows| - 1], now) then Unpruned(rows[..|rows| - 1], now)
    else Unpruned(rows[..|rows| - 1], now) + [rows[|rows| - 1]]
  }

  class Outbox {
    var rows: seq<Message>

    /** *tenantMatches*: the site has a tenant to notify for.  Only sites with an id are recorded. */
    method EnqueueChange(site: string, from: Level, to: Level, minimum: nat, channels: seq<string>,
                         tenantMatches: bool, quiet: bool, changedAt: int)
      returns (queued: nat)
      requires site != ""
      modifies this
      ensures var kind := KindOf(LastKind(old(rows), site), from, to, minimum, quiet);
              if kind.Some? && tenantMatches
              then rows == old(rows) + Messages(channels, kind.value, site, from, to, changedAt) && queued == |channels|
              else rows == old(rows) && queued == 0
    {
      var kind := EventKind(from, to, minimum);
      if channels != [] && kind.None? && DroppedBelowMinimum(from, to, minimum) {
        if LastKind(rows, site) == Some(Alarm) { kind := Some(Recovery); }
      }
      if channels == [] || kind.None? || (quiet && kind == Some(Recovery)) {
        return 0;
      }
      if !tenantMatches { return 0; }
      for i := 0 to |channels|
        invariant rows == old(rows) + Messages(channels, kind.value, site, from, to, changedAt)[..i]
      {
        ghost var all := Messages(channels, kind.value, site, from, to, changedAt);
        assert all[..i + 1] == all[..i] + [all[i]];
        rows := rows + [Message(channels[i], kind.value, site, from, to, changedAt, false)];
      }
      return |channels|;
    }

    /** What `send_pending` deletes after sending. */
    method DeleteOld(now: int)
      modifies this
      ensures rows == Unpruned(old(rows), now)
    {
      var kept := [];
      for i := 0 to |rows|
        invariant rows == old(rows) && kept == Unpruned(rows[..i], now)
      {
        assert rows[..i + 1][..i] == rows[..i];
        if !IsOld(rows[i], now) { kept := kept + [rows[i]]; }
      }
      assert rows[..|rows|] == rows;
      rows := kept;
    }
  }

  // ---------------------------------------------------------------- runs

  /**
   A level recorded for a site.  *minimum*: the rank of its minimum level at the time;
   *quiet*, *tenantMatches*: see EnqueueChange; *edited*: only a device's criticality was
   edited, which is logged and not announced.
   */
  datatype Event = Event(
    site: string, level: Level, minimum: nat, quiet: bool, edited: bool, tenantMatches: bool, at: int)

  datatype Step =
    | Recorded(event: Event)
    | Settled(row: nat)    // a message was sent, or given up
    | Pruned(now: int)     // old rows that are over were deleted

  /** *rows*: the table; *log*: every message ever queued, also those deleted since. */
  datatype State = State(levels: map<string, Level>, rows: seq<Message>, log: seq<Message>)

  /** What recording the level queues. */
  function Queued(s: State, e: Event, channels: seq<string>): seq<Message> {
    if e.site !in s.levels || s.levels[e.site] == e.level || e.edited || !e.tenantMatches then []
    else
      var kind := KindOf(LastKind(s.rows, e.site), s.levels[e.site], e.level, e.minimum, e.quiet);
      if kind.None? then [] else Messages(channels, kind.value, e.site, s.levels[e.site], e.level, e.at)
  }

  function Next(s: State, step: Step, channels: seq<string>): State {
    match step
    case Recorded(e) =>
      var more := Queued(s, e, channels);
      State(s.levels[e.site := e.level], s.rows + more, s.log + more)
    case Settled(row) => if row < |s.rows| then s.(rows := s.rows[row := s.rows[row].(over := true)]) else s
    case Pruned(now) => s.(rows := Unpruned(s.rows, now))
  }

  function After(steps: seq<Step>, channels: seq<string>): State {
    if steps == [] then State(map[], [], [])
    else Next(After(steps[..|steps| - 1], channels), steps[|steps| - 1], channels)
  }

  predicate Alarmed(messages: seq<Message>, site: string) { LastKind(messages, site) == Some(Alarm) }

  /**
   One recorded level of a site.  *alarmed*: the last message queued for it was an alarm;
   *found*: the newest row the table still held for it was one.
   */
  datatype Entry = Entry(level: Level, minimum: nat, alarmed: bool, found: bool)

  predicate IsOf(step: Step, site: string) { step.Recorded? && step.event.site == site }

  function EntryOf(s: State, e: Event): Entry {
    Entry(e.level, e.minimum, Alarmed(s.log, e.site), Alarmed(s.rows, e.site))
  }

  /** The levels recorded for the site, oldest first. */
  function HistoryOf(site: string, steps: seq<Step>, channels: seq<string>): seq<Entry> {
    if steps == [] then []
    else
      var front, step := steps[..|steps| - 1], steps[|steps| - 1];
      if IsOf(step, site) then HistoryOf(site, front, channels) + [EntryOf(After(front, channels), step.event)]
      else HistoryOf(site, front, channels)
  }

  predicate Announced(site: string, steps: seq<Step>) {
    forall step <- steps | IsOf(step, site) :: !step.event.quiet && !step.event.edited && step.event.tenantMatches
  }

  predicate MinimumIs(site: string, steps: seq<Step>, minimum: nat) {
    forall step <- steps | IsOf(step, site) :: step.event.minimum == minimum
  }

  lemma {:induction false} LastKindOfMore(rows: seq<Message>, more: seq<Message>, site: string)
    requires forall m <- more :: m.site != site
    ensures LastKind(rows + more, site) == LastKind(rows, site)
  {
    if more == [] {
      assert rows + more == rows;
    } else {
      assert (rows + more)[..|rows + more| - 1] == rows + more[..|more| - 1];
      LastKindOfMore(rows, more[..|more| - 1], site);
    }
  }

  lemma LastKindOfQueued(rows: seq<Message>, s: State, e: Event, channels: seq<string>, site: string)
    requires channels != []
    ensures var more := Queued(s, e, channels);
            LastKind(rows + more, site) ==
            if site == e.site && more != [] then Some(more[|more| - 1].kind) else LastKind(rows, site)
  {
    var more := Queued(s, e, channels);
    if more == [] {
      assert rows + more == rows;
    } else if site == e.site {
      assert (rows + more)[|rows + more| - 1] == more[|more| - 1];
    } else {
      LastKindOfMore(rows, more, site);
    }
  }

  /** The kind of the last message ever queued for the site. */
  function LastQueued(s: State, site: string): Option<Kind> { LastKind(s.log, site) }

  /** One step as the site sees it: only its own levels queue messages for it. */
  lemma NextStep(s: State, step: Step, channels: seq<string>, site: string)
    requires channels != []
    ensures var t := Next(s, step, channels);
            && (!IsOf(step, site) ==>
                  && (site in t.levels <==> site in s.levels)
                  && (site in s.levels ==> t.levels[site] == s.levels[site])
                  && LastQueued(t, site) == LastQueued(s, site))
            && (IsOf(step, site) ==>
                  && site in t.levels && t.levels[site] == step.event.level
                  && LastQueued(t, site) ==
                     if Queued(s, step.event, channels) == [] then LastQueued(s, site)
                     else KindOf(LastKind(s.rows, site), s.levels[site], step.event.level, step.event.minimum,
                                 step.event.quiet))
  {
    if step.Recorded? { LastKindOfQueued(s.log, s, step.event, channels, site); }
  }

  /** A level recorded for a known site whose changes are announced. */
  lemma AnnouncedStep(s: State, e: Event, channels: seq<string>)
    requires channels != [] && e.site in s.levels && !e.quiet && !e.edited && e.tenantMatches
    ensures var kind := KindOf(LastKind(s.rows, e.site), s.levels[e.site], e.level, e.minimum, false);
            LastQueued(Next(s, Recorded(e), channels), e.site) ==
            if e.level == s.levels[e.site] || kind.None? then LastQueued(s, e.site) else kind
  {
    NextStep(s, Recorded(e), channels, e.site);
  }

  /** A site is known with its last level, or has had nothing queued. */
  lemma {:induction false} AfterKnows(steps: seq<Step>, channels: seq<string>, site: string)
    requires channels != []
    ensures var s, history := After(steps, channels), HistoryOf(site, steps, channels);
            && (site in s.levels <==> history != [])
            && (history != [] ==> s.levels[site] == history[|history| - 1].level)
            && (history == [] ==> LastQueued(s, site).None?)
  {
    if steps != [] {
      var front, step := steps[..|steps| - 1], steps[|steps| - 1];
      AfterKnows(front, channels, site);
      NextStep(After(front, channels), step, channels, site);
      if IsOf(step, site) {
        var history := HistoryOf(site, steps, channels);
        assert history == HistoryOf(site, front, channels) + [EntryOf(After(front, channels), step.event)];
      } else {
        assert HistoryOf(site, steps, channels) == HistoryOf(site, front, channels);
      }
    }
  }

  // ---------------------------------------------------------------- a minimum that stays

  /** Below the minimum, and nothing to announce as the end of an alarm, or no alarm found. */
  predicate NothingToSay(before: Level, entry: Entry, minimum: nat) {
    && Rank(entry.level) < minimum
    && (entry.level == Maintenance || Rank(entry.level) >= Rank(before) || !entry.found)
  }

  /**
   The alarm is over without word of it: at *i* the site went into maintenance from an
   alarming level, and has since not reached the minimum, nor got better outside of
   maintenance while the alarm was still in the table.
   */
  predicate SilencedAt(history: seq<Entry>, minimum: nat, i: nat)
    requires i + 1 < |history|
  {
    && Rank(history[i].level) >= minimum
    && history[i + 1].level == Maintenance
    && forall k :: i + 1 < k < |history| ==> NothingToSay(history[k - 1].level, history[k], minimum)
  }

  predicate Silenced(history: seq<Entry>, minimum: nat) {
    exists i: nat | i + 1 < |history| :: SilencedAt(history, minimum, i)
  }

  lemma SilencedAtMore(history: seq<Entry>, minimum: nat, next: Entry, i: nat)
    requires i + 1 < |history|
    ensures SilencedAt(history + [next], minimum, i) <==>
            SilencedAt(history, minimum, i) && NothingToSay(history[|history| - 1].level, next, minimum)
  {
    var more, n := history + [next], |history|;
    if SilencedAt(more, minimum, i) {
      forall k | i + 1 < k < n ensures NothingToSay(history[k - 1].level, history[k], minimum) {
        assert NothingToSay(more[k - 1].level, more[k], minimum);
      }
      assert NothingToSay(more[n - 1].level, more[n], minimum);
    }
  }

  lemma SilencedMore(history: seq<Entry>, minimum: nat, next: Entry)
    requires history != []
    ensures var from := history[|history| - 1].level;
            Silenced(history + [next], minimum) <==>
            || (Rank(from) >= minimum && next.level == Maintenance)
            || (Silenced(history, minimum) && NothingToSay(from, next, minimum))
  {
    var more, n := history + [next], |history|;
    forall i: nat | i + 1 < n
      ensures SilencedAt(more, minimum, i) <==>
              SilencedAt(history, minimum, i) && NothingToSay(history[n - 1].level, next, minimum)
    {
      SilencedAtMore(history, minimum, next, i);
    }
    assert SilencedAt(more, minimum, n - 1) <==>
           Rank(history[n - 1].level) >= minimum && next.level == Maintenance;
  }

  /** A site in an alarming level is not silenced. */
  lemma SilencedIsBelow(history: seq<Entry>, minimum: nat)
    requires Silenced(history, minimum) && minimum > 0
    ensures Rank(history[|history| - 1].level) < minimum
  {
    var i: nat :| i + 1 < |history| && SilencedAt(history, minimum, i);
    assert i + 2 < |history| ==>
           NothingToSay(history[|history| - 2].level, history[|history| - 1], minimum);
  }

  lemma AlarmStep(last: Option<Kind>, lookup: Option<Kind>, history: seq<Entry>, next: Entry, minimum: nat)
    requires history != [] && minimum > 0 && next.found == (lookup == Some(Alarm))
    requires last == Some(Alarm) <==> Rank(history[|history| - 1].level) >= minimum || Silenced(history, minimum)
    ensures var from := history[|history| - 1].level;
            var kind := KindOf(lookup, from, next.level, minimum, false);
            (if next.level == from || kind.None? then last else kind) == Some(Alarm) <==>
            Rank(next.level) >= minimum || Silenced(history + [next], minimum)
  {
    SilencedMore(history, minimum, next);
    if Silenced(history, minimum) { SilencedIsBelow(history, minimum); }
    if Silenced(history + [next], minimum) { SilencedIsBelow(history + [next], minimum); }
  }

  /**
   With a minimum that stays and a site first recorded below it, and old messages deleted at
   any time: the last message queued for the site is an alarm exactly when the site is at or
   above the minimum, or went into maintenance from there and nothing was to be said since.
   */
  lemma {:induction false} AlarmIsLastExactly(steps: seq<Step>, channels: seq<string>, site: string, minimum: nat)
    requires channels != [] && minimum > 0 && Announced(site, steps) && MinimumIs(site, steps, minimum)
    requires var history := HistoryOf(site, steps, channels); history != [] && Rank(history[0].level) < minimum
    ensures var history := HistoryOf(site, steps, channels);
            LastQueued(After(steps, channels), site) == Some(Alarm) <==>
            Rank(history[|history| - 1].level) >= minimum || Silenced(history, minimum)
  {
    var front, step := steps[..|steps| - 1], steps[|steps| - 1];
    var s, before := After(front, channels), HistoryOf(site, front, channels);
    assert step in steps && forall earlier <- front :: earlier in steps;
    NextStep(s, step, channels, site);
    AfterKnows(front, channels, site);
    if before != [] {
      assert HistoryOf(site, steps, channels)[0] == before[0];
      AlarmIsLastExactly(front, channels, site, minimum);
      if IsOf(step, site) {
        AnnouncedStep(s, step.event, channels);
        AlarmStep(LastQueued(s, site), LastKind(s.rows, site), before, EntryOf(s, step.event), minimum);
      }
    }
  }

  /** Without maintenance: an alarm is last exactly while the site is in alarm. */
  lemma AlarmIsLastInAlarm(steps: seq<Step>, channels: seq<string>, site: string, minimum: nat)
    requires channels != [] && minimum > 0 && Announced(site, steps) && MinimumIs(site, steps, minimum)
    requires var history := HistoryOf(site, steps, channels);
             && history != [] && Rank(history[0].level) < minimum
             && forall entry <- history :: entry.level != Maintenance
    ensures var history := HistoryOf(site, steps, channels);
            LastQueued(After(steps, channels), site) == Some(Alarm) <==> Rank(history[|history| - 1].level) >= minimum
  {
    AlarmIsLastExactly(steps, channels, site, minimum);
    var history := HistoryOf(site, steps, channels);
    forall i: nat | i + 1 < |history| ensures !SilencedAt(history, minimum, i) {
      assert history[i + 1] in history;
    }
  }

  /** This level would queue a recovery although the last message queued for its site is no alarm. */
  predicate RecoversWithoutAlarm(s: State, next: Event, channels: seq<string>) {
    var more := Queued(s, next, channels);
    more != [] && more[0].kind == Recovery && LastQueued(s, next.site) != Some(Alarm)
  }

  /** What an announced level of a known site queues. */
  lemma QueuedKind(s: State, e: Event, channels: seq<string>)
    requires channels != [] && e.site in s.levels && !e.quiet && !e.edited && e.tenantMatches
    ensures var kind := KindOf(LastKind(s.rows, e.site), s.levels[e.site], e.level, e.minimum, false);
            var more := Queued(s, e, channels);
            && (more != [] <==> e.level != s.levels[e.site] && kind.Some?)
            && (more != [] ==> more[0].kind == kind.value)
  {
  }

  lemma RecoveryStep(last: Option<Kind>, lookup: Option<Kind>, from: Level, to: Level, minimum: nat, silenced: bool)
    requires minimum > 0 && (last == Some(Alarm) <==> Rank(from) >= minimum || silenced)
    ensures KindOf(lookup, from, to, minimum, false) == Some(Recovery) && last != Some(Alarm) <==>
            to != Maintenance && Rank(to) < Rank(from) < minimum && lookup == Some(Alarm) && !silenced
  {
  }

  /**
   With a minimum that stays, a recovery is queued without an alarm before it exactly when the
   site gets better below the minimum, not by maintenance, and the newest row in the table is
   an alarm although the last message was none: the newer messages were deleted before it.
   */
  lemma RecoversWithoutAlarmExactly(steps: seq<Step>, channels: seq<string>, next: Event, minimum: nat)
    requires channels != [] && minimum > 0 && next.minimum == minimum
    requires Announced(next.site, steps + [Recorded(next)]) && MinimumIs(next.site, steps, minimum)
    requires var history := HistoryOf(next.site, steps, channels);
             history != [] && Rank(history[0].level) < minimum
    ensures var s, history := After(steps, channels), HistoryOf(next.site, steps, channels);
            RecoversWithoutAlarm(s, next, channels) <==>
            && next.level != Maintenance
            && Rank(next.level) < Rank(history[|history| - 1].level) < minimum
            && LastKind(s.rows, next.site) == Some(Alarm) && !Silenced(history, minimum)
  {
    assert Recorded(next) in steps + [Recorded(next)] && IsOf(Recorded(next), next.site);
    assert forall step <- steps :: step in steps + [Recorded(next)];
    AlarmIsLastExactly(steps, channels, next.site, minimum);
    AfterKnows(steps, channels, next.site);
    var s, history := After(steps, channels), HistoryOf(next.site, steps, channels);
    QueuedKind(s, next, channels);
    RecoveryStep(LastQueued(s, next.site), LastKind(s.rows, next.site), s.levels[next.site], next.level, minimum,
                 Silenced(history, minimum));
  }

  /** Without maintenance, a recovery repeats in exactly this case. */
  lemma RecoveryRepeatsExactly(steps: seq<Step>, channels: seq<string>, next: Event, minimum: nat)
    requires channels != [] && minimum > 0 && next.minimum == minimum && next.level != Maintenance
    requires Announced(next.site, steps + [Recorded(next)]) && MinimumIs(next.site, steps, minimum)
    requires var history := HistoryOf(next.site, steps, channels);
             && history != [] && Rank(history[0].level) < minimum
             && forall entry <- history :: entry.level != Maintenance
    ensures var s := After(steps, channels);
            && next.site in s.levels
            && (RecoversWithoutAlarm(s, next, channels) <==>
                  && Rank(next.level) < Rank(s.levels[next.site]) < minimum
                  && LastKind(s.rows, next.site) == Some(Alarm))
  {
    assert forall step <- steps :: step in steps + [Recorded(next)];
    RecoversWithoutAlarmExactly(steps, channels, next, minimum);
    AlarmIsLastExactly(steps, channels, next.site, minimum);
    AlarmIsLastInAlarm(steps, channels, next.site, minimum);
    AfterKnows(steps, channels, next.site);
  }

  /**
   So recoveries never repeat while the table's newest row of the site agrees with the last
   message queued for it, with or without maintenance.
   */
  lemma RecoveriesDoNotRepeat(steps: seq<Step>, channels: seq<string>, next: Event, minimum: nat)
    requires channels != [] && minimum > 0 && next.minimum == minimum
    requires Announced(next.site, steps + [Recorded(next)]) && MinimumIs(next.site, steps, minimum)
    requires var history := HistoryOf(next.site, steps, channels);
             history != [] && Rank(history[0].level) < minimum
    requires var s := After(steps, channels); LastKind(s.rows, next.site) == LastQueued(s, next.site)
    ensures !RecoversWithoutAlarm(After(steps, channels), next, channels)
  {
    assert forall step <- steps :: step in steps + [Recorded(next)];
    RecoversWithoutAlarmExactly(steps, channels, next, minimum);
    AlarmIsLastExactly(steps, channels, next.site, minimum);
  }

  /** A site that goes through maintenance keeps its alarm: an alarm, maintenance, then OK. */
  lemma AlarmIsLeftByMaintenance(steps: seq<Step>, channels: seq<string>, site: string, minimum: nat)
    requires channels != [] && 0 < minimum <= 3 && Announced(site, steps) && MinimumIs(site, steps, minimum)
    requires var h := HistoryOf(site, steps, channels);
             |h| == 4 && h[0].level == Ok && h[1].level == Critical && h[2].level == Maintenance && h[3].level == Ok
    ensures LastQueued(After(steps, channels), site) == Some(Alarm)
  {
    AlarmIsLastExactly(steps, channels, site, minimum);
    assert SilencedAt(HistoryOf(site, steps, channels), minimum, 1);
  }

  // ---------------------------------------------------------------- a minimum that changes

  /**
   At *i* the site got fine, from below the minimum it had by then, and the alarm that was
   its last message was no longer in the table; it has been fine since.
   */
  predicate ForgottenAt(history: seq<Entry>, i: nat)
    requires 0 < i < |history|
  {
    && 0 < Rank(history[i - 1].level) < history[i].minimum
    && history[i].alarmed && !history[i].found
    && forall k :: i <= k < |history| ==> Rank(history[k].level) == 0
  }

  predicate Forgotten(history: seq<Entry>) {
    exists i: nat | 0 < i < |history| :: ForgottenAt(history, i)
  }

  lemma ForgottenMore(history: seq<Entry>, next: Entry)
    requires history != [] && Rank(next.level) == 0
    ensures var from := history[|history| - 1].level;
            Forgotten(history + [next]) <==>
            || (Forgotten(history) && Rank(from) == 0)
            || (0 < Rank(from) < next.minimum && next.alarmed && !next.found)
  {
    var more, n := history + [next], |history|;
    forall i: nat | 0 < i < n ensures ForgottenAt(more, i) <==> ForgottenAt(history, i) {
      if ForgottenAt(more, i) {
        forall k | i <= k < n ensures Rank(history[k].level) == 0 { assert Rank(more[k].level) == 0; }
      }
    }
    assert ForgottenAt(more, n) <==> 0 < Rank(history[n - 1].level) < next.minimum && next.alarmed && !next.found;
    if Forgotten(history) {
      var i: nat :| 0 < i < n && ForgottenAt(history, i);
      assert Rank(history[n - 1].level) == 0;
    }
  }

  lemma LeftStep(last: Option<Kind>, lookup: Option<Kind>, history: seq<Entry>, next: Entry)
    requires history != [] && history[|history| - 1].level != Maintenance && next.level != Maintenance
    requires Rank(next.level) == 0 && next.minimum > 0
    requires next.alarmed == (last == Some(Alarm)) && next.found == (lookup == Some(Alarm))
    requires Rank(history[|history| - 1].level) == 0 ==> (last == Some(Alarm) <==> Forgotten(history))
    ensures var from := history[|history| - 1].level;
            var kind := KindOf(lookup, from, next.level, next.minimum, false);
            (if next.level == from || kind.None? then last else kind) == Some(Alarm) <==> Forgotten(history + [next])
  {
    ForgottenMore(history, next);
  }

  lemma LeftOneMore(s: State, e: Event, channels: seq<string>, history: seq<Entry>)
    requires channels != [] && e.site in s.levels && !e.quiet && !e.edited && e.tenantMatches
    requires history != [] && s.levels[e.site] == history[|history| - 1].level != Maintenance
    requires Rank(e.level) == 0 && e.minimum > 0 && e.level != Maintenance
    requires Rank(s.levels[e.site]) == 0 ==> (LastQueued(s, e.site) == Some(Alarm) <==> Forgotten(history))
    ensures LastQueued(Next(s, Recorded(e), channels), e.site) == Some(Alarm) <==>
            Forgotten(history + [EntryOf(s, e)])
  {
    AnnouncedStep(s, e, channels);
    LeftStep(LastQueued(s, e.site), LastKind(s.rows, e.site), history, EntryOf(s, e));
  }

  /**
   Whatever the minimum was and becomes, a site that is fine, without maintenance, is left
   with an alarm as its last message exactly when that alarm had been deleted by the time
   its end was to be told, which was then below the minimum.
   */
  lemma {:induction false} AlarmIsLeftExactly(steps: seq<Step>, channels: seq<string>, site: string)
    requires channels != [] && Announced(site, steps)
    requires forall step <- steps | IsOf(step, site) :: step.event.minimum > 0 && step.event.level != Maintenance
    ensures var s, history := After(steps, channels), HistoryOf(site, steps, channels);
            && (history != [] ==> history[|history| - 1].level != Maintenance)
            && (history != [] && Rank(history[|history| - 1].level) == 0 ==>
                  (LastQueued(s, site) == Some(Alarm) <==> Forgotten(history)))
  {
    if steps != [] {
      var front, step := steps[..|steps| - 1], steps[|steps| - 1];
      var s, before := After(front, channels), HistoryOf(site, front, channels);
      assert step in steps;
      AlarmIsLeftExactly(front, channels, site);
      AfterKnows(front, channels, site);
      NextStep(s, step, channels, site);
      if IsOf(step, site) && before != [] && Rank(step.event.level) == 0 {
        LeftOneMore(s, step.event, channels, before);
      }
    }
  }

  /** So no alarm is left while no alarm that is a site's last message is deleted. */
  lemma NoAlarmIsLeft(steps: seq<Step>, channels: seq<string>, site: string)
    requires channels != [] && Announced(site, steps)
    requires forall step <- steps | IsOf(step, site) :: step.event.minimum > 0 && step.event.level != Maintenance
    requires var history := HistoryOf(site, steps, channels);
             && history != [] && Rank(history[|history| - 1].level) == 0
             && forall entry <- history :: entry.alarmed ==> entry.found
    ensures LastQueued(After(steps, channels), site) != Some(Alarm)
  {
    AlarmIsLeftExactly(steps, channels, site);
    var history := HistoryOf(site, steps, channels);
    forall i: nat | 0 < i < |history| ensures !ForgottenAt(history, i) {
      assert history[i] in history;
    }
  }

  lemma AfterOneMore(steps: seq<Step>, step: Step, channels: seq<string>)
    ensures After(steps + [step], channels) == Next(After(steps, channels), step, channels)
  {
    assert (steps + [step])[..|steps|] == steps;
  }

  // ---------------------------------------------------------------- runs in which it happens

  lemma FirstLevel(e: Event, channels: seq<string>)
    ensures After([Recorded(e)], channels) == State(map[e.site := e.level], [], [])
  {
    assert [Recorded(e)][..0] == [];
    assert Queued(State(map[], [], []), e, channels) == [];
  }

  /** An announced level of the one site there is. */
  predicate IsNews(e: Event, site: string, from: Level) {
    e.site == site && e.level != from && !e.quiet && !e.edited && e.tenantMatches
  }

  lemma OneMessage(channel: string, kind: Kind, site: string, from: Level, to: Level, at: int)
    ensures Messages([channel], kind, site, from, to, at) == [Message(channel, kind, site, from, to, at, false)]
  {
  }

  lemma LevelQueues(site: string, from: Level, rows: seq<Message>, log: seq<Message>, e: Event, channel: string, kind: Kind)
    requires IsNews(e, site, from)
    requires KindOf(LastKind(rows, site), from, e.level, e.minimum, false) == Some(kind)
    ensures var m := Message(channel, kind, site, from, e.level, e.at, false);
            Next(State(map[site := from], rows, log), Recorded(e), [channel]) ==
            State(map[site := e.level], rows + [m], log + [m])
  {
    OneMessage(channel, kind, site, from, e.level, e.at);
    assert map[site := from][site := e.level] == map[site := e.level];
  }

  lemma LevelQueuesNothing(site: string, from: Level, rows: seq<Message>, log: seq<Message>, e: Event, channel: string)
    requires IsNews(e, site, from)
    requires KindOf(LastKind(rows, site), from, e.level, e.minimum, false) == None
    ensures Next(State(map[site := from], rows, log), Recorded(e), [channel]) == State(map[site := e.level], rows, log)
  {
    var s := State(map[site := from], rows, log);
    assert Queued(s, e, [channel]) == [];
    assert rows + [] == rows && log + [] == log;
    assert map[site := from][site := e.level] == map[site := e.level];
  }

  /** Messages that are over go after 30 days; the others stay, in order. */
  lemma UnprunedOneMore(rows: seq<Message>, m: Message, now: int)
    ensures Unpruned(rows + [m], now) ==
            if m.over && m.created < now - 30 * 24 * 60 * 60 then Unpruned(rows, now) else Unpruned(rows, now) + [m]
  {
    assert (rows + [m])[..|rows|] == rows;
  }

  /** The levels of the runs: fine, and at others later. */
  function LevelOf(site: string, level: Level, minimum: nat, at: int): Event {
    Event(site, level, minimum, false, false, true, at)
  }

  function AlarmAt(site: string, channel: string): Message {
    Message(channel, Alarm, site, Ok, Medium, 0, false)
  }

  function RecoveryAt(site: string, channel: string): Message {
    Message(channel, Recovery, site, Medium, Low, 0, false)
  }

  /** OK, then Medium at minimum Medium: an alarm. */
  function AlarmRun(site: string): seq<Step> {
    [Recorded(LevelOf(site, Ok, 2, 0))] + [Recorded(LevelOf(site, Medium, 2, 0))]
  }

  lemma AfterAlarmRun(site: string, channel: string)
    ensures After(AlarmRun(site), [channel]) ==
            State(map[site := Medium], [AlarmAt(site, channel)], [AlarmAt(site, channel)])
  {
    FirstLevel(LevelOf(site, Ok, 2, 0), [channel]);
    AfterOneMore([Recorded(LevelOf(site, Ok, 2, 0))], Recorded(LevelOf(site, Medium, 2, 0)), [channel]);
    LevelQueues(site, Ok, [], [], LevelOf(site, Medium, 2, 0), channel, Alarm);
  }

  /** The alarm is sent, and deleted a month later. */
  function DeletedRun(site: string): seq<Step> { AlarmRun(site) + [Settled(0)] + [Pruned(31 * DAY)] }

  lemma AfterDeletedRun(site: string, channel: string)
    ensures After(DeletedRun(site), [channel]) == State(map[site := Medium], [], [AlarmAt(site, channel)])
  {
    var alarm := AlarmAt(site, channel);
    AfterAlarmRun(site, channel);
    AfterOneMore(AlarmRun(site), Settled(0), [channel]);
    assert [alarm][0 := alarm.(over := true)] == [] + [alarm.(over := true)];
    AfterOneMore(AlarmRun(site) + [Settled(0)], Pruned(31 * DAY), [channel]);
    UnprunedOneMore([], alarm.(over := true), 31 * DAY);
  }

  lemma DeletedRunIsAnnounced(site: string)
    ensures Announced(site, DeletedRun(site) + [Recorded(LevelOf(site, Ok, 3, 31 * DAY))])
  {
  }

  /**
   An alarm at Medium, sent, and deleted a month later with the site still Medium; the tier's
   minimum is Critical by then, and nothing says that the site is fine.
   */
  lemma DeletedAlarmIsLeft(site: string, channel: string)
    ensures var steps := DeletedRun(site) + [Recorded(LevelOf(site, Ok, 3, 31 * DAY))];
            var s := After(steps, [channel]);
            Announced(site, steps) && s.levels == map[site := Ok] && LastQueued(s, site) == Some(Alarm)
  {
    DeletedRunIsAnnounced(site);
    AfterDeletedRun(site, channel);
    AfterOneMore(DeletedRun(site), Recorded(LevelOf(site, Ok, 3, 31 * DAY)), [channel]);
    LevelQueuesNothing(site, Medium, [], [AlarmAt(site, channel)], LevelOf(site, Ok, 3, 31 * DAY), channel);
  }

  /** The site gets better; that is sent while the alarm is not, and deleted a month later. */
  function OvertakenRun(site: string): seq<Step> {
    AlarmRun(site) + [Recorded(LevelOf(site, Low, 2, 0))] + [Settled(1)] + [Pruned(31 * DAY)]
  }

  lemma AfterRecoverySent(site: string, channel: string)
    ensures After(AlarmRun(site) + [Recorded(LevelOf(site, Low, 2, 0))] + [Settled(1)], [channel]) ==
            State(map[site := Low], [AlarmAt(site, channel)] + [RecoveryAt(site, channel).(over := true)],
                  [AlarmAt(site, channel)] + [RecoveryAt(site, channel)])
  {
    var alarm, recovery := AlarmAt(site, channel), RecoveryAt(site, channel);
    AfterAlarmRun(site, channel);
    AfterOneMore(AlarmRun(site), Recorded(LevelOf(site, Low, 2, 0)), [channel]);
    LevelQueues(site, Medium, [alarm], [alarm], LevelOf(site, Low, 2, 0), channel, Recovery);
    AfterOneMore(AlarmRun(site) + [Recorded(LevelOf(site, Low, 2, 0))], Settled(1), [channel]);
    assert ([alarm] + [recovery])[1 := recovery.(over := true)] == [alarm] + [recovery.(over := true)];
  }

  lemma AfterOvertakenRun(site: string, channel: string)
    ensures After(OvertakenRun(site), [channel]) ==
            State(map[site := Low], [AlarmAt(site, channel)],
                  [AlarmAt(site, channel)] + [RecoveryAt(site, channel)])
  {
    var alarm, recovery := AlarmAt(site, channel), RecoveryAt(site, channel);
    AfterRecoverySent(site, channel);
    AfterOneMore(AlarmRun(site) + [Recorded(LevelOf(site, Low, 2, 0))] + [Settled(1)], Pruned(31 * DAY), [channel]);
    UnprunedOneMore([alarm], recovery.(over := true), 31 * DAY);
    UnprunedOneMore([], alarm, 31 * DAY);
    assert [] + [alarm] == [alarm];
  }

  /**
   A recovery that repeats at a minimum that stays: the first was sent while the alarm was
   still pending, and deleted alone; when the site is fine the alarm is found once more.
   */
  lemma RecoveryCanRepeat(site: string, channel: string)
    ensures var s := After(OvertakenRun(site), [channel]);
            && Announced(site, OvertakenRun(site)) && MinimumIs(site, OvertakenRun(site), 2)
            && LastQueued(s, site) == Some(Recovery)
            && RecoversWithoutAlarm(s, LevelOf(site, Ok, 2, 31 * DAY), [channel])
  {
    AfterOvertakenRun(site, channel);
    OneMessage(channel, Recovery, site, Low, Ok, 31 * DAY);
  }
}
