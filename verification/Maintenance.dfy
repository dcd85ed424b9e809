/**
 Maintenance windows (nautobot_maps/maintenance.py): planned, ended early or cancelled, read
 by the live board at one moment and by the report afterwards.  Times are in microseconds;
 a window's id is its place in the table.
 */
module Maintenance {
  import opened Wrappers
  import opened Intervals
  import opened Availability

  const SECOND := 1_000_000
  const MINUTE := 60 * SECOND
  const MAX_DURATION := 14 * 24 * 60 * MINUTE

  // ---------------------------------------------------------------- one window

  datatype WindowState = Upcoming | Active | Ended | Cancelled

  function StateOf(w: Window, at: int): WindowState {
    if w.ended.Some? then if w.ended.value < w.starts then Cancelled else Ended
    else if at < w.starts then Upcoming
    else if at < w.ends then Active
    else Ended
  }

  /** read_active's condition. */
  predicate IsActive(w: Window, at: int) {
    w.ended.None? && w.starts <= at < w.ends
  }

  /** How long it ran, up to *at*. */
  function RanFor(w: Window, at: int): int {
    var ran := (if w.ended.Some? then w.ended.value else w.ends);
    var stop := if ran < at then ran else at;
    if stop > w.starts then stop - w.starts else 0
  }

  // ---------------------------------------------------------------- planning and ending

  /** Sites, devices, and from when to when; a start left out is now. */
  datatype Request = Request(
    sites: seq<string>, devices: seq<string>, starts: Option<int>, ends: Option<int>, minutes: Option<int>)

  datatype Refusal =
    | SiteIsRequired
    | DevicesOfOneSite
    | EndIsRequired
    | BadDuration
    | TooLong
    | EndsBeforeStart
    | AlreadyEnded

  /** Whether a window from *starts* to *ends* may be planned now. */
  predicate CanBePlanned(starts: int, ends: int, current: int) {
    starts < ends <= starts + MAX_DURATION && ends > current
  }

  function Starts(r: Request, current: int): int { r.starts.GetOr(current) }

  function Ends(r: Request, current: int): Option<int> {
    if r.ends.Some? then r.ends
    else if r.minutes.Some? then Some(Starts(r, current) + r.minutes.value * MINUTE)
    else None
  }

  predicate Acceptable(r: Request, current: int) {
    && r.sites != [] && (r.devices == [] || |r.sites| == 1)
    && Ends(r, current).Some? && CanBePlanned(Starts(r, current), Ends(r, current).value, current)
  }

  /** What each refusal says of the request. */
  predicate Explains(refusal: Refusal, r: Request, current: int) {
    match refusal
    case SiteIsRequired => r.sites == []
    case DevicesOfOneSite => r.devices != [] && |r.sites| > 1
    case EndIsRequired => r.ends.None? && r.minutes.None?
    case BadDuration => r.ends.None? && r.minutes.Some? && r.minutes.value <= 0
    case TooLong => Ends(r, current).Some? && Ends(r, current).value - Starts(r, current) > MAX_DURATION
    case EndsBeforeStart => Ends(r, current).Some? && Ends(r, current).value <= Starts(r, current)
    case AlreadyEnded => Ends(r, current).Some? && Ends(r, current).value <= current
  }

  /** Some refusal says something true of the request. */
  predicate IsWrong(r: Request, current: int) {
    exists refusal :: Explains(refusal, r, current)
  }

  /** A window per device of the one site, or one per site. */
  function Planned(r: Request, starts: int, ends: int): seq<Window>
    requires r.sites != []
  {
    if r.devices != []
    then seq(|r.devices|, i requires 0 <= i < |r.devices| => Window(r.sites[0], r.devices[i], starts, ends, None))
    else seq(|r.sites|, i requires 0 <= i < |r.sites| => Window(r.sites[i], "", starts, ends, None))
  }

  function AfterCreate(rows: seq<Window>, r: Request, current: int): seq<Window> {
    if Acceptable(r, current) then rows + Planned(r, Starts(r, current), Ends(r, current).value) else rows
  }

  predicate CanEnd(w: Window, current: int) {
    StateOf(w, current) == Active || StateOf(w, current) == Upcoming
  }

  function AfterEnd(rows: seq<Window>, ids: set<nat>, current: int): seq<Window> {
    seq(|rows|, i requires 0 <= i < |rows| =>
      if i in ids && CanEnd(rows[i], current) then rows[i].(ended := Some(current)) else rows[i])
  }

  /** Windows for the same device, or for the same whole site. */
  predicate SameTarget(a: Window, b: Window) {
    a.device == b.device && (a.device == "" ==> a.site == b.site)
  }

  predicate IsLatest(w: Window, windows: seq<Window>) {
    w in windows && forall x <- windows | SameTarget(x, w) :: x.ends <= w.ends
  }

  predicate EndsLast(w: Window, rows: seq<Window>, at: int) {
    w in rows && IsActive(w, at) && forall x <- rows | SameTarget(x, w) && IsActive(x, at) :: x.ends <= w.ends
  }

  function Earlier(a: Option<int>, b: Option<int>): Option<int> {
    if a.None? then b else if b.None? then a else if b.value < a.value then b else a
  }

  function Upcome(time: int, at: int): Option<int> { if time > at then Some(time) else None }

  /** The first start or end after *at* of a window not ended. */
  function NextChange(rows: seq<Window>, at: int): Option<int> {
    if rows == [] then None
    else
      var w := rows[|rows| - 1];
      var rest := NextChange(rows[..|rows| - 1], at);
      if w.ended.Some? then rest else Earlier(rest, Earlier(Upcome(w.starts, at), Upcome(w.ends, at)))
  }

  class WindowTable {
    var rows: seq<Window>

    method Create(r: Request, current: int) returns (refused: Option<Refusal>)
      modifies this
      ensures refused.None? <==> Acceptable(r, current)
      ensures refused.None? <==> !IsWrong(r, current)
      ensures refused.Some? ==> Explains(refused.value, r, current)
      ensures rows == AfterCreate(old(rows), r, current)
    {
      AcceptableExactly(r, current);
      if r.sites == [] { return Some(SiteIsRequired); }
      if r.devices != [] && |r.sites| > 1 { return Some(DevicesOfOneSite); }
      var starts := if r.starts.Some? then r.starts.value else current;
      var ends;
      if r.ends.Some? {
        ends := r.ends.value;
      } else if r.minutes.Some? {
        if r.minutes.value <= 0 { return Some(BadDuration); }
        if r.minutes.value * MINUTE > MAX_DURATION { return Some(TooLong); }
        ends := starts + r.minutes.value * MINUTE;
      } else {
        return Some(EndIsRequired);
      }
      if ends <= starts { return Some(EndsBeforeStart); }
      if ends <= current { return Some(AlreadyEnded); }
      if ends - starts > MAX_DURATION { return Some(TooLong); }
      rows := rows + Planned(r, starts, ends);
      return None;
    }

    /** Unknown ids are left out, windows already over stay as they are. */
    method EndMany(ids: set<nat>, current: int) returns (changed: nat)
      modifies this
      ensures rows == AfterEnd(old(rows), ids, current)
      ensures changed == |set i | i in ids && i < |old(rows)| && CanEnd(old(rows)[i], current)|
      ensures changed == 0 <==> rows == old(rows)
    {
      var before := rows;
      var open := set i | i in ids && i < |before| && CanEnd(before[i], current);
      if open != {} {
        rows := seq(|before|, i requires 0 <= i < |before| =>
          if i in open then before[i].(ended := Some(current)) else before[i]);
        var some :| some in open;
        assert before[some].ended.None? && rows[some].ended.Some?;
      } else {
        assert forall i: nat :: i < |before| ==> i !in open;
      }
      assert forall i: nat :: i < |before| ==> (i in open <==> i in ids && CanEnd(before[i], current));
      assert rows == AfterEnd(before, ids, current);
      return |open|;
    }

    // -------------------------------------------------------------- reading

    /**
     The windows active now by site and by device, and when the next one starts or ends.
     With several for the same one, that which ends last.
     */
    method ReadActive(at: int)
      returns (sites: map<string, Window>, devices: map<string, Window>, nextChange: Option<int>)
      ensures forall s: string :: s in sites <==>
                exists w :: w in rows && IsActive(w, at) && w.device == "" && w.site == s
      ensures forall d: string :: d in devices <==>
                exists w :: w in rows && IsActive(w, at) && w.device != "" && w.device == d
      ensures forall s <- sites :: EndsLast(sites[s], rows, at) && sites[s].device == "" && sites[s].site == s
      ensures forall d <- devices :: EndsLast(devices[d], rows, at) && devices[d].device == d
      ensures forall s, x :: s in sites && x in rows && IsActive(x, at) && x.device == "" && x.site == s ==>
                x.ends <= sites[s].ends
      ensures forall d, x :: d in devices && x in rows && IsActive(x, at) && x.device == d ==> x.ends <= devices[d].ends
      ensures nextChange == NextChange(rows, at)
    {
      var ordered := ByEnd(ActiveOf(rows, at));
      nextChange := NextChange(rows, at);
      OrderedRows(rows, at);
      sites, devices := map[], map[];
      for k := 0 to |ordered|
        invariant forall s: string :: s in sites <==> exists w :: w in ordered[..k] && w.device == "" && w.site == s
        invariant forall d: string :: d in devices <==> exists w :: w in ordered[..k] && w.device != "" && w.device == d
        invariant forall s <- sites :: IsLatest(sites[s], ordered[..k]) && sites[s].device == "" && sites[s].site == s
        invariant forall d <- devices :: IsLatest(devices[d], ordered[..k]) && devices[d].device == d && d != ""
      {
        var w := ordered[k];
        LatestSoFar(ordered, k);
        if w.device != "" {
          devices := devices[w.device := w];
        } else {
          sites := sites[w.site := w];
        }
      }
      assert ordered[..|ordered|] == ordered;
    }
  }

  function ActiveOf(rows: seq<Window>, at: int): (active: seq<Window>)
    ensures forall w :: w in active <==> w in rows && IsActive(w, at)
  {
    if rows == [] then []
    else if IsActive(rows[|rows| - 1], at) then ActiveOf(rows[..|rows| - 1], at) + [rows[|rows| - 1]]
    else ActiveOf(rows[..|rows| - 1], at)
  }

  /** The database's ORDER BY ends_at; those that end together keep their order. */
  function ByEnd(windows: seq<Window>): (ordered: seq<Window>)
    ensures forall w :: w in ordered <==> w in windows
    ensures forall i, j :: 0 <= i < j < |ordered| ==> ordered[i].ends <= ordered[j].ends
  {
    if windows == [] then [] else Placed(ByEnd(windows[..|windows| - 1]), windows[|windows| - 1])
  }

  function Placed(ordered: seq<Window>, w: Window): (more: seq<Window>)
    requires forall i, j :: 0 <= i < j < |ordered| ==> ordered[i].ends <= ordered[j].ends
    ensures forall x :: x in more <==> x in ordered || x == w
    ensures forall i, j :: 0 <= i < j < |more| ==> more[i].ends <= more[j].ends
    ensures more != []
    ensures more[|more| - 1].ends <= w.ends || (ordered != [] && more[|more| - 1].ends <= ordered[|ordered| - 1].ends)
  {
    if ordered == [] then [w]
    else
      var last := ordered[|ordered| - 1];
      if last.ends <= w.ends then ordered + [w]
      else Placed(ordered[..|ordered| - 1], w) + [last]
  }

  lemma OrderedRows(rows: seq<Window>, at: int)
    ensures var ordered := ByEnd(ActiveOf(rows, at));
            && (forall w :: w in ordered <==> w in rows && IsActive(w, at))
            && (forall w | IsLatest(w, ordered) :: EndsLast(w, rows, at))
  {
  }

  /** The next in order ends no earlier than any before it. */
  lemma LatestSoFar(ordered: seq<Window>, k: nat)
    requires k < |ordered|
    requires forall i, j :: 0 <= i < j < |ordered| ==> ordered[i].ends <= ordered[j].ends
    ensures ordered[..k + 1] == ordered[..k] + [ordered[k]]
    ensures IsLatest(ordered[k], ordered[..k + 1])
    ensures forall w | IsLatest(w, ordered[..k]) && !SameTarget(ordered[k], w) :: IsLatest(w, ordered[..k + 1])
  {
    assert ordered[..k + 1] == ordered[..k] + [ordered[k]];
  }

  // ---------------------------------------------------------------- what a plan adds

  lemma AcceptableExactly(r: Request, current: int)
    ensures Acceptable(r, current) <==> !IsWrong(r, current)
  {
    if !Acceptable(r, current) {
      assert Explains(SiteIsRequired, r, current) || Explains(DevicesOfOneSite, r, current)
             || Explains(EndIsRequired, r, current) || Explains(TooLong, r, current)
             || Explains(EndsBeforeStart, r, current) || Explains(AlreadyEnded, r, current);
    }
  }

  /** Asked to start and to end then: an end left out comes so many minutes after the start. */
  predicate Spans(r: Request, current: int, starts: int, ends: int) {
    && starts == (if r.starts.Some? then r.starts.value else current)
    && (r.ends.Some? ==> ends == r.ends.value)
    && (r.ends.None? && r.minutes.Some? ==> ends == starts + r.minutes.value * 60 * 1_000_000)
  }

  /**
   An accepted plan keeps every window and adds one for each device named, at the one site,
   or for each site as a whole; none of them has ended.
   */
  lemma PlanAdds(rows: seq<Window>, r: Request, current: int) returns (starts: int, ends: int)
    requires Acceptable(r, current)
    ensures Spans(r, current, starts, ends)
    ensures var after := AfterCreate(rows, r, current);
            && |after| == |rows| + (if r.devices != [] then |r.devices| else |r.sites|)
            && after[..|rows|] == rows
            && (forall i :: |rows| <= i < |after| ==>
                  after[i] == if r.devices != [] then Window(r.sites[0], r.devices[i - |rows|], starts, ends, None)
                              else Window(r.sites[i - |rows|], "", starts, ends, None))
  {
    starts, ends := Starts(r, current), Ends(r, current).value;
  }

  predicate IsCovered(rows: seq<Window>, site: string, device: string, t: int) {
    exists w :: w in rows && Concerns(w, site, device) && IsActive(w, t)
  }

  /** The plan names the device, or its whole site. */
  predicate Names(r: Request, site: string, device: string) {
    if r.devices != [] then device in r.devices else site in r.sites
  }

  /** So a device comes into maintenance by a plan exactly when it or its whole site is named, while it lasts. */
  lemma PlanCovers(rows: seq<Window>, r: Request, current: int, site: string, device: string, t: int)
    returns (starts: int, ends: int)
    requires Acceptable(r, current) && device != "" && "" !in r.devices
    ensures Spans(r, current, starts, ends)
    ensures IsCovered(AfterCreate(rows, r, current), site, device, t) <==>
            IsCovered(rows, site, device, t) || (starts <= t < ends && Names(r, site, device))
  {
    starts, ends := PlanAdds(rows, r, current);
    var after := AfterCreate(rows, r, current);
    forall w ensures w in after <==> w in rows || w in after[|rows|..] {
      assert after == rows + after[|rows|..];
    }
    if w :| w in after[|rows|..] && Concerns(w, site, device) && IsActive(w, t) {
      var k :| 0 <= k < |after[|rows|..]| && after[|rows|..][k] == w;
      assert w == after[|rows| + k];
    }
    if starts <= t < ends && Names(r, site, device) {
      var named := if r.devices != [] then device else site;
      var k :| 0 <= k < |if r.devices != [] then r.devices else r.sites|
               && (if r.devices != [] then r.devices else r.sites)[k] == named;
      var w := after[|rows| + k];
      assert w == after[|rows|..][k] && Concerns(w, site, device) && IsActive(w, t);
    }
  }

  // ---------------------------------------------------------------- the live board and the report

  datatype Operation = Plan(request: Request) | End(ids: set<nat>)

  datatype Step = Step(at: int, operation: Operation)

  function Apply(rows: seq<Window>, step: Step): seq<Window> {
    match step.operation
    case Plan(request) => AfterCreate(rows, request, step.at)
    case End(ids) => AfterEnd(rows, ids, step.at)
  }

  function After(steps: seq<Step>): seq<Window> {
    if steps == [] then [] else Apply(After(steps[..|steps| - 1]), steps[|steps| - 1])
  }

  predicate InOrder(steps: seq<Step>) {
    forall i, j :: 0 <= i < j < |steps| ==> steps[i].at <= steps[j].at
  }

  /** The steps done by *t*. */
  function UpTo(steps: seq<Step>, t: int): seq<Step> {
    if steps == [] || steps[|steps| - 1].at <= t then steps else UpTo(steps[..|steps| - 1], t)
  }

  /** A window in the table: it lasts, at most 14 days, and ended early if at all. */
  predicate WindowInv(w: Window) {
    && w.starts < w.ends <= w.starts + MAX_DURATION
    && (w.ended.Some? ==> w.ended.value < w.ends)
  }

  lemma {:induction false} RunsKeepWindows(steps: seq<Step>)
    ensures forall w <- After(steps) :: WindowInv(w)
  {
    if steps != [] {
      var rows, step := After(steps[..|steps| - 1]), steps[|steps| - 1];
      RunsKeepWindows(steps[..|steps| - 1]);
      forall i | 0 <= i < |After(steps)| ensures WindowInv(After(steps)[i]) {
        assert i < |rows| ==> rows[i] in rows;
      }
    }
  }

  /** Windows are never removed or moved, and an early end, once set, never changes. */
  lemma StepKeepsWindow(rows: seq<Window>, step: Step, i: nat)
    requires i < |rows| && WindowInv(rows[i])
    ensures i < |Apply(rows, step)|
    ensures var w, v := rows[i], Apply(rows, step)[i];
            v == w || (w.ended.None? && step.at < w.ends && v == w.(ended := Some(step.at)))
  {
  }

  lemma {:induction false} EndStays(steps: seq<Step>, n: nat, i: nat)
    requires n <= |steps| && i < |After(steps[..n])|
    ensures i < |After(steps)|
    ensures var w, v := After(steps[..n])[i], After(steps)[i];
            v == w.(ended := v.ended) && (w.ended.Some? ==> v.ended == w.ended)
    decreases |steps|
  {
    if n == |steps| {
      assert steps[..n] == steps;
    } else {
      var front := steps[..|steps| - 1];
      assert front[..n] == steps[..n];
      EndStays(front, n, i);
      RunsKeepWindows(front);
      assert After(front)[i] in After(front);
      StepKeepsWindow(After(front), steps[|steps| - 1], i);
    }
  }

  /** Ending marks the wanted windows that have not ended or passed, from now; the others stay as they are. */
  lemma EndsExactly(rows: seq<Window>, ids: set<nat>, current: int, i: nat)
    requires i < |rows| && WindowInv(rows[i])
    ensures |AfterEnd(rows, ids, current)| == |rows|
    ensures AfterEnd(rows, ids, current)[i] ==
            if i in ids && rows[i].ended.None? && current < rows[i].ends then rows[i].(ended := Some(current)) else rows[i]
  {
  }

  /** Ending what is already over changes nothing. */
  lemma EndingAgainChangesNothing(rows: seq<Window>, ids: set<nat>, first: int, again: int)
    requires first <= again
    ensures AfterEnd(AfterEnd(rows, ids, first), ids, again) == AfterEnd(rows, ids, first)
  {
  }

  /** By the time of the last step every early end has passed. */
  lemma {:induction false} EndsHavePassed(steps: seq<Step>, t: int)
    requires forall s <- steps :: s.at <= t
    ensures forall w <- After(steps) :: w.ended.Some? ==> w.ended.value <= t
  {
    if steps != [] {
      var front, last := steps[..|steps| - 1], steps[|steps| - 1];
      assert last in steps && forall s <- front :: s in steps;
      EndsHavePassed(front, t);
    }
  }

  lemma {:induction false} UpToIsPast(steps: seq<Step>, t: int)
    requires InOrder(steps)
    ensures InOrder(UpTo(steps, t)) && forall s <- UpTo(steps, t) :: s.at <= t
  {
    if steps != [] && steps[|steps| - 1].at > t { UpToIsPast(steps[..|steps| - 1], t); }
  }

  /**
   Whatever is planned and ended, in whatever order: at any moment from a window's planning
   on, the live board sees it then exactly when the report later counts that moment as in it.
   */
  lemma {:induction false} ReportSeesWhatTheBoardSaw(steps: seq<Step>, t: int, i: nat)
    requires InOrder(steps) && i < |After(UpTo(steps, t))|
    ensures i < |After(steps)|
    ensures InWindow(After(steps)[i], t) <==> IsActive(After(UpTo(steps, t))[i], t)
  {
    RunsKeepWindows(steps);
    if steps == [] || steps[|steps| - 1].at <= t {
      UpToIsPast(steps, t);
      EndsHavePassed(steps, t);
      assert After(steps)[i] in After(steps);
    } else {
      var front, last := steps[..|steps| - 1], steps[|steps| - 1];
      ReportSeesWhatTheBoardSaw(front, t, i);
      RunsKeepWindows(front);
      assert After(front)[i] in After(front);
      StepKeepsWindow(After(front), last, i);
    }
  }

  /** So a device is in maintenance on the board exactly when the report leaves that moment out. */
  lemma BoardAndReportAgree(steps: seq<Step>, t: int, site: string, device: string)
    requires InOrder(steps)
    ensures var seen := After(UpTo(steps, t));
            && |seen| <= |After(steps)|
            && (IsCovered(seen, site, device, t) <==>
                InMaintenance(After(steps)[..|seen|], site, device, t))
  {
    var seen, all := After(UpTo(steps, t)), After(steps);
    UpToIsPrefix(steps, t);
    if seen != [] { ReportSeesWhatTheBoardSaw(steps, t, |seen| - 1); }
    var early := all[..|seen|];
    forall i: nat | i < |seen|
      ensures Concerns(seen[i], site, device) == Concerns(early[i], site, device)
      ensures IsActive(seen[i], t) <==> InWindow(early[i], t)
    {
      ReportSeesWhatTheBoardSaw(steps, t, i);
      EndStays(steps, |UpTo(steps, t)|, i);
      assert steps[..|UpTo(steps, t)|] == UpTo(steps, t);
    }
    if w :| w in seen && Concerns(w, site, device) && IsActive(w, t) {
      var i :| 0 <= i < |seen| && seen[i] == w;
      assert early[i] in early && Concerns(early[i], site, device) && InWindow(early[i], t);
    }
    if InMaintenance(early, site, device, t) {
      var w :| w in early && Concerns(w, site, device) && InWindow(w, t);
      var i :| 0 <= i < |early| && early[i] == w;
      assert seen[i] in seen && Concerns(seen[i], site, device) && IsActive(seen[i], t);
    }
  }

  lemma {:induction false} UpToIsPrefix(steps: seq<Step>, t: int)
    ensures |UpTo(steps, t)| <= |steps| && steps[..|UpTo(steps, t)|] == UpTo(steps, t)
    ensures InOrder(steps) ==> forall i :: 0 <= i < |steps| ==> (steps[i].at <= t <==> i < |UpTo(steps, t)|)
  {
    if steps != [] && steps[|steps| - 1].at > t { UpToIsPrefix(steps[..|steps| - 1], t); }
  }

  /** A window is shown as active while the live read has it so, as upcoming before, and a cancelled one never ran. */
  lemma StateExactly(w: Window, at: int)
    ensures StateOf(w, at) == Active <==> IsActive(w, at)
    ensures StateOf(w, at) == Upcoming <==> w.ended.None? && at < w.starts
    ensures StateOf(w, at) == Cancelled <==> w.ended.Some? && w.ended.value < w.starts
    ensures StateOf(w, at) == Cancelled ==> forall t :: !InWindow(w, t)
  {
  }

  /** How long the history says a window ran is how much of it the report leaves out. */
  lemma HistoryIsWhatTheReportLeavesOut(w: Window, at: int)
    requires WindowInv(w)
    ensures RanFor(w, at) == |set t | w.starts <= t < at && InWindow(w, t)|
  {
    SpanSize(w.starts, w.starts + RanFor(w, at));
    assert (set t | w.starts <= t < at && InWindow(w, t)) == Span(w.starts, w.starts + RanFor(w, at));
  }

  // ---------------------------------------------------------------- until the next change

  lemma {:induction false} NextChangeMeaning(rows: seq<Window>, at: int)
    ensures var next := NextChange(rows, at);
            && (forall w <- rows | w.ended.None? ::
                  && (w.starts > at ==> next.Some? && next.value <= w.starts)
                  && (w.ends > at ==> next.Some? && next.value <= w.ends))
            && (next.Some? ==>
                  next.value > at
                  && exists w :: w in rows && w.ended.None? && (w.starts == next.value || w.ends == next.value))
  {
    if rows != [] {
      var front, w := rows[..|rows| - 1], rows[|rows| - 1];
      NextChangeMeaning(front, at);
      assert rows == front + [w];
    }
  }

  /**
   With nothing planned or ended meanwhile, the same windows are active until the next
   change, and exactly then that is no longer so.
   */
  lemma NothingChangesUntilNext(rows: seq<Window>, at: int, t: int)
    requires forall w <- rows :: WindowInv(w)
    requires t >= at
    ensures var next := NextChange(rows, at);
            && (next.None? || t < next.value ==> forall w <- rows :: IsActive(w, t) <==> IsActive(w, at))
            && (next == Some(t) ==> exists w :: w in rows && (IsActive(w, t) <==> !IsActive(w, t - 1)))
  {
    NextChangeMeaning(rows, at);
  }

  /** Python's int() of a time difference in seconds: it drops the fraction. */
  function WholeSeconds(micros: int): int {
    if micros >= 0 then micros / SECOND else -(-micros / SECOND)
  }

  /** How long a board built now may be stored; *default*: in seconds. */
  function CacheSeconds(nextChange: Option<int>, default: int, now: int): int {
    if nextChange.None? then default
    else
      var left := WholeSeconds(nextChange.value - now) + 1;
      var most := if left < default then left else default;
      if most > 1 then most else 1
  }

  /**
   A stored board outlives the next change by one second at most, is not thrown away
   before it without need, and never stays for good.
   */
  lemma CachedUntilNextChange(nextChange: Option<int>, default: int, now: int)
    requires default >= 1
    ensures var expires := now + CacheSeconds(nextChange, default, now) * SECOND;
            && now < expires <= now + default * SECOND
            && (nextChange.Some? && now <= nextChange.value ==>
                  && expires <= nextChange.value + SECOND
                  && (expires > nextChange.value || expires == now + default * SECOND))
            && (nextChange.Some? && now > nextChange.value ==> expires == now + SECOND)
  {
  }
}
