/**
 The report's downtime from the incident history and its per-incident export
 (nautobot_maps/availability.py): the two work out maintenance in a different
 order and must add up to each other.
 */
module Availability {
  import opened Numbers
  import opened Wrappers
  import opened Intervals

  /** A row of maintenance_windows: a whole site (no device), or one device. */
  datatype Window = Window(site: string, device: string, starts: int, ends: int, ended: Option<int>)

  /** A row of alert_instances; an open incident has no resolve time. */
  datatype Incident = Incident(site: string, device: string, accessPoint: bool, down: int, resolved: Option<int>)

  /** The period reported, and now: an incident still open is down until then. */
  datatype Period = Period(start: int, end: int, at: int)

  function Get(m: map<string, seq<Interval>>, key: string): seq<Interval> {
    if key in m then m[key] else []
  }

  // ----- what downtime means ----------------------------------------------

  function Stop(w: Window): int {
    if w.ended.Some? then Min(w.ends, w.ended.value) else w.ends
  }

  predicate InWindow(w: Window, t: int) {
    w.starts <= t < Stop(w)
  }

  predicate Concerns(w: Window, site: string, device: string) {
    if w.device != "" then w.device == device else w.site == site
  }

  ghost predicate InMaintenance(windows: seq<Window>, site: string, device: string, t: int) {
    exists w :: w in windows && Concerns(w, site, device) && InWindow(w, t)
  }

  predicate DownAt(i: Incident, at: int, t: int) {
    i.down <= t < i.resolved.GetOr(at)
  }

  ghost predicate CountsAt(i: Incident, windows: seq<Window>, at: int, t: int) {
    !i.accessPoint && DownAt(i, at, t) && !InMaintenance(windows, i.site, i.device, t)
  }

  /** The instants of the period the incident counts as downtime. */
  ghost function CountedSet(i: Incident, windows: seq<Window>, p: Period): set<int> {
    set t | p.start <= t < p.end && CountsAt(i, windows, p.at, t)
  }

  ghost predicate SiteDownAt(incidents: seq<Incident>, windows: seq<Window>, site: string, at: int, t: int) {
    exists i :: i in incidents && i.site == site && CountsAt(i, windows, at, t)
  }

  /** The instants of the period at which the site was down outside maintenance. */
  ghost function DowntimeSet(incidents: seq<Incident>, windows: seq<Window>, site: string, p: Period): set<int> {
    set t | p.start <= t < p.end && SiteDownAt(incidents, windows, site, p.at, t)
  }

  // ----- read_maintenance -------------------------------------------------

  predicate WindowSelected(w: Window, p: Period) {
    w.starts < p.end && w.ends > p.start && (w.ended.None? || w.ended.value > w.starts)
  }

  function WindowSpan(w: Window, p: Period): seq<Interval> {
    if WindowSelected(w, p) && Stop(w) > w.starts then [Interval(w.starts, Stop(w))] else []
  }

  function SiteShare(w: Window, site: string, p: Period): seq<Interval> {
    if w.device == "" && w.site == site then WindowSpan(w, p) else []
  }

  function DeviceShare(w: Window, device: string, p: Period): seq<Interval> {
    if w.device != "" && w.device == device then WindowSpan(w, p) else []
  }

  function SiteWindows(rows: seq<Window>, site: string, p: Period): seq<Interval> {
    if rows == [] then [] else SiteWindows(rows[..|rows| - 1], site, p) + SiteShare(rows[|rows| - 1], site, p)
  }

  function DeviceWindows(rows: seq<Window>, device: string, p: Period): seq<Interval> {
    if rows == [] then [] else DeviceWindows(rows[..|rows| - 1], device, p) + DeviceShare(rows[|rows| - 1], device, p)
  }

  method ReadWindow(row: Window, p: Period, sites: map<string, seq<Interval>>, devices: map<string, seq<Interval>>)
    returns (sites': map<string, seq<Interval>>, devices': map<string, seq<Interval>>)
    ensures forall s :: Get(sites', s) == Get(sites, s) + SiteShare(row, s, p)
    ensures forall d :: Get(devices', d) == Get(devices, d) + DeviceShare(row, d, p)
  {
    sites', devices' := sites, devices;
    if !WindowSelected(row, p) { return; }
    var stop := row.ends;
    if row.ended.Some? { stop := Min(stop, row.ended.value); }
    if stop <= row.starts { return; }
    var span := [Interval(row.starts, stop)];
    if row.device != "" {
      devices' := devices[row.device := Get(devices, row.device) + span];
    } else {
      sites' := sites[row.site := Get(sites, row.site) + span];
    }
  }

  method ReadMaintenance(rows: seq<Window>, p: Period)
    returns (sites: map<string, seq<Interval>>, devices: map<string, seq<Interval>>)
    ensures forall s :: Get(sites, s) == SiteWindows(rows, s, p)
    ensures forall d :: Get(devices, d) == DeviceWindows(rows, d, p)
  {
    sites, devices := map[], map[];
    for k := 0 to |rows|
      invariant forall s :: Get(sites, s) == SiteWindows(rows[..k], s, p)
      invariant forall d :: Get(devices, d) == DeviceWindows(rows[..k], d, p)
    {
      assert rows[..k + 1][..k] == rows[..k];
      sites, devices := ReadWindow(rows[k], p, sites, devices);
    }
    assert rows[..|rows|] == rows;
  }

  lemma WindowSpanMeaning(w: Window, p: Period, t: int)
    requires p.start <= t < p.end
    ensures t in Points(WindowSpan(w, p)) <==> InWindow(w, t)
  {
    if WindowSpan(w, p) != [] { PointsOne(WindowSpan(w, p)[0]); }
  }

  lemma {:induction false} SiteWindowsMeaning(rows: seq<Window>, site: string, p: Period, t: int)
    requires p.start <= t < p.end
    ensures t in Points(SiteWindows(rows, site, p)) <==>
            exists w :: w in rows && w.device == "" && w.site == site && InWindow(w, t)
  {
    if rows != [] {
      var front, w := rows[..|rows| - 1], rows[|rows| - 1];
      assert rows == front + [w];
      SiteWindowsMeaning(front, site, p, t);
      WindowSpanMeaning(w, p, t);
      PointsConcat(SiteWindows(front, site, p), SiteShare(w, site, p));
    }
  }

  lemma {:induction false} DeviceWindowsMeaning(rows: seq<Window>, device: string, p: Period, t: int)
    requires p.start <= t < p.end
    ensures t in Points(DeviceWindows(rows, device, p)) <==>
            exists w :: w in rows && w.device != "" && w.device == device && InWindow(w, t)
  {
    if rows != [] {
      var front, w := rows[..|rows| - 1], rows[|rows| - 1];
      assert rows == front + [w];
      DeviceWindowsMeaning(front, device, p, t);
      WindowSpanMeaning(w, p, t);
      PointsConcat(DeviceWindows(front, device, p), DeviceShare(w, device, p));
    }
  }

  lemma WindowsMeaning(windows: seq<Window>, site: string, device: string, p: Period, t: int)
    requires p.start <= t < p.end
    ensures InMaintenance(windows, site, device, t) <==>
            t in Points(DeviceWindows(windows, device, p)) || t in Points(SiteWindows(windows, site, p))
  {
    SiteWindowsMeaning(windows, site, p, t);
    DeviceWindowsMeaning(windows, device, p, t);
  }

  // ----- read_incidents ---------------------------------------------------

  predicate IncidentSelected(i: Incident, p: Period) {
    (i.resolved.None? || i.resolved.value > p.start) && i.down < p.end && !i.accessPoint
  }

  function DownSpan(i: Incident, at: int): Option<Interval> {
    var up := i.resolved.GetOr(at);
    if up <= i.down then None else Some(Interval(i.down, up))
  }

  /** The down time the report reads of one incident row. */
  function IncidentSpan(i: Incident, p: Period): seq<Interval> {
    if IncidentSelected(i, p) && DownSpan(i, p.at).Some? then [DownSpan(i, p.at).value] else []
  }

  function DeviceSpan(i: Incident, site: string, device: string, p: Period): seq<Interval> {
    if i.site == site && i.device == device then IncidentSpan(i, p) else []
  }

  function DeviceSpans(rows: seq<Incident>, site: string, device: string, p: Period): seq<Interval> {
    if rows == [] then []
    else DeviceSpans(rows[..|rows| - 1], site, device, p) + DeviceSpan(rows[|rows| - 1], site, device, p)
  }

  function OneIncident(i: Incident, site: string, p: Period): nat {
    if i.site == site then |IncidentSpan(i, p)| else 0
  }

  function IncidentCount(rows: seq<Incident>, site: string, p: Period): nat {
    if rows == [] then 0 else IncidentCount(rows[..|rows| - 1], site, p) + OneIncident(rows[|rows| - 1], site, p)
  }

  datatype SiteIncidents = SiteIncidents(incidents: nat, devices: map<string, seq<Interval>>)

  function SiteOf(sites: map<string, SiteIncidents>, site: string): SiteIncidents {
    if site in sites then sites[site] else SiteIncidents(0, map[])
  }

  method ReadIncident(row: Incident, p: Period, sites: map<string, SiteIncidents>)
    returns (sites': map<string, SiteIncidents>)
    ensures forall s, d ::
              Get(SiteOf(sites', s).devices, d) == Get(SiteOf(sites, s).devices, d) + DeviceSpan(row, s, d, p)
    ensures forall s :: SiteOf(sites', s).incidents == SiteOf(sites, s).incidents + OneIncident(row, s, p)
  {
    sites' := sites;
    if !IncidentSelected(row, p) { return; }
    var span := DownSpan(row, p.at);
    if span.None? { return; }
    var site := SiteOf(sites, row.site);
    var spans := Get(site.devices, row.device) + [span.value];
    sites' := sites[row.site := SiteIncidents(site.incidents + 1, site.devices[row.device := spans])];
  }

  method ReadIncidents(rows: seq<Incident>, p: Period) returns (sites: map<string, SiteIncidents>)
    ensures forall s, d :: Get(SiteOf(sites, s).devices, d) == DeviceSpans(rows, s, d, p)
    ensures forall s :: SiteOf(sites, s).incidents == IncidentCount(rows, s, p)
  {
    sites := map[];
    for k := 0 to |rows|
      invariant forall s, d :: Get(SiteOf(sites, s).devices, d) == DeviceSpans(rows[..k], s, d, p)
      invariant forall s :: SiteOf(sites, s).incidents == IncidentCount(rows[..k], s, p)
    {
      assert rows[..k + 1][..k] == rows[..k];
      sites := ReadIncident(rows[k], p, sites);
    }
    assert rows[..|rows|] == rows;
  }

  lemma IncidentSpanMeaning(i: Incident, p: Period, t: int)
    requires p.start <= t < p.end
    ensures t in Points(IncidentSpan(i, p)) <==> !i.accessPoint && DownAt(i, p.at, t)
  {
    if IncidentSpan(i, p) != [] { PointsOne(IncidentSpan(i, p)[0]); }
  }

  lemma {:induction false} DeviceSpansMeaning(rows: seq<Incident>, site: string, device: string, p: Period, t: int)
    requires p.start <= t < p.end
    ensures t in Points(DeviceSpans(rows, site, device, p)) <==>
            exists i :: i in rows && i.site == site && i.device == device && !i.accessPoint && DownAt(i, p.at, t)
  {
    if rows != [] {
      var front, i := rows[..|rows| - 1], rows[|rows| - 1];
      assert rows == front + [i];
      DeviceSpansMeaning(front, site, device, p, t);
      IncidentSpanMeaning(i, p, t);
      PointsConcat(DeviceSpans(front, site, device, p), DeviceSpan(i, site, device, p));
    }
  }

  /** A device incident of the period: began before its end, not over by its start, and down for a while. */
  predicate IsReported(i: Incident, p: Period) {
    && !i.accessPoint && i.down < p.end
    && (if i.resolved.Some? then i.resolved.value > p.start && i.resolved.value > i.down else p.at > i.down)
  }

  lemma ReportedExactly(i: Incident, p: Period)
    ensures IncidentSpan(i, p) != [] <==> IsReported(i, p)
  {
  }

  function ReportedOf(rows: seq<Incident>, site: string, p: Period): set<nat> {
    set k: nat | k < |rows| && rows[k].site == site && IsReported(rows[k], p)
  }

  lemma ReportedOneMore(front: seq<Incident>, i: Incident, site: string, p: Period)
    ensures |ReportedOf(front + [i], site, p)| ==
            |ReportedOf(front, site, p)| + if i.site == site && IsReported(i, p) then 1 else 0
  {
    assert ReportedOf(front + [i], site, p) ==
           if i.site == site && IsReported(i, p) then ReportedOf(front, site, p) + {|front|} else ReportedOf(front, site, p);
  }

  /** The incidents counted for a site are its incidents of the period. */
  lemma {:induction false} CountsReported(rows: seq<Incident>, site: string, p: Period)
    ensures IncidentCount(rows, site, p) == |ReportedOf(rows, site, p)|
  {
    if rows != [] {
      var front, i := rows[..|rows| - 1], rows[|rows| - 1];
      CountsReported(front, site, p);
      ReportedOneMore(front, i, site, p);
      ReportedExactly(i, p);
      assert rows == front + [i];
    }
  }

  // ----- the report's any_down figure -------------------------------------

  ghost predicate DeviceDown(devices: map<string, seq<Interval>>, deviceWindows: map<string, seq<Interval>>, t: int) {
    exists d :: d in devices && t in Points(devices[d]) && t !in Points(Get(deviceWindows, d))
  }

  ghost predicate IsDevicesDown(down: seq<Interval>, devices: map<string, seq<Interval>>,
                                deviceWindows: map<string, seq<Interval>>) {
    forall t :: t in Points(down) <==> DeviceDown(devices, deviceWindows, t)
  }

  lemma AddDevice(down: seq<Interval>, kept: seq<Interval>, devices: map<string, seq<Interval>>, d: string,
                  spans: seq<Interval>, deviceWindows: map<string, seq<Interval>>)
    requires IsDevicesDown(down, devices, deviceWindows) && d !in devices
    requires Points(kept) == Points(spans) - Points(Get(deviceWindows, d))
    ensures IsDevicesDown(down + kept, devices[d := spans], deviceWindows)
  {
    PointsConcat(down, kept);
    forall t ensures t in Points(down + kept) <==> DeviceDown(devices[d := spans], deviceWindows, t) {
      OneMoreDevice(devices, d, spans, deviceWindows, t);
    }
  }

  method DevicesDowntime(devices: map<string, seq<Interval>>, deviceWindows: map<string, seq<Interval>>)
    returns (down: seq<Interval>)
    ensures IsDevicesDown(down, devices, deviceWindows)
  {
    down := [];
    var todo := devices.Keys;
    ghost var done: map<string, seq<Interval>> := map[];
    while todo != {}
      invariant todo <= devices.Keys && done.Keys == devices.Keys - todo
      invariant forall d :: d in done ==> done[d] == devices[d]
      invariant IsDevicesDown(down, done, deviceWindows)
      decreases |todo|
    {
      var d :| d in todo;
      var kept := DeviceDowntime(devices[d], Get(deviceWindows, d));
      AddDevice(down, kept, done, d, devices[d], deviceWindows);
      down, done, todo := down + kept, done[d := devices[d]], todo - {d};
    }
    assert done == devices;
  }

  method DeviceDowntime(spans: seq<Interval>, windows: seq<Interval>) returns (kept: seq<Interval>)
    ensures Points(kept) == Points(spans) - Points(windows)
  {
    kept := ComputeSubtract(spans, windows);
  }

  /** Each device without its windows, all of them clipped, then without the site's windows. */
  method SiteDowntime(devices: map<string, seq<Interval>>, deviceWindows: map<string, seq<Interval>>,
                      siteWindows: seq<Interval>, p: Period)
    returns (down: seq<Interval>)
    ensures Canonical(down)
    ensures forall t :: t in Points(down) <==>
              p.start <= t < p.end && DeviceDown(devices, deviceWindows, t) && t !in Points(siteWindows)
  {
    down := DevicesDowntime(devices, deviceWindows);
    ClipMeaning(down, p.start, p.end);
    down := ComputeSubtract(Clip(down, p.start, p.end), siteWindows);
  }

  lemma OneMoreDevice(devices: map<string, seq<Interval>>, d: string, spans: seq<Interval>,
                      deviceWindows: map<string, seq<Interval>>, t: int)
    requires d !in devices
    ensures DeviceDown(devices[d := spans], deviceWindows, t) <==>
            DeviceDown(devices, deviceWindows, t) || (t in Points(spans) && t !in Points(Get(deviceWindows, d)))
  {
    var more := devices[d := spans];
    if DeviceDown(devices, deviceWindows, t) {
      var e :| e in devices && t in Points(devices[e]) && t !in Points(Get(deviceWindows, e));
      assert e in more && more[e] == devices[e];
    }
    assert d in more;
  }

  lemma ReportMeaning(incidents: seq<Incident>, windows: seq<Window>, site: string, p: Period,
                      devices: map<string, seq<Interval>>, deviceWindows: map<string, seq<Interval>>, t: int)
    requires p.start <= t < p.end
    requires forall d :: Get(devices, d) == DeviceSpans(incidents, site, d, p)
    requires forall d :: Get(deviceWindows, d) == DeviceWindows(windows, d, p)
    ensures DeviceDown(devices, deviceWindows, t) && t !in Points(SiteWindows(windows, site, p)) <==>
            SiteDownAt(incidents, windows, site, p.at, t)
  {
    if SiteDownAt(incidents, windows, site, p.at, t) {
      var i :| i in incidents && i.site == site && CountsAt(i, windows, p.at, t);
      DeviceSpansMeaning(incidents, site, i.device, p, t);
      WindowsMeaning(windows, site, i.device, p, t);
      assert t in Points(Get(devices, i.device));
      assert i.device in devices;
    }
    if DeviceDown(devices, deviceWindows, t) && t !in Points(SiteWindows(windows, site, p)) {
      var d :| d in devices && t in Points(devices[d]) && t !in Points(Get(deviceWindows, d));
      assert devices[d] == Get(devices, d);
      DeviceSpansMeaning(incidents, site, d, p, t);
      WindowsMeaning(windows, site, d, p, t);
    }
  }

  /** A site's downtime in the report is exactly the time it was down outside maintenance. */
  method AnyDown(incidents: seq<Incident>, windows: seq<Window>, site: string, p: Period)
    returns (down: seq<Interval>, count: nat)
    ensures Canonical(down) && Points(down) == DowntimeSet(incidents, windows, site, p)
    ensures count == IncidentCount(incidents, site, p)
  {
    var siteWindows, deviceWindows := ReadMaintenance(windows, p);
    var sites := ReadIncidents(incidents, p);
    var data := SiteOf(sites, site);
    count := data.incidents;
    down := SiteDowntime(data.devices, deviceWindows, Get(siteWindows, site), p);
    forall t ensures t in Points(down) <==> t in DowntimeSet(incidents, windows, site, p) {
      if p.start <= t < p.end {
        ReportMeaning(incidents, windows, site, p, data.devices, deviceWindows, t);
      }
    }
  }

  // ----- the incidents export ---------------------------------------------

  datatype Coverage = NoMaintenance | Partly | Full

  datatype ExportRow = ExportRow(site: string, device: string, total: int, kept: int, maintenance: Coverage)

  /** The incident's time in the period without the windows of its device and site together. */
  function CountedTime(i: Incident, windows: seq<Window>, p: Period): seq<Interval> {
    Subtract(Clip(IncidentSpan(i, p), p.start, p.end), Holes(windows, i.site, i.device, p))
  }

  function RowOf(i: Incident, windows: seq<Window>, p: Period): ExportRow {
    var total := Seconds(Clip(IncidentSpan(i, p), p.start, p.end));
    var kept := Seconds(CountedTime(i, windows, p));
    ExportRow(i.site, i.device, total, kept,
              if kept == total then NoMaintenance else if kept == 0 then Full else Partly)
  }

  function RowsOf(i: Incident, windows: seq<Window>, p: Period): seq<ExportRow> {
    if IncidentSpan(i, p) != [] then [RowOf(i, windows, p)] else []
  }

  function ExportRows(rows: seq<Incident>, windows: seq<Window>, p: Period): seq<ExportRow> {
    if rows == [] then [] else ExportRows(rows[..|rows| - 1], windows, p) + RowsOf(rows[|rows| - 1], windows, p)
  }

  function Holes(windows: seq<Window>, site: string, device: string, p: Period): seq<Interval> {
    Union(DeviceWindows(windows, device, p) + SiteWindows(windows, site, p))
  }

  ghost predicate HolesKept(holes: map<(string, string), seq<Interval>>, windows: seq<Window>, p: Period) {
    forall key :: key in holes ==> holes[key] == Holes(windows, key.0, key.1, p)
  }

  method ExportRowOf(row: Incident, span: Interval, ghost windows: seq<Window>, p: Period, holes: seq<Interval>)
    returns (out: ExportRow)
    requires IncidentSpan(row, p) == [span] && holes == Holes(windows, row.site, row.device, p)
    ensures out == RowOf(row, windows, p)
  {
    var inPeriod := Clip([span], p.start, p.end);
    var counted := ComputeSubtract(inPeriod, holes);
    var total, kept := Seconds(inPeriod), Seconds(counted);
    out := ExportRow(row.site, row.device, total, kept,
                     if kept == total then NoMaintenance else if kept == 0 then Full else Partly);
  }

  method HolesOf(row: Incident, ghost windows: seq<Window>, ghost p: Period,
                 siteWindows: map<string, seq<Interval>>, deviceWindows: map<string, seq<Interval>>,
                 holes: map<(string, string), seq<Interval>>)
    returns (holes': map<(string, string), seq<Interval>>)
    requires Get(siteWindows, row.site) == SiteWindows(windows, row.site, p)
    requires Get(deviceWindows, row.device) == DeviceWindows(windows, row.device, p)
    requires HolesKept(holes, windows, p)
    ensures HolesKept(holes', windows, p) && (row.site, row.device) in holes'
  {
    holes' := holes;
    var key := (row.site, row.device);
    if key !in holes {
      var merged := ComputeUnion(Get(deviceWindows, row.device) + Get(siteWindows, row.site));
      holes' := holes[key := merged];
    }
  }

  method StreamIncident(row: Incident, ghost windows: seq<Window>, p: Period,
                        siteWindows: map<string, seq<Interval>>, deviceWindows: map<string, seq<Interval>>,
                        holes: map<(string, string), seq<Interval>>)
    returns (out: seq<ExportRow>, holes': map<(string, string), seq<Interval>>)
    requires Get(siteWindows, row.site) == SiteWindows(windows, row.site, p)
    requires Get(deviceWindows, row.device) == DeviceWindows(windows, row.device, p)
    requires HolesKept(holes, windows, p)
    ensures out == RowsOf(row, windows, p) && HolesKept(holes', windows, p)
  {
    out, holes' := [], holes;
    if !IncidentSelected(row, p) { return; }
    var span := DownSpan(row, p.at);
    if span.None? { return; }
    holes' := HolesOf(row, windows, p, siteWindows, deviceWindows, holes);
    var exported := ExportRowOf(row, span.value, windows, p, holes'[(row.site, row.device)]);
    out := [exported];
  }

  /** The export streams *rows*, oldest first, merging each device's windows once. */
  method IncidentStream(rows: seq<Incident>, ghost windows: seq<Window>, p: Period,
                        siteWindows: map<string, seq<Interval>>, deviceWindows: map<string, seq<Interval>>)
    returns (out: seq<ExportRow>)
    requires forall s :: Get(siteWindows, s) == SiteWindows(windows, s, p)
    requires forall d :: Get(deviceWindows, d) == DeviceWindows(windows, d, p)
    ensures out == ExportRows(rows, windows, p)
  {
    out := [];
    var holes: map<(string, string), seq<Interval>> := map[];
    for k := 0 to |rows|
      invariant out == ExportRows(rows[..k], windows, p) && HolesKept(holes, windows, p)
    {
      assert rows[..k + 1][..k] == rows[..k];
      var more;
      more, holes := StreamIncident(rows[k], windows, p, siteWindows, deviceWindows, holes);
      out := out + more;
    }
    assert rows[..|rows|] == rows;
  }

  lemma HolesMeaning(windows: seq<Window>, site: string, device: string, p: Period, t: int)
    requires p.start <= t < p.end
    ensures t in Points(Holes(windows, site, device, p)) <==> InMaintenance(windows, site, device, t)
  {
    UnionMeaning(DeviceWindows(windows, device, p) + SiteWindows(windows, site, p));
    PointsConcat(DeviceWindows(windows, device, p), SiteWindows(windows, site, p));
    WindowsMeaning(windows, site, device, p, t);
  }

  lemma CountedTimeSets(i: Incident, windows: seq<Window>, p: Period)
    ensures Points(CountedTime(i, windows, p)) ==
            Points(IncidentSpan(i, p)) * Span(p.start, p.end) - Points(Holes(windows, i.site, i.device, p))
  {
    var spans, holes := IncidentSpan(i, p), Holes(windows, i.site, i.device, p);
    ClipMeaning(spans, p.start, p.end);
    SubtractMeaning(Clip(spans, p.start, p.end), holes);
  }

  /** The time an exported incident counts is its down time in the period outside maintenance. */
  lemma CountedTimeMeaning(i: Incident, windows: seq<Window>, p: Period)
    ensures Points(CountedTime(i, windows, p)) == CountedSet(i, windows, p)
  {
    CountedTimeSets(i, windows, p);
    forall t ensures t in Points(CountedTime(i, windows, p)) <==> t in CountedSet(i, windows, p) {
      if p.start <= t < p.end {
        IncidentSpanMeaning(i, p, t);
        HolesMeaning(windows, i.site, i.device, p, t);
      }
    }
  }

  /** The instants of the period at which the incident's device was down. */
  ghost function DownSet(i: Incident, p: Period): set<int> {
    set t | p.start <= t < p.end && DownAt(i, p.at, t)
  }

  lemma DownSetMeaning(i: Incident, p: Period)
    ensures Points(Clip(IncidentSpan(i, p), p.start, p.end)) == if i.accessPoint then {} else DownSet(i, p)
  {
    var shown := Points(Clip(IncidentSpan(i, p), p.start, p.end));
    ClipMeaning(IncidentSpan(i, p), p.start, p.end);
    forall t ensures t in shown <==> !i.accessPoint && t in DownSet(i, p) {
      if p.start <= t < p.end { IncidentSpanMeaning(i, p, t); }
    }
  }

  /**
   The row of an incident of the period has the seconds its device was down in the period and
   those that count, and says whether maintenance covered none, all or a part of what it shows.
   */
  lemma RowMeaning(i: Incident, windows: seq<Window>, p: Period)
    requires IsReported(i, p)
    ensures var row := RowOf(i, windows, p);
            && row.site == i.site && row.device == i.device
            && row.total == |DownSet(i, p)| / MICROS_PER_SECOND
            && row.kept == |CountedSet(i, windows, p)| / MICROS_PER_SECOND
            && (row.maintenance == NoMaintenance <==> row.kept == row.total)
            && (row.maintenance == Full <==> row.kept == 0 && row.total != 0)
  {
    CountedTimeMeaning(i, windows, p);
    SecondsCountInstants(CountedTime(i, windows, p));
    DownSetMeaning(i, p);
    SecondsCountInstants(Clip(IncidentSpan(i, p), p.start, p.end));
  }

  /** The export has a row for each incident of the period, in order, and no others. */
  lemma ExportOneMore(front: seq<Incident>, i: Incident, windows: seq<Window>, p: Period)
    ensures ExportRows(front + [i], windows, p) ==
            if IsReported(i, p) then ExportRows(front, windows, p) + [RowOf(i, windows, p)]
            else ExportRows(front, windows, p)
  {
    assert (front + [i])[..|front|] == front;
    ReportedExactly(i, p);
  }

  // ----- they add up ------------------------------------------------------

  /** The counted instants of each of the site's exported incidents. */
  ghost function CountedSets(rows: seq<Incident>, windows: seq<Window>, site: string, p: Period): seq<set<int>> {
    if rows == [] then []
    else CountedSets(rows[..|rows| - 1], windows, site, p) + OwnSets(rows[|rows| - 1], windows, site, p)
  }

  ghost function All(sets: seq<set<int>>): set<int> {
    if sets == [] then {} else All(sets[..|sets| - 1]) + sets[|sets| - 1]
  }

  ghost function SumSizes(sets: seq<set<int>>): nat {
    if sets == [] then 0 else SumSizes(sets[..|sets| - 1]) + |sets[|sets| - 1]|
  }

  /** What the export shows: each incident's time cut to whole seconds. */
  ghost function SumSeconds(sets: seq<set<int>>): nat {
    if sets == [] then 0 else SumSeconds(sets[..|sets| - 1]) + |sets[|sets| - 1]| / MICROS_PER_SECOND
  }

  ghost predicate Overlapping(sets: seq<set<int>>) {
    exists j, k :: 0 <= j < k < |sets| && sets[j] * sets[k] != {}
  }

  ghost function OwnSets(i: Incident, windows: seq<Window>, site: string, p: Period): seq<set<int>> {
    if i.site == site && IncidentSpan(i, p) != [] then [CountedSet(i, windows, p)] else []
  }

  lemma OwnSetsMeaning(i: Incident, windows: seq<Window>, site: string, p: Period)
    ensures All(OwnSets(i, windows, site, p)) == if i.site == site then CountedSet(i, windows, p) else {}
  {
    if OwnSets(i, windows, site, p) == [] {
      forall t | p.start <= t < p.end && i.site == site ensures !CountsAt(i, windows, p.at, t) {
        IncidentSpanMeaning(i, p, t);
      }
    } else {
      AllConcat([], [CountedSet(i, windows, p)]);
    }
  }

  lemma DowntimeOfOneMore(front: seq<Incident>, i: Incident, windows: seq<Window>, site: string, p: Period)
    ensures DowntimeSet(front + [i], windows, site, p) ==
            DowntimeSet(front, windows, site, p) + if i.site == site then CountedSet(i, windows, p) else {}
  {
    assert forall j :: j in front + [i] <==> j in front || j == i;
  }

  lemma {:induction false} CountedSetsCover(rows: seq<Incident>, windows: seq<Window>, site: string, p: Period)
    ensures All(CountedSets(rows, windows, site, p)) == DowntimeSet(rows, windows, site, p)
  {
    if rows != [] {
      var front, i := rows[..|rows| - 1], rows[|rows| - 1];
      assert rows == front + [i];
      CountedSetsCover(front, windows, site, p);
      AllConcat(CountedSets(front, windows, site, p), OwnSets(i, windows, site, p));
      OwnSetsMeaning(i, windows, site, p);
      DowntimeOfOneMore(front, i, windows, site, p);
    }
  }

  lemma AllConcat(a: seq<set<int>>, b: seq<set<int>>)
    requires |b| <= 1
    ensures All(a + b) == All(a) + All(b)
  {
    if b == [] {
      assert a + b == a;
    } else {
      assert (a + b)[..|a|] == a && b[..0] == [];
    }
  }

  lemma {:induction false} InAll(sets: seq<set<int>>, t: int)
    ensures t in All(sets) <==> exists k :: 0 <= k < |sets| && t in sets[k]
  {
    if sets != [] {
      var front := sets[..|sets| - 1];
      InAll(front, t);
      if t in All(front) {
        var k :| 0 <= k < |front| && t in front[k];
        assert sets[k] == front[k];
      }
    }
  }

  lemma UnionOfTwo(a: set<int>, b: set<int>)
    ensures |a + b| <= |a| + |b|
    ensures |a + b| == |a| + |b| <==> a * b == {}
  {
    assert |a + b| == |a| + |b| - |a * b|;
  }

  lemma Member<T>(s: set<T>) returns (t: T)
    requires s != {}
    ensures t in s
  {
    t :| t in s;
  }

  lemma MeetsLast(sets: seq<set<int>>, last: set<int>)
    ensures All(sets) * last == {} <==> forall j :: 0 <= j < |sets| ==> sets[j] * last == {}
  {
    forall t ensures t in All(sets) <==> exists k :: 0 <= k < |sets| && t in sets[k] { InAll(sets, t); }
    if All(sets) * last == {} {
      forall j | 0 <= j < |sets| ensures sets[j] * last == {} {
        assert forall t :: t in sets[j] ==> t in All(sets);
        assert forall t :: t in sets[j] * last ==> t in All(sets) * last;
      }
    } else {
      var t := Member(All(sets) * last);
      var k :| 0 <= k < |sets| && t in sets[k];
      assert t in sets[k] * last;
    }
  }

  /** The size of a union against the sum of the sizes: equal exactly without overlap. */
  lemma {:induction false} UnionSize(sets: seq<set<int>>)
    ensures |All(sets)| <= SumSizes(sets)
    ensures |All(sets)| == SumSizes(sets) <==> !Overlapping(sets)
  {
    if sets != [] {
      var front, last := sets[..|sets| - 1], sets[|sets| - 1];
      UnionSize(front);
      UnionOfTwo(All(front), last);
      MeetsLast(front, last);
      OverlapGrows(sets);
    }
  }

  lemma OverlapGrows(sets: seq<set<int>>)
    requires sets != []
    ensures Overlapping(sets) <==> Overlapping(sets[..|sets| - 1]) ||
                                   exists j :: 0 <= j < |sets| - 1 && sets[j] * sets[|sets| - 1] != {}
  {
    var front := sets[..|sets| - 1];
    if Overlapping(front) {
      var j, k :| 0 <= j < k < |front| && front[j] * front[k] != {};
      assert sets[j] * sets[k] != {};
    }
    if Overlapping(sets) {
      var j, k :| 0 <= j < k < |sets| && sets[j] * sets[k] != {};
      if k < |front| { assert front[j] * front[k] != {}; }
    }
  }

  ghost function SumRests(sets: seq<set<int>>): nat {
    if sets == [] then 0 else SumRests(sets[..|sets| - 1]) + |sets[|sets| - 1]| % MICROS_PER_SECOND
  }

  lemma {:induction false} SizesFromSeconds(sets: seq<set<int>>)
    ensures SumSizes(sets) == MICROS_PER_SECOND * SumSeconds(sets) + SumRests(sets)
    ensures SumRests(sets) <= (MICROS_PER_SECOND - 1) * |sets|
  {
    if sets != [] { SizesFromSeconds(sets[..|sets| - 1]); }
  }

  /**
   The export adds up to the report.  The union of the incidents' counted time is the
   site's downtime; so the downtime is at most their sum, and equal to it exactly when
   no two of the site's incidents count the same instant.
   */
  lemma ExportAddsUp(incidents: seq<Incident>, windows: seq<Window>, site: string, p: Period)
    ensures All(CountedSets(incidents, windows, site, p)) == DowntimeSet(incidents, windows, site, p)
    ensures |DowntimeSet(incidents, windows, site, p)| <= SumSizes(CountedSets(incidents, windows, site, p))
    ensures |DowntimeSet(incidents, windows, site, p)| == SumSizes(CountedSets(incidents, windows, site, p)) <==>
            !Overlapping(CountedSets(incidents, windows, site, p))
  {
    CountedSetsCover(incidents, windows, site, p);
    UnionSize(CountedSets(incidents, windows, site, p));
  }

  /** What the export shows for the site: the counted seconds of its rows, added. */
  function SumKept(out: seq<ExportRow>, site: string): int {
    if out == [] then 0
    else SumKept(out[..|out| - 1], site) + if out[|out| - 1].site == site then out[|out| - 1].kept else 0
  }

  lemma SumKeptOfRow(out: seq<ExportRow>, i: Incident, windows: seq<Window>, site: string, p: Period)
    ensures SumKept(out + RowsOf(i, windows, p), site) ==
            SumKept(out, site) + SumSeconds(OwnSets(i, windows, site, p))
    ensures |OwnSets(i, windows, site, p)| == OneIncident(i, site, p)
  {
    if IncidentSpan(i, p) == [] {
      assert out + RowsOf(i, windows, p) == out;
    } else {
      assert (out + [RowOf(i, windows, p)])[..|out|] == out;
      SecondsCountInstants(CountedTime(i, windows, p));
      CountedTimeMeaning(i, windows, p);
      assert [CountedSet(i, windows, p)][..0] == [];
    }
  }

  lemma SumSecondsConcat(a: seq<set<int>>, b: seq<set<int>>)
    requires |b| <= 1
    ensures SumSeconds(a + b) == SumSeconds(a) + SumSeconds(b)
  {
    if b == [] {
      assert a + b == a;
    } else {
      assert (a + b)[..|a|] == a && b[..0] == [];
    }
  }

  lemma {:induction false} ExportShows(rows: seq<Incident>, windows: seq<Window>, site: string, p: Period)
    ensures SumKept(ExportRows(rows, windows, p), site) == SumSeconds(CountedSets(rows, windows, site, p))
    ensures |CountedSets(rows, windows, site, p)| == IncidentCount(rows, site, p)
  {
    if rows != [] {
      var front, i := rows[..|rows| - 1], rows[|rows| - 1];
      ExportShows(front, windows, site, p);
      SumKeptOfRow(ExportRows(front, windows, p), i, windows, site, p);
      SumSecondsConcat(CountedSets(front, windows, site, p), OwnSets(i, windows, site, p));
    }
  }

  /**
   In the whole seconds shown, each figure is cut on its own.  Without overlap the two
   agree exactly when the parts cut off come to less than one second together; in any
   case the report exceeds the export's sum by less than a second an incident.
   */
  lemma ShownSecondsAddUp(incidents: seq<Incident>, windows: seq<Window>, site: string, p: Period)
    ensures var sets := CountedSets(incidents, windows, site, p);
            var shown := |DowntimeSet(incidents, windows, site, p)| / MICROS_PER_SECOND;
            var exported := SumKept(ExportRows(incidents, windows, p), site);
            && (!Overlapping(sets) ==> (shown == exported <==> SumRests(sets) < MICROS_PER_SECOND))
            && (SumRests(sets) < MICROS_PER_SECOND ==> shown <= exported)
            && shown <= exported + IncidentCount(incidents, site, p)
  {
    ExportAddsUp(incidents, windows, site, p);
    ExportShows(incidents, windows, site, p);
    SizesFromSeconds(CountedSets(incidents, windows, site, p));
  }

  lemma TwoSets(a: set<int>, b: set<int>)
    ensures SumSeconds([a, b]) == |a| / MICROS_PER_SECOND + |b| / MICROS_PER_SECOND
    ensures All([a, b]) == a + b
  {
    assert [a, b][..1] == [a] && [a][..0] == [];
    assert SumSeconds([a]) == |a| / MICROS_PER_SECOND && All([a]) == a;
  }

  const HALF_A := Incident("s", "a", false, 0, Some(500_000))
  const HALF_B := Incident("s", "b", false, 500_000, Some(1_000_000))
  const TWO_SECONDS := Period(0, 2_000_000, 2_000_000)

  lemma HalfSecondSets()
    ensures CountedSets([HALF_A, HALF_B], [], "s", TWO_SECONDS) == [Span(0, 500_000), Span(500_000, 1_000_000)]
  {
    assert CountedSet(HALF_A, [], TWO_SECONDS) == Span(0, 500_000);
    assert CountedSet(HALF_B, [], TWO_SECONDS) == Span(500_000, 1_000_000);
    assert [HALF_A, HALF_B][..1] == [HALF_A] && [HALF_A][..0] == [];
    assert OwnSets(HALF_A, [], "s", TWO_SECONDS) == [Span(0, 500_000)];
    assert OwnSets(HALF_B, [], "s", TWO_SECONDS) == [Span(500_000, 1_000_000)];
    assert CountedSets([HALF_A], [], "s", TWO_SECONDS) == [] + [Span(0, 500_000)];
  }

  lemma HalfSecondSizes(a: set<int>, b: set<int>)
    requires |a| == 500_000 && |b| == 500_000 && a * b == {}
    ensures |All([a, b])| == MICROS_PER_SECOND && SumSeconds([a, b]) == 0
  {
    TwoSets(a, b);
    UnionOfTwo(a, b);
  }

  ghost predicate ShowsMoreThanExport(incidents: seq<Incident>, windows: seq<Window>, site: string, p: Period) {
    |DowntimeSet(incidents, windows, site, p)| / MICROS_PER_SECOND > SumKept(ExportRows(incidents, windows, p), site)
  }

  lemma ShowsMore(incidents: seq<Incident>, site: string, p: Period, a: set<int>, b: set<int>)
    requires CountedSets(incidents, [], site, p) == [a, b]
    requires |a| == 500_000 && |b| == 500_000 && a * b == {}
    ensures ShowsMoreThanExport(incidents, [], site, p)
  {
    HalfSecondSizes(a, b);
    CountedSetsCover(incidents, [], site, p);
    ExportShows(incidents, [], site, p);
  }

  /** Two half-second incidents: the report shows one second, the export none. */
  lemma ShownSecondsCanDiffer()
    ensures ShowsMoreThanExport([HALF_A, HALF_B], [], "s", TWO_SECONDS)
  {
    SpanSize(0, 500_000);
    SpanSize(500_000, 1_000_000);
    HalfSecondSets();
    ShowsMore([HALF_A, HALF_B], "s", TWO_SECONDS, Span(0, 500_000), Span(500_000, 1_000_000));
  }

  /** Another window never raises a site's downtime; another incident never lowers it. */
  lemma DowntimeMonotone(incidents: seq<Incident>, windows: seq<Window>, i: Incident, w: Window, site: string, p: Period)
    ensures DowntimeSet(incidents, windows + [w], site, p) <= DowntimeSet(incidents, windows, site, p)
    ensures DowntimeSet(incidents, windows, site, p) <= DowntimeSet(incidents + [i], windows, site, p)
  {
    assert forall v :: v in windows ==> v in windows + [w];
    assert forall j, t :: CountsAt(j, windows + [w], p.at, t) ==> CountsAt(j, windows, p.at, t);
    assert forall j :: j in incidents ==> j in incidents + [i];
  }
}
