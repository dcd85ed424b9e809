/**
 The life of a device incident: opened, refreshed and resolved by board builds, acknowledged
 by people (nautobot_maps/alerts.py, nautobot_maps/repositories/board.py), and the migration
 that leaves one open incident per site and device (nautobot_maps/db.py).
 Site and device ids are taken as already stripped; the key's hash is taken as injective.
 */
module Lifecycle {
  import opened Numbers
  import opened Wrappers

  /** An alert key: of a site and device, or one from before the keys were so. */
  datatype Key = SiteDevice(site: string, device: string) | Legacy(text: string)

  /** Resolved by a build, or closed as a duplicate by the migration. */
  datatype Status = Open | Resolved(at: int) | Closed

  /** A row of alert_instances. */
  datatype Instance = Instance(key: Key, site: string, device: string, status: Status, downAt: int,
                               level: string, reason: string, acked: bool)

  datatype Event = Opened | Updated | Acknowledged | Unacknowledged | Ended

  /** The tables: incidents, whose id is their position, and their events in order. */
  datatype Store = Store(rows: seq<Instance>, events: seq<(nat, Event)>)

  /** A device as the build saw it. */
  datatype Device = Device(id: string, down: bool, downSince: int)

  /** What a build found at a site; *cameUp*: when devices that stopped flapping came up. */
  datatype Build = Build(site: string, devices: seq<Device>, level: string, reason: string, at: int,
                         frozen: set<string>, cameUp: map<string, int>)

  // ----- one build's write ------------------------------------------------

  function LatestOpen(rows: seq<Instance>, key: Key): (r: Option<nat>)
    ensures r.Some? ==> r.value < |rows| && rows[r.value].status.Open? && rows[r.value].key == key
    ensures r.None? ==> forall i :: 0 <= i < |rows| ==> !(rows[i].status.Open? && rows[i].key == key)
  {
    if rows == [] then None
    else if rows[|rows| - 1].status.Open? && rows[|rows| - 1].key == key then Some(|rows| - 1)
    else LatestOpen(rows[..|rows| - 1], key)
  }

  predicate Counts(d: Device) { d.down && d.id != "" }

  function Refreshed(row: Instance, d: Device, b: Build): Instance {
    row.(level := b.level, reason := b.reason, downAt := Min(row.downAt, d.downSince))
  }

  function NewIncident(d: Device, b: Build): Instance {
    Instance(SiteDevice(b.site, d.id), b.site, d.id, Open, d.downSince, b.level, b.reason, false)
  }

  function NoteDown(s: Store, d: Device, b: Build): Store {
    var current := LatestOpen(s.rows, SiteDevice(b.site, d.id));
    if current.None? then Store(s.rows + [NewIncident(d, b)], s.events + [(|s.rows|, Opened)])
    else
      var row := s.rows[current.value];
      Store(s.rows[current.value := Refreshed(row, d, b)],
            s.events + if row.level != b.level || row.reason != b.reason then [(current.value, Updated)] else [])
  }

  function NoteAll(s: Store, devices: seq<Device>, b: Build): Store {
    if devices == [] then s
    else
      var before := NoteAll(s, devices[..|devices| - 1], b);
      if Counts(devices[|devices| - 1]) then NoteDown(before, devices[|devices| - 1], b) else before
  }

  predicate IsDown(b: Build, id: string) {
    exists k :: 0 <= k < |b.devices| && Counts(b.devices[k]) && b.devices[k].id == id
  }

  /** Whether the build keeps the key's incident open: its device is down or frozen. */
  predicate KeepsOpen(b: Build, key: Key) {
    key.SiteDevice? && key.site == b.site && (key.device in b.frozen || IsDown(b, key.device))
  }

  /** When the incident ended: when the device came up, if that was after it began, else now. */
  function EndTime(row: Instance, b: Build): int {
    if row.device in b.cameUp && b.cameUp[row.device] >= row.downAt then b.cameUp[row.device] else b.at
  }

  predicate Recovers(row: Instance, b: Build) {
    row.status.Open? && row.site == b.site && !KeepsOpen(b, row.key) && row.downAt <= EndTime(row, b)
  }

  function ResolveRow(row: Instance, b: Build): Instance {
    if Recovers(row, b) then row.(status := Resolved(EndTime(row, b))) else row
  }

  function ResolveRows(rows: seq<Instance>, b: Build): (r: seq<Instance>)
    ensures |r| == |rows| && forall i :: 0 <= i < |rows| ==> r[i] == ResolveRow(rows[i], b)
  {
    seq(|rows|, i requires 0 <= i < |rows| => ResolveRow(rows[i], b))
  }

  function EndEvents(rows: seq<Instance>, n: nat, b: Build): seq<(nat, Event)>
    requires n <= |rows|
  {
    if n == 0 then [] else EndEvents(rows, n - 1, b) + if Recovers(rows[n - 1], b) then [(n - 1, Ended)] else []
  }

  function ResolveAll(s: Store, b: Build): Store {
    Store(ResolveRows(s.rows, b), s.events + EndEvents(s.rows, |s.rows|, b))
  }

  /** The store after a build's write for one site. */
  function Written(s: Store, b: Build): Store {
    ResolveAll(NoteAll(s, b.devices, b), b)
  }

  // ----- acknowledging ----------------------------------------------------

  function AckRow(row: Instance, clear: bool): Instance { row.(acked := !clear) }

  function AckOne(s: Store, i: nat, clear: bool): Store
    requires i < |s.rows|
  {
    if s.rows[i].acked == !clear then s
    else Store(s.rows[i := AckRow(s.rows[i], clear)],
               s.events + [(i, if clear then Unacknowledged else Acknowledged)])
  }

  function OpenOf(rows: seq<Instance>, site: string, device: string): (r: Option<nat>)
    ensures r.Some? ==> r.value < |rows| && rows[r.value].status.Open? && rows[r.value].site == site &&
                        rows[r.value].device == device
    ensures r.None? ==> forall i :: 0 <= i < |rows| ==>
                          !(rows[i].status.Open? && rows[i].site == site && rows[i].device == device)
  {
    if rows == [] then None
    else
      var row := rows[|rows| - 1];
      if row.status.Open? && row.site == site && row.device == device then Some(|rows| - 1)
      else OpenOf(rows[..|rows| - 1], site, device)
  }

  function AckDevice(s: Store, site: string, device: string, clear: bool): Store {
    var i := OpenOf(s.rows, site, device);
    if i.Some? then AckOne(s, i.value, clear) else s
  }

  function AckAll(s: Store, site: string, wanted: seq<string>, clear: bool): Store {
    if wanted == [] then s
    else AckDevice(AckAll(s, site, wanted[..|wanted| - 1], clear), site, wanted[|wanted| - 1], clear)
  }

  lemma AckOneMore(s: Store, site: string, wanted: seq<string>, k: nat, clear: bool)
    requires k < |wanted|
    ensures AckAll(s, site, wanted[..k + 1], clear) ==
            AckDevice(AckAll(s, site, wanted[..k], clear), site, wanted[k], clear)
  {
    assert wanted[..k + 1][..k] == wanted[..k];
  }

  /** The devices with an open incident at the site, in order. */
  function OpenDevices(rows: seq<Instance>, site: string): (devices: seq<string>)
    ensures forall device :: device in devices <==> OpenOf(rows, site, device).Some?
  {
    if rows == [] then []
    else
      var front, last := rows[..|rows| - 1], rows[|rows| - 1];
      if last.status.Open? && last.site == site then OpenDevices(front, site) + [last.device]
      else OpenDevices(front, site)
  }

  /** The devices meant: those given, or with none given every one with an open incident. */
  function Wanted(rows: seq<Instance>, site: string, given: seq<string>): seq<string> {
    if given != [] then given else OpenDevices(rows, site)
  }

  predicate AllOpen(rows: seq<Instance>, site: string, wanted: seq<string>) {
    forall k :: 0 <= k < |wanted| ==> OpenOf(rows, site, wanted[k]).Some?
  }

  function AckGiven(s: Store, site: string, given: seq<string>, clear: bool): Store {
    var wanted := Wanted(s.rows, site, given);
    if AllOpen(s.rows, site, wanted) then AckAll(s, site, wanted, clear) else s
  }

  // ----- migrating the keys -----------------------------------------------

  predicate Same(row: Instance, device: (string, string)) {
    row.site == device.0 && row.device == device.1
  }

  /** Incident *j* comes before *i*: it began first, or at the same time with a lower id. */
  predicate Precedes(rows: seq<Instance>, j: nat, i: nat)
    requires j < |rows| && i < |rows|
  {
    rows[j].downAt < rows[i].downAt || (rows[j].downAt == rows[i].downAt && j < i)
  }

  predicate IsOpenOrder(rows: seq<Instance>, ordered: seq<nat>) {
    && (forall k :: 0 <= k < |ordered| ==> ordered[k] < |rows| && rows[ordered[k]].status.Open?)
    && (forall i :: 0 <= i < |rows| && rows[i].status.Open? ==> i in ordered)
    && (forall j, k :: 0 <= j < k < |ordered| ==> Precedes(rows, ordered[j], ordered[k]))
  }

  /** Another open incident of the same device began before it. */
  predicate Repeats(rows: seq<Instance>, i: nat)
    requires i < |rows|
  {
    exists j :: 0 <= j < |rows| && rows[j].status.Open? && Same(rows[j], (rows[i].site, rows[i].device)) &&
                Precedes(rows, j, i)
  }

  function MigratedRow(rows: seq<Instance>, i: nat): Instance
    requires i < |rows|
  {
    if !rows[i].status.Open? then rows[i]
    else if Repeats(rows, i) then rows[i].(status := Closed)
    else rows[i].(key := SiteDevice(rows[i].site, rows[i].device))
  }

  function Migrated(rows: seq<Instance>): (r: seq<Instance>)
    ensures |r| == |rows|
    ensures forall i :: 0 <= i < |rows| ==> r[i] == MigratedRow(rows, i)
  {
    seq(|rows|, i requires 0 <= i < |rows| => MigratedRow(rows, i))
  }

  lemma KeptMeansEarlier(rows: seq<Instance>, ordered: seq<nat>, k: nat)
    requires IsOpenOrder(rows, ordered) && k < |ordered|
    ensures var device := (rows[ordered[k]].site, rows[ordered[k]].device);
            (exists j :: 0 <= j < k && Same(rows[ordered[j]], device)) <==> Repeats(rows, ordered[k])
    ensures ordered[k] !in ordered[..k]
  {
    var device := (rows[ordered[k]].site, rows[ordered[k]].device);
    if i :| 0 <= i < |rows| && rows[i].status.Open? && Same(rows[i], device) && Precedes(rows, i, ordered[k]) {
      var m :| 0 <= m < |ordered| && ordered[m] == i;
      assert !Precedes(rows, ordered[k], ordered[m]);
    }
    if j :| 0 <= j < k && Same(rows[ordered[j]], device) {
      assert Precedes(rows, ordered[j], ordered[k]);
    }
    forall j | 0 <= j < k ensures ordered[j] != ordered[k] {
      assert Precedes(rows, ordered[j], ordered[k]);
    }
  }

  lemma {:induction false} FirstOfDevice(rows: seq<Instance>, i: nat) returns (first: nat)
    requires i < |rows| && rows[i].status.Open?
    ensures first < |rows| && rows[first].status.Open? && Same(rows[first], (rows[i].site, rows[i].device))
    ensures !Repeats(rows, first)
    ensures first == i || Precedes(rows, first, i)
  {
    first := i;
    for j := 0 to |rows|
      invariant first < |rows| && rows[first].status.Open? && Same(rows[first], (rows[i].site, rows[i].device))
      invariant first == i || Precedes(rows, first, i)
      invariant forall m :: 0 <= m < j && rows[m].status.Open? && Same(rows[m], (rows[i].site, rows[i].device)) ==>
                  m == first || Precedes(rows, first, m)
    {
      if rows[j].status.Open? && Same(rows[j], (rows[i].site, rows[i].device)) && Precedes(rows, j, first) {
        first := j;
      }
    }
  }

  /** *kept*: the devices that had an incident among the first *k* of *ordered*. */
  ghost predicate AreKept(before: seq<Instance>, ordered: seq<nat>, k: nat, kept: set<(string, string)>)
    requires IsOpenOrder(before, ordered) && k <= |ordered|
  {
    forall x :: x in kept <==> exists j :: 0 <= j < k && Same(before[ordered[j]], x)
  }

  /** The first *k* of *ordered* have been migrated, and no other row. */
  ghost predicate AreMigrated(before: seq<Instance>, rows: seq<Instance>, ordered: seq<nat>, k: nat)
    requires IsOpenOrder(before, ordered) && k <= |ordered|
  {
    |rows| == |before|
    && forall i :: 0 <= i < |before| ==> rows[i] == if i in ordered[..k] then MigratedRow(before, i) else before[i]
  }

  lemma OneMoreKept(before: seq<Instance>, ordered: seq<nat>, k: nat, kept: set<(string, string)>)
    requires IsOpenOrder(before, ordered) && k < |ordered| && AreKept(before, ordered, k, kept)
    ensures var device := (before[ordered[k]].site, before[ordered[k]].device);
            (device in kept <==> Repeats(before, ordered[k])) && AreKept(before, ordered, k + 1, kept + {device})
  {
    var device := (before[ordered[k]].site, before[ordered[k]].device);
    KeptMeansEarlier(before, ordered, k);
    assert Same(before[ordered[k]], device);
    forall x ensures x in kept + {device} <==> exists j :: 0 <= j < k + 1 && Same(before[ordered[j]], x) {
      if j :| 0 <= j < k + 1 && Same(before[ordered[j]], x) {
        if j == k { assert x == device; }
      }
    }
  }

  lemma OneMoreMigrated(before: seq<Instance>, rows: seq<Instance>, ordered: seq<nat>, k: nat)
    requires IsOpenOrder(before, ordered) && k < |ordered| && AreMigrated(before, rows, ordered, k)
    ensures ordered[k] < |rows| && rows[ordered[k]] == before[ordered[k]]
    ensures AreMigrated(before, rows[ordered[k] := MigratedRow(before, ordered[k])], ordered, k + 1)
  {
    KeptMeansEarlier(before, ordered, k);
    assert ordered[..k + 1] == ordered[..k] + [ordered[k]];
  }

  lemma AllAreMigrated(before: seq<Instance>, rows: seq<Instance>, ordered: seq<nat>)
    requires IsOpenOrder(before, ordered) && AreMigrated(before, rows, ordered, |ordered|)
    ensures rows == Migrated(before)
  {
    assert ordered[..|ordered|] == ordered;
    forall i | 0 <= i < |before| ensures rows[i] == MigratedRow(before, i) {
      if before[i].status.Open? { assert i in ordered; }
    }
  }

  // ----- the tables in the database ---------------------------------------

  class AlertTables {
    var rows: seq<Instance>
    var events: seq<(nat, Event)>

    constructor ()
      ensures Contents() == Store([], [])
    {
      rows, events := [], [];
    }

    ghost function Contents(): Store
      reads this
    {
      Store(rows, events)
    }

    method UpsertLifecycle(b: Build)
      modifies this
      ensures Contents() == Written(old(Contents()), b)
    {
      for k := 0 to |b.devices|
        invariant Contents() == NoteAll(old(Contents()), b.devices[..k], b)
      {
        assert b.devices[..k + 1][..k] == b.devices[..k];
        if !b.devices[k].down { continue; }
        if b.devices[k].id == "" { continue; }
        OpenOrRefresh(b.devices[k], b);
      }
      assert b.devices[..|b.devices|] == b.devices;
      ResolveRecovered(b);
    }

    method OpenOrRefresh(d: Device, b: Build)
      requires Counts(d)
      modifies this
      ensures Contents() == NoteDown(old(Contents()), d, b)
    {
      var current := LatestOpen(rows, SiteDevice(b.site, d.id));
      if current.None? {
        events := events + [(|rows|, Opened)];
        rows := rows + [NewIncident(d, b)];
        return;
      }
      var row := rows[current.value];
      rows := rows[current.value := Refreshed(row, d, b)];
      if row.level != b.level || row.reason != b.reason {
        events := events + [(current.value, Updated)];
      }
    }

    method ResolveRecovered(b: Build)
      modifies this
      ensures Contents() == ResolveAll(old(Contents()), b)
    {
      var before := rows;
      for i := 0 to |before|
        invariant |rows| == |before|
        invariant forall j :: 0 <= j < |before| ==> rows[j] == if j < i then ResolveRow(before[j], b) else before[j]
        invariant events == old(events) + EndEvents(before, i, b)
      {
        var row := rows[i];
        if !row.status.Open? || row.site != b.site { continue; }
        if KeepsOpen(b, row.key) { continue; }
        var end := b.at;
        if row.device in b.cameUp && b.cameUp[row.device] >= row.downAt { end := b.cameUp[row.device]; }
        if row.downAt > end { continue; }  // not resolved before it began
        rows := rows[i := row.(status := Resolved(end))];
        events := events + [(i, Ended)];
      }
      assert rows == ResolveRows(before, b);
    }

    /** All or nothing: a device without an open incident leaves everything as it was. */
    method Acknowledge(site: string, given: seq<string>, clear: bool) returns (ok: bool)
      modifies this
      ensures ok <==> AllOpen(old(rows), site, Wanted(old(rows), site, given))
      ensures Contents() == AckGiven(old(Contents()), site, given, clear)
    {
      var wanted := if given != [] then given else OpenDevices(rows, site);
      ok := HaveOpen(site, wanted);
      if !ok { return; }
      for k := 0 to |wanted|
        invariant Contents() == AckAll(old(Contents()), site, wanted[..k], clear)
      {
        AckOneMore(old(Contents()), site, wanted, k, clear);
        var i := OpenOf(rows, site, wanted[k]);
        if i.None? { continue; }
        if rows[i.value].acked == !clear { continue; }
        rows := rows[i.value := AckRow(rows[i.value], clear)];
        events := events + [(i.value, if clear then Unacknowledged else Acknowledged)];
      }
      assert wanted[..|wanted|] == wanted;
    }

    method HaveOpen(site: string, wanted: seq<string>) returns (ok: bool)
      ensures ok <==> AllOpen(rows, site, wanted)
    {
      for k := 0 to |wanted|
        invariant AllOpen(rows, site, wanted[..k])
      {
        if OpenOf(rows, site, wanted[k]).None? { return false; }
        assert wanted[..k + 1] == wanted[..k] + [wanted[k]];
      }
      assert wanted[..|wanted|] == wanted;
      return true;
    }

    method MigrateOne(i: nat, repeated: bool)
      requires i < |rows| && rows[i].status.Open?
      modifies this
      ensures events == old(events)
      ensures rows == old(rows)[i := if repeated then old(rows[i]).(status := Closed)
                                     else old(rows[i]).(key := SiteDevice(old(rows[i]).site, old(rows[i]).device))]
    {
      var row := rows[i];
      if repeated {
        rows := rows[i := row.(status := Closed)];
      } else if row.key != SiteDevice(row.site, row.device) {
        rows := rows[i := row.(key := SiteDevice(row.site, row.device))];
      }
    }

    /**
     Re-keys the open incidents, *ordered* as the query gives them, to site and device; of
     several for one device the one that began first stays, the others are closed.
     */
    method MigrateOpenAlertKeys(ordered: seq<nat>)
      requires IsOpenOrder(rows, ordered)
      modifies this
      ensures rows == Migrated(old(rows)) && events == old(events)
    {
      ghost var before := rows;
      var kept: set<(string, string)> := {};
      for k := 0 to |ordered|
        invariant AreMigrated(before, rows, ordered, k) && AreKept(before, ordered, k, kept) && events == old(events)
      {
        kept := MigrateNext(before, ordered, k, kept);
      }
      AllAreMigrated(before, rows, ordered);
    }

    method MigrateNext(ghost before: seq<Instance>, ordered: seq<nat>, k: nat, kept: set<(string, string)>)
      returns (more: set<(string, string)>)
      requires IsOpenOrder(before, ordered) && k < |ordered|
      requires AreMigrated(before, rows, ordered, k) && AreKept(before, ordered, k, kept)
      modifies this
      ensures AreMigrated(before, rows, ordered, k + 1) && AreKept(before, ordered, k + 1, more)
      ensures events == old(events)
    {
      OneMoreMigrated(before, rows, ordered, k);
      OneMoreKept(before, ordered, k, kept);
      var device := (rows[ordered[k]].site, rows[ordered[k]].device);
      MigrateOne(ordered[k], device in kept);
      more := kept + {device};
    }
  }

  // ----- one open incident per site and device ----------------------------

  predicate Keyed(row: Instance) {
    row.status.Open? ==> row.key == SiteDevice(row.site, row.device)
  }

  predicate OneOpenEach(rows: seq<Instance>) {
    && (forall i :: 0 <= i < |rows| ==> Keyed(rows[i]))
    && (forall i, j :: 0 <= i < j < |rows| && rows[i].status.Open? && rows[j].status.Open? ==> rows[i].key != rows[j].key)
  }

  predicate HasOpen(rows: seq<Instance>, site: string, device: string) {
    exists i :: 0 <= i < |rows| && rows[i].status.Open? && rows[i].site == site && rows[i].device == device
  }

  lemma NoteDownOpens(s: Store, d: Device, b: Build)
    requires OneOpenEach(s.rows)
    ensures OneOpenEach(NoteDown(s, d, b).rows)
  {
  }

  lemma NoteDownHasOpen(s: Store, d: Device, b: Build, site: string, device: string)
    requires OneOpenEach(s.rows)
    ensures HasOpen(NoteDown(s, d, b).rows, site, device) <==>
            HasOpen(s.rows, site, device) || (site == b.site && device == d.id)
  {
    var t := NoteDown(s, d, b);
    var current := LatestOpen(s.rows, SiteDevice(b.site, d.id));
    if i :| 0 <= i < |s.rows| && s.rows[i].status.Open? && s.rows[i].site == site && s.rows[i].device == device {
      assert t.rows[i].status.Open? && t.rows[i].site == site && t.rows[i].device == device;
    }
    if site == b.site && device == d.id {
      var at := if current.None? then |s.rows| else current.value;
      if current.Some? { assert Keyed(s.rows[at]); }
      assert t.rows[at].status.Open? && t.rows[at].site == site && t.rows[at].device == device;
    }
    if i :| 0 <= i < |t.rows| && t.rows[i].status.Open? && t.rows[i].site == site && t.rows[i].device == device {
      if i < |s.rows| {
        assert s.rows[i].status.Open? && s.rows[i].site == site && s.rows[i].device == device;
      }
    }
  }

  predicate DownIn(devices: seq<Device>, id: string) {
    exists k :: 0 <= k < |devices| && Counts(devices[k]) && devices[k].id == id
  }

  lemma {:induction false} NoteAllOpens(s: Store, devices: seq<Device>, b: Build)
    requires OneOpenEach(s.rows)
    ensures OneOpenEach(NoteAll(s, devices, b).rows)
  {
    if devices != [] {
      NoteAllOpens(s, devices[..|devices| - 1], b);
      NoteDownOpens(NoteAll(s, devices[..|devices| - 1], b), devices[|devices| - 1], b);
    }
  }

  lemma {:induction false} NoteAllHasOpen(s: Store, devices: seq<Device>, b: Build, site: string, device: string)
    requires OneOpenEach(s.rows)
    ensures HasOpen(NoteAll(s, devices, b).rows, site, device) <==>
            HasOpen(s.rows, site, device) || (site == b.site && DownIn(devices, device))
  {
    if devices != [] {
      var front, last := devices[..|devices| - 1], devices[|devices| - 1];
      NoteAllHasOpen(s, front, b, site, device);
      NoteAllOpens(s, front, b);
      NoteDownHasOpen(NoteAll(s, front, b), last, b, site, device);
      if DownIn(front, device) {
        var k :| 0 <= k < |front| && Counts(front[k]) && front[k].id == device;
        assert Counts(devices[k]) && devices[k].id == device;
      }
      if k :| 0 <= k < |devices| && Counts(devices[k]) && devices[k].id == device {
        if k < |front| { assert front[k] == devices[k]; }
      }
    }
  }

  /** An open incident of the device that the build would end, but that began after its time. */
  predicate Outlasts(row: Instance, b: Build) {
    row.status.Open? && row.site == b.site && !KeepsOpen(b, row.key) && row.downAt > EndTime(row, b)
  }

  predicate HasOutlasting(rows: seq<Instance>, b: Build, device: string) {
    exists i :: 0 <= i < |rows| && Outlasts(rows[i], b) && rows[i].device == device
  }

  lemma ResolveKeepsOpens(s: Store, b: Build)
    requires OneOpenEach(s.rows)
    ensures OneOpenEach(ResolveAll(s, b).rows)
  {
  }

  lemma ResolveHasOpen(s: Store, b: Build, site: string, device: string)
    requires OneOpenEach(s.rows)
    ensures HasOpen(ResolveAll(s, b).rows, site, device) <==>
            && HasOpen(s.rows, site, device)
            && (site == b.site ==> device in b.frozen || IsDown(b, device) || HasOutlasting(s.rows, b, device))
  {
    var t := ResolveAll(s, b);
    if i :| 0 <= i < |s.rows| && s.rows[i].status.Open? && s.rows[i].site == site && s.rows[i].device == device {
      assert Keyed(s.rows[i]) && t.rows[i] == ResolveRow(s.rows[i], b);
      if j :| 0 <= j < |s.rows| && Outlasts(s.rows[j], b) && s.rows[j].device == device && site == b.site {
        assert Keyed(s.rows[j]) && s.rows[i].key == s.rows[j].key;
        assert i == j;
      }
    }
    if i :| 0 <= i < |t.rows| && t.rows[i].status.Open? && t.rows[i].site == site && t.rows[i].device == device {
      assert Keyed(s.rows[i]) && t.rows[i] == ResolveRow(s.rows[i], b);
      if site == b.site && !(device in b.frozen || IsDown(b, device)) { assert Outlasts(s.rows[i], b); }
    }
  }

  /** Noting the down devices leaves every other incident as it is. */
  lemma NoteDownKeepsOthers(s: Store, d: Device, b: Build, i: nat)
    requires OneOpenEach(s.rows) && i < |s.rows| && s.rows[i].status.Open? && Counts(d)
    requires !(s.rows[i].site == b.site && s.rows[i].device == d.id)
    ensures i < |NoteDown(s, d, b).rows| && NoteDown(s, d, b).rows[i] == s.rows[i]
  {
    var current := LatestOpen(s.rows, SiteDevice(b.site, d.id));
    if current.Some? { assert Keyed(s.rows[current.value]) && Keyed(s.rows[i]); }
  }

  lemma NoteDownOutlasting(s: Store, d: Device, b: Build, device: string)
    requires OneOpenEach(s.rows) && Counts(d) && IsDown(b, d.id)
    ensures HasOutlasting(NoteDown(s, d, b).rows, b, device) <==> HasOutlasting(s.rows, b, device)
  {
    var t := NoteDown(s, d, b);
    var current := LatestOpen(s.rows, SiteDevice(b.site, d.id));
    if i :| 0 <= i < |s.rows| && Outlasts(s.rows[i], b) && s.rows[i].device == device {
      assert Keyed(s.rows[i]);
      NoteDownKeepsOthers(s, d, b, i);
      assert Outlasts(t.rows[i], b);
    }
    var noted := if current.Some? then current.value else |s.rows|;
    assert current.Some? ==> Keyed(s.rows[noted]);
    assert t.rows[noted].key == SiteDevice(b.site, d.id) && !Outlasts(t.rows[noted], b);
    assert forall i :: 0 <= i < |t.rows| && i != noted ==> i < |s.rows| && t.rows[i] == s.rows[i];
  }

  lemma {:induction false} NoteAllOutlasting(s: Store, n: nat, b: Build, device: string)
    requires OneOpenEach(s.rows) && n <= |b.devices|
    ensures HasOutlasting(NoteAll(s, b.devices[..n], b).rows, b, device) <==> HasOutlasting(s.rows, b, device)
  {
    if n > 0 {
      var devices := b.devices[..n];
      assert devices[..n - 1] == b.devices[..n - 1];
      NoteAllOutlasting(s, n - 1, b, device);
      NoteAllOpens(s, devices[..n - 1], b);
      if Counts(b.devices[n - 1]) {
        assert IsDown(b, b.devices[n - 1].id);
        NoteDownOutlasting(NoteAll(s, devices[..n - 1], b), b.devices[n - 1], b, device);
      }
    } else {
      assert b.devices[..n] == [];
    }
  }

  /** There are never two open incidents per site and device, whatever the times say. */
  lemma WriteKeepsOneOpenEach(s: Store, b: Build)
    requires OneOpenEach(s.rows)
    ensures OneOpenEach(Written(s, b).rows)
  {
    NoteAllOpens(s, b.devices, b);
    ResolveKeepsOpens(NoteAll(s, b.devices, b), b);
  }

  /**
   What is open after any write: at the site, its down devices, the frozen ones already open,
   and those whose incident began after the time the write would end it at; other sites'
   incidents are untouched.
   */
  lemma OpenAfterWrite(s: Store, b: Build, site: string, device: string)
    requires OneOpenEach(s.rows)
    ensures HasOpen(Written(s, b).rows, site, device) <==>
            if site == b.site
            then || IsDown(b, device)
                 || (HasOpen(s.rows, site, device) && (device in b.frozen || HasOutlasting(s.rows, b, device)))
            else HasOpen(s.rows, site, device)
  {
    NoteAllOpens(s, b.devices, b);
    NoteAllHasOpen(s, b.devices, b, site, device);
    ResolveHasOpen(NoteAll(s, b.devices, b), b, site, device);
    assert b.devices[..|b.devices|] == b.devices;
    NoteAllOutlasting(s, |b.devices|, b, device);
    assert DownIn(b.devices, device) <==> IsDown(b, device);
  }

  /** The site's open incidents are exactly its down devices plus the frozen ones already open. */
  ghost predicate OpenAreDownOrFrozen(s: Store, b: Build) {
    forall device :: HasOpen(Written(s, b).rows, b.site, device) <==>
                     IsDown(b, device) || (HasOpen(s.rows, b.site, device) && device in b.frozen)
  }

  /**
   They are so exactly when no open incident of the site that is neither down nor frozen
   began after it would end: after when its device came up, if that is known, else after
   the build's time.
   */
  lemma OpenAreDownOrFrozenExactly(s: Store, b: Build)
    requires OneOpenEach(s.rows)
    ensures OpenAreDownOrFrozen(s, b) <==>
            forall i | 0 <= i < |s.rows| && s.rows[i].status.Open? && s.rows[i].site == b.site
                       && !KeepsOpen(b, s.rows[i].key) :: s.rows[i].downAt <= EndTime(s.rows[i], b)
  {
    forall device
      ensures HasOpen(Written(s, b).rows, b.site, device) <==>
              || IsDown(b, device)
              || (HasOpen(s.rows, b.site, device) && (device in b.frozen || HasOutlasting(s.rows, b, device)))
    {
      OpenAfterWrite(s, b, b.site, device);
    }
    if i :| 0 <= i < |s.rows| && Outlasts(s.rows[i], b) {
      var device := s.rows[i].device;
      assert Keyed(s.rows[i]);
      assert HasOpen(s.rows, b.site, device) && HasOutlasting(s.rows, b, device);
      assert !IsDown(b, device) && device !in b.frozen;
    } else {
      assert forall device :: !HasOutlasting(s.rows, b, device);
    }
  }

  /**
   Two builds whose writes come in the other order than their times, as when one went on
   without the build lock: the earlier one finds the device up, and leaves it open.
   */
  lemma LaterIncidentStaysOpen(site: string, device: string)
    requires device != ""
    ensures var down := Build(site, [Device(device, true, 10)], "low", "", 10, {}, map[]);
            var up := Build(site, [Device(device, false, 0)], "ok", "", 5, {}, map[]);
            var s := Written(Store([], []), down);
            && OneOpenEach(s.rows) && !OpenAreDownOrFrozen(s, up)
            && HasOpen(Written(s, up).rows, site, device) && !IsDown(up, device) && device !in up.frozen
  {
    var down := Build(site, [Device(device, true, 10)], "low", "", 10, {}, map[]);
    var up := Build(site, [Device(device, false, 0)], "ok", "", 5, {}, map[]);
    var s := Written(Store([], []), down);
    WriteKeepsOneOpenEach(Store([], []), down);
    assert down.devices[..0] == [] && NoteAll(Store([], []), [], down) == Store([], []);
    assert Counts(down.devices[0]) && IsDown(down, device);
    assert NoteAll(Store([], []), down.devices, down).rows == [NewIncident(down.devices[0], down)];
    assert s.rows == [NewIncident(down.devices[0], down)];
    assert Outlasts(s.rows[0], up);
    OpenAfterWrite(s, up, site, device);
    assert HasOpen(s.rows, site, device) && HasOutlasting(s.rows, up, device);
  }

  // ----- what a write leaves ----------------------------------------------

  /** When the device's outage began, as its open incident and its down entries in *devices* say. */
  ghost function Beginnings(rows: seq<Instance>, site: string, devices: seq<Device>, device: string): set<int> {
    (set i | 0 <= i < |rows| && rows[i].status.Open? && rows[i].site == site && rows[i].device == device :: rows[i].downAt)
    + (set k | 0 <= k < |devices| && Counts(devices[k]) && devices[k].id == device :: devices[k].downSince)
  }

  ghost predicate IsEarliest(time: int, times: set<int>) { time in times && forall t <- times :: time <= t }

  lemma BeginningsOneMore(rows: seq<Instance>, site: string, devices: seq<Device>, device: string)
    requires devices != []
    ensures var front, last := devices[..|devices| - 1], devices[|devices| - 1];
            Beginnings(rows, site, devices, device) == Beginnings(rows, site, front, device)
                                                       + if Counts(last) && last.id == device then {last.downSince} else {}
  {
    var front, last := devices[..|devices| - 1], devices[|devices| - 1];
    forall t ensures t in Beginnings(rows, site, devices, device) <==>
                     || t in Beginnings(rows, site, front, device)
                     || (Counts(last) && last.id == device && t == last.downSince)
    {
      if k :| 0 <= k < |devices| && Counts(devices[k]) && devices[k].id == device && devices[k].downSince == t {
        assert k < |front| ==> front[k] == devices[k];
      }
      if k :| 0 <= k < |front| && Counts(front[k]) && front[k].id == device && front[k].downSince == t {
        assert devices[k] == front[k];
      }
      if Counts(last) && last.id == device && t == last.downSince { assert devices[|devices| - 1] == last; }
    }
  }

  /** The incident before the write is open, at the build's site, and its device is among the down *devices*. */
  predicate IsNoted(row: Instance, b: Build, devices: seq<Device>) {
    row.status.Open? && row.site == b.site && DownIn(devices, row.device)
  }

  /**
   Incident *i* of a device that is down: refreshed, with what was acknowledged, if it was open,
   else new; it began when the earliest of all that is known says.
   */
  ghost predicate SaysDown(s: Store, b: Build, devices: seq<Device>, i: nat, row: Instance) {
    && row.status.Open? && row.site == b.site && DownIn(devices, row.device)
    && row.key == SiteDevice(row.site, row.device) && row.level == b.level && row.reason == b.reason
    && IsEarliest(row.downAt, Beginnings(s.rows, b.site, devices, row.device))
    && (if i < |s.rows| then row.device == s.rows[i].device && row.acked == s.rows[i].acked
        else !row.acked && !HasOpen(s.rows, b.site, row.device))
  }

  /** With the last of *devices* not noted for incident *i*, what is said of it stays said. */
  lemma StillSaysDown(s: Store, b: Build, devices: seq<Device>, i: nat, row: Instance)
    requires devices != [] && SaysDown(s, b, devices[..|devices| - 1], i, row)
    requires Counts(devices[|devices| - 1]) ==> devices[|devices| - 1].id != row.device
    ensures SaysDown(s, b, devices, i, row)
  {
    var front := devices[..|devices| - 1];
    BeginningsOneMore(s.rows, b.site, devices, row.device);
    var k :| 0 <= k < |front| && Counts(front[k]) && front[k].id == row.device;
    assert Counts(devices[k]) && devices[k].id == row.device;
  }

  lemma RefreshedSaysDown(s: Store, b: Build, devices: seq<Device>, i: nat, row: Instance)
    requires devices != [] && SaysDown(s, b, devices[..|devices| - 1], i, row)
    requires Counts(devices[|devices| - 1]) && devices[|devices| - 1].id == row.device
    ensures SaysDown(s, b, devices, i, Refreshed(row, devices[|devices| - 1], b))
  {
    BeginningsOneMore(s.rows, b.site, devices, row.device);
    assert DownIn(devices, row.device);
  }

  /** The first down entry of a device with an open incident. */
  lemma FirstSaysDown(s: Store, b: Build, devices: seq<Device>, i: nat)
    requires OneOpenEach(s.rows) && devices != [] && Counts(devices[|devices| - 1])
    requires i < |s.rows| && s.rows[i].status.Open? && s.rows[i].site == b.site
    requires s.rows[i].device == devices[|devices| - 1].id && !DownIn(devices[..|devices| - 1], s.rows[i].device)
    ensures SaysDown(s, b, devices, i, Refreshed(s.rows[i], devices[|devices| - 1], b))
  {
    var device := s.rows[i].device;
    BeginningsOneMore(s.rows, b.site, devices, device);
    var before := Beginnings(s.rows, b.site, devices[..|devices| - 1], device);
    forall t | t in before ensures t == s.rows[i].downAt {
      var j :| 0 <= j < |s.rows| && s.rows[j].status.Open? && s.rows[j].site == b.site && s.rows[j].device == device
               && s.rows[j].downAt == t;
      assert Keyed(s.rows[i]) && Keyed(s.rows[j]);
    }
    assert s.rows[i].downAt in Beginnings(s.rows, b.site, devices, device);
    assert Keyed(s.rows[i]) && DownIn(devices, device);
  }

  lemma NewSaysDown(s: Store, b: Build, devices: seq<Device>, i: nat)
    requires devices != [] && Counts(devices[|devices| - 1]) && i >= |s.rows|
    requires !HasOpen(s.rows, b.site, devices[|devices| - 1].id)
    requires !DownIn(devices[..|devices| - 1], devices[|devices| - 1].id)
    ensures SaysDown(s, b, devices, i, NewIncident(devices[|devices| - 1], b))
  {
    var device := devices[|devices| - 1].id;
    BeginningsOneMore(s.rows, b.site, devices, device);
    assert Beginnings(s.rows, b.site, devices[..|devices| - 1], device) == {};
    assert DownIn(devices, device);
  }

  /** What noting the down devices leaves of incident *i*. */
  ghost predicate NotedRow(s: Store, b: Build, devices: seq<Device>, i: nat, row: Instance) {
    if i < |s.rows| && !IsNoted(s.rows[i], b, devices) then row == s.rows[i] else SaysDown(s, b, devices, i, row)
  }

  ghost predicate AreNoted(s: Store, b: Build, devices: seq<Device>, rows: seq<Instance>) {
    forall i: nat :: i < |rows| ==> NotedRow(s, b, devices, i, rows[i])
  }

  lemma DownInOneMore(devices: seq<Device>, id: string)
    requires devices != []
    ensures DownIn(devices, id) <==>
            DownIn(devices[..|devices| - 1], id) || (Counts(devices[|devices| - 1]) && devices[|devices| - 1].id == id)
  {
    var front := devices[..|devices| - 1];
    if k :| 0 <= k < |front| && Counts(front[k]) && front[k].id == id { assert Counts(devices[k]) && devices[k].id == id; }
    if k :| 0 <= k < |devices| && Counts(devices[k]) && devices[k].id == id { assert k < |front| ==> front[k] == devices[k]; }
  }

  lemma {:induction false} NoteAllKeepsCount(s: Store, devices: seq<Device>, b: Build)
    ensures |NoteAll(s, devices, b).rows| >= |s.rows|
  {
    if devices != [] { NoteAllKeepsCount(s, devices[..|devices| - 1], b); }
  }

  /** Noting a down device changes its incident, which is one that was open, or else a new one. */
  lemma NoteDownAt(s: Store, d: Device, b: Build) returns (at: nat)
    requires OneOpenEach(s.rows)
    ensures var t := NoteDown(s, d, b);
            && at < |t.rows| && (forall i: nat :: i < |t.rows| && i != at ==> i < |s.rows| && t.rows[i] == s.rows[i])
            && (if at < |s.rows|
                then s.rows[at].status.Open? && s.rows[at].site == b.site && s.rows[at].device == d.id
                     && t.rows[at] == Refreshed(s.rows[at], d, b)
                else at == |s.rows| && !HasOpen(s.rows, b.site, d.id) && t.rows[at] == NewIncident(d, b))
            && t.events == s.events + (if at == |s.rows| then [(at, Opened)]
                                       else if s.rows[at].level != b.level || s.rows[at].reason != b.reason
                                       then [(at, Updated)] else [])
    ensures forall i: nat :: i < |s.rows| && i != at && s.rows[i].status.Open? && s.rows[i].site == b.site ==>
              s.rows[i].device != d.id
  {
    var current := LatestOpen(s.rows, SiteDevice(b.site, d.id));
    at := if current.Some? then current.value else |s.rows|;
    if current.Some? { assert Keyed(s.rows[at]); }
    forall i: nat | i < |s.rows| && i != at && s.rows[i].status.Open? && s.rows[i].site == b.site
      ensures s.rows[i].device != d.id
    {
      assert Keyed(s.rows[i]);
    }
  }

  lemma NotedOneMore(s: Store, b: Build, devices: seq<Device>, i: nat)
    requires OneOpenEach(s.rows) && devices != []
    requires AreNoted(s, b, devices[..|devices| - 1], NoteAll(s, devices[..|devices| - 1], b).rows)
    requires i < |NoteAll(s, devices, b).rows|
    ensures NotedRow(s, b, devices, i, NoteAll(s, devices, b).rows[i])
  {
    var front, last := devices[..|devices| - 1], devices[|devices| - 1];
    var before := NoteAll(s, front, b);
    NoteAllKeepsCount(s, front, b);
    if i < |s.rows| { DownInOneMore(devices, s.rows[i].device); }
    if !Counts(last) {
      if !(i < |s.rows| && !IsNoted(s.rows[i], b, front)) { StillSaysDown(s, b, devices, i, before.rows[i]); }
    } else {
      NoteAllOpens(s, front, b);
      var at := NoteDownAt(before, last, b);
      if i != at {
        if !(i < |s.rows| && !IsNoted(s.rows[i], b, front)) { StillSaysDown(s, b, devices, i, before.rows[i]); }
      } else if i == |before.rows| {
        NoteAllHasOpen(s, front, b, b.site, last.id);
        NewSaysDown(s, b, devices, i);
      } else if i < |s.rows| && !IsNoted(s.rows[i], b, front) {
        FirstSaysDown(s, b, devices, i);
      } else {
        RefreshedSaysDown(s, b, devices, i, before.rows[i]);
      }
    }
  }

  lemma {:induction false} RowsAreNoted(s: Store, b: Build, devices: seq<Device>)
    requires OneOpenEach(s.rows)
    ensures AreNoted(s, b, devices, NoteAll(s, devices, b).rows)
    decreases |devices|
  {
    if devices != [] {
      RowsAreNoted(s, b, devices[..|devices| - 1]);
      var rows := NoteAll(s, devices, b).rows;
      forall i: nat | i < |rows| ensures NotedRow(s, b, devices, i, rows[i]) { NotedOneMore(s, b, devices, i); }
    }
  }

  /**
   What a write leaves of the incident of a device it found down: it is open and began at the
   earliest that its row before the write or the build's down entries say; what was
   acknowledged stays so, and a new one is not.
   */
  lemma DownIncidentAfterWrite(s: Store, b: Build, i: nat)
    requires OneOpenEach(s.rows) && i < |Written(s, b).rows|
    requires i < |s.rows| ==> IsNoted(s.rows[i], b, b.devices)
    ensures SaysDown(s, b, b.devices, i, Written(s, b).rows[i])
    ensures var device := Written(s, b).rows[i].device;
            device != "" && exists k :: 0 <= k < |b.devices| && b.devices[k].id == device && b.devices[k].down
  {
    RowsAreNoted(s, b, b.devices);
    assert DownIn(b.devices, NoteAll(s, b.devices, b).rows[i].device);
  }

  /** Every other incident ends when its device came up, if not before it began, else now; or stays as it is. */
  lemma OtherIncidentAfterWrite(s: Store, b: Build, i: nat)
    requires OneOpenEach(s.rows) && i < |s.rows| && !IsNoted(s.rows[i], b, b.devices)
    ensures i < |Written(s, b).rows|
    ensures var row := s.rows[i];
            var end := if row.device in b.cameUp && b.cameUp[row.device] >= row.downAt then b.cameUp[row.device] else b.at;
            Written(s, b).rows[i] ==
            if row.status.Open? && row.site == b.site && row.device !in b.frozen && end >= row.downAt
            then row.(status := Resolved(end)) else row
  {
    NoteAllKeepsCount(s, b.devices, b);
    RowsAreNoted(s, b, b.devices);
    assert Keyed(s.rows[i]);
    assert IsDown(b, s.rows[i].device) <==> DownIn(b.devices, s.rows[i].device);
  }

  // ----- with times that do not go back ------------------------------------

  /** No open incident began after *now*. */
  predicate BeganBy(rows: seq<Instance>, now: int) {
    forall i :: 0 <= i < |rows| && rows[i].status.Open? ==> rows[i].downAt <= now
  }

  predicate Plausible(b: Build) {
    forall k :: 0 <= k < |b.devices| ==> b.devices[k].downSince <= b.at
  }

  lemma {:induction false} NoteAllBegan(s: Store, devices: seq<Device>, b: Build)
    requires BeganBy(s.rows, b.at) && forall k :: 0 <= k < |devices| ==> devices[k].downSince <= b.at
    ensures BeganBy(NoteAll(s, devices, b).rows, b.at)
  {
    if devices != [] { NoteAllBegan(s, devices[..|devices| - 1], b); }
  }

  /** A write in time leaves only incidents that began by then, and ends all it should. */
  lemma WriteInTime(s: Store, b: Build)
    requires BeganBy(s.rows, b.at) && Plausible(b)
    ensures BeganBy(Written(s, b).rows, b.at)
    ensures OneOpenEach(s.rows) ==> OpenAreDownOrFrozen(s, b)
  {
    NoteAllBegan(s, b.devices, b);
    if OneOpenEach(s.rows) { OpenAreDownOrFrozenExactly(s, b); }
  }

  /** Skipping the write when nothing is down or open at the site equals running it. */
  lemma SkippedWriteChangesNothing(s: Store, b: Build)
    requires forall k :: 0 <= k < |b.devices| ==> !b.devices[k].down
    requires forall i :: 0 <= i < |s.rows| ==> !(s.rows[i].status.Open? && s.rows[i].site == b.site)
    ensures Written(s, b) == s
  {
    NothingNoted(s, b.devices, b);
    NothingEnds(s.rows, |s.rows|, b);
    assert ResolveRows(s.rows, b) == s.rows;
  }

  lemma {:induction false} NothingNoted(s: Store, devices: seq<Device>, b: Build)
    requires forall k :: 0 <= k < |devices| ==> !devices[k].down
    ensures NoteAll(s, devices, b) == s
  {
    if devices != [] { NothingNoted(s, devices[..|devices| - 1], b); }
  }

  lemma {:induction false} NothingEnds(rows: seq<Instance>, n: nat, b: Build)
    requires n <= |rows| && forall i :: 0 <= i < n ==> !Recovers(rows[i], b)
    ensures EndEvents(rows, n, b) == []
  {
    if n > 0 { NothingEnds(rows, n - 1, b); }
  }

  // ----- an incident's events ---------------------------------------------

  datatype Phase = Before | Unacked | Acked | Over | Wrong

  /**
   The order of one incident's events: opened; then updates and, in strict alternation,
   acknowledged and unacknowledged; then at most one end.
   */
  function Step(p: Phase, e: Event): Phase {
    match (p, e)
    case (Before, Opened) => Unacked
    case (Unacked, Updated) => Unacked
    case (Acked, Updated) => Acked
    case (Unacked, Acknowledged) => Acked
    case (Acked, Unacknowledged) => Unacked
    case (Unacked, Ended) => Over
    case (Acked, Ended) => Over
    case _ => Wrong
  }

  function PhaseOf(events: seq<(nat, Event)>, id: nat): Phase {
    if events == [] then Before
    else
      var last := events[|events| - 1];
      var p := PhaseOf(events[..|events| - 1], id);
      if last.0 == id then Step(p, last.1) else p
  }

  /** The events of incident *id* are in order and say what its row says. */
  predicate Told(s: Store, id: nat)
    requires id < |s.rows|
  {
    match s.rows[id].status
    case Open => PhaseOf(s.events, id) == if s.rows[id].acked then Acked else Unacked
    case Resolved(_) => PhaseOf(s.events, id) == Over
    case Closed => PhaseOf(s.events, id).Unacked? || PhaseOf(s.events, id).Acked?
  }

  ghost predicate AllTold(s: Store) {
    && (forall id :: 0 <= id < |s.rows| ==> Told(s, id))
    && (forall id: nat :: id >= |s.rows| ==> PhaseOf(s.events, id).Before?)
  }

  lemma PhaseAppend(events: seq<(nat, Event)>, e: (nat, Event), id: nat)
    ensures PhaseOf(events + [e], id) == if e.0 == id then Step(PhaseOf(events, id), e.1) else PhaseOf(events, id)
  {
    assert (events + [e])[..|events|] == events;
  }

  lemma NoteDownTold(s: Store, d: Device, b: Build)
    requires AllTold(s)
    ensures AllTold(NoteDown(s, d, b))
  {
    var t := NoteDown(s, d, b);
    var current := LatestOpen(s.rows, SiteDevice(b.site, d.id));
    forall id: nat ensures if id < |t.rows| then Told(t, id) else PhaseOf(t.events, id).Before? {
      if current.None? {
        PhaseAppend(s.events, (|s.rows|, Opened), id);
      } else {
        PhaseAppend(s.events, (current.value, Updated), id);
        if t.events != s.events + [(current.value, Updated)] { assert t.events == s.events; }
      }
      if id < |s.rows| { assert Told(s, id); }
    }
  }

  lemma {:induction false} NoteAllTold(s: Store, devices: seq<Device>, b: Build)
    requires AllTold(s)
    ensures AllTold(NoteAll(s, devices, b))
  {
    if devices != [] {
      NoteAllTold(s, devices[..|devices| - 1], b);
      NoteDownTold(NoteAll(s, devices[..|devices| - 1], b), devices[|devices| - 1], b);
    }
  }

  lemma EndEventsOneMore(s: Store, n: nat, b: Build)
    requires 0 < n <= |s.rows|
    ensures var before := s.events + EndEvents(s.rows, n - 1, b);
            s.events + EndEvents(s.rows, n, b) == if Recovers(s.rows[n - 1], b) then before + [(n - 1, Ended)] else before
  {
    var earlier := EndEvents(s.rows, n - 1, b);
    assert s.events + (earlier + [(n - 1, Ended)]) == (s.events + earlier) + [(n - 1, Ended)];
    assert earlier + [] == earlier;
  }

  lemma {:induction false} EndPhases(s: Store, n: nat, b: Build, id: nat)
    requires n <= |s.rows|
    ensures PhaseOf(s.events + EndEvents(s.rows, n, b), id) ==
            if id < n && Recovers(s.rows[id], b) then Step(PhaseOf(s.events, id), Ended) else PhaseOf(s.events, id)
  {
    if n == 0 {
      assert s.events + EndEvents(s.rows, n, b) == s.events;
    } else {
      EndPhases(s, n - 1, b, id);
      EndEventsOneMore(s, n, b);
      PhaseAppend(s.events + EndEvents(s.rows, n - 1, b), (n - 1, Ended), id);
    }
  }

  /** Every write keeps every incident's events in order. */
  lemma WriteKeepsTold(s: Store, b: Build)
    requires AllTold(s)
    ensures AllTold(Written(s, b))
  {
    var noted := NoteAll(s, b.devices, b);
    NoteAllTold(s, b.devices, b);
    forall id: nat ensures if id < |noted.rows| then Told(ResolveAll(noted, b), id)
                           else PhaseOf(ResolveAll(noted, b).events, id).Before? {
      EndPhases(noted, |noted.rows|, b, id);
      if id < |noted.rows| { assert Told(noted, id); }
    }
  }

  // ----- what a write tells -----------------------------------------------

  function EventsOf(events: seq<(nat, Event)>, id: nat): seq<Event> {
    if events == [] then []
    else
      var last := events[|events| - 1];
      if last.0 == id then EventsOf(events[..|events| - 1], id) + [last.1] else EventsOf(events[..|events| - 1], id)
  }

  lemma EventsOfOneMore(events: seq<(nat, Event)>, e: (nat, Event), id: nat)
    ensures EventsOf(events + [e], id) == if e.0 == id then EventsOf(events, id) + [e.1] else EventsOf(events, id)
  {
    assert (events + [e])[..|events|] == events;
  }

  /** What noting the down *devices* tells of incident *id*. */
  function NotedNews(s: Store, b: Build, devices: seq<Device>, id: nat): seq<Event> {
    if id >= |s.rows| then [Opened]
    else if IsNoted(s.rows[id], b, devices) && (s.rows[id].level != b.level || s.rows[id].reason != b.reason)
    then [Updated]
    else []
  }

  lemma NotedNewsOneMore(s: Store, b: Build, devices: seq<Device>, id: nat)
    requires OneOpenEach(s.rows) && devices != [] && id < |NoteAll(s, devices, b).rows|
    requires var before := NoteAll(s, devices[..|devices| - 1], b);
             id < |before.rows| ==>
               EventsOf(before.events, id) == EventsOf(s.events, id) + NotedNews(s, b, devices[..|devices| - 1], id)
    requires var before := NoteAll(s, devices[..|devices| - 1], b);
             id >= |before.rows| ==> EventsOf(before.events, id) == EventsOf(s.events, id)
    ensures EventsOf(NoteAll(s, devices, b).events, id) == EventsOf(s.events, id) + NotedNews(s, b, devices, id)
  {
    var front, last := devices[..|devices| - 1], devices[|devices| - 1];
    var before := NoteAll(s, front, b);
    RowsAreNoted(s, b, front);
    NoteAllKeepsCount(s, front, b);
    if id < |before.rows| { assert NotedRow(s, b, front, id, before.rows[id]); }
    if id < |s.rows| { DownInOneMore(devices, s.rows[id].device); }
    if Counts(last) {
      NoteAllOpens(s, front, b);
      var at := NoteDownAt(before, last, b);
      var e := (at, if at == |before.rows| then Opened else Updated);
      EventsOfOneMore(before.events, e, id);
      assert NoteAll(s, devices, b).events == before.events + [e] || NoteAll(s, devices, b).events == before.events;
    }
  }

  lemma {:induction false} NotedTells(s: Store, b: Build, devices: seq<Device>, id: nat)
    requires OneOpenEach(s.rows)
    ensures var t := NoteAll(s, devices, b);
            EventsOf(t.events, id) ==
            if id < |t.rows| then EventsOf(s.events, id) + NotedNews(s, b, devices, id) else EventsOf(s.events, id)
    decreases |devices|
  {
    if devices != [] {
      NotedTells(s, b, devices[..|devices| - 1], id);
      if id < |NoteAll(s, devices, b).rows| {
        NotedNewsOneMore(s, b, devices, id);
      } else if Counts(devices[|devices| - 1]) {
        NoteAllOpens(s, devices[..|devices| - 1], b);
        var before := NoteAll(s, devices[..|devices| - 1], b);
        var at := NoteDownAt(before, devices[|devices| - 1], b);
        var e := (at, if at == |before.rows| then Opened else Updated);
        var after := NoteAll(s, devices, b);
        EventsOfOneMore(before.events, e, id);
        assert after.events == before.events + [e] || after.events == before.events;
        assert EventsOf(after.events, id) == EventsOf(before.events, id);
      }
    }
  }

  lemma {:induction false} EventsOfConcat(a: seq<(nat, Event)>, b: seq<(nat, Event)>, id: nat)
    ensures EventsOf(a + b, id) == EventsOf(a, id) + EventsOf(b, id)
  {
    if b == [] {
      assert a + b == a;
    } else {
      assert (a + b)[..|a + b| - 1] == a + b[..|b| - 1];
      EventsOfConcat(a, b[..|b| - 1], id);
    }
  }

  lemma {:induction false} EndsTell(rows: seq<Instance>, n: nat, b: Build, id: nat)
    requires n <= |rows|
    ensures EventsOf(EndEvents(rows, n, b), id) == if id < n && Recovers(rows[id], b) then [Ended] else []
  {
    if n > 0 {
      EndsTell(rows, n - 1, b, id);
      EventsOfOneMore(EndEvents(rows, n - 1, b), (n - 1, Ended), id);
      assert !Recovers(rows[n - 1], b) ==> EndEvents(rows, n, b) == EndEvents(rows, n - 1, b);
    }
  }

  /**
   What a write tells of each incident: that it opened, that its level or reason changed while
   its device is down, or that it ended; and no more than one of these.
   */
  lemma WriteTells(s: Store, b: Build, id: nat)
    requires OneOpenEach(s.rows) && id < |Written(s, b).rows|
    ensures var row := Written(s, b).rows[id];
            EventsOf(Written(s, b).events, id) ==
            EventsOf(s.events, id)
            + (if id >= |s.rows| then [Opened]
               else if row.level != s.rows[id].level || row.reason != s.rows[id].reason then [Updated]
               else if row.status != s.rows[id].status then [Ended]
               else [])
  {
    var noted := NoteAll(s, b.devices, b);
    NotedTells(s, b, b.devices, id);
    EndsTell(noted.rows, |noted.rows|, b, id);
    EventsOfConcat(noted.events, EndEvents(noted.rows, |noted.rows|, b), id);
    if id < |s.rows| && !IsNoted(s.rows[id], b, b.devices) {
      OtherIncidentAfterWrite(s, b, id);
      RowsAreNoted(s, b, b.devices);
      assert noted.rows[id] == s.rows[id];
    } else {
      DownIncidentAfterWrite(s, b, id);
    }
  }

  lemma AckOneTold(s: Store, i: nat, clear: bool)
    requires AllTold(s) && i < |s.rows| && s.rows[i].status.Open?
    ensures AllTold(AckOne(s, i, clear))
  {
    var t := AckOne(s, i, clear);
    forall id: nat ensures if id < |t.rows| then Told(t, id) else PhaseOf(t.events, id).Before? {
      PhaseAppend(s.events, (i, if clear then Unacknowledged else Acknowledged), id);
      if id < |s.rows| { assert Told(s, id); }
    }
  }

  lemma {:induction false} AckChangesFlags(s: Store, site: string, wanted: seq<string>, clear: bool)
    ensures var t := AckAll(s, site, wanted, clear);
            && |t.rows| == |s.rows|
            && forall i :: 0 <= i < |s.rows| ==> t.rows[i] == s.rows[i].(acked := t.rows[i].acked)
  {
    if wanted != [] { AckChangesFlags(s, site, wanted[..|wanted| - 1], clear); }
  }

  /** Only the wanted devices' open incidents are flagged or cleared. */
  lemma {:induction false} OnlyWantedChange(s: Store, site: string, wanted: seq<string>, clear: bool, i: nat)
    requires i < |s.rows|
    ensures i < |AckAll(s, site, wanted, clear).rows|
    ensures AckAll(s, site, wanted, clear).rows[i] != s.rows[i] ==>
              s.rows[i].status.Open? && s.rows[i].site == site && s.rows[i].device in wanted && s.rows[i].acked == clear
  {
    if wanted != [] {
      var front := wanted[..|wanted| - 1];
      OnlyWantedChange(s, site, front, clear, i);
      AckChangesFlags(s, site, front, clear);
      assert wanted == front + [wanted[|wanted| - 1]];
    }
  }

  /** All or nothing: a device without an open incident leaves everything as it was. */
  lemma AckIsAllOrNothing(s: Store, site: string, given: seq<string>, clear: bool)
    ensures AllOpen(s.rows, site, given) <==> forall device <- given :: HasOpen(s.rows, site, device)
    ensures given != [] && !AllOpen(s.rows, site, given) ==> AckGiven(s, site, given, clear) == s
    ensures given != [] && AllOpen(s.rows, site, given) ==> AckGiven(s, site, given, clear) == AckAll(s, site, given, clear)
  {
    forall device | device in given ensures OpenOf(s.rows, site, device).Some? <==> HasOpen(s.rows, site, device) {
    }
    assert forall k :: 0 <= k < |given| ==> given[k] in given;
  }

  lemma {:induction false} AckKeepsTold(s: Store, site: string, wanted: seq<string>, clear: bool)
    requires AllTold(s)
    ensures AllTold(AckAll(s, site, wanted, clear))
  {
    if wanted != [] {
      AckKeepsTold(s, site, wanted[..|wanted| - 1], clear);
      var before := AckAll(s, site, wanted[..|wanted| - 1], clear);
      var i := OpenOf(before.rows, site, wanted[|wanted| - 1]);
      if i.Some? { AckOneTold(before, i.value, clear); }
    }
  }

  /** Once flagged or cleared, an incident stays so through the rest of the devices. */
  lemma {:induction false} AckSetsFlag(s: Store, site: string, wanted: seq<string>, clear: bool, k: nat)
    requires k < |wanted| && OpenOf(s.rows, site, wanted[k]).Some?
    ensures var i := OpenOf(s.rows, site, wanted[k]).value;
            i < |AckAll(s, site, wanted, clear).rows| && AckAll(s, site, wanted, clear).rows[i].acked == !clear
  {
    var front := wanted[..|wanted| - 1];
    var before := AckAll(s, site, front, clear);
    AckChangesFlags(s, site, front, clear);
    SameOpen(s.rows, before.rows, site, wanted[k]);
    if k < |front| { AckSetsFlag(s, site, front, clear, k); }
  }

  /** Acknowledging changes only flags and events, and keeps the events in order. */
  lemma AcknowledgeKeepsTold(s: Store, site: string, wanted: seq<string>, clear: bool)
    requires AllTold(s)
    ensures var t := AckAll(s, site, wanted, clear);
            && AllTold(t) && |t.rows| == |s.rows|
            && (forall i :: 0 <= i < |s.rows| ==> t.rows[i] == s.rows[i].(acked := t.rows[i].acked))
            && forall k :: 0 <= k < |wanted| ==>
                 var i := OpenOf(s.rows, site, wanted[k]);
                 i.Some? ==> t.rows[i.value].acked == !clear
  {
    AckKeepsTold(s, site, wanted, clear);
    AckChangesFlags(s, site, wanted, clear);
    forall k | 0 <= k < |wanted| && OpenOf(s.rows, site, wanted[k]).Some?
      ensures AckAll(s, site, wanted, clear).rows[OpenOf(s.rows, site, wanted[k]).value].acked == !clear
    {
      AckSetsFlag(s, site, wanted, clear, k);
    }
  }

  lemma {:induction false} SameOpen(a: seq<Instance>, b: seq<Instance>, site: string, device: string)
    requires |a| == |b| && forall i :: 0 <= i < |a| ==> b[i] == a[i].(acked := b[i].acked)
    ensures OpenOf(a, site, device) == OpenOf(b, site, device)
  {
    if a != [] { SameOpen(a[..|a| - 1], b[..|b| - 1], site, device); }
  }

  /** With no devices given, every open incident of the site is flagged or cleared. */
  lemma AcknowledgeAll(s: Store, site: string, clear: bool, i: nat)
    requires AllTold(s) && OneOpenEach(s.rows)
    requires i < |s.rows| && s.rows[i].status.Open? && s.rows[i].site == site
    ensures var t := AckGiven(s, site, [], clear);
            |t.rows| == |s.rows| && t.rows[i] == AckRow(s.rows[i], clear)
  {
    var wanted := OpenDevices(s.rows, site);
    forall k | 0 <= k < |wanted| ensures OpenOf(s.rows, site, wanted[k]).Some? {
      assert wanted[k] in wanted;
    }
    assert s.rows[i].device in wanted;
    var k :| 0 <= k < |wanted| && wanted[k] == s.rows[i].device;
    AcknowledgeKeepsTold(s, site, wanted, clear);
    var j := OpenOf(s.rows, site, wanted[k]);
    assert Keyed(s.rows[i]) && Keyed(s.rows[j.value]);
    assert j.value == i;
  }

  // ----- the migration establishes it -------------------------------------

  lemma MigratedKeysDiffer(rows: seq<Instance>, i: nat, j: nat)
    requires i < j < |rows| && Migrated(rows)[i].status.Open? && Migrated(rows)[j].status.Open?
    ensures Migrated(rows)[i].key != Migrated(rows)[j].key
  {
    assert Precedes(rows, i, j) || Precedes(rows, j, i);
    assert !Same(rows[i], (rows[j].site, rows[j].device));
  }

  lemma MigratedHasOpen(rows: seq<Instance>, site: string, device: string)
    ensures HasOpen(Migrated(rows), site, device) <==> HasOpen(rows, site, device)
  {
    if i :| 0 <= i < |rows| && rows[i].status.Open? && rows[i].site == site && rows[i].device == device {
      var first := FirstOfDevice(rows, i);
      assert Migrated(rows)[first] == MigratedRow(rows, first);
    }
    if i :| 0 <= i < |rows| && Migrated(rows)[i].status.Open? && Migrated(rows)[i].site == site &&
            Migrated(rows)[i].device == device {
      assert Migrated(rows)[i] == MigratedRow(rows, i);
      assert rows[i].status.Open? && rows[i].site == site && rows[i].device == device;
    }
  }

  /**
   Of a device's open incidents the one that began first stays open, under the device's key;
   the others are closed.  Incidents that had ended stay as they were.
   */
  lemma MigratedExactly(rows: seq<Instance>, i: nat)
    requires i < |rows|
    ensures var row := Migrated(rows)[i];
            if !rows[i].status.Open? then row == rows[i]
            else if (forall j :: 0 <= j < |rows| && j != i && rows[j].status.Open?
                                 && rows[j].site == rows[i].site && rows[j].device == rows[i].device ==>
                       rows[i].downAt < rows[j].downAt || (rows[i].downAt == rows[j].downAt && i < j))
            then row == rows[i].(key := SiteDevice(rows[i].site, rows[i].device))
            else row == rows[i].(status := Closed)
  {
    if Repeats(rows, i) {
      var j :| 0 <= j < |rows| && rows[j].status.Open? && Same(rows[j], (rows[i].site, rows[i].device)) && Precedes(rows, j, i);
      assert j != i && rows[j].site == rows[i].site;
    } else {
      forall j | 0 <= j < |rows| && j != i && rows[j].status.Open? && rows[j].site == rows[i].site
                 && rows[j].device == rows[i].device
        ensures rows[i].downAt < rows[j].downAt || (rows[i].downAt == rows[j].downAt && i < j)
      {
        assert Same(rows[j], (rows[i].site, rows[i].device)) && !Precedes(rows, j, i);
      }
    }
  }

  /**
   From any incidents at all, the migration leaves one open per site and device, for the
   devices that had one and no others; every incident's events
   stay in order.
   */
  lemma MigrationLeavesOneOpenEach(s: Store, site: string, device: string)
    ensures var t := Store(Migrated(s.rows), s.events);
            && OneOpenEach(t.rows)
            && (HasOpen(t.rows, site, device) <==> HasOpen(s.rows, site, device))
            && (AllTold(s) ==> AllTold(t))
  {
    var t := Store(Migrated(s.rows), s.events);
    forall i, j | 0 <= i < j < |t.rows| && t.rows[i].status.Open? && t.rows[j].status.Open?
      ensures t.rows[i].key != t.rows[j].key
    {
      MigratedKeysDiffer(s.rows, i, j);
    }
    MigratedHasOpen(s.rows, site, device);
    if AllTold(s) {
      forall id | 0 <= id < |t.rows| ensures Told(t, id) { assert Told(s, id); }
    }
  }

  // ----- any run ----------------------------------------------------------

  datatype Action = Write(b: Build) | Ack(site: string, given: seq<string>, clear: bool)

  function Act(s: Store, a: Action): Store {
    match a
    case Write(b) => Written(s, b)
    case Ack(site, given, clear) => AckGiven(s, site, given, clear)
  }

  function Run(s: Store, actions: seq<Action>): Store {
    if actions == [] then s else Act(Run(s, actions[..|actions| - 1]), actions[|actions| - 1])
  }

  /** The time of the last write of *actions*. */
  function Clock(start: int, actions: seq<Action>): int {
    if actions == [] then start
    else if actions[|actions| - 1].Write? then actions[|actions| - 1].b.at
    else Clock(start, actions[..|actions| - 1])
  }

  predicate Timely(start: int, actions: seq<Action>) {
    actions == [] ||
    (Timely(start, actions[..|actions| - 1]) &&
     (actions[|actions| - 1].Write? ==>
        actions[|actions| - 1].b.at >= Clock(start, actions[..|actions| - 1]) && Plausible(actions[|actions| - 1].b)))
  }

  lemma AckKeepsOpen(s: Store, site: string, wanted: seq<string>, clear: bool)
    requires AllTold(s)
    ensures var t := AckAll(s, site, wanted, clear);
            && (OneOpenEach(s.rows) ==> OneOpenEach(t.rows))
            && forall now :: BeganBy(s.rows, now) ==> BeganBy(t.rows, now)
  {
    AcknowledgeKeepsTold(s, site, wanted, clear);
    var t := AckAll(s, site, wanted, clear);
    assert forall i :: 0 <= i < |s.rows| ==> t.rows[i].key == s.rows[i].key && t.rows[i].status == s.rows[i].status &&
                                             t.rows[i].site == s.rows[i].site && t.rows[i].device == s.rows[i].device;
  }

  /** Over any run of writes and acknowledgements, at any times, in any order. */
  lemma {:induction false} RunsKeepIncidentsSound(s: Store, actions: seq<Action>)
    requires AllTold(s) && OneOpenEach(s.rows)
    ensures AllTold(Run(s, actions)) && OneOpenEach(Run(s, actions).rows)
  {
    if actions != [] {
      var front, last := actions[..|actions| - 1], actions[|actions| - 1];
      RunsKeepIncidentsSound(s, front);
      var t := Run(s, front);
      match last
      case Write(b) =>
        WriteKeepsTold(t, b);
        WriteKeepsOneOpenEach(t, b);
      case Ack(site, given, clear) =>
        AcknowledgeKeepsTold(t, site, Wanted(t.rows, site, given), clear);
        AckKeepsOpen(t, site, Wanted(t.rows, site, given), clear);
    }
  }

  lemma {:induction false} AckKeepsEnded(s: Store, site: string, wanted: seq<string>, clear: bool, i: nat)
    requires i < |s.rows| && !s.rows[i].status.Open?
    ensures i < |AckAll(s, site, wanted, clear).rows| && AckAll(s, site, wanted, clear).rows[i] == s.rows[i]
  {
    if wanted != [] {
      AckKeepsEnded(s, site, wanted[..|wanted| - 1], clear, i);
      AckChangesFlags(s, site, wanted[..|wanted| - 1], clear);
    }
  }

  lemma ActKeepsIncident(s: Store, a: Action, i: nat)
    requires OneOpenEach(s.rows) && i < |s.rows|
    ensures i < |Act(s, a).rows|
    ensures var before, row := s.rows[i], Act(s, a).rows[i];
            && row.site == before.site && row.device == before.device && row.key == before.key
            && row.downAt <= before.downAt && (!before.status.Open? ==> row == before)
  {
    match a
    case Write(b) =>
      NoteAllKeepsCount(s, b.devices, b);
      if IsNoted(s.rows[i], b, b.devices) {
        DownIncidentAfterWrite(s, b, i);
        assert s.rows[i].downAt in Beginnings(s.rows, b.site, b.devices, s.rows[i].device) && Keyed(s.rows[i]);
      } else {
        OtherIncidentAfterWrite(s, b, i);
      }
    case Ack(site, given, clear) =>
      AckChangesFlags(s, site, Wanted(s.rows, site, given), clear);
      if !s.rows[i].status.Open? { AckKeepsEnded(s, site, Wanted(s.rows, site, given), clear, i); }
  }

  /**
   Over any run incidents are never removed, the start of one never moves later, and one that
   has ended never changes again.
   */
  lemma {:induction false} IncidentsStay(s: Store, actions: seq<Action>, i: nat)
    requires AllTold(s) && OneOpenEach(s.rows) && i < |s.rows|
    ensures i < |Run(s, actions).rows|
    ensures var before, row := s.rows[i], Run(s, actions).rows[i];
            && row.site == before.site && row.device == before.device && row.key == before.key
            && row.downAt <= before.downAt && (!before.status.Open? ==> row == before)
  {
    if actions != [] {
      var front := actions[..|actions| - 1];
      IncidentsStay(s, front, i);
      RunsKeepIncidentsSound(s, front);
      ActKeepsIncident(Run(s, front), actions[|actions| - 1], i);
    }
  }

  /**
   With times that do not go back between the writes: no open incident is ever later than the
   last write, so each write leaves open exactly the down and the frozen.
   */
  lemma {:induction false} TimelyRunsEndAll(s: Store, start: int, actions: seq<Action>)
    requires AllTold(s) && OneOpenEach(s.rows) && BeganBy(s.rows, start) && Timely(start, actions)
    ensures BeganBy(Run(s, actions).rows, Clock(start, actions))
    ensures actions != [] && actions[|actions| - 1].Write? ==>
              OpenAreDownOrFrozen(Run(s, actions[..|actions| - 1]), actions[|actions| - 1].b)
  {
    if actions != [] {
      var front, last := actions[..|actions| - 1], actions[|actions| - 1];
      TimelyRunsEndAll(s, start, front);
      RunsKeepIncidentsSound(s, front);
      var t := Run(s, front);
      match last
      case Write(b) => WriteInTime(t, b);
      case Ack(site, given, clear) => AckKeepsOpen(t, site, Wanted(t.rows, site, given), clear);
    }
  }
}
