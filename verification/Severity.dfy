/**
 How bad a site is (nautobot_maps/alerts.py): the worst of the share of its wired devices
 that are down and of what single down devices make it, with access points that a
 wireless controller watches judged on their own.
 */
module Severity {
  import opened Levels
  import opened Numbers
  import opened Wrappers

  datatype Source = InNautobot | ByOverride | ByWireless | ByRole | ByTier | NoSource

  /**
   A device as the level sees it.  *criticality*: the custom field in Nautobot;
   *override*: the app's own mark; *coreRole*: a core keyword is in its role;
   *wireless*: a wireless controller watches it.
   */
  datatype Device = Device(
    name: string, criticality: Level, override: Option<bool>, coreRole: bool, wireless: bool, down: bool)

  /** The percentages, WIRELESS_AP_LEVEL and the tier's default (Ok: it has none). */
  datatype Settings = Settings(medium: nat, critical: nat, apLevel: Level, tierLevel: Level)

  datatype Reason =
    | Nothing
    | NotMonitored
    | AllDown(total: nat)
    | Share(down: nat, total: nat)
    | Devices(names: seq<string>)
    | AccessPoints(count: nat)

  datatype Alert = Alert(level: Level, reason: Reason, wirelessOnly: bool)

  predicate IsDeviceLevel(l: Level) { l.Low? || l.Medium? || l.Critical? }

  predicate ValidSettings(s: Settings) {
    && 1 <= s.medium < s.critical <= 100
    && IsDeviceLevel(s.apLevel)
    && (s.tierLevel.Ok? || IsDeviceLevel(s.tierLevel))
  }

  /** What the device makes its site when it is down, and why; Ok: only the share counts. */
  function DeviceLevel(d: Device, s: Settings): (r: (Level, Source))
    ensures IsDeviceLevel(d.criticality) ==> r.0 == d.criticality
    ensures !IsDeviceLevel(d.criticality) ==>
              (r.0 == Critical <==>
               || d.override == Some(true)
               || (if d.wireless then s.apLevel == Critical
                   else s.tierLevel == Critical || (d.override.None? && d.coreRole)))
    ensures ValidSettings(s) && !IsDeviceLevel(d.criticality) && r.0 != Critical ==>
              r.0 == if d.wireless then s.apLevel else s.tierLevel
    ensures r.1 == ByWireless <==> !IsDeviceLevel(d.criticality) && d.wireless && d.override != Some(true)
  {
    if IsDeviceLevel(d.criticality) then (d.criticality, InNautobot)
    else if d.wireless then
      if d.override == Some(true) then (Critical, ByOverride) else (s.apLevel, ByWireless)
    else
      var own :=
        if d.override.Some? then if d.override.value then (Critical, ByOverride) else (Ok, NoSource)
        else if d.coreRole then (Critical, ByRole)
        else (Ok, NoSource);
      if Rank(s.tierLevel) > Rank(own.0) then (s.tierLevel, ByTier) else own
  }

  /** Low, Medium or Critical by rank; Ok for rank 0. */
  function LevelAt(rank: nat): Level {
    if rank == 0 then Ok else if rank == 1 then Low else if rank == 2 then Medium else Critical
  }

  // ---------------------------------------------------------------- what the level means

  /** The rank of the device's own level, when it is down and has one of its own. */
  function OwnRankOf(d: Device, s: Settings): nat {
    if d.down && DeviceLevel(d, s).1 != ByWireless then Rank(DeviceLevel(d, s).0) else 0
  }

  /** What a level is made of: how many are wired and down, and the worst own level. */
  datatype Tally = Tally(wired: nat, wiredDown: nat, down: nat, own: nat) {
    function Plus(d: Device, s: Settings): Tally {
      Tally(
        if d.wireless then wired else wired + 1,
        if !d.wireless && d.down then wiredDown + 1 else wiredDown,
        if d.down then down + 1 else down,
        Max(own, OwnRankOf(d, s)))
    }
  }

  function TallyOf(ds: seq<Device>, s: Settings): Tally {
    if ds == [] then Tally(0, 0, 0, 0) else TallyOf(ds[..|ds| - 1], s).Plus(ds[|ds| - 1], s)
  }

  function ShareRank(down: nat, total: nat, s: Settings): nat {
    if down == 0 then 0
    else if down == total || down * 100 >= total * s.critical then 3
    else if down * 100 > total * s.medium then 2
    else 1
  }

  /** The worse of the share of wired devices down and of the worst own level. */
  function RankOf(t: Tally, s: Settings): nat {
    Max(ShareRank(t.wiredDown, t.wired, s), t.own)
  }

  /** The level the level log and the notifications see. */
  function RecordedLevel(ds: seq<Device>, s: Settings): Level {
    if ds == [] then NoData else LevelAt(RankOf(TallyOf(ds, s), s))
  }

  /** Something is down, but nothing that counts. */
  predicate OnlyAccessPoints(ds: seq<Device>, s: Settings) {
    TallyOf(ds, s).down > 0 && RankOf(TallyOf(ds, s), s) == 0
  }

  /** The level the map shows: access points alone show too, at their own level. */
  function ShownLevel(ds: seq<Device>, s: Settings): Level {
    if OnlyAccessPoints(ds, s) then s.apLevel else RecordedLevel(ds, s)
  }

  /** The devices to blame for a level of this rank, in the order given. */
  function NamesAt(ds: seq<Device>, rank: nat, s: Settings): seq<string> {
    if ds == [] then []
    else
      var d := ds[|ds| - 1];
      if OwnRankOf(d, s) == rank then NamesAt(ds[..|ds| - 1], rank, s) + [d.name]
      else NamesAt(ds[..|ds| - 1], rank, s)
  }

  function Wired(ds: seq<Device>): seq<Device> {
    if ds == [] then []
    else if ds[|ds| - 1].wireless then Wired(ds[..|ds| - 1])
    else Wired(ds[..|ds| - 1]) + [ds[|ds| - 1]]
  }

  function DownAccessPoints(ds: seq<Device>): seq<Device> {
    if ds == [] then []
    else if ds[|ds| - 1].wireless && ds[|ds| - 1].down
    then DownAccessPoints(ds[..|ds| - 1]) + [ds[|ds| - 1]]
    else DownAccessPoints(ds[..|ds| - 1])
  }

  /** Those with a level of their own. */
  function WithOwnLevel(ds: seq<Device>, s: Settings): seq<Device> {
    if ds == [] then []
    else if DeviceLevel(ds[|ds| - 1], s).1 != ByWireless
    then WithOwnLevel(ds[..|ds| - 1], s) + [ds[|ds| - 1]]
    else WithOwnLevel(ds[..|ds| - 1], s)
  }

  lemma TallyOfOneMore(ds: seq<Device>, d: Device, s: Settings)
    ensures TallyOf(ds + [d], s) == TallyOf(ds, s).Plus(d, s)
  {
    assert (ds + [d])[..|ds|] == ds;
  }

  lemma {:induction false} TallyIsBounded(ds: seq<Device>, s: Settings)
    requires ValidSettings(s)
    ensures var t := TallyOf(ds, s);
            t.own <= 3 && t.wiredDown <= t.wired <= |ds| && t.wiredDown <= t.down <= |ds| && (t.down == 0 ==> t.own == 0)
  {
    if ds != [] { TallyIsBounded(ds[..|ds| - 1], s); }
  }

  // ---------------------------------------------------------------- by the devices

  function WiredOnes(ds: seq<Device>): set<nat> { set i: nat | i < |ds| && !ds[i].wireless }

  function WiredDown(ds: seq<Device>): set<nat> { set i: nat | i < |ds| && !ds[i].wireless && ds[i].down }

  lemma OneMoreWired(front: seq<Device>, d: Device)
    ensures |WiredOnes(front + [d])| == |WiredOnes(front)| + if d.wireless then 0 else 1
  {
    assert WiredOnes(front + [d]) == if d.wireless then WiredOnes(front) else WiredOnes(front) + {|front|};
  }

  lemma OneMoreWiredDown(front: seq<Device>, d: Device)
    ensures |WiredDown(front + [d])| == |WiredDown(front)| + if !d.wireless && d.down then 1 else 0
  {
    assert WiredDown(front + [d]) == if !d.wireless && d.down then WiredDown(front) + {|front|} else WiredDown(front);
  }

  lemma {:induction false} TallyCounts(ds: seq<Device>, s: Settings)
    ensures TallyOf(ds, s).wired == |WiredOnes(ds)| && TallyOf(ds, s).wiredDown == |WiredDown(ds)|
    ensures TallyOf(ds, s).down == 0 <==> forall i :: 0 <= i < |ds| ==> !ds[i].down
  {
    if ds != [] {
      var front, d := ds[..|ds| - 1], ds[|ds| - 1];
      TallyCounts(front, s);
      OneMoreWired(front, d);
      OneMoreWiredDown(front, d);
      assert ds == front + [d];
      assert forall i :: 0 <= i < |front| ==> front[i] == ds[i];
    }
  }

  /** The device is down and makes its site at least this bad, by more than being an access point. */
  predicate Makes(d: Device, s: Settings, rank: nat) {
    d.down && DeviceLevel(d, s).1 != ByWireless && Rank(DeviceLevel(d, s).0) >= rank
  }

  lemma {:induction false} OwnIsWorst(ds: seq<Device>, s: Settings, rank: nat)
    requires rank > 0
    ensures TallyOf(ds, s).own >= rank <==> exists i :: 0 <= i < |ds| && Makes(ds[i], s, rank)
  {
    if ds != [] {
      var front, d := ds[..|ds| - 1], ds[|ds| - 1];
      OwnIsWorst(front, s, rank);
      if i :| 0 <= i < |front| && Makes(front[i], s, rank) { assert Makes(ds[i], s, rank); }
      if i :| 0 <= i < |ds| && Makes(ds[i], s, rank) { assert i < |front| ==> Makes(front[i], s, rank); }
      assert d == ds[|front|];
    }
  }

  /**
   The recorded level is at least Critical, Medium or Low exactly when a down device makes the
   site so bad, or the share of wired devices down does: all or the critical percentage of them,
   more than the medium one, or any.
   */
  lemma RecordedLevelExactly(ds: seq<Device>, s: Settings, rank: nat)
    requires ds != [] && ValidSettings(s) && 1 <= rank <= 3
    ensures var down, total := |WiredDown(ds)|, |WiredOnes(ds)|;
            Rank(RecordedLevel(ds, s)) >= rank <==>
            || (exists i :: 0 <= i < |ds| && Makes(ds[i], s, rank))
            || (down > 0 && (rank == 1 || down == total || down * 100 >= total * s.critical
                             || (rank == 2 && down * 100 > total * s.medium)))
  {
    TallyCounts(ds, s);
    OwnIsWorst(ds, s, rank);
    TallyIsBounded(ds, s);
  }

  /** Access points alone show at their own level; else what is shown is what is recorded. */
  lemma ShownLevelExactly(ds: seq<Device>, s: Settings)
    requires ValidSettings(s)
    ensures ShownLevel(ds, s) ==
            if RecordedLevel(ds, s) == Ok && exists i :: 0 <= i < |ds| && ds[i].down then s.apLevel else RecordedLevel(ds, s)
  {
    TallyCounts(ds, s);
    TallyIsBounded(ds, s);
  }

  /** The names given for a level are those of the devices that make the site just so bad. */
  lemma {:induction false} NamesExactly(ds: seq<Device>, s: Settings, rank: nat, name: string)
    requires rank > 0
    ensures name in NamesAt(ds, rank, s) <==>
            exists i :: 0 <= i < |ds| && ds[i].name == name && Makes(ds[i], s, rank) && !Makes(ds[i], s, rank + 1)
  {
    if ds != [] {
      var front, d := ds[..|ds| - 1], ds[|ds| - 1];
      NamesExactly(front, s, rank, name);
      if i :| 0 <= i < |front| && front[i].name == name && Makes(front[i], s, rank) && !Makes(front[i], s, rank + 1) {
        assert ds[i] == front[i];
      }
      if i :| 0 <= i < |ds| && ds[i].name == name && Makes(ds[i], s, rank) && !Makes(ds[i], s, rank + 1) {
        assert i < |front| ==> ds[i] == front[i];
      }
      assert d == ds[|front|];
    }
  }

  // ---------------------------------------------------------------- computing it

  lemma {:induction false} NoNamesAbove(ds: seq<Device>, rank: nat, s: Settings)
    requires rank > TallyOf(ds, s).own
    ensures NamesAt(ds, rank, s) == []
  {
    if ds != [] { NoNamesAbove(ds[..|ds| - 1], rank, s); }
  }

  /** The worst level the down devices give, and which of them give it. */
  method WorstOfDown(devices: seq<Device>, s: Settings)
    returns (downCount: nat, worst: Level, names: seq<string>)
    requires ValidSettings(s)
    requires forall d <- devices :: !d.wireless
    ensures downCount == TallyOf(devices, s).down
    ensures worst == LevelAt(TallyOf(devices, s).own)
    ensures worst != Ok ==> names == NamesAt(devices, TallyOf(devices, s).own, s)
  {
    downCount, worst, names := 0, Ok, [];
    for i := 0 to |devices|
      invariant downCount == TallyOf(devices[..i], s).down
      invariant TallyOf(devices[..i], s).own <= 3 && worst == LevelAt(TallyOf(devices[..i], s).own)
      invariant names == if worst == Ok then [] else NamesAt(devices[..i], TallyOf(devices[..i], s).own, s)
    {
      assert devices[..i + 1][..i] == devices[..i];
      if !devices[i].down { continue; }
      downCount := downCount + 1;
      var level := DeviceLevel(devices[i], s).0;
      if level == Ok { continue; }
      var rank, worstRank := Rank(level), Rank(worst);
      if rank > worstRank {
        NoNamesAbove(devices[..i], rank, s);
        worst, names := level, [];
      }
      if rank >= worstRank { names := names + [devices[i].name]; }
    }
    assert devices[..|devices|] == devices;
  }

  method ComputeWiredLevel(devices: seq<Device>, s: Settings) returns (alert: Alert)
    requires ValidSettings(s)
    requires devices != [] && forall d <- devices :: !d.wireless
    ensures alert.level == LevelAt(RankOf(TallyOf(devices, s), s))
    ensures alert.reason.Devices? ==> alert.reason.names == NamesAt(devices, Rank(alert.level), s)
    ensures alert.reason.AllDown? ==> alert.reason.total == |devices| == TallyOf(devices, s).down
    ensures alert.reason.Share? ==> alert.reason == Share(TallyOf(devices, s).down, |devices|)
    ensures alert.reason.Nothing? <==> alert.level == Ok
    ensures !alert.reason.NotMonitored? && !alert.reason.AccessPoints? && !alert.wirelessOnly
  {
    AllAreWired(devices, s);
    TallyIsBounded(devices, s);
    var downCount, worst, names := WorstOfDown(devices, s);
    if worst == Critical { return Alert(Critical, Devices(names), false); }
    var total := |devices|;
    if downCount == total { return Alert(Critical, AllDown(total), false); }
    if downCount == 0 { return Alert(Ok, Nothing, false); }
    var shareLevel :=
      if downCount * 100 >= total * s.critical then Critical
      else if downCount * 100 > total * s.medium then Medium
      else Low;
    if Rank(worst) > Rank(shareLevel) { return Alert(worst, Devices(names), false); }
    return Alert(shareLevel, Share(downCount, total), false);
  }

  lemma {:induction false} AllAreWired(ds: seq<Device>, s: Settings)
    requires forall d <- ds :: !d.wireless
    ensures TallyOf(ds, s).wired == |ds| && TallyOf(ds, s).wiredDown == TallyOf(ds, s).down
  {
    if ds != [] { AllAreWired(ds[..|ds| - 1], s); }
  }

  lemma {:induction false} TallyOfWired(ds: seq<Device>, s: Settings)
    ensures forall d <- Wired(ds) :: !d.wireless
    ensures TallyOf(Wired(ds), s).wired == TallyOf(ds, s).wired == |Wired(ds)|
    ensures TallyOf(Wired(ds), s).wiredDown == TallyOf(ds, s).wiredDown
  {
    if ds != [] {
      TallyOfWired(ds[..|ds| - 1], s);
      TallyOfOneMore(Wired(ds[..|ds| - 1]), ds[|ds| - 1], s);
    }
  }

  /** A down device is wired or an access point, and so is what makes the site worse. */
  lemma {:induction false} WiredOrAccessPoint(ds: seq<Device>, s: Settings)
    ensures TallyOf(ds, s).down == TallyOf(ds, s).wiredDown + |DownAccessPoints(ds)|
    ensures TallyOf(ds, s).own ==
            Max(TallyOf(Wired(ds), s).own, TallyOf(DownAccessPoints(ds), s).own)
  {
    if ds != [] {
      var front, d := ds[..|ds| - 1], ds[|ds| - 1];
      WiredOrAccessPoint(front, s);
      TallyOfOneMore(Wired(front), d, s);
      TallyOfOneMore(DownAccessPoints(front), d, s);
    }
  }

  lemma OwnRankOfAccessPoint(d: Device, s: Settings)
    requires ValidSettings(s) && d.wireless && d.down
    ensures 0 < OwnRankOf(d, s) <= 3 <==> DeviceLevel(d, s).1 != ByWireless
    ensures OwnRankOf(d, s) == 0 <==> DeviceLevel(d, s).1 == ByWireless
  {
  }

  /** Of access points that are down, those with an own level give the worst one. */
  lemma {:induction false} OwnLevelsCount(aps: seq<Device>, s: Settings)
    requires ValidSettings(s)
    requires forall d <- aps :: d.wireless && d.down
    ensures TallyOf(WithOwnLevel(aps, s), s).own == TallyOf(aps, s).own <= 3
    ensures WithOwnLevel(aps, s) == [] <==> TallyOf(aps, s).own == 0
  {
    if aps != [] {
      var front, d := aps[..|aps| - 1], aps[|aps| - 1];
      assert d in aps;
      OwnRankOfAccessPoint(d, s);
      OwnLevelsCount(front, s);
      if DeviceLevel(d, s).1 != ByWireless { TallyOfOneMore(WithOwnLevel(front, s), d, s); }
    }
  }

  lemma {:induction false} DownAccessPointsAre(ds: seq<Device>)
    ensures forall d <- DownAccessPoints(ds) :: d.wireless && d.down
  {
    if ds != [] { DownAccessPointsAre(ds[..|ds| - 1]); }
  }

  /** What the access points that are down add to the level of the wired devices. */
  method JudgeAccessPoints(alert: Alert, downAps: seq<Device>, s: Settings, ghost wiredRank: nat)
    returns (judged: Alert)
    requires ValidSettings(s)
    requires forall d <- downAps :: d.wireless && d.down
    requires wiredRank <= 3 && alert.level == LevelAt(wiredRank) && !alert.wirelessOnly
    ensures judged.wirelessOnly <==> downAps != [] && Max(wiredRank, TallyOf(downAps, s).own) == 0
    ensures judged.level == if judged.wirelessOnly then s.apLevel else LevelAt(Max(wiredRank, TallyOf(downAps, s).own))
    ensures judged.wirelessOnly ==> judged.reason == AccessPoints(|downAps|)
    ensures judged == alert || judged.wirelessOnly
            || judged.reason == Devices(NamesAt(WithOwnLevel(downAps, s), Rank(judged.level), s))
  {
    if downAps == [] { return alert; }
    OwnLevelsCount(downAps, s);
    var own := WithOwnLevel(downAps, s);
    var ownRank := TallyOf(own, s).own;
    if own != [] {
      judged := Worsened(alert, ownRank, NamesAt(own, ownRank, s), wiredRank);
      return;
    }
    if alert.level != Ok { return alert; }
    return Alert(s.apLevel, AccessPoints(|downAps|), true);
  }

  /** The alert, or a worse one for these devices. */
  method Worsened(alert: Alert, rank: nat, names: seq<string>, ghost wiredRank: nat) returns (worse: Alert)
    requires 0 < rank <= 3 && wiredRank <= 3 && alert.level == LevelAt(wiredRank)
    ensures worse == if rank > wiredRank then Alert(LevelAt(rank), Devices(names), false) else alert
    ensures Rank(LevelAt(rank)) == rank
  {
    var worst := LevelAt(rank);
    if Rank(worst) > Rank(alert.level) { return Alert(worst, Devices(names), false); }
    return alert;
  }

  lemma RankOfParts(t: Tally, wired: Tally, apOwn: nat, s: Settings)
    requires t.wired == wired.wired && t.wiredDown == wired.wiredDown && t.own == Max(wired.own, apOwn)
    ensures RankOf(t, s) == Max(RankOf(wired, s), apOwn)
    ensures RankOf(wired, s) == 0 ==> wired.wiredDown == 0
    ensures wired.own <= 3 ==> RankOf(wired, s) <= 3
    ensures wired.wiredDown == 0 && wired.own == 0 ==> RankOf(wired, s) == 0
  {
  }

  /** The rank of the whole site from those of its wired devices and its access points. */
  lemma PartsOfSite(ds: seq<Device>, wired: seq<Device>, aps: seq<Device>, s: Settings)
    requires ValidSettings(s) && wired == Wired(ds) && aps == DownAccessPoints(ds)
    ensures forall d <- wired :: !d.wireless
    ensures forall d <- aps :: d.wireless && d.down
    ensures RankOf(TallyOf(ds, s), s) == Max(RankOf(TallyOf(wired, s), s), TallyOf(aps, s).own)
    ensures RankOf(TallyOf(wired, s), s) <= 3 && (wired == [] ==> RankOf(TallyOf(wired, s), s) == 0)
    ensures RankOf(TallyOf(ds, s), s) == 0 ==> TallyOf(ds, s).down == |aps|
  {
    TallyOfWired(ds, s);
    TallyIsBounded(wired, s);
    DownAccessPointsAre(ds);
    WiredOrAccessPoint(ds, s);
    RankOfParts(TallyOf(ds, s), TallyOf(wired, s), TallyOf(aps, s).own, s);
  }

  method ComputeAlertLevel(devices: seq<Device>, s: Settings) returns (alert: Alert)
    requires ValidSettings(s)
    ensures alert.level == ShownLevel(devices, s)
    ensures alert.wirelessOnly <==> OnlyAccessPoints(devices, s)
    ensures (if alert.wirelessOnly then Ok else alert.level) == RecordedLevel(devices, s)
    ensures alert.wirelessOnly ==> alert.reason == AccessPoints(TallyOf(devices, s).down)
    ensures alert.reason.Devices? ==>
              || alert.reason.names == NamesAt(Wired(devices), Rank(alert.level), s)
              || alert.reason.names == NamesAt(WithOwnLevel(DownAccessPoints(devices), s), Rank(alert.level), s)
  {
    if devices == [] { return Alert(NoData, NotMonitored, false); }
    var wired := Wired(devices);
    var downAps := DownAccessPoints(devices);
    PartsOfSite(devices, wired, downAps, s);
    var wiredAlert := Alert(Ok, Nothing, false);
    if wired != [] { wiredAlert := ComputeWiredLevel(wired, s); }
    alert := JudgeAccessPoints(wiredAlert, downAps, s, RankOf(TallyOf(wired, s), s));
  }

  // ---------------------------------------------------------------- more devices down

  /** The same devices in the same places, *b* with at least those of *a* down. */
  predicate MoreDown(a: seq<Device>, b: seq<Device>) {
    |a| == |b| && forall i :: 0 <= i < |a| ==> b[i] == a[i] || b[i] == a[i].(down := true)
  }

  lemma ShareIsMonotone(k: nat, m: nat, total: nat, s: Settings)
    requires ValidSettings(s) && k <= m <= total
    ensures ShareRank(k, total, s) <= ShareRank(m, total, s)
  {
    if k != 0 && m != total {
      assert k * 100 <= m * 100;
    }
  }

  lemma {:induction false} TallyIsMonotone(a: seq<Device>, b: seq<Device>, s: Settings)
    requires MoreDown(a, b)
    ensures var t, u := TallyOf(a, s), TallyOf(b, s);
            t.wired == u.wired && t.wiredDown <= u.wiredDown && t.down <= u.down && t.own <= u.own
  {
    if a != [] { TallyIsMonotone(a[..|a| - 1], b[..|b| - 1], s); }
  }

  lemma RankIsMonotone(a: seq<Device>, b: seq<Device>, s: Settings)
    requires ValidSettings(s) && MoreDown(a, b)
    ensures RankOf(TallyOf(a, s), s) <= RankOf(TallyOf(b, s), s) <= 3
    ensures TallyOf(a, s).down <= TallyOf(b, s).down
  {
    TallyIsMonotone(a, b, s);
    TallyIsBounded(b, s);
    ShareIsMonotone(TallyOf(a, s).wiredDown, TallyOf(b, s).wiredDown, TallyOf(a, s).wired, s);
  }

  /** More devices down never makes the recorded level better. */
  lemma RecordedLevelIsMonotone(a: seq<Device>, b: seq<Device>, s: Settings)
    requires ValidSettings(s) && MoreDown(a, b)
    ensures Rank(RecordedLevel(a, s)) <= Rank(RecordedLevel(b, s))
  {
    RankIsMonotone(a, b, s);
  }

  ghost predicate ShownLevelIsMonotone(s: Settings) {
    forall a: seq<Device>, b: seq<Device> | MoreDown(a, b) :: Rank(ShownLevel(a, s)) <= Rank(ShownLevel(b, s))
  }

  function Switch(down: bool): Device { Device("switch", Low, None, false, false, down) }

  function UpSwitches(n: nat): seq<Device> {
    if n == 0 then [] else UpSwitches(n - 1) + [Switch(false)]
  }

  lemma {:induction false} UpSwitchesAreUp(n: nat, s: Settings)
    ensures TallyOf(UpSwitches(n), s) == Tally(n, 0, 0, 0)
  {
    if n > 0 {
      UpSwitchesAreUp(n - 1, s);
      TallyOfOneMore(UpSwitches(n - 1), Switch(false), s);
    }
  }

  /** *n* switches that are up, one that may be down, and an access point that is down. */
  function Example(n: nat, down: bool): seq<Device> {
    UpSwitches(n) + [Switch(down)] + [Device("ap", Ok, None, false, true, true)]
  }

  lemma OneOfMany(total: nat, s: Settings)
    requires ValidSettings(s) && total > 100
    ensures ShareRank(1, total, s) == 1
  {
    assert 2 * total <= total * s.critical;
    assert total <= total * s.medium;
  }

  lemma ExampleTally(n: nat, down: bool, s: Settings)
    ensures TallyOf(Example(n, down), s) ==
            if down then Tally(n + 1, 1, 2, 1) else Tally(n + 1, 0, 1, 0)
  {
    UpSwitchesAreUp(n, s);
    TallyOfOneMore(UpSwitches(n), Switch(down), s);
    TallyOfOneMore(UpSwitches(n) + [Switch(down)], Device("ap", Ok, None, false, true, true), s);
  }

  lemma NotMonotone(n: nat, s: Settings)
    requires ValidSettings(s) && s.apLevel != Low && n >= 100
    ensures !ShownLevelIsMonotone(s)
  {
    ExampleTally(n, false, s);
    ExampleTally(n, true, s);
    OneOfMany(n + 1, s);
    var a, b := Example(n, false), Example(n, true);
    assert MoreDown(a, b);
    assert ShownLevel(a, s) == s.apLevel && ShownLevel(b, s) == Low;
    assert Rank(ShownLevel(a, s)) > Rank(ShownLevel(b, s));
  }

  /**
   The level shown does not have this property unless access points alone count as Low:
   with a worse WIRELESS_AP_LEVEL a switch that goes down as well can make it better.
   */
  lemma ShownLevelIsMonotoneExactly(s: Settings)
    requires ValidSettings(s)
    ensures ShownLevelIsMonotone(s) <==> s.apLevel == Low
  {
    if s.apLevel == Low {
      forall a: seq<Device>, b: seq<Device> | MoreDown(a, b)
        ensures Rank(ShownLevel(a, s)) <= Rank(ShownLevel(b, s))
      {
        RankIsMonotone(a, b, s);
      }
    } else {
      NotMonotone(100, s);
    }
  }

  // ---------------------------------------------------------------- order and access points

  /** A device counts the same wherever it stands. */
  lemma {:induction false} PlaceDoesNotMatter(before: seq<Device>, d: Device, after: seq<Device>, s: Settings)
    ensures TallyOf(before + [d] + after, s) == TallyOf(before + after, s).Plus(d, s)
    decreases |after|
  {
    if after == [] {
      assert before + [d] + after == before + [d] && before + after == before;
      TallyOfOneMore(before, d, s);
    } else {
      var front, last := after[..|after| - 1], after[|after| - 1];
      PlaceDoesNotMatter(before, d, front, s);
      assert before + [d] + after == (before + [d] + front) + [last];
      assert before + after == (before + front) + [last];
      TallyOfOneMore(before + [d] + front, last, s);
      TallyOfOneMore(before + front, last, s);
    }
  }

  /** A place of *d* in *b*, and what is left without it. */
  lemma PlaceOf(b: seq<Device>, d: Device) returns (i: nat)
    requires d in b
    ensures i < |b| && b[i] == d && b == b[..i] + [d] + b[i + 1..]
    ensures multiset(b[..i] + b[i + 1..]) == multiset(b) - multiset{d}
  {
    i :| i < |b| && b[i] == d;
    assert b == b[..i] + [d] + b[i + 1..];
  }

  lemma {:induction false} TallyIgnoresOrder(a: seq<Device>, b: seq<Device>, s: Settings)
    requires multiset(a) == multiset(b)
    ensures TallyOf(a, s) == TallyOf(b, s)
    decreases |a|
  {
    assert |multiset(a)| == |a| && |multiset(b)| == |b|;
    if a != [] {
      var front, d := a[..|a| - 1], a[|a| - 1];
      assert a == front + [d];
      assert d in multiset(b);
      var i := PlaceOf(b, d);
      var before, after := b[..i], b[i + 1..];
      TallyIgnoresOrder(front, before + after, s);
      PlaceDoesNotMatter(before, d, after, s);
    }
  }

  lemma OrderDoesNotMatter(a: seq<Device>, b: seq<Device>, s: Settings)
    requires multiset(a) == multiset(b)
    ensures RecordedLevel(a, s) == RecordedLevel(b, s)
    ensures ShownLevel(a, s) == ShownLevel(b, s)
  {
    assert |multiset(a)| == |a| && |multiset(b)| == |b|;
    TallyIgnoresOrder(a, b, s);
  }

  /** An access point that only WIRELESS_AP_LEVEL applies to. */
  predicate IsPlainAccessPoint(d: Device) {
    d.wireless && !IsDeviceLevel(d.criticality) && d.override != Some(true)
  }

  function WithoutPlain(ds: seq<Device>): seq<Device> {
    if ds == [] then []
    else if IsPlainAccessPoint(ds[|ds| - 1]) then WithoutPlain(ds[..|ds| - 1])
    else WithoutPlain(ds[..|ds| - 1]) + [ds[|ds| - 1]]
  }

  lemma {:induction false} PlainDoNotTally(ds: seq<Device>, s: Settings)
    ensures var t, u := TallyOf(ds, s), TallyOf(WithoutPlain(ds), s);
            t.wired == u.wired && t.wiredDown == u.wiredDown && t.own == u.own
  {
    if ds != [] {
      PlainDoNotTally(ds[..|ds| - 1], s);
      TallyOfOneMore(WithoutPlain(ds[..|ds| - 1]), ds[|ds| - 1], s);
    }
  }

  /** However many access points drop, the recorded level is that of the other devices. */
  lemma PlainAccessPointsDoNotCount(ds: seq<Device>, s: Settings)
    requires WithoutPlain(ds) != []
    ensures RecordedLevel(ds, s) == RecordedLevel(WithoutPlain(ds), s)
  {
    PlainDoNotTally(ds, s);
  }
}
