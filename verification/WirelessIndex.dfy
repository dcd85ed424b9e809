/**
 What the wireless controllers say of a device (nautobot_maps/wireless.py): an index of
 their access points by serial and by name, and the same index built from the rows of a few
 devices only.
 */
module WirelessIndex {
  import opened Wrappers

  /** A row of wireless_ap_status, keys already normalized; an empty key is none. */
  datatype Row = Row(controller: string, serial: string, name: string, up: bool, ip: string, seen: int)

  /** A row of wireless_pnp_status. */
  datatype PnpRow = PnpRow(controller: string, serial: string, state: string, error: string, seen: int)

  datatype AccessPoint = AccessPoint(up: bool, ip: string, controller: string, stale: bool)

  datatype Onboarding = Onboarding(state: string, error: string, controller: string, stale: bool)

  datatype Index = Index(
    serial: map<string, AccessPoint>, name: map<string, AccessPoint>, pnp: map<string, Onboarding>)

  /** *serial*, *name*: its keys; *isAccessPoint*: by its role. */
  datatype Device = Device(serial: string, name: string, isAccessPoint: bool)

  datatype Kind = BySerial | ByName

  function KeyOf(row: Row, kind: Kind): string { if kind == BySerial then row.serial else row.name }

  /** The newest answer wins; on a tie, up. */
  predicate Outranks(a: Row, b: Row) { a.seen > b.seen || (a.seen == b.seen && a.up && !b.up) }

  /** Who carries a name: the access point by its serial, or one without by where it is listed. */
  function Carrier(row: Row): string { if row.serial != "" then row.serial else row.controller + ":" + row.name }

  function ApOf(row: Row, staleBefore: int): AccessPoint {
    AccessPoint(row.up, row.ip, row.controller, row.seen < staleBefore)
  }

  function OnboardingOf(row: PnpRow, staleBefore: int): Onboarding {
    Onboarding(row.state, row.error, row.controller, row.seen < staleBefore)
  }

  // ---------------------------------------------------------------- what one key's entry is

  function Best(rows: seq<Row>, kind: Kind, key: string): Option<Row> {
    if rows == [] then None
    else
      var row, best := rows[|rows| - 1], Best(rows[..|rows| - 1], kind, key);
      if KeyOf(row, kind) == key && (best.None? || Outranks(row, best.value)) then Some(row) else best
  }

  function Carriers(rows: seq<Row>, name: string): set<string> {
    if rows == [] then {}
    else
      var row := rows[|rows| - 1];
      Carriers(rows[..|rows| - 1], name) + if row.name == name then {Carrier(row)} else {}
  }

  function BestPnp(rows: seq<PnpRow>, serial: string): Option<PnpRow> {
    if rows == [] then None
    else
      var row, best := rows[|rows| - 1], BestPnp(rows[..|rows| - 1], serial);
      if row.serial == serial && (best.None? || best.value.seen < row.seen) then Some(row) else best
  }

  function Entry(rows: seq<Row>, kind: Kind, key: string, staleBefore: int): Option<AccessPoint> {
    var best := Best(rows, kind, key);
    if key == "" || best.None? || (kind == ByName && |Carriers(rows, key)| > 1) then None
    else Some(ApOf(best.value, staleBefore))
  }

  function Get<V>(m: map<string, V>, key: string): Option<V> { if key in m then Some(m[key]) else None }

  // ---------------------------------------------------------------- building the index

  function Consider(best: map<string, Row>, key: string, row: Row): map<string, Row> {
    if key != "" && (key !in best || Outranks(row, best[key])) then best[key := row] else best
  }

  ghost predicate HoldsBest(best: map<string, Row>, rows: seq<Row>, kind: Kind) {
    forall key :: Get(best, key) == if key == "" then None else Best(rows, kind, key)
  }

  ghost predicate HoldsCarriers(carriers: map<string, set<string>>, rows: seq<Row>) {
    && (forall key :: key in carriers <==> key != "" && Carriers(rows, key) != {})
    && (forall key <- carriers :: carriers[key] == Carriers(rows, key))
  }

  function AddCarrier(carriers: map<string, set<string>>, row: Row): map<string, set<string>> {
    if row.name == "" then carriers
    else carriers[row.name := (if row.name in carriers then carriers[row.name] else {}) + {Carrier(row)}]
  }

  lemma ConsiderKeepsBest(best: map<string, Row>, rows: seq<Row>, row: Row, kind: Kind)
    requires HoldsBest(best, rows, kind)
    ensures HoldsBest(Consider(best, KeyOf(row, kind), row), rows + [row], kind)
  {
    assert (rows + [row])[..|rows|] == rows;
    forall key
      ensures Get(Consider(best, KeyOf(row, kind), row), key) ==
              if key == "" then None else Best(rows + [row], kind, key)
    {
      assert Get(best, key) == if key == "" then None else Best(rows, kind, key);
    }
  }

  lemma AddCarrierKeeps(carriers: map<string, set<string>>, rows: seq<Row>, row: Row)
    requires HoldsCarriers(carriers, rows)
    ensures HoldsCarriers(AddCarrier(carriers, row), rows + [row])
  {
    assert (rows + [row])[..|rows|] == rows;
  }

  method ReadRows(rows: seq<Row>)
    returns (serials: map<string, Row>, names: map<string, Row>, carriers: map<string, set<string>>)
    ensures HoldsBest(serials, rows, BySerial) && HoldsBest(names, rows, ByName) && HoldsCarriers(carriers, rows)
  {
    serials, names, carriers := map[], map[], map[];
    for k := 0 to |rows|
      invariant HoldsBest(serials, rows[..k], BySerial)
      invariant HoldsBest(names, rows[..k], ByName)
      invariant HoldsCarriers(carriers, rows[..k])
    {
      assert rows[..k + 1] == rows[..k] + [rows[k]];
      ConsiderKeepsBest(serials, rows[..k], rows[k], BySerial);
      ConsiderKeepsBest(names, rows[..k], rows[k], ByName);
      AddCarrierKeeps(carriers, rows[..k], rows[k]);
      serials := Consider(serials, rows[k].serial, rows[k]);
      names := Consider(names, rows[k].name, rows[k]);
      carriers := AddCarrier(carriers, rows[k]);
    }
    assert rows[..|rows|] == rows;
  }

  /** A name two different access points carry is left out. */
  method DropAmbiguous(names: map<string, Row>, carriers: map<string, set<string>>) returns (kept: map<string, Row>)
    ensures forall key :: Get(kept, key) == if key in carriers && |carriers[key]| > 1 then None else Get(names, key)
  {
    kept := names;
    var todo := carriers.Keys;
    while todo != {}
      invariant todo <= carriers.Keys
      invariant forall key :: Get(kept, key) ==
                              if key in carriers && key !in todo && |carriers[key]| > 1 then None else Get(names, key)
      decreases |todo|
    {
      var name :| name in todo;
      if |carriers[name]| > 1 { kept := kept - {name}; }
      todo := todo - {name};
    }
  }

  method ReadPnp(rows: seq<PnpRow>, staleBefore: int) returns (pnp: map<string, Onboarding>)
    ensures forall key :: Get(pnp, key) ==
                          if BestPnp(rows, key).None? then None
                          else Some(OnboardingOf(BestPnp(rows, key).value, staleBefore))
  {
    var found: map<string, PnpRow> := map[];
    for k := 0 to |rows|
      invariant forall key :: Get(found, key) == BestPnp(rows[..k], key)
    {
      assert rows[..k + 1][..k] == rows[..k];
      var row := rows[k];
      if row.serial in found && found[row.serial].seen >= row.seen { continue; }
      found := found[row.serial := row];
    }
    assert rows[..|rows|] == rows;
    pnp := map key | key in found :: OnboardingOf(found[key], staleBefore);
    assert forall key :: Get(found, key) == BestPnp(rows, key);
  }

  /** The index says of every key what its rows say. */
  ghost predicate IsIndexOf(index: Index, rows: seq<Row>, pnpRows: seq<PnpRow>, staleBefore: int) {
    && (forall key :: Get(index.serial, key) == Entry(rows, BySerial, key, staleBefore))
    && (forall key :: Get(index.name, key) == Entry(rows, ByName, key, staleBefore))
    && (forall key :: Get(index.pnp, key) ==
                      if BestPnp(pnpRows, key).None? then None
                      else Some(OnboardingOf(BestPnp(pnpRows, key).value, staleBefore)))
  }

  method ReadIndex(rows: seq<Row>, pnpRows: seq<PnpRow>, staleBefore: int) returns (index: Index)
    ensures IsIndexOf(index, rows, pnpRows, staleBefore)
  {
    var serials, names, carriers := ReadRows(rows);
    var kept := DropAmbiguous(names, carriers);
    var pnp := ReadPnp(pnpRows, staleBefore);
    index := Index(
      map key | key in serials :: ApOf(serials[key], staleBefore),
      map key | key in kept :: ApOf(kept[key], staleBefore),
      pnp);
    forall key ensures Get(index.serial, key) == Entry(rows, BySerial, key, staleBefore) {
      assert Get(serials, key) == if key == "" then None else Best(rows, BySerial, key);
    }
    forall key ensures Get(index.name, key) == Entry(rows, ByName, key, staleBefore) {
      assert Get(names, key) == if key == "" then None else Best(rows, ByName, key);
      assert Get(kept, key) == if key in carriers && |carriers[key]| > 1 then None else Get(names, key);
    }
  }

  // ---------------------------------------------------------------- what the best row is

  /** The entry is of a row of that key that none of that key outranks. */
  lemma {:induction false} BestMeaning(rows: seq<Row>, kind: Kind, key: string)
    ensures Best(rows, kind, key).Some? <==> exists r :: r in rows && KeyOf(r, kind) == key
    ensures var best := Best(rows, kind, key);
            best.Some? ==>
              && best.value in rows && KeyOf(best.value, kind) == key
              && forall r <- rows | KeyOf(r, kind) == key :: !Outranks(r, best.value)
  {
    if rows != [] {
      BestMeaning(rows[..|rows| - 1], kind, key);
      assert rows == rows[..|rows| - 1] + [rows[|rows| - 1]];
    }
  }

  lemma {:induction false} CarriersMeaning(rows: seq<Row>, name: string, carrier: string)
    ensures carrier in Carriers(rows, name) <==> exists r :: r in rows && r.name == name && Carrier(r) == carrier
  {
    if rows != [] {
      CarriersMeaning(rows[..|rows| - 1], name, carrier);
      assert rows == rows[..|rows| - 1] + [rows[|rows| - 1]];
    }
  }

  lemma OneOrMore<T>(s: set<T>, a: T)
    requires a in s
    ensures |s| > 1 <==> exists b :: b in s && b != a
  {
    if b :| b in s && b != a {
      assert {a, b} <= s && |{a, b}| == 2;
      assert s == {a, b} + (s - {a, b});
    } else {
      assert s == {a};
    }
  }

  /** A name is in the index exactly when rows carry it and they are all of one access point. */
  lemma NameIsFoundExactly(rows: seq<Row>, name: string, staleBefore: int)
    ensures Entry(rows, ByName, name, staleBefore).Some? <==>
            && name != ""
            && (exists r :: r in rows && r.name == name)
            && (forall a, b | a in rows && b in rows && a.name == name && b.name == name :: Carrier(a) == Carrier(b))
  {
    BestMeaning(rows, ByName, name);
    var carriers := Carriers(rows, name);
    forall r | r in rows && r.name == name ensures Carrier(r) in carriers {
      CarriersMeaning(rows, name, Carrier(r));
    }
    if r :| r in rows && r.name == name {
      OneOrMore(carriers, Carrier(r));
      if b :| b in carriers && b != Carrier(r) {
        CarriersMeaning(rows, name, b);
        var other :| other in rows && other.name == name && Carrier(other) == b;
        assert Carrier(other) != Carrier(r);
      }
    }
  }

  // ---------------------------------------------------------------- only some devices' rows

  /** match_keys: what the devices are found by. */
  function Serials(devices: seq<Device>): set<string> { (set d <- devices :: d.serial) - {""} }

  function Names(devices: seq<Device>): set<string> { (set d <- devices | d.isAccessPoint :: d.name) - {""} }

  /** The query's condition with those keys. */
  predicate IsWanted(row: Row, serials: set<string>, names: set<string>) {
    row.serial in serials || row.name in names
  }

  function Wanted(rows: seq<Row>, serials: set<string>, names: set<string>): seq<Row> {
    if rows == [] then []
    else if IsWanted(rows[|rows| - 1], serials, names)
    then Wanted(rows[..|rows| - 1], serials, names) + [rows[|rows| - 1]]
    else Wanted(rows[..|rows| - 1], serials, names)
  }

  function WantedPnp(rows: seq<PnpRow>, serials: set<string>): seq<PnpRow> {
    if rows == [] then []
    else if rows[|rows| - 1].serial in serials then WantedPnp(rows[..|rows| - 1], serials) + [rows[|rows| - 1]]
    else WantedPnp(rows[..|rows| - 1], serials)
  }

  lemma {:induction false} WantedHasTheSameBest(
      rows: seq<Row>, serials: set<string>, names: set<string>, kind: Kind, key: string)
    requires key in if kind == BySerial then serials else names
    ensures Best(Wanted(rows, serials, names), kind, key) == Best(rows, kind, key)
    ensures kind == ByName ==> Carriers(Wanted(rows, serials, names), key) == Carriers(rows, key)
  {
    if rows != [] {
      var front, row := rows[..|rows| - 1], rows[|rows| - 1];
      WantedHasTheSameBest(front, serials, names, kind, key);
      assert (Wanted(front, serials, names) + [row])[..|Wanted(front, serials, names)|] == Wanted(front, serials, names);
    }
  }

  lemma {:induction false} WantedHasTheSamePnp(rows: seq<PnpRow>, serials: set<string>, key: string)
    ensures BestPnp(WantedPnp(rows, serials), key) == if key in serials then BestPnp(rows, key) else None
  {
    if rows != [] {
      var front, row := rows[..|rows| - 1], rows[|rows| - 1];
      WantedHasTheSamePnp(front, serials, key);
      assert (WantedPnp(front, serials) + [row])[..|WantedPnp(front, serials)|] == WantedPnp(front, serials);
    }
  }

  function Lookup(index: Index, d: Device): Option<AccessPoint> {
    if d.serial != "" && d.serial in index.serial then Some(index.serial[d.serial])
    else if d.name != "" && d.name in index.name && d.isAccessPoint then Some(index.name[d.name])
    else None
  }

  /** A device with what the controllers say of it, or of its onboarding. */
  datatype Attached = Attached(device: Device, wireless: Option<AccessPoint>, onboarding: Option<Onboarding>)

  function AttachedTo(d: Device, index: Index): Attached {
    var ap := Lookup(index, d);
    Attached(d, ap, if ap.Some? then None else Get(index.pnp, d.serial))
  }

  method Attach(devices: seq<Device>, index: Index) returns (attached: seq<Attached>)
    ensures |attached| == |devices|
    ensures forall i :: 0 <= i < |devices| ==> attached[i] == AttachedTo(devices[i], index)
  {
    if index.serial == map[] && index.name == map[] && index.pnp == map[] {
      return seq(|devices|, i requires 0 <= i < |devices| => Attached(devices[i], None, None));
    }
    attached := [];
    for i := 0 to |devices|
      invariant |attached| == i && forall j :: 0 <= j < i ==> attached[j] == AttachedTo(devices[j], index)
    {
      var found := Attached(devices[i], None, None);
      var ap := Lookup(index, devices[i]);
      if ap.Some? {
        found := found.(wireless := ap);
      } else if devices[i].serial in index.pnp {
        found := found.(onboarding := Some(index.pnp[devices[i].serial]));
      }
      attached := attached + [found];
    }
  }

  /** The row says this of its access point. */
  predicate IsSaidBy(ap: AccessPoint, r: Row, staleBefore: int) {
    ap.up == r.up && ap.ip == r.ip && ap.controller == r.controller && (ap.stale <==> r.seen < staleBefore)
  }

  /** The row is of these, and none of these is newer, or as new and up while it is not. */
  predicate IsNewest(r: Row, rows: set<Row>) {
    r in rows && forall other <- rows :: other.seen < r.seen || (other.seen == r.seen && (other.up ==> r.up))
  }

  function WithSerial(rows: seq<Row>, serial: string): set<Row> { set r | r in rows && r.serial == serial }

  function WithName(rows: seq<Row>, name: string): set<Row> { set r | r in rows && r.name == name }

  /**
   Two rows of one name are of one access point: they have the same serial, or none and the same
   controller.  A row without a serial goes by its controller and name, as if they were one.
   */
  predicate IsOne(a: Row, b: Row) {
    if a.serial != "" && b.serial != "" then a.serial == b.serial
    else if a.serial == "" && b.serial == "" then a.controller == b.controller
    else if a.serial == "" then b.serial == a.controller + ":" + a.name
    else a.serial == b.controller + ":" + b.name
  }

  predicate AreOne(rows: set<Row>) { forall a, b | a in rows && b in rows :: IsOne(a, b) }

  lemma SameFront(a: string, b: string, back: string)
    requires a + back == b + back
    ensures a == b
  {
    assert |a| == |b|;
    assert (a + back)[..|a|] == a && (b + back)[..|b|] == b;
  }

  lemma OneCarrier(a: Row, b: Row)
    requires a.name == b.name
    ensures Carrier(a) == Carrier(b) <==> IsOne(a, b)
  {
    var back := ":" + a.name;
    assert a.controller + ":" + a.name == a.controller + back && b.controller + ":" + b.name == b.controller + back;
    if a.controller + back == b.controller + back { SameFront(a.controller, b.controller, back); }
  }

  lemma EntryMeaning(rows: seq<Row>, kind: Kind, key: string, staleBefore: int)
    ensures var found := if kind == BySerial then WithSerial(rows, key) else WithName(rows, key);
            var entry := Entry(rows, kind, key, staleBefore);
            && (entry.Some? <==> key != "" && found != {} && (kind == ByName ==> AreOne(found)))
            && (entry.Some? ==> exists r :: IsNewest(r, found) && IsSaidBy(entry.value, r, staleBefore))
  {
    var found := if kind == BySerial then WithSerial(rows, key) else WithName(rows, key);
    BestMeaning(rows, kind, key);
    if kind == ByName { NameIsFoundExactly(rows, key, staleBefore); }
    forall a: Row, b: Row | a.name == b.name ensures Carrier(a) == Carrier(b) <==> IsOne(a, b) { OneCarrier(a, b); }
    var best := Best(rows, kind, key);
    assert forall r :: r in found <==> r in rows && KeyOf(r, kind) == key;
    if best.Some? { assert IsNewest(best.value, found) && IsSaidBy(ApOf(best.value, staleBefore), best.value, staleBefore); }
  }

  /**
   What a device is attached: by its serial, the newest row with it; else, for an access point,
   by its name, the newest of the rows that carry it, if they are all of one; else nothing.
   */
  lemma AttachedExactly(rows: seq<Row>, pnpRows: seq<PnpRow>, staleBefore: int, index: Index, d: Device)
    requires IsIndexOf(index, rows, pnpRows, staleBefore)
    ensures var found := if d.serial != "" && WithSerial(rows, d.serial) != {} then WithSerial(rows, d.serial)
                         else if d.isAccessPoint && d.name != "" && AreOne(WithName(rows, d.name)) then WithName(rows, d.name)
                         else {};
            var attached := AttachedTo(d, index);
            && attached.device == d
            && (attached.wireless.Some? <==> found != {})
            && (attached.wireless.Some? ==>
                  attached.onboarding.None? && exists r :: IsNewest(r, found) && IsSaidBy(attached.wireless.value, r, staleBefore))
  {
    EntryMeaning(rows, BySerial, d.serial, staleBefore);
    EntryMeaning(rows, ByName, d.name, staleBefore);
    assert Get(index.serial, d.serial) == Entry(rows, BySerial, d.serial, staleBefore);
    assert Get(index.name, d.name) == Entry(rows, ByName, d.name, staleBefore);
  }

  predicate IsNewestPnp(r: PnpRow, rows: seq<PnpRow>) {
    r in rows && forall other <- rows | other.serial == r.serial :: other.seen <= r.seen
  }

  /** A device without an access point is attached the newest onboarding row of its serial. */
  lemma {:induction false} BestPnpMeaning(rows: seq<PnpRow>, serial: string)
    ensures BestPnp(rows, serial).Some? <==> exists r :: r in rows && r.serial == serial
    ensures BestPnp(rows, serial).Some? ==>
              BestPnp(rows, serial).value.serial == serial && IsNewestPnp(BestPnp(rows, serial).value, rows)
  {
    if rows != [] {
      BestPnpMeaning(rows[..|rows| - 1], serial);
      assert rows == rows[..|rows| - 1] + [rows[|rows| - 1]];
    }
  }

  lemma OnboardingExactly(rows: seq<Row>, pnpRows: seq<PnpRow>, staleBefore: int, index: Index, d: Device)
    requires IsIndexOf(index, rows, pnpRows, staleBefore) && AttachedTo(d, index).wireless.None?
    ensures var found := AttachedTo(d, index).onboarding;
            && (found.Some? <==> exists r :: r in pnpRows && r.serial == d.serial)
            && (found.Some? ==> exists r :: IsNewestPnp(r, pnpRows) && r.serial == d.serial
                                            && found.value == Onboarding(r.state, r.error, r.controller, r.seen < staleBefore))
  {
    BestPnpMeaning(pnpRows, d.serial);
    assert Get(index.pnp, d.serial) ==
           if BestPnp(pnpRows, d.serial).None? then None
           else Some(OnboardingOf(BestPnp(pnpRows, d.serial).value, staleBefore));
    if BestPnp(pnpRows, d.serial).Some? { assert IsNewestPnp(BestPnp(pnpRows, d.serial).value, pnpRows); }
  }

  /**
   The index of a few devices' rows says of each of them what the full index says, although
   it keeps only part of the rows of other keys.  Plug and Play rows always have a serial.
   */
  lemma RestrictedIndexAgrees(
      rows: seq<Row>, pnpRows: seq<PnpRow>, staleBefore: int, devices: seq<Device>, full: Index, some: Index, d: Device)
    requires d in devices && forall r <- pnpRows :: r.serial != ""
    requires IsIndexOf(full, rows, pnpRows, staleBefore)
    requires var serials := Serials(devices);
             IsIndexOf(some, Wanted(rows, serials, Names(devices)), WantedPnp(pnpRows, serials), staleBefore)
    ensures Lookup(some, d) == Lookup(full, d)
    ensures AttachedTo(d, some) == AttachedTo(d, full)
  {
    var serials, names := Serials(devices), Names(devices);
    if d.serial != "" {
      assert d.serial in serials;
      WantedHasTheSameBest(rows, serials, names, BySerial, d.serial);
    }
    assert Get(some.serial, d.serial) == Get(full.serial, d.serial);
    if d.name != "" && d.isAccessPoint {
      assert d.name in names;
      WantedHasTheSameBest(rows, serials, names, ByName, d.name);
      assert Get(some.name, d.name) == Get(full.name, d.name);
    }
    WantedHasTheSamePnp(pnpRows, serials, d.serial);
    if d.serial == "" { NoSerialNoPnp(pnpRows); }
    assert Get(some.pnp, d.serial) == Get(full.pnp, d.serial);
  }

  lemma {:induction false} NoSerialNoPnp(rows: seq<PnpRow>)
    requires forall r <- rows :: r.serial != ""
    ensures BestPnp(rows, "").None?
  {
    if rows != [] {
      assert rows[|rows| - 1] in rows && forall r <- rows[..|rows| - 1] :: r in rows;
      NoSerialNoPnp(rows[..|rows| - 1]);
    }
  }
}
