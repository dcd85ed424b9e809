/**
 Grouping the board by sites (nautobot_maps/alerts.py): each location's devices go to its
 nearest site above it, found by climbing a tree of locations that may be broken or contain
 cycles (nautobot_maps/inventory.py).
 */
module RollUp {
  import opened Wrappers

  /**
   A location.  *isSite*: it is of the type the board is grouped by; *excluded*: it is left
   out of the board; a location at the top has the empty parent.
   */
  datatype Location = Location(id: string, parent: string, name: string, isSite: bool, excluded: bool)

  /** A device on a row, with the names of the locations below the site that it sits in. */
  datatype Placed = Placed(device: string, path: seq<string>)

  datatype Entry = Entry(location: string, devices: seq<string>)

  // ---------------------------------------------------------------- climbing the tree

  predicate Known(byId: map<string, Location>, id: string) { id != "" && id in byId }

  predicate IsTree(byId: map<string, Location>) { forall id <- byId :: byId[id].id == id }

  /** *id* and its ancestors that are not in *seen*, nearest first. */
  function ChainFrom(byId: map<string, Location>, id: string, seen: set<string>): (chain: seq<Location>)
    ensures chain != [] <==> Known(byId, id) && id !in seen
    ensures chain != [] ==> chain[0] == byId[id]
    decreases |byId.Keys - seen|
  {
    if !Known(byId, id) || id in seen then []
    else
      assert byId.Keys - (seen + {id}) == byId.Keys - seen - {id};
      [byId[id]] + ChainFrom(byId, byId[id].parent, seen + {id})
  }

  function Chain(byId: map<string, Location>, id: string): seq<Location> { ChainFrom(byId, id, {}) }

  method LocationChain(byId: map<string, Location>, id: string) returns (chain: seq<Location>)
    ensures chain == Chain(byId, id)
  {
    chain := [];
    var seen: set<string>, at := {}, id;
    while Known(byId, at) && at !in seen
      invariant chain + ChainFrom(byId, at, seen) == Chain(byId, id)
      decreases |byId.Keys - seen|
    {
      assert byId.Keys - (seen + {at}) == byId.Keys - seen - {at};
      ghost var rest := ChainFrom(byId, byId[at].parent, seen + {at});
      assert chain + ([byId[at]] + rest) == (chain + [byId[at]]) + rest;
      seen := seen + {at};
      chain := chain + [byId[at]];
      at := byId[at].parent;
    }
  }

  /** The location *k* steps above *id*, as far as the tree is known. */
  function Ancestor(byId: map<string, Location>, id: string, k: nat): Option<Location>
    decreases k
  {
    if !Known(byId, id) then None
    else if k == 0 then Some(byId[id])
    else Ancestor(byId, byId[id].parent, k - 1)
  }

  /** The location itself, then its parent, and so on, while there is one. */
  lemma {:induction false} AncestorExactly(byId: map<string, Location>, id: string, k: nat)
    ensures Ancestor(byId, id, 0) == if id != "" && id in byId then Some(byId[id]) else None
    ensures var below := Ancestor(byId, id, k);
            Ancestor(byId, id, k + 1) ==
            if below.Some? && below.value.parent != "" && below.value.parent in byId then Some(byId[below.value.parent])
            else None
    decreases k
  {
    if k > 0 && Known(byId, id) { AncestorExactly(byId, byId[id].parent, k - 1); }
  }

  lemma {:induction false} ChainFromClimbs(byId: map<string, Location>, id: string, seen: set<string>, k: nat)
    requires IsTree(byId) && k < |ChainFrom(byId, id, seen)|
    ensures Ancestor(byId, id, k) == Some(ChainFrom(byId, id, seen)[k])
    ensures ChainFrom(byId, id, seen)[k].id !in seen
    ensures forall i :: 0 <= i < k ==> ChainFrom(byId, id, seen)[i].id != ChainFrom(byId, id, seen)[k].id
    decreases k
  {
    var rest := ChainFrom(byId, byId[id].parent, seen + {id});
    assert ChainFrom(byId, id, seen) == [byId[id]] + rest;
    if k > 0 {
      ChainFromClimbs(byId, byId[id].parent, seen + {id}, k - 1);
      forall i | 0 <= i < k ensures ChainFrom(byId, id, seen)[i].id != ChainFrom(byId, id, seen)[k].id {
        if i > 0 { assert rest[i - 1].id != rest[k - 1].id; }
      }
    }
  }

  lemma ChainAt(byId: map<string, Location>, id: string, k: nat)
    requires IsTree(byId) && k < |Chain(byId, id)|
    ensures Ancestor(byId, id, k) == Some(Chain(byId, id)[k])
  {
    ChainFromClimbs(byId, id, {}, k);
  }

  /** An ancestor is on the chain, unless the chain stopped at a location seen before. */
  lemma {:induction false} AncestorsFromAreOnChain(byId: map<string, Location>, id: string, seen: set<string>, k: nat)
    requires IsTree(byId) && Ancestor(byId, id, k).Some?
    requires forall i: nat :: i <= k && Ancestor(byId, id, i).Some? ==> Ancestor(byId, id, i).value.id !in seen
    ensures Ancestor(byId, id, k).value in ChainFrom(byId, id, seen)
    decreases k
  {
    assert Ancestor(byId, id, 0).value.id == id;
    var parent := byId[id].parent;
    assert ChainFrom(byId, id, seen) == [byId[id]] + ChainFrom(byId, parent, seen + {id});
    if k > 0 {
      if again: nat :| 1 <= again <= k && Ancestor(byId, id, again) == Some(byId[id]) {
        AncestorOfAncestor(byId, id, again, k - again);
        forall i: nat | i <= k - again && Ancestor(byId, id, i).Some?
          ensures Ancestor(byId, id, i).value.id !in seen
        {
        }
        AncestorsFromAreOnChain(byId, id, seen, k - again);
      } else {
        forall i: nat | i <= k - 1 && Ancestor(byId, parent, i).Some?
          ensures Ancestor(byId, parent, i).value.id !in seen + {id}
        {
          assert Ancestor(byId, id, i + 1) == Ancestor(byId, parent, i);
          AncestorIsKnown(byId, parent, i);
        }
        AncestorsFromAreOnChain(byId, parent, seen + {id}, k - 1);
      }
    }
  }

  lemma {:induction false} AncestorIsKnown(byId: map<string, Location>, id: string, k: nat)
    requires IsTree(byId) && Ancestor(byId, id, k).Some?
    ensures var a := Ancestor(byId, id, k).value; Known(byId, a.id) && byId[a.id] == a
    decreases k
  {
    if k > 0 { AncestorIsKnown(byId, byId[id].parent, k - 1); }
  }

  lemma {:induction false} AncestorOfAncestor(byId: map<string, Location>, id: string, j: nat, k: nat)
    requires IsTree(byId) && Ancestor(byId, id, j).Some?
    ensures Ancestor(byId, id, j + k) == Ancestor(byId, Ancestor(byId, id, j).value.id, k)
    decreases j
  {
    if j > 0 { AncestorOfAncestor(byId, byId[id].parent, j - 1, k); }
  }

  /**
   On any parents whatever, cycles and unknown ones included: the chain is the location and
   its ancestors in order, each exactly once, and none is missing.
   */
  lemma ChainIsAllAncestors(byId: map<string, Location>, id: string)
    requires IsTree(byId)
    ensures var chain := Chain(byId, id);
            && (forall k: nat :: k < |chain| ==> Ancestor(byId, id, k) == Some(chain[k]))
            && (forall i, j :: 0 <= i < j < |chain| ==> chain[i].id != chain[j].id)
            && (forall k: nat :: Ancestor(byId, id, k).Some? ==> Ancestor(byId, id, k).value in chain)
  {
    var chain := Chain(byId, id);
    forall k: nat | k < |chain|
      ensures Ancestor(byId, id, k) == Some(chain[k])
      ensures forall i :: 0 <= i < k ==> chain[i].id != chain[k].id
    {
      ChainFromClimbs(byId, id, {}, k);
    }
    forall k: nat | Ancestor(byId, id, k).Some? ensures Ancestor(byId, id, k).value in chain {
      AncestorsFromAreOnChain(byId, id, {}, k);
    }
  }

  // ---------------------------------------------------------------- which row a device goes to

  /** The first site of the chain, or its length when there is none. */
  function SiteIndex(chain: seq<Location>): (i: nat)
    ensures i <= |chain|
    ensures i < |chain| ==> chain[i].isSite
    ensures forall j :: 0 <= j < i ==> !chain[j].isSite
  {
    if chain == [] || chain[0].isSite then 0 else 1 + SiteIndex(chain[1..])
  }

  /** The place on the chain of the row: the nearest site, or the location itself. */
  function RowIndex(chain: seq<Location>): nat {
    if SiteIndex(chain) < |chain| then SiteIndex(chain) else 0
  }

  predicate AnyExcluded(locations: seq<Location>) { exists loc :: loc in locations && loc.excluded }

  predicate Dropped(chain: seq<Location>) {
    chain == [] || chain[RowIndex(chain)].excluded || AnyExcluded(chain[..RowIndex(chain)])
  }

  /** The row of a location's devices. */
  function Owner(byId: map<string, Location>, id: string): Option<string> {
    var chain := Chain(byId, id);
    if Dropped(chain) then None else Some(chain[RowIndex(chain)].id)
  }

  /** Where below its row a location sits, from the top. */
  function Path(chain: seq<Location>): seq<string> {
    NamesFromTop(if SiteIndex(chain) < |chain| then chain[..SiteIndex(chain)] else [])
  }

  function NamesFromTop(below: seq<Location>): (names: seq<string>)
    ensures |names| == |below|
  {
    if below == [] then [] else NamesFromTop(below[1..]) + [below[0].name]
  }

  function At(devices: seq<string>, path: seq<string>): seq<Placed> {
    seq(|devices|, i requires 0 <= i < |devices| => Placed(devices[i], path))
  }

  function PlacedOf(byId: map<string, Location>, e: Entry): seq<Placed> {
    At(e.devices, Path(Chain(byId, e.location)))
  }

  /** The devices of a row, in the order their locations come in. */
  function DevicesOf(byId: map<string, Location>, row: string, entries: seq<Entry>): seq<Placed> {
    if entries == [] then []
    else
      var e := entries[|entries| - 1];
      if Owner(byId, e.location) == Some(row)
      then DevicesOf(byId, row, entries[..|entries| - 1]) + PlacedOf(byId, e)
      else DevicesOf(byId, row, entries[..|entries| - 1])
  }

  /** The sites that are not excluded, in order. */
  function SiteRows(locations: seq<Location>): seq<string> {
    if locations == [] then []
    else
      var loc := locations[|locations| - 1];
      if loc.isSite && !loc.excluded then SiteRows(locations[..|locations| - 1]) + [loc.id]
      else SiteRows(locations[..|locations| - 1])
  }

  /** Then the other locations that keep a row of their own, in the order they come in. */
  function AllRows(byId: map<string, Location>, locations: seq<Location>, entries: seq<Entry>): seq<string> {
    if entries == [] then SiteRows(locations)
    else
      var rows := AllRows(byId, locations, entries[..|entries| - 1]);
      var owner := Owner(byId, entries[|entries| - 1].location);
      if owner.Some? && owner.value !in rows then rows + [owner.value] else rows
  }

  /** {location id: location}; ids are unique. */
  function ById(locations: seq<Location>): (byId: map<string, Location>)
    ensures IsTree(byId)
    ensures forall id :: id in byId ==> id != "" && byId[id] in locations
  {
    if locations == [] then map[]
    else
      var loc := locations[|locations| - 1];
      if loc.id != "" then ById(locations[..|locations| - 1])[loc.id := loc]
      else ById(locations[..|locations| - 1])
  }

  /** The table's primary key. */
  predicate UniqueIds(locations: seq<Location>) {
    && (forall i :: 0 <= i < |locations| ==> locations[i].id != "")
    && forall i, j :: 0 <= i < j < |locations| ==> locations[i].id != locations[j].id
  }

  lemma {:induction false} ByIdFindsAll(locations: seq<Location>)
    requires UniqueIds(locations)
    ensures forall loc <- locations :: loc.id in ById(locations) && ById(locations)[loc.id] == loc
  {
    if locations != [] {
      var front, last := locations[..|locations| - 1], locations[|locations| - 1];
      ByIdFindsAll(front);
      forall loc | loc in locations ensures loc.id in ById(locations) && ById(locations)[loc.id] == loc {
        var i :| 0 <= i < |locations| && locations[i] == loc;
        if i < |front| { assert front[i] == loc && loc in front && loc.id != last.id; }
      }
    }
  }

  lemma SiteRowsDistinct(front: seq<Location>, last: Location)
    requires Distinct(SiteRows(front)) && last.id !in SiteRows(front)
    ensures Distinct(SiteRows(front) + [last.id])
  {
  }

  lemma {:induction false} SiteRowsMeaning(locations: seq<Location>)
    ensures forall id :: id in SiteRows(locations) <==>
              exists loc :: loc in locations && loc.id == id && loc.isSite && !loc.excluded
    ensures UniqueIds(locations) ==> Distinct(SiteRows(locations))
  {
    if locations != [] {
      var front, last := locations[..|locations| - 1], locations[|locations| - 1];
      SiteRowsMeaning(front);
      assert locations == front + [last];
      if UniqueIds(locations) {
        assert forall loc <- front :: loc.id != last.id;
        assert last.id !in SiteRows(front);
        SiteRowsDistinct(front, last);
      }
    }
  }

  predicate Distinct(ids: seq<string>) { forall i, j :: 0 <= i < j < |ids| ==> ids[i] != ids[j] }

  // ---------------------------------------------------------------- computing it

  function Get(m: map<string, seq<Placed>>, row: string): seq<Placed> { if row in m then m[row] else [] }

  /** A site's row is there unless it is excluded. */
  predicate RowsAreRight(byId: map<string, Location>, rows: seq<string>) {
    && (forall id <- rows :: id in byId && !byId[id].excluded)
    && (forall id <- byId | byId[id].isSite && !byId[id].excluded :: id in rows)
  }

  lemma ChainIsKnown(byId: map<string, Location>, id: string)
    requires IsTree(byId)
    ensures forall loc <- Chain(byId, id) :: Known(byId, loc.id) && byId[loc.id] == loc
  {
    var chain := Chain(byId, id);
    ChainIsAllAncestors(byId, id);
    forall k: nat | k < |chain| ensures Known(byId, chain[k].id) && byId[chain[k].id] == chain[k] {
      assert Ancestor(byId, id, k) == Some(chain[k]);
      AncestorIsKnown(byId, id, k);
    }
  }

  /** The row, if any, and the locations between; *rows*: those there are so far. */
  method FindRow(chain: seq<Location>, rows: seq<string>) returns (row: Option<string>, below: seq<Location>)
    requires forall loc <- chain | loc.isSite :: loc.id in rows <==> !loc.excluded
    ensures row == if Dropped(chain) then None else Some(chain[RowIndex(chain)].id)
    ensures row.Some? ==> NamesFromTop(below) == Path(chain)
  {
    below := [];
    var siteIndex := SiteIndex(chain);
    if siteIndex == |chain| {
      if chain == [] || chain[0].excluded { return None, below; }
      return Some(chain[0].id), below;
    }
    assert chain[siteIndex] in chain;
    below := chain[..siteIndex];
    if chain[siteIndex].id !in rows || AnyExcluded(below) { return None, below; }
    return Some(chain[siteIndex].id), below;
  }

  method PlaceLocation(byId: map<string, Location>, e: Entry, rows: seq<string>, placed: map<string, seq<Placed>>)
    returns (rows': seq<string>, placed': map<string, seq<Placed>>)
    requires IsTree(byId) && RowsAreRight(byId, rows) && Distinct(rows)
    ensures RowsAreRight(byId, rows') && Distinct(rows')
    ensures var owner := Owner(byId, e.location);
            && rows' == (if owner.Some? && owner.value !in rows then rows + [owner.value] else rows)
            && placed' == (if owner.None? then placed
                           else placed[owner.value := Get(placed, owner.value) + PlacedOf(byId, e)])
  {
    var chain := LocationChain(byId, e.location);
    ChainIsKnown(byId, e.location);
    var row, below := FindRow(chain, rows);
    if row.None? { return rows, placed; }
    assert chain[RowIndex(chain)] in chain;
    rows' := if row.value !in rows then rows + [row.value] else rows;
    placed' := placed[row.value := Get(placed, row.value) + At(e.devices, NamesFromTop(below))];
  }

  method CollectSites(locations: seq<Location>) returns (rows: seq<string>)
    ensures rows == SiteRows(locations)
  {
    rows := [];
    for k := 0 to |locations|
      invariant rows == SiteRows(locations[..k])
    {
      assert locations[..k + 1][..k] == locations[..k];
      if locations[k].isSite && !locations[k].excluded { rows := rows + [locations[k].id]; }
    }
    assert locations[..|locations|] == locations;
  }

  method PlaceAll(byId: map<string, Location>, locations: seq<Location>, entries: seq<Entry>)
    returns (rows: seq<string>, placed: map<string, seq<Placed>>)
    requires IsTree(byId) && RowsAreRight(byId, SiteRows(locations)) && Distinct(SiteRows(locations))
    ensures rows == AllRows(byId, locations, entries) && Distinct(rows)
    ensures forall row :: Get(placed, row) == DevicesOf(byId, row, entries)
    ensures forall row <- placed :: row in rows
  {
    rows := CollectSites(locations);
    placed := map[];
    for k := 0 to |entries|
      invariant RowsAreRight(byId, rows) && Distinct(rows)
      invariant ArePlaced(byId, locations, entries[..k], rows, placed)
    {
      OneMorePlaced(byId, locations, entries, k, rows, placed);
      rows, placed := PlaceLocation(byId, entries[k], rows, placed);
    }
    assert entries[..|entries|] == entries;
  }

  /** The rows and devices so far. */
  ghost predicate ArePlaced(byId: map<string, Location>, locations: seq<Location>, entries: seq<Entry>,
                            rows: seq<string>, placed: map<string, seq<Placed>>)
  {
    && rows == AllRows(byId, locations, entries)
    && (forall row :: Get(placed, row) == DevicesOf(byId, row, entries))
    && (forall row <- placed :: row in rows)
  }

  lemma OneMorePlaced(byId: map<string, Location>, locations: seq<Location>, entries: seq<Entry>, k: nat,
                      rows: seq<string>, placed: map<string, seq<Placed>>)
    requires k < |entries| && ArePlaced(byId, locations, entries[..k], rows, placed)
    ensures var owner := Owner(byId, entries[k].location);
            ArePlaced(
              byId, locations, entries[..k + 1],
              if owner.Some? && owner.value !in rows then rows + [owner.value] else rows,
              if owner.None? then placed
              else placed[owner.value := Get(placed, owner.value) + PlacedOf(byId, entries[k])])
  {
    var before, after, e := entries[..k], entries[..k + 1], entries[k];
    assert after[..k] == before && after[|after| - 1] == e && after != [];
    var owner := Owner(byId, e.location);
    forall row
      ensures DevicesOf(byId, row, after) ==
              if owner == Some(row) then DevicesOf(byId, row, before) + PlacedOf(byId, e)
              else DevicesOf(byId, row, before)
    {
    }
    forall row ensures Get(placed, row) == DevicesOf(byId, row, before) {
    }
  }

  lemma SiteRowsAreRight(locations: seq<Location>)
    requires UniqueIds(locations)
    ensures RowsAreRight(ById(locations), SiteRows(locations)) && Distinct(SiteRows(locations))
  {
    ByIdFindsAll(locations);
    SiteRowsMeaning(locations);
  }

  method RollUpToSiteLocations(locations: seq<Location>, entries: seq<Entry>)
    returns (rows: seq<string>, placed: map<string, seq<Placed>>)
    requires UniqueIds(locations)
    ensures rows == AllRows(ById(locations), locations, entries) && Distinct(rows)
    ensures forall row :: Get(placed, row) == DevicesOf(ById(locations), row, entries)
    ensures forall row <- placed :: row in rows
  {
    SiteRowsAreRight(locations);
    rows, placed := PlaceAll(ById(locations), locations, entries);
  }

  // ---------------------------------------------------------------- what a row holds

  function Names(placed: seq<Placed>): seq<string> {
    if placed == [] then [] else Names(placed[..|placed| - 1]) + [placed[|placed| - 1].device]
  }

  lemma {:induction false} NamesOfConcat(a: seq<Placed>, b: seq<Placed>)
    ensures Names(a + b) == Names(a) + Names(b)
  {
    if b == [] {
      assert a + b == a;
    } else {
      assert (a + b)[..|a + b| - 1] == a + b[..|b| - 1];
      NamesOfConcat(a, b[..|b| - 1]);
    }
  }

  lemma {:induction false} NamesAt(devices: seq<string>, path: seq<string>)
    ensures Names(At(devices, path)) == devices
  {
    if devices != [] {
      var front := devices[..|devices| - 1];
      NamesAt(front, path);
      assert At(devices, path)[..|devices| - 1] == At(front, path);
    }
  }

  /** The devices given for the locations that go to the row, in order. */
  function GivenTo(byId: map<string, Location>, row: string, entries: seq<Entry>): seq<string> {
    if entries == [] then []
    else
      var e := entries[|entries| - 1];
      GivenTo(byId, row, entries[..|entries| - 1]) + if Owner(byId, e.location) == Some(row) then e.devices else []
  }

  /** A row's devices are those given for its locations, in that order, each as often. */
  lemma {:induction false} RowHoldsGiven(byId: map<string, Location>, row: string, entries: seq<Entry>)
    ensures Names(DevicesOf(byId, row, entries)) == GivenTo(byId, row, entries)
  {
    if entries != [] {
      var front, e := entries[..|entries| - 1], entries[|entries| - 1];
      RowHoldsGiven(byId, row, front);
      NamesAt(e.devices, Path(Chain(byId, e.location)));
      NamesOfConcat(DevicesOf(byId, row, front), PlacedOf(byId, e));
    }
  }

  /** The nearest site is *way* steps above the location. */
  predicate IsNearestSite(byId: map<string, Location>, id: string, way: nat) {
    && Ancestor(byId, id, way).Some? && Ancestor(byId, id, way).value.isSite
    && forall k: nat :: k < way && Ancestor(byId, id, k).Some? ==> !Ancestor(byId, id, k).value.isSite
  }

  /** The names of the first *way* locations, the location's own last. */
  predicate NamesDown(path: seq<string>, byId: map<string, Location>, id: string, way: nat) {
    |path| == way && forall k: nat :: k < way ==> IsNameOf(path[k], Ancestor(byId, id, way - 1 - k))
  }

  predicate IsNameOf(name: string, location: Option<Location>) {
    location.Some? && location.value.name == name
  }

  /** The names of the locations below the nearest site, from the site down; none without a site. */
  ghost predicate LeadsTo(path: seq<string>, byId: map<string, Location>, id: string) {
    && (forall way: nat :: IsNearestSite(byId, id, way) ==> NamesDown(path, byId, id, way))
    && ((forall way: nat :: !IsNearestSite(byId, id, way)) ==> path == [])
  }

  lemma OneNearestSite(byId: map<string, Location>, id: string, way: nat, other: nat)
    requires IsNearestSite(byId, id, way) && IsNearestSite(byId, id, other)
    ensures way == other
  {
  }

  lemma NearestOnChain(byId: map<string, Location>, id: string)
    requires IsTree(byId)
    ensures var chain := Chain(byId, id);
            if SiteIndex(chain) < |chain| then IsNearestSite(byId, id, SiteIndex(chain))
            else forall way: nat :: !IsNearestSite(byId, id, way)
  {
    var chain := Chain(byId, id);
    var way := SiteIndex(chain);
    ChainIsAllAncestors(byId, id);
    if way < |chain| {
      assert Ancestor(byId, id, way) == Some(chain[way]);
      forall k: nat | k < way ensures !Ancestor(byId, id, k).value.isSite {
        assert Ancestor(byId, id, k) == Some(chain[k]);
      }
    } else {
      forall k: nat | Ancestor(byId, id, k).Some? ensures !Ancestor(byId, id, k).value.isSite {
        assert Ancestor(byId, id, k).value in chain;
      }
    }
  }

  lemma PathNamesDown(byId: map<string, Location>, id: string)
    requires IsTree(byId) && SiteIndex(Chain(byId, id)) < |Chain(byId, id)|
    ensures NamesDown(Path(Chain(byId, id)), byId, id, SiteIndex(Chain(byId, id)))
  {
    var chain := Chain(byId, id);
    var path, way := Path(chain), SiteIndex(chain);
    assert path == NamesFromTop(chain[..way]) && |path| == way;
    forall k: nat | k < way ensures IsNameOf(path[k], Ancestor(byId, id, way - 1 - k)) {
      PathNamesTheWay(byId, id, k);
    }
  }

  lemma PathLeadsTo(byId: map<string, Location>, id: string)
    requires IsTree(byId)
    ensures LeadsTo(Path(Chain(byId, id)), byId, id)
  {
    var path, way := Path(Chain(byId, id)), SiteIndex(Chain(byId, id));
    NearestOnChain(byId, id);
    if way < |Chain(byId, id)| { PathNamesDown(byId, id); }
    forall other: nat | IsNearestSite(byId, id, other) ensures NamesDown(path, byId, id, other) {
      OneNearestSite(byId, id, way, other);
    }
  }

  lemma OnePath(byId: map<string, Location>, id: string, a: seq<string>, b: seq<string>)
    requires LeadsTo(a, byId, id) && LeadsTo(b, byId, id)
    ensures a == b
  {
    if way: nat :| IsNearestSite(byId, id, way) {
      assert NamesDown(a, byId, id, way) && NamesDown(b, byId, id, way);
    }
  }

  /** This device of this entry goes to the row and sits there. */
  ghost predicate SitsAt(byId: map<string, Location>, row: string, e: Entry, i: nat, p: Placed) {
    && i < |e.devices| && Owner(byId, e.location) == Some(row)
    && p.device == e.devices[i] && LeadsTo(p.path, byId, e.location)
  }

  lemma PlacedExactly(byId: map<string, Location>, row: string, e: Entry, p: Placed)
    requires IsTree(byId) && Owner(byId, e.location) == Some(row)
    ensures p in PlacedOf(byId, e) <==> exists i :: SitsAt(byId, row, e, i, p)
  {
    var path := Path(Chain(byId, e.location));
    PathLeadsTo(byId, e.location);
    if p in PlacedOf(byId, e) {
      var i: nat :| i < |e.devices| && PlacedOf(byId, e)[i] == p;
      assert SitsAt(byId, row, e, i, p);
    }
    if i: nat :| SitsAt(byId, row, e, i, p) {
      OnePath(byId, e.location, p.path, path);
      assert PlacedOf(byId, e)[i] == p;
    }
  }

  /** A row holds exactly the devices of the locations that go to it, each with its way down from the site. */
  lemma {:induction false} RowHoldsExactly(byId: map<string, Location>, row: string, entries: seq<Entry>, p: Placed)
    requires IsTree(byId)
    ensures p in DevicesOf(byId, row, entries) <==> exists e, i :: e in entries && SitsAt(byId, row, e, i, p)
  {
    if entries != [] {
      var front, last := entries[..|entries| - 1], entries[|entries| - 1];
      RowHoldsExactly(byId, row, front, p);
      assert entries == front + [last];
      if Owner(byId, last.location) == Some(row) { PlacedExactly(byId, row, last, p); }
    }
  }

  // ---------------------------------------------------------------- no device is lost

  /** The devices of the locations that have a row at all. */
  function Kept(byId: map<string, Location>, entries: seq<Entry>): seq<string> {
    if entries == [] then []
    else
      var e := entries[|entries| - 1];
      Kept(byId, entries[..|entries| - 1]) + if Owner(byId, e.location).Some? then e.devices else []
  }

  /** The devices of all the rows together. */
  function Shown(byId: map<string, Location>, rows: seq<string>, entries: seq<Entry>): seq<string> {
    if rows == [] then []
    else Shown(byId, rows[..|rows| - 1], entries) + Names(DevicesOf(byId, rows[|rows| - 1], entries))
  }

  lemma {:induction false} ShownOfNothing(byId: map<string, Location>, rows: seq<string>)
    ensures Shown(byId, rows, []) == []
  {
    if rows != [] { ShownOfNothing(byId, rows[..|rows| - 1]); }
  }

  /** What one location more adds to these rows. */
  function Added(byId: map<string, Location>, rows: seq<string>, e: Entry): multiset<string> {
    var owner := Owner(byId, e.location);
    if owner.Some? && owner.value in rows then multiset(e.devices) else multiset{}
  }

  /** It goes to one row, or to none. */
  lemma AddedToOneRow(byId: map<string, Location>, fewer: seq<string>, row: string, e: Entry)
    requires row !in fewer
    ensures Added(byId, fewer + [row], e) == Added(byId, fewer, e) + Added(byId, [row], e)
  {
  }

  lemma DevicesOfOneMore(byId: map<string, Location>, row: string, entries: seq<Entry>)
    requires entries != []
    ensures multiset(Names(DevicesOf(byId, row, entries))) ==
            multiset(Names(DevicesOf(byId, row, entries[..|entries| - 1]))) + Added(byId, [row], entries[|entries| - 1])
  {
    RowHoldsGiven(byId, row, entries);
    RowHoldsGiven(byId, row, entries[..|entries| - 1]);
  }

  lemma {:induction false} ShownOfOneMore(byId: map<string, Location>, rows: seq<string>, entries: seq<Entry>)
    requires entries != [] && Distinct(rows)
    ensures multiset(Shown(byId, rows, entries)) ==
            multiset(Shown(byId, rows, entries[..|entries| - 1])) + Added(byId, rows, entries[|entries| - 1])
  {
    if rows != [] {
      var fewer, last := rows[..|rows| - 1], rows[|rows| - 1];
      var front, e := entries[..|entries| - 1], entries[|entries| - 1];
      LastIsNew(rows);
      ShownOfOneMore(byId, fewer, entries);
      AddedToOneRow(byId, fewer, last, e);
      DevicesOfOneMore(byId, last, entries);
      ShownOfOneMoreRow(byId, rows, entries);
      ShownOfOneMoreRow(byId, rows, front);
      Regroup(multiset(Shown(byId, fewer, front)), Added(byId, fewer, e),
              multiset(Names(DevicesOf(byId, last, front))), Added(byId, [last], e));
    }
  }

  lemma LastIsNew(rows: seq<string>)
    requires rows != [] && Distinct(rows)
    ensures var fewer, last := rows[..|rows| - 1], rows[|rows| - 1];
            Distinct(fewer) && last !in fewer && rows == fewer + [last]
  {
  }

  lemma Regroup(a: multiset<string>, b: multiset<string>, c: multiset<string>, d: multiset<string>)
    ensures (a + b) + (c + d) == (a + c) + (b + d)
  {
  }

  lemma ShownOfOneMoreRow(byId: map<string, Location>, rows: seq<string>, entries: seq<Entry>)
    requires rows != []
    ensures multiset(Shown(byId, rows, entries)) ==
            multiset(Shown(byId, rows[..|rows| - 1], entries))
            + multiset(Names(DevicesOf(byId, rows[|rows| - 1], entries)))
  {
  }

  lemma {:induction false} ConservedInRows(byId: map<string, Location>, rows: seq<string>, entries: seq<Entry>)
    requires Distinct(rows)
    requires forall e <- entries :: Owner(byId, e.location).Some? ==> Owner(byId, e.location).value in rows
    ensures multiset(Shown(byId, rows, entries)) == multiset(Kept(byId, entries))
  {
    if entries == [] {
      ShownOfNothing(byId, rows);
    } else {
      var front, last := entries[..|entries| - 1], entries[|entries| - 1];
      assert last in entries && forall e <- front :: e in entries;
      ConservedInRows(byId, rows, front);
      ShownOfOneMore(byId, rows, entries);
    }
  }

  lemma {:induction false} OwnersHaveRows(byId: map<string, Location>, locations: seq<Location>, entries: seq<Entry>)
    requires Distinct(SiteRows(locations))
    ensures Distinct(AllRows(byId, locations, entries))
    ensures forall e <- entries :: Owner(byId, e.location).Some? ==>
              Owner(byId, e.location).value in AllRows(byId, locations, entries)
  {
    if entries != [] {
      OwnersHaveRows(byId, locations, entries[..|entries| - 1]);
      assert entries == entries[..|entries| - 1] + [entries[|entries| - 1]];
    }
  }

  /** The board's rows together hold the devices of the locations that have a row, each as often as given. */
  lemma DevicesAreConserved(locations: seq<Location>, entries: seq<Entry>)
    requires UniqueIds(locations)
    ensures var byId := ById(locations);
            multiset(Shown(byId, AllRows(byId, locations, entries), entries)) == multiset(Kept(byId, entries))
  {
    SiteRowsMeaning(locations);
    OwnersHaveRows(ById(locations), locations, entries);
    ConservedInRows(ById(locations), AllRows(ById(locations), locations, entries), entries);
  }

  /**
   A location's devices have no row exactly when it is unknown, or its row or a location
   between it and its row is excluded.
   */
  lemma DroppedExactly(byId: map<string, Location>, id: string)
    requires IsTree(byId)
    ensures Owner(byId, id).None? <==>
            || !Known(byId, id)
            || exists k: nat :: k <= RowIndex(Chain(byId, id))
                                && Ancestor(byId, id, k).Some? && Ancestor(byId, id, k).value.excluded
  {
    var chain := Chain(byId, id);
    if Known(byId, id) {
      var r := RowIndex(chain);
      ChainIsAllAncestors(byId, id);
      if Dropped(chain) {
        var j := ExcludedAt(chain);
        assert Ancestor(byId, id, j) == Some(chain[j]);
      }
      if k: nat :| k <= r && Ancestor(byId, id, k).Some? && Ancestor(byId, id, k).value.excluded {
        assert Ancestor(byId, id, k) == Some(chain[k]);
        assert k < r ==> chain[k] in chain[..r];
      }
    }
  }

  /** Where on the chain the devices are lost. */
  lemma ExcludedAt(chain: seq<Location>) returns (j: nat)
    requires chain != [] && Dropped(chain)
    ensures j <= RowIndex(chain) && chain[j].excluded
  {
    j := RowIndex(chain);
    if !chain[j].excluded {
      var loc :| loc in chain[..j] && loc.excluded;
      j :| 0 <= j < RowIndex(chain) && chain[..RowIndex(chain)][j] == loc;
    }
  }

  /** The row is the nearest site at or above the location, else the location itself. */
  lemma OwnerIsNearestSite(byId: map<string, Location>, id: string)
    requires IsTree(byId) && Owner(byId, id).Some?
    ensures var r := RowIndex(Chain(byId, id));
            && Ancestor(byId, id, r).Some? && Owner(byId, id).value == Ancestor(byId, id, r).value.id
            && (forall k: nat :: k < r && Ancestor(byId, id, k).Some? ==> !Ancestor(byId, id, k).value.isSite)
            && (Ancestor(byId, id, r).value.isSite
                || (r == 0 && forall k: nat :: Ancestor(byId, id, k).Some? ==> !Ancestor(byId, id, k).value.isSite))
  {
    var chain := Chain(byId, id);
    var r := RowIndex(chain);
    ChainIsAllAncestors(byId, id);
    assert Ancestor(byId, id, r) == Some(chain[r]);
    forall k: nat | k < r ensures !Ancestor(byId, id, k).value.isSite {
      assert Ancestor(byId, id, k) == Some(chain[k]);
    }
    if SiteIndex(chain) == |chain| {
      forall k: nat | Ancestor(byId, id, k).Some? ensures !Ancestor(byId, id, k).value.isSite {
        assert Ancestor(byId, id, k).value in chain;
      }
    }
  }

  /** The rows are the sites that are not excluded and the locations that keep a row of their own. */
  lemma {:induction false} RowsExactly(byId: map<string, Location>, locations: seq<Location>, entries: seq<Entry>,
                                       row: string)
    ensures row in AllRows(byId, locations, entries) <==>
            || (exists loc :: loc in locations && loc.id == row && loc.isSite && !loc.excluded)
            || exists e :: e in entries && Owner(byId, e.location) == Some(row)
  {
    if entries == [] {
      SiteRowsMeaning(locations);
    } else {
      var front, last := entries[..|entries| - 1], entries[|entries| - 1];
      RowsExactly(byId, locations, front, row);
      assert forall e :: e in entries <==> e in front || e == last;
    }
  }

  lemma {:induction false} NameFromTop(below: seq<Location>, i: nat)
    requires i < |below|
    ensures NamesFromTop(below)[i] == below[|below| - 1 - i].name
  {
    if i < |below| - 1 { NameFromTop(below[1..], i); }
  }

  lemma PathOnWay(chain: seq<Location>)
    requires Path(chain) != []
    ensures SiteIndex(chain) < |chain| && Path(chain) == NamesFromTop(chain[..SiteIndex(chain)])
    ensures |Path(chain)| == SiteIndex(chain)
  {
  }

  /** A device's path names the locations between it and its site, the site's child first. */
  lemma PathNamesTheWay(byId: map<string, Location>, id: string, i: nat)
    requires IsTree(byId) && i < |Path(Chain(byId, id))|
    ensures var way := SiteIndex(Chain(byId, id));
            && |Path(Chain(byId, id))| == way
            && Ancestor(byId, id, way).Some? && Ancestor(byId, id, way).value.isSite
            && Ancestor(byId, id, way - 1 - i).Some?
            && Path(Chain(byId, id))[i] == Ancestor(byId, id, way - 1 - i).value.name
  {
    var chain := Chain(byId, id);
    var way := SiteIndex(chain);
    PathOnWay(chain);
    NameFromTop(chain[..way], i);
    ChainAt(byId, id, way);
    ChainAt(byId, id, way - 1 - i);
  }

  /** With nothing excluded every device of a location that there is has a row. */
  lemma NothingExcludedNothingDropped(locations: seq<Location>, id: string)
    requires UniqueIds(locations) && forall loc <- locations :: !loc.excluded
    ensures Owner(ById(locations), id).Some? <==> exists loc :: loc in locations && loc.id == id
  {
    var byId := ById(locations);
    ByIdFindsAll(locations);
    DroppedExactly(byId, id);
    forall k: nat | Ancestor(byId, id, k).Some? ensures !Ancestor(byId, id, k).value.excluded {
      AncestorIsKnown(byId, id, k);
    }
  }
}
