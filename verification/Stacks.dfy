/**
 Stacks of switches as one device (nautobot_maps/alerts.py): the lead stands for the stack,
 and is down when any member is.  A device is told apart by its place in the list.
 */
module Stacks {
  import opened Wrappers

  /**
   *vc*: its virtual chassis, empty for none; *report*: what is known of its being down, by
   field (its status, who says so and since when), as far as it is there at all.
   */
  datatype Device = Device(name: string, vc: string, master: bool, position: Option<int>, report: map<string, string>)

  predicate IsDown(d: Device) {
    "status" in d.report && d.report["status"] in {"offline", "failed", "decommissioning", "flapping"}
  }

  /** The master first, then by place, those without one last. */
  predicate Precedes(a: Device, b: Device) {
    if a.master != b.master then a.master
    else if a.position.None? != b.position.None? then a.position.Some?
    else a.position.GetOr(0) < b.position.GetOr(0)
  }

  /** The same, and in the list's order between equals. */
  predicate Before(ds: seq<Device>, i: nat, j: nat)
    requires i < |ds| && j < |ds|
  {
    Precedes(ds[i], ds[j]) || (!Precedes(ds[j], ds[i]) && i < j)
  }

  predicate AreMembers(ds: seq<Device>, members: seq<nat>) {
    forall p :: 0 <= p < |members| ==> members[p] < |ds|
  }

  predicate Ascending(members: seq<nat>) {
    forall p, q :: 0 <= p < q < |members| ==> members[p] < members[q]
  }

  predicate IsOrdered(ds: seq<Device>, ordered: seq<nat>)
    requires AreMembers(ds, ordered)
  {
    forall p, q :: 0 <= p < q < |ordered| ==> Before(ds, ordered[p], ordered[q])
  }

  ghost predicate SameElements(a: seq<nat>, b: seq<nat>) {
    |a| == |b| && forall i: nat :: i in a <==> i in b
  }

  /** Python's stable sort of members given in the list's order. */
  function Ordered(ds: seq<Device>, members: seq<nat>): (ordered: seq<nat>)
    requires AreMembers(ds, members) && Ascending(members)
    ensures AreMembers(ds, ordered) && IsOrdered(ds, ordered) && SameElements(ordered, members)
  {
    if members == [] then []
    else
      var front, last := members[..|members| - 1], members[|members| - 1];
      var ordered := Ordered(ds, front);
      assert members == front + [last];
      assert forall p :: 0 <= p < |ordered| ==> ordered[p] in ordered;
      Placed(ds, ordered, last)
  }

  function Placed(ds: seq<Device>, ordered: seq<nat>, i: nat): (more: seq<nat>)
    requires AreMembers(ds, ordered) && IsOrdered(ds, ordered)
    requires i < |ds| && forall p :: 0 <= p < |ordered| ==> ordered[p] < i
    ensures AreMembers(ds, more) && SameElements(more, ordered + [i])
    ensures IsOrdered(ds, more)
  {
    if ordered == [] then [i]
    else
      var front, last := ordered[..|ordered| - 1], ordered[|ordered| - 1];
      assert ordered == front + [last];
      if Precedes(ds[i], ds[last]) then
        var more := Placed(ds, front, i);
        AllBefore(ds, front, i, more, last);
        more + [last]
      else
        LastIsLatest(ds, ordered, i);
        ordered + [i]
  }

  lemma AllBefore(ds: seq<Device>, front: seq<nat>, i: nat, more: seq<nat>, last: nat)
    requires AreMembers(ds, front) && AreMembers(ds, more) && SameElements(more, front + [i])
    requires last < |ds| && i < |ds| && Before(ds, i, last)
    requires forall p :: 0 <= p < |front| ==> Before(ds, front[p], last)
    ensures forall p :: 0 <= p < |more| ==> Before(ds, more[p], last)
  {
    forall p | 0 <= p < |more| ensures Before(ds, more[p], last) {
      assert more[p] in more && more[p] in front + [i];
      if more[p] != i {
        var q :| 0 <= q < |front| && front[q] == more[p];
      }
    }
  }

  /** Who does not precede the last does not precede any. */
  lemma LastIsLatest(ds: seq<Device>, ordered: seq<nat>, i: nat)
    requires AreMembers(ds, ordered) && IsOrdered(ds, ordered) && ordered != []
    requires i < |ds| && forall p :: 0 <= p < |ordered| ==> ordered[p] < i
    requires !Precedes(ds[i], ds[ordered[|ordered| - 1]])
    ensures forall p :: 0 <= p < |ordered| ==> Before(ds, ordered[p], i)
  {
    var last := ordered[|ordered| - 1];
    forall p | 0 <= p < |ordered| ensures Before(ds, ordered[p], i) {
      assert p < |ordered| - 1 ==> Before(ds, ordered[p], last);
    }
  }

  // ---------------------------------------------------------------- the stacks

  /** The places of a chassis's members, in the list's order. */
  function Members(ds: seq<Device>, vc: string): (members: seq<nat>)
    ensures forall i: nat :: i in members <==> i < |ds| && ds[i].vc == vc
    ensures AreMembers(ds, members) && Ascending(members)
  {
    if ds == [] then []
    else
      var last := |ds| - 1;
      var front := Members(ds[..last], vc);
      if ds[last].vc == vc then front + [last] else front
  }

  predicate IsStack(ds: seq<Device>, vc: string) { vc != "" && |Members(ds, vc)| >= 2 }

  function Stack(ds: seq<Device>, vc: string): seq<nat> { Ordered(ds, Members(ds, vc)) }

  /** The first of them that is down. */
  function FirstDown(ds: seq<Device>, ordered: seq<nat>): (down: Option<nat>)
    requires AreMembers(ds, ordered)
    ensures down.None? <==> forall p :: 0 <= p < |ordered| ==> !IsDown(ds[ordered[p]])
    ensures down.Some? ==> down.value in ordered && down.value < |ds| && IsDown(ds[down.value])
    ensures ordered != [] && IsDown(ds[ordered[0]]) ==> down == Some(ordered[0])
  {
    if ordered == [] then None
    else if IsDown(ds[ordered[0]]) then Some(ordered[0])
    else
      assert ordered == [ordered[0]] + ordered[1..];
      FirstDown(ds, ordered[1..])
  }

  datatype Group = Group(vc: string, lead: nat, others: seq<nat>, down: Option<nat>)

  function GroupOf(ds: seq<Device>, vc: string): Group
    requires IsStack(ds, vc)
  {
    var ordered := Stack(ds, vc);
    Group(vc, ordered[0], ordered[1..], FirstDown(ds, ordered))
  }

  /** The members of every chassis, by chassis, and the chassis in order. */
  method CollectChassis(ds: seq<Device>) returns (chassis: map<string, seq<nat>>, vcs: seq<string>)
    ensures forall vc :: vc in chassis <==> vc != "" && Members(ds, vc) != []
    ensures forall vc <- chassis :: chassis[vc] == Members(ds, vc)
    ensures forall vc :: vc in vcs <==> vc in chassis
  {
    chassis, vcs := map[], [];
    for k := 0 to |ds|
      invariant forall vc :: vc in chassis <==> vc != "" && Members(ds[..k], vc) != []
      invariant forall vc <- chassis :: chassis[vc] == Members(ds[..k], vc)
      invariant forall vc :: vc in vcs <==> vc in chassis
    {
      assert ds[..k + 1][..k] == ds[..k];
      var vc := ds[k].vc;
      if vc != "" {
        if vc !in chassis { chassis, vcs := chassis[vc := []], vcs + [vc]; }
        chassis := chassis[vc := chassis[vc] + [k]];
      }
    }
    assert ds[..|ds|] == ds;
  }

  method StackGroups(ds: seq<Device>) returns (groups: seq<Group>)
    ensures forall g <- groups :: IsStack(ds, g.vc) && g == GroupOf(ds, g.vc)
    ensures forall vc | IsStack(ds, vc) :: GroupOf(ds, vc) in groups
  {
    var chassis, vcs := CollectChassis(ds);
    groups := [];
    for k := 0 to |vcs|
      invariant forall g <- groups :: IsStack(ds, g.vc) && g == GroupOf(ds, g.vc)
      invariant forall vc <- vcs[..k] | IsStack(ds, vc) :: GroupOf(ds, vc) in groups
    {
      assert vcs[..k + 1] == vcs[..k] + [vcs[k]];
      var members := chassis[vcs[k]];
      if |members| < 2 { continue; }
      var ordered := Ordered(ds, members);
      groups := groups + [Group(vcs[k], ordered[0], ordered[1..], FirstDown(ds, ordered))];
    }
    assert vcs[..|vcs|] == vcs;
  }

  /** The lead of a chassis is a master if it has one, then the one with the lowest place, then the first listed. */
  lemma LeadIsMaster(ds: seq<Device>, vc: string, j: nat)
    requires IsStack(ds, vc) && j < |ds| && ds[j].vc == vc
    ensures var lead := GroupOf(ds, vc).lead;
            && lead < |ds| && ds[lead].vc == vc
            && (ds[j].master ==> ds[lead].master)
            && (ds[j].master == ds[lead].master ==>
                  && (ds[j].position.Some? ==> ds[lead].position.Some?)
                  && (ds[j].position.Some? ==> ds[lead].position.value <= ds[j].position.value)
                  && (ds[j].position == ds[lead].position ==> lead <= j))
  {
    var ordered := Stack(ds, vc);
    assert ordered[0] in ordered && j in Members(ds, vc);
    var p :| 0 <= p < |ordered| && ordered[p] == j;
    if p > 0 { assert Before(ds, ordered[0], ordered[p]); }
  }

  // ---------------------------------------------------------------- merging them

  predicate IsLead(ds: seq<Device>, i: nat)
    requires i < |ds|
  {
    IsStack(ds, ds[i].vc) && Stack(ds, ds[i].vc)[0] == i
  }

  /** A member of a stack that is not its lead. */
  predicate IsMerged(ds: seq<Device>, i: nat)
    requires i < |ds|
  {
    IsStack(ds, ds[i].vc) && Stack(ds, ds[i].vc)[0] != i
  }

  /** What stands for the device: a lead takes over what makes its stack down. */
  function Shown(ds: seq<Device>, i: nat): Device
    requires i < |ds|
  {
    if !IsLead(ds, i) then ds[i]
    else
      var down := FirstDown(ds, Stack(ds, ds[i].vc));
      if down.Some? && down.value != i then ds[i].(report := ds[i].report + ds[down.value].report) else ds[i]
  }

  /** The places that stay, in order. */
  function Kept(dropped: set<nat>, n: nat): (kept: seq<nat>)
    ensures Ascending(kept) && forall p :: 0 <= p < |kept| ==> kept[p] < n
    ensures forall i: nat :: i in kept <==> i < n && i !in dropped
  {
    if n == 0 then []
    else if n - 1 in dropped then Kept(dropped, n - 1)
    else Kept(dropped, n - 1) + [n - 1]
  }

  function MergedPlaces(ds: seq<Device>): set<nat> { set i | 0 <= i < |ds| && IsMerged(ds, i) }

  function ShownAll(ds: seq<Device>): seq<Device> {
    seq(|ds|, i requires 0 <= i < |ds| => Shown(ds, i))
  }

  /** The first *n* of these without the dropped ones. */
  function Picked(shown: seq<Device>, dropped: set<nat>, n: nat): seq<Device>
    requires n <= |shown|
  {
    if n == 0 then []
    else if n - 1 in dropped then Picked(shown, dropped, n - 1)
    else Picked(shown, dropped, n - 1) + [shown[n - 1]]
  }

  lemma PickedOneMore(shown: seq<Device>, dropped: set<nat>, n: nat)
    requires n < |shown|
    ensures Picked(shown, dropped, n + 1) ==
            if n in dropped then Picked(shown, dropped, n) else Picked(shown, dropped, n) + [shown[n]]
  {
  }

  function Merged(ds: seq<Device>): seq<Device> { Picked(ShownAll(ds), MergedPlaces(ds), |ds|) }

  lemma {:induction false} PickedAsMany(shown: seq<Device>, dropped: set<nat>, n: nat)
    requires n <= |shown|
    ensures |Picked(shown, dropped, n)| == |Kept(dropped, n)|
  {
    if n > 0 {
      PickedAsMany(shown, dropped, n - 1);
      PickedOneMore(shown, dropped, n - 1);
      assert |Kept(dropped, n)| == |Kept(dropped, n - 1)| + if n - 1 in dropped then 0 else 1;
    }
  }

  lemma {:induction false} PickedAt(shown: seq<Device>, dropped: set<nat>, n: nat, p: nat)
    requires n <= |shown| && p < |Kept(dropped, n)|
    ensures |Picked(shown, dropped, n)| == |Kept(dropped, n)|
    ensures Picked(shown, dropped, n)[p] == shown[Kept(dropped, n)[p]]
  {
    PickedAsMany(shown, dropped, n);
    PickedAsMany(shown, dropped, n - 1);
    if p < |Kept(dropped, n - 1)| { PickedAt(shown, dropped, n - 1, p); }
  }

  /** What a group does to the plan of what is dropped and what replaces a lead. */
  function WithLead(ds: seq<Device>, g: Group, replaced: map<nat, Device>): map<nat, Device>
    requires g.lead < |ds| && (g.down.Some? ==> g.down.value < |ds|)
  {
    if g.down.Some? && g.down.value != g.lead
    then replaced[g.lead := ds[g.lead].(report := ds[g.lead].report + ds[g.down.value].report)]
    else replaced
  }

  /** The plan is right as far as it goes, and has all of these groups. */
  predicate IsPlan(
    shown: seq<Device>, merged: set<nat>, groups: seq<Group>, replaced: map<nat, Device>, dropped: set<nat>)
  {
    && dropped <= merged
    && (forall i <- replaced :: i < |shown| && replaced[i] == shown[i])
    && (forall g <- groups :: (set i <- g.others) <= dropped
                              && (g.down.Some? && g.down.value != g.lead ==> g.lead in replaced))
  }

  /** A group's own part of the plan is right. */
  predicate IsGroup(ds: seq<Device>, shown: seq<Device>, merged: set<nat>, g: Group) {
    && g.lead < |ds| && g.lead < |shown| && (g.down.Some? ==> g.down.value < |ds|)
    && (set i <- g.others) <= merged
    && (g.down.Some? && g.down.value != g.lead ==>
          shown[g.lead] == ds[g.lead].(report := ds[g.lead].report + ds[g.down.value].report))
  }

  lemma OneGroupMore(ds: seq<Device>, shown: seq<Device>, merged: set<nat>, groups: seq<Group>, g: Group,
                     replaced: map<nat, Device>, dropped: set<nat>)
    requires IsPlan(shown, merged, groups, replaced, dropped) && IsGroup(ds, shown, merged, g)
    ensures IsPlan(shown, merged, groups + [g], WithLead(ds, g, replaced), dropped + set i <- g.others)
  {
  }

  lemma OthersAreMerged(ds: seq<Device>, vc: string)
    requires IsStack(ds, vc)
    ensures forall i: nat :: i in GroupOf(ds, vc).others ==> i < |ds| && IsMerged(ds, i)
  {
    var ordered := Stack(ds, vc);
    forall i: nat | i in ordered[1..] ensures i < |ds| && IsMerged(ds, i) {
      var p :| 1 <= p < |ordered| && ordered[p] == i;
      assert ordered[p] in ordered && Before(ds, ordered[0], ordered[p]);
    }
  }

  lemma LeadOfGroup(ds: seq<Device>, vc: string)
    requires IsStack(ds, vc)
    ensures var g := GroupOf(ds, vc);
            && g.lead < |ds| && IsLead(ds, g.lead) && ds[g.lead].vc == vc && g.down == FirstDown(ds, Stack(ds, vc))
            && (g.down.Some? ==> g.down.value < |ds|)
  {
    assert Stack(ds, vc)[0] in Stack(ds, vc);
  }

  lemma GroupIsRight(ds: seq<Device>, vc: string)
    requires IsStack(ds, vc)
    ensures IsGroup(ds, ShownAll(ds), MergedPlaces(ds), GroupOf(ds, vc))
  {
    OthersAreMerged(ds, vc);
    LeadOfGroup(ds, vc);
    assert ShownAll(ds)[GroupOf(ds, vc).lead] == Shown(ds, GroupOf(ds, vc).lead);
  }

  method PlanMerge(ds: seq<Device>) returns (replaced: map<nat, Device>, dropped: set<nat>)
    ensures dropped == MergedPlaces(ds)
    ensures forall i: nat :: i < |ds| ==> (if i in replaced then replaced[i] else ds[i]) == ShownAll(ds)[i]
  {
    replaced, dropped := map[], {};
    ghost var shown, merged := ShownAll(ds), MergedPlaces(ds);
    var groups := StackGroups(ds);
    forall g | g in groups ensures IsGroup(ds, shown, merged, g) { GroupIsRight(ds, g.vc); }
    for k := 0 to |groups|
      invariant IsPlan(shown, merged, groups[..k], replaced, dropped)
    {
      assert groups[..k + 1] == groups[..k] + [groups[k]] && groups[k] in groups;
      OneGroupMore(ds, shown, merged, groups[..k], groups[k], replaced, dropped);
      dropped := dropped + set i <- groups[k].others;
      replaced := WithLead(ds, groups[k], replaced);
    }
    assert groups[..|groups|] == groups;
    PlanIsComplete(ds, groups, replaced, dropped);
  }

  method MergeStacks(ds: seq<Device>) returns (merged: seq<Device>)
    ensures merged == Merged(ds)
  {
    var replaced, dropped := PlanMerge(ds);
    merged := PickShown(ds, replaced, dropped, ShownAll(ds));
  }

  method PickShown(ds: seq<Device>, replaced: map<nat, Device>, dropped: set<nat>, ghost shown: seq<Device>)
    returns (merged: seq<Device>)
    requires |shown| == |ds|
    requires forall i: nat :: i < |ds| ==> (if i in replaced then replaced[i] else ds[i]) == shown[i]
    ensures merged == Picked(shown, dropped, |ds|)
  {
    merged := [];
    for i := 0 to |ds|
      invariant merged == Picked(shown, dropped, i)
    {
      PickedOneMore(shown, dropped, i);
      if i !in dropped { merged := merged + [if i in replaced then replaced[i] else ds[i]]; }
    }
  }

  lemma PlanIsComplete(ds: seq<Device>, groups: seq<Group>, replaced: map<nat, Device>, dropped: set<nat>)
    requires IsPlan(ShownAll(ds), MergedPlaces(ds), groups, replaced, dropped)
    requires forall vc | IsStack(ds, vc) :: GroupOf(ds, vc) in groups
    ensures dropped == MergedPlaces(ds)
    ensures forall i: nat :: i < |ds| ==> (if i in replaced then replaced[i] else ds[i]) == ShownAll(ds)[i]
  {
    forall i: nat | i < |ds|
      ensures i in dropped <==> IsMerged(ds, i)
      ensures (if i in replaced then replaced[i] else ds[i]) == Shown(ds, i)
    {
      var vc := ds[i].vc;
      if IsStack(ds, vc) {
        assert GroupOf(ds, vc) in groups;
        var ordered := Stack(ds, vc);
        assert i in Members(ds, vc) && i in ordered;
        assert ordered == [ordered[0]] + ordered[1..];
      }
    }
  }

  // ---------------------------------------------------------------- what merging means

  lemma {:induction false} FirstDownIs(ds: seq<Device>, ordered: seq<nat>, p: nat)
    requires AreMembers(ds, ordered) && p < |ordered| && IsDown(ds[ordered[p]])
    requires forall q :: 0 <= q < p ==> !IsDown(ds[ordered[q]])
    ensures FirstDown(ds, ordered) == Some(ordered[p])
  {
    if p > 0 { FirstDownIs(ds, ordered[1..], p - 1); }
  }

  /**
   The lead takes over what is known of the first member that is down, in the order of the
   stack, and keeps the rest of its own.
   */
  lemma LeadTakesOver(ds: seq<Device>, i: nat, j: nat, key: string)
    requires i < |ds| && j < |ds| && IsLead(ds, i) && ds[j].vc == ds[i].vc && IsDown(ds[j])
    requires forall m: nat :: m < |ds| && ds[m].vc == ds[i].vc && Before(ds, m, j) && m != j ==> !IsDown(ds[m])
    ensures var lead := Shown(ds, i);
            && lead == ds[i].(report := lead.report)
            && (key in lead.report <==> key in ds[i].report || key in ds[j].report)
            && (key in lead.report ==>
                  lead.report[key] == if key in ds[j].report then ds[j].report[key] else ds[i].report[key])
  {
    var ordered, members := Stack(ds, ds[i].vc), Members(ds, ds[i].vc);
    assert j in members && j in ordered;
    var p :| 0 <= p < |ordered| && ordered[p] == j;
    assert !Before(ds, j, j);
    forall q | 0 <= q < p ensures !IsDown(ds[ordered[q]]) {
      assert ordered[q] in ordered && ordered[q] in members;
      assert Before(ds, ordered[q], j);
    }
    FirstDownIs(ds, ordered, p);
  }

  lemma DownExactly(d: Device)
    ensures IsDown(d) <==>
            "status" in d.report &&
            (d.report["status"] == "offline" || d.report["status"] == "failed" || d.report["status"] == "decommissioning"
             || d.report["status"] == "flapping")
  {
  }

  /** The lead is down afterwards exactly when a member was down. */
  lemma LeadIsDownExactly(ds: seq<Device>, i: nat)
    requires i < |ds| && IsLead(ds, i)
    ensures IsDown(Shown(ds, i)) <==> exists j: nat :: j < |ds| && ds[j].vc == ds[i].vc && IsDown(ds[j])
  {
    var vc := ds[i].vc;
    var ordered, members := Stack(ds, vc), Members(ds, vc);
    if j: nat :| j < |ds| && ds[j].vc == vc && IsDown(ds[j]) {
      assert j in members && j in ordered;
      assert exists p :: 0 <= p < |ordered| && IsDown(ds[ordered[p]]);
    }
    var down := FirstDown(ds, ordered);
    if down.Some? {
      assert down.value in ordered && down.value in members;
    }
  }

  /** No other member comes before the lead. */
  lemma LeadComesFirst(ds: seq<Device>, i: nat, j: nat)
    requires i < |ds| && j < |ds| && i != j && ds[i].vc == ds[j].vc && IsLead(ds, i)
    ensures Before(ds, i, j) && IsMerged(ds, j)
  {
    var ordered := Stack(ds, ds[i].vc);
    assert j in Members(ds, ds[i].vc) && j in ordered;
    var p :| 0 <= p < |ordered| && ordered[p] == j;
  }

  /** Two members of a chassis do not both stay. */
  lemma OneStays(ds: seq<Device>, i: nat, j: nat)
    requires i < j < |ds| && ds[i].vc == ds[j].vc != ""
    ensures IsMerged(ds, i) || IsMerged(ds, j)
  {
    var members := Members(ds, ds[i].vc);
    assert i in members && j in members;
    var p :| 0 <= p < |members| && members[p] == i;
    var q :| 0 <= q < |members| && members[q] == j;
    assert p != q;
  }

  lemma MergedAt(ds: seq<Device>, p: nat)
    requires p < |Merged(ds)|
    ensures var kept := Kept(MergedPlaces(ds), |ds|);
            && |kept| == |Merged(ds)| && kept[p] < |ds| && !IsMerged(ds, kept[p])
            && Merged(ds)[p] == Shown(ds, kept[p]) && Merged(ds)[p].vc == ds[kept[p]].vc
  {
    var kept := Kept(MergedPlaces(ds), |ds|);
    PickedAsMany(ShownAll(ds), MergedPlaces(ds), |ds|);
    PickedAt(ShownAll(ds), MergedPlaces(ds), |ds|, p);
    assert kept[p] in kept;
  }

  lemma NoStackIsLeft(ds: seq<Device>, vc: string)
    ensures !IsStack(Merged(ds), vc)
  {
    var merged := Merged(ds);
    if IsStack(merged, vc) {
      var members := Members(merged, vc);
      var p, q := members[0], members[1];
      assert p in members && q in members;
      MergedAt(ds, p);
      MergedAt(ds, q);
      var kept := Kept(MergedPlaces(ds), |ds|);
      OneStays(ds, kept[p], kept[q]);
      assert false;
    }
  }

  lemma NothingToMerge(ds: seq<Device>)
    requires forall vc :: !IsStack(ds, vc)
    ensures Merged(ds) == ds
  {
    assert MergedPlaces(ds) == {};
    assert ShownAll(ds) == ds;
    AllArePicked(ds, |ds|);
  }

  lemma {:induction false} AllArePicked(ds: seq<Device>, n: nat)
    requires n <= |ds|
    ensures Picked(ds, {}, n) == ds[..n]
  {
    if n > 0 { AllArePicked(ds, n - 1); }
  }

  lemma MergingAgainChangesNothing(ds: seq<Device>)
    ensures Merged(Merged(ds)) == Merged(ds)
  {
    forall vc ensures !IsStack(Merged(ds), vc) { NoStackIsLeft(ds, vc); }
    NothingToMerge(Merged(ds));
  }
}
