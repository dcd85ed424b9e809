/**
 The interval algebra behind availability figures (nautobot_maps/availability.py).

 A time is a whole number of microseconds, the resolution of the stored times.
 An interval is half-open, and the meaning of a list of intervals is the set of
 instants it covers, `Points`.  Every operation is specified on that set.
 */
module Intervals {
  import opened Numbers

  datatype Interval = Interval(start: int, end: int)

  const MICROS_PER_SECOND := 1_000_000

  // ----- meaning ----------------------------------------------------------

  predicate Within(t: int, lo: int, hi: int) { lo <= t < hi }

  ghost function Span(lo: int, hi: int): set<int> {
    set t | lo <= t < hi && Within(t, lo, hi)
  }

  ghost function Points(xs: seq<Interval>): set<int> {
    if xs == [] then {} else Points(xs[..|xs| - 1]) + Span(xs[|xs| - 1].start, xs[|xs| - 1].end)
  }

  lemma {:induction false} InPoints(xs: seq<Interval>, t: int)
    ensures t in Points(xs) <==> exists i :: i in xs && Within(t, i.start, i.end)
  {
    if xs != [] {
      var front, last := xs[..|xs| - 1], xs[|xs| - 1];
      InPoints(front, t);
      assert xs == front + [last];
      assert forall i :: i in xs <==> i in front || i == last;
    }
  }

  lemma PointsAppend(xs: seq<Interval>, x: Interval)
    ensures Points(xs + [x]) == Points(xs) + Span(x.start, x.end)
  {
    assert (xs + [x])[..|xs|] == xs;
  }

  lemma {:induction false} PointsConcat(a: seq<Interval>, b: seq<Interval>)
    ensures Points(a + b) == Points(a) + Points(b)
  {
    if b == [] {
      assert a + b == a;
    } else {
      var front, last := b[..|b| - 1], b[|b| - 1];
      PointsConcat(a, front);
      PointsAppend(a + front, last);
      assert a + b == a + front + [last];
    }
  }

  lemma PointsOne(i: Interval)
    ensures Points([i]) == Span(i.start, i.end)
  {
    PointsAppend([], i);
    assert [] + [i] == [i];
  }

  // ----- canonical form ---------------------------------------------------

  /** Sorted, every interval non-empty, and a gap between any two. */
  ghost predicate Canonical(xs: seq<Interval>) {
    && (forall i :: 0 <= i < |xs| ==> xs[i].start < xs[i].end)
    && (forall i, j :: 0 <= i < j < |xs| ==> xs[i].end < xs[j].start)
  }

  lemma FirstPoint(xs: seq<Interval>)
    requires Canonical(xs) && xs != []
    ensures xs[0].start in Points(xs) && xs[0].end !in Points(xs)
    ensures forall t :: t in Points(xs) ==> xs[0].start <= t
    ensures forall t :: xs[0].start <= t < xs[0].end ==> t in Points(xs)
  {
    forall t ensures t in Points(xs) ==> xs[0].start <= t && t != xs[0].end {
      InPoints(xs, t);
      if t in Points(xs) {
        var i :| i in xs && Within(t, i.start, i.end);
        var k :| 0 <= k < |xs| && xs[k] == i;
        assert k == 0 || xs[0].end < xs[k].start;
      }
    }
    forall t | xs[0].start <= t < xs[0].end ensures t in Points(xs) {
      InPoints(xs, t);
      assert xs[0] in xs;
    }
  }

  lemma RestAfterFirst(xs: seq<Interval>)
    requires Canonical(xs) && xs != []
    ensures Points(xs[1..]) == Points(xs) - Span(xs[0].start, xs[0].end)
  {
    assert xs == [xs[0]] + xs[1..];
    PointsConcat([xs[0]], xs[1..]);
    PointsOne(xs[0]);
    if |xs| > 1 {
      FirstPoint(xs[1..]);
      assert xs[1..][0] == xs[1];
    }
  }

  lemma SameFirst(a: seq<Interval>, b: seq<Interval>)
    requires Canonical(a) && Canonical(b) && Points(a) == Points(b) && a != [] && b != []
    ensures a[0] == b[0]
  {
    FirstPoint(a);
    FirstPoint(b);
    var i, j := a[0], b[0];
    assert i.start == j.start && j.end !in Points(a) && i.end !in Points(b);
  }

  lemma SameRest(a: seq<Interval>, b: seq<Interval>)
    requires Canonical(a) && Canonical(b) && Points(a) == Points(b) && a != [] && b != []
    ensures a[0] == b[0] && Points(a[1..]) == Points(b[1..]) && Canonical(a[1..]) && Canonical(b[1..])
  {
    SameFirst(a, b);
    RestAfterFirst(a);
    RestAfterFirst(b);
  }

  lemma EmptyPoints(xs: seq<Interval>)
    requires Canonical(xs)
    ensures xs == [] <==> Points(xs) == {}
  {
    if xs != [] { FirstPoint(xs); }
  }

  lemma BothEmpty(a: seq<Interval>, b: seq<Interval>)
    requires Canonical(a) && Canonical(b) && Points(a) == Points(b)
    ensures a == [] <==> b == []
  {
    EmptyPoints(a);
    EmptyPoints(b);
  }

  lemma SameFromFirst(a: seq<Interval>, b: seq<Interval>)
    requires a != [] && b != [] && a[0] == b[0] && a[1..] == b[1..]
    ensures a == b
  {
    assert a == [a[0]] + a[1..] && b == [b[0]] + b[1..];
  }

  /** The canonical form is unique: the same instants have one canonical list. */
  lemma {:induction false} CanonicalUnique(a: seq<Interval>, b: seq<Interval>)
    requires Canonical(a) && Canonical(b) && Points(a) == Points(b)
    ensures a == b
    decreases |a|
  {
    BothEmpty(a, b);
    if a != [] {
      SameRest(a, b);
      CanonicalUnique(a[1..], b[1..]);
      SameFromFirst(a, b);
    }
  }

  // ----- union ------------------------------------------------------------

  function NonEmpty(xs: seq<Interval>): (r: seq<Interval>)
    ensures forall i :: i in r <==> i in xs && i.start < i.end
  {
    if xs == [] then []
    else
      var last := xs[|xs| - 1];
      assert xs == xs[..|xs| - 1] + [last];
      NonEmpty(xs[..|xs| - 1]) + if last.end > last.start then [last] else []
  }

  predicate Before(a: Interval, b: Interval) {
    a.start < b.start || (a.start == b.start && a.end <= b.end)
  }

  predicate Sorted(xs: seq<Interval>) {
    forall i, j :: 0 <= i < j < |xs| ==> Before(xs[i], xs[j])
  }

  function Insert(x: Interval, xs: seq<Interval>): (r: seq<Interval>)
    ensures multiset(r) == multiset(xs) + multiset{x}
  {
    if xs == [] || Before(x, xs[0]) then [x] + xs
    else
      assert xs == [xs[0]] + xs[1..];
      [xs[0]] + Insert(x, xs[1..])
  }

  lemma {:induction false} InsertSorted(x: Interval, xs: seq<Interval>)
    requires Sorted(xs)
    ensures Sorted(Insert(x, xs))
  {
    if xs != [] && !Before(x, xs[0]) {
      var tail := Insert(x, xs[1..]);
      InsertSorted(x, xs[1..]);
      forall i | i in tail ensures Before(xs[0], i) {
        assert i in multiset(tail);
        assert i == x || i in xs[1..];
      }
    }
  }

  /** The sort the list is merged from: by start, then end. */
  function Sort(xs: seq<Interval>): (r: seq<Interval>)
    ensures Sorted(r) && multiset(r) == multiset(xs)
  {
    if xs == [] then []
    else
      var front, x := xs[..|xs| - 1], xs[|xs| - 1];
      assert xs == front + [x];
      InsertSorted(x, Sort(front));
      Insert(x, Sort(front))
  }

  /** One step of the merge: *x* extends the last interval or starts a new one. */
  function Absorb(merged: seq<Interval>, x: Interval): seq<Interval> {
    if merged != [] && x.start <= merged[|merged| - 1].end then
      var last := merged[|merged| - 1];
      merged[..|merged| - 1] + [Interval(last.start, Max(last.end, x.end))]
    else
      merged + [x]
  }

  function MergeAll(sorted: seq<Interval>): seq<Interval> {
    if sorted == [] then [] else Absorb(MergeAll(sorted[..|sorted| - 1]), sorted[|sorted| - 1])
  }

  function Union(xs: seq<Interval>): seq<Interval> {
    MergeAll(Sort(NonEmpty(xs)))
  }

  lemma AbsorbPoints(merged: seq<Interval>, x: Interval)
    requires x.start < x.end && forall i :: i in merged ==> i.start <= x.start && i.start < i.end
    ensures Points(Absorb(merged, x)) == Points(merged) + Span(x.start, x.end)
  {
    if merged != [] && x.start <= merged[|merged| - 1].end {
      var front, last := merged[..|merged| - 1], merged[|merged| - 1];
      var longer := Interval(last.start, Max(last.end, x.end));
      assert last in merged && merged == front + [last];
      PointsAppend(front, last);
      PointsAppend(front, longer);
      assert Span(longer.start, longer.end) == Span(last.start, last.end) + Span(x.start, x.end);
    } else {
      PointsAppend(merged, x);
    }
  }

  lemma AbsorbCanonical(merged: seq<Interval>, x: Interval)
    requires Canonical(merged) && x.start < x.end && forall i :: i in merged ==> i.start <= x.start
    ensures Canonical(Absorb(merged, x))
    ensures forall i :: i in Absorb(merged, x) ==> i.start <= x.start && i.start < i.end
  {
    var r := Absorb(merged, x);
    assert forall k :: 0 <= k < |merged| ==> merged[k] in merged;
  }

  lemma {:induction false} MergeAllMeaning(sorted: seq<Interval>, bound: int)
    requires Sorted(sorted) && forall i :: i in sorted ==> i.start < i.end && i.start <= bound
    ensures Canonical(MergeAll(sorted)) && Points(MergeAll(sorted)) == Points(sorted)
    ensures forall i :: i in MergeAll(sorted) ==> i.start <= bound && i.start < i.end
  {
    if sorted != [] {
      var front, x := sorted[..|sorted| - 1], sorted[|sorted| - 1];
      forall i | i in front ensures i.start <= x.start {
        var k :| 0 <= k < |front| && front[k] == i;
        assert Before(sorted[k], x);
      }
      MergeAllMeaning(front, x.start);
      AbsorbPoints(MergeAll(front), x);
      AbsorbCanonical(MergeAll(front), x);
    }
  }

  lemma SortKeeps(xs: seq<Interval>)
    ensures forall i :: i in Sort(xs) <==> i in xs
  {
    forall i ensures i in Sort(xs) <==> i in xs {
      assert i in Sort(xs) <==> i in multiset(Sort(xs));
      assert i in xs <==> i in multiset(xs);
    }
  }

  function LatestStart(xs: seq<Interval>): (r: int)
    ensures forall i :: i in xs ==> i.start <= r
  {
    if xs == [] then 0 else
      assert xs == xs[..|xs| - 1] + [xs[|xs| - 1]];
      Max(LatestStart(xs[..|xs| - 1]), xs[|xs| - 1].start)
  }

  lemma UnionMeaning(xs: seq<Interval>)
    ensures Canonical(Union(xs)) && Points(Union(xs)) == Points(xs)
  {
    var kept := NonEmpty(xs);
    var sorted := Sort(kept);
    SortKeeps(kept);
    MergeAllMeaning(sorted, LatestStart(sorted));
    forall t ensures t in Points(sorted) <==> t in Points(xs) {
      InPoints(sorted, t);
      InPoints(xs, t);
    }
  }

  /** `union` computes a normal form: equal instants give equal lists, and only then. */
  lemma UnionIsNormalForm(xs: seq<Interval>, ys: seq<Interval>)
    ensures Points(xs) == Points(ys) <==> Union(xs) == Union(ys)
    ensures Canonical(xs) <==> Union(xs) == xs
  {
    UnionMeaning(xs);
    UnionMeaning(ys);
    if Points(xs) == Points(ys) { CanonicalUnique(Union(xs), Union(ys)); }
    if Canonical(xs) { CanonicalUnique(Union(xs), xs); }
  }

  method ComputeMerge(sorted: seq<Interval>) returns (merged: seq<Interval>)
    ensures merged == MergeAll(sorted)
  {
    merged := [];
    for i := 0 to |sorted|
      invariant merged == MergeAll(sorted[..i])
    {
      assert sorted[..i + 1][..i] == sorted[..i];
      var x := sorted[i];
      if merged != [] && x.start <= merged[|merged| - 1].end {
        var last := merged[|merged| - 1];
        merged := merged[..|merged| - 1] + [Interval(last.start, Max(last.end, x.end))];
      } else {
        merged := merged + [x];
      }
    }
    assert sorted[..|sorted|] == sorted;
  }

  method ComputeUnion(intervals: seq<Interval>) returns (merged: seq<Interval>)
    ensures merged == Union(intervals)
    ensures Canonical(merged) && Points(merged) == Points(intervals)
  {
    merged := ComputeMerge(Sort(NonEmpty(intervals)));
    UnionMeaning(intervals);
  }

  // ----- subtract ---------------------------------------------------------

  /** What is left of *piece* without *hole*. */
  function CutPiece(piece: Interval, hole: Interval): seq<Interval> {
    if hole.end <= piece.start || hole.start >= piece.end then [piece]
    else
      (if hole.start > piece.start then [Interval(piece.start, hole.start)] else [])
      + (if hole.end < piece.end then [Interval(hole.end, piece.end)] else [])
  }

  function CutPieces(pieces: seq<Interval>, hole: Interval): seq<Interval> {
    if pieces == [] then []
    else CutPieces(pieces[..|pieces| - 1], hole) + CutPiece(pieces[|pieces| - 1], hole)
  }

  function CutAll(piece: Interval, holes: seq<Interval>): seq<Interval> {
    if holes == [] then [piece] else CutPieces(CutAll(piece, holes[..|holes| - 1]), holes[|holes| - 1])
  }

  function SubtractEach(xs: seq<Interval>, holes: seq<Interval>): seq<Interval> {
    if xs == [] then [] else SubtractEach(xs[..|xs| - 1], holes) + CutAll(xs[|xs| - 1], holes)
  }

  function Subtract(xs: seq<Interval>, holes: seq<Interval>): seq<Interval> {
    SubtractEach(Union(xs), Union(holes))
  }

  lemma CutPiecePoints(piece: Interval, hole: Interval)
    requires hole.start < hole.end
    ensures Points(CutPiece(piece, hole)) == Span(piece.start, piece.end) - Span(hole.start, hole.end)
  {
    if hole.end <= piece.start || hole.start >= piece.end {
      PointsOne(piece);
    } else {
      var left := if hole.start > piece.start then [Interval(piece.start, hole.start)] else [];
      var right := if hole.end < piece.end then [Interval(hole.end, piece.end)] else [];
      if left != [] { PointsOne(left[0]); }
      if right != [] { PointsOne(right[0]); }
      assert Points(left) == Span(piece.start, hole.start);
      assert Points(right) == Span(hole.end, piece.end);
      PointsConcat(left, right);
    }
  }

  lemma {:induction false} CutPiecesPoints(pieces: seq<Interval>, hole: Interval)
    requires hole.start < hole.end
    ensures Points(CutPieces(pieces, hole)) == Points(pieces) - Span(hole.start, hole.end)
  {
    if pieces != [] {
      var front, last := pieces[..|pieces| - 1], pieces[|pieces| - 1];
      CutPiecesPoints(front, hole);
      CutPiecePoints(last, hole);
      PointsConcat(CutPieces(front, hole), CutPiece(last, hole));
    }
  }

  lemma {:induction false} CutAllPoints(piece: Interval, holes: seq<Interval>)
    requires forall h :: h in holes ==> h.start < h.end
    ensures Points(CutAll(piece, holes)) == Span(piece.start, piece.end) - Points(holes)
  {
    if holes == [] {
      PointsOne(piece);
    } else {
      CutAllPoints(piece, holes[..|holes| - 1]);
      CutPiecesPoints(CutAll(piece, holes[..|holes| - 1]), holes[|holes| - 1]);
    }
  }

  lemma {:induction false} SubtractEachPoints(xs: seq<Interval>, holes: seq<Interval>)
    requires forall h :: h in holes ==> h.start < h.end
    ensures Points(SubtractEach(xs, holes)) == Points(xs) - Points(holes)
  {
    if xs != [] {
      var front, last := xs[..|xs| - 1], xs[|xs| - 1];
      SubtractEachPoints(front, holes);
      CutAllPoints(last, holes);
      PointsConcat(SubtractEach(front, holes), CutAll(last, holes));
    }
  }

  /** Canonical, and inside [lo, hi). */
  ghost predicate Inside(xs: seq<Interval>, lo: int, hi: int) {
    Canonical(xs) && forall i :: 0 <= i < |xs| ==> lo <= xs[i].start && xs[i].end <= hi
  }

  lemma InsideConcat(a: seq<Interval>, b: seq<Interval>, lo: int, mid: int, from: int, hi: int)
    requires Inside(a, lo, mid) && Inside(b, from, hi) && mid < from && lo <= from && mid <= hi
    ensures Inside(a + b, lo, hi)
  {
  }

  lemma CutPieceInside(piece: Interval, hole: Interval)
    requires piece.start < piece.end && hole.start < hole.end
    ensures Inside(CutPiece(piece, hole), piece.start, piece.end)
  {
  }

  lemma {:induction false} CutPiecesInside(pieces: seq<Interval>, hole: Interval, lo: int, hi: int)
    requires Inside(pieces, lo, hi) && hole.start < hole.end && lo <= hi
    ensures Inside(CutPieces(pieces, hole), lo, hi)
  {
    if |pieces| == 1 {
      CutPieceInside(pieces[0], hole);
      assert CutPieces(pieces, hole) == [] + CutPiece(pieces[0], hole) by { assert pieces[..0] == []; }
    } else if pieces != [] {
      var front, last := pieces[..|pieces| - 1], pieces[|pieces| - 1];
      var mid := pieces[|pieces| - 2].end;
      assert Inside(front, lo, mid);
      CutPiecesInside(front, hole, lo, mid);
      CutPieceInside(last, hole);
      InsideConcat(CutPieces(front, hole), CutPiece(last, hole), lo, mid, last.start, hi);
    }
  }

  lemma {:induction false} CutAllInside(piece: Interval, holes: seq<Interval>)
    requires piece.start < piece.end && forall h :: h in holes ==> h.start < h.end
    ensures Inside(CutAll(piece, holes), piece.start, piece.end)
  {
    if holes != [] {
      CutAllInside(piece, holes[..|holes| - 1]);
      CutPiecesInside(CutAll(piece, holes[..|holes| - 1]), holes[|holes| - 1], piece.start, piece.end);
    }
  }

  lemma {:induction false} SubtractEachInside(xs: seq<Interval>, holes: seq<Interval>, lo: int, hi: int)
    requires Inside(xs, lo, hi) && lo <= hi && forall h :: h in holes ==> h.start < h.end
    ensures Inside(SubtractEach(xs, holes), lo, hi)
  {
    if |xs| == 1 {
      CutAllInside(xs[0], holes);
      assert SubtractEach(xs, holes) == [] + CutAll(xs[0], holes) by { assert xs[..0] == []; }
    } else if xs != [] {
      var front, last := xs[..|xs| - 1], xs[|xs| - 1];
      var mid := xs[|xs| - 2].end;
      assert Inside(front, lo, mid);
      SubtractEachInside(front, holes, lo, mid);
      CutAllInside(last, holes);
      InsideConcat(SubtractEach(front, holes), CutAll(last, holes), lo, mid, last.start, hi);
    }
  }

  /** `subtract` is exact set difference, in canonical form, for any two lists. */
  lemma SubtractMeaning(xs: seq<Interval>, holes: seq<Interval>)
    ensures Canonical(Subtract(xs, holes))
    ensures Points(Subtract(xs, holes)) == Points(xs) - Points(holes)
  {
    UnionMeaning(xs);
    UnionMeaning(holes);
    var merged := Union(xs);
    SubtractEachPoints(merged, Union(holes));
    if merged == [] {
      SubtractEachInside(merged, Union(holes), 0, 0);
    } else {
      SubtractEachInside(merged, Union(holes), merged[0].start, merged[|merged| - 1].end);
    }
  }

  method ComputeCut(pieces: seq<Interval>, hole: Interval) returns (nextPieces: seq<Interval>)
    ensures nextPieces == CutPieces(pieces, hole)
  {
    nextPieces := [];
    for k := 0 to |pieces|
      invariant nextPieces == CutPieces(pieces[..k], hole)
    {
      var piece := pieces[k];
      assert pieces[..k + 1][..k] == pieces[..k];
      if hole.end <= piece.start || hole.start >= piece.end {
        nextPieces := nextPieces + [piece];
        continue;
      }
      var cut := [];
      if hole.start > piece.start {
        cut := cut + [Interval(piece.start, hole.start)];
      }
      if hole.end < piece.end {
        cut := cut + [Interval(hole.end, piece.end)];
      }
      nextPieces := nextPieces + cut;
    }
    assert pieces[..|pieces|] == pieces;
  }

  method ComputePieces(whole: Interval, holes: seq<Interval>) returns (pieces: seq<Interval>)
    ensures pieces == CutAll(whole, holes)
  {
    pieces := [whole];
    for j := 0 to |holes|
      invariant pieces == CutAll(whole, holes[..j])
    {
      assert holes[..j + 1][..j] == holes[..j];
      pieces := ComputeCut(pieces, holes[j]);
    }
    assert holes[..|holes|] == holes;
  }

  method ComputeRemainders(merged: seq<Interval>, holes: seq<Interval>) returns (result: seq<Interval>)
    ensures result == SubtractEach(merged, holes)
  {
    result := [];
    for i := 0 to |merged|
      invariant result == SubtractEach(merged[..i], holes)
    {
      assert merged[..i + 1][..i] == merged[..i];
      var pieces := ComputePieces(merged[i], holes);
      result := result + pieces;
    }
    assert merged[..|merged|] == merged;
  }

  method ComputeSubtract(intervals: seq<Interval>, given: seq<Interval>) returns (result: seq<Interval>)
    ensures result == Subtract(intervals, given)
    ensures Canonical(result) && Points(result) == Points(intervals) - Points(given)
  {
    var holes := ComputeUnion(given);
    var merged := ComputeUnion(intervals);
    result := ComputeRemainders(merged, holes);
    SubtractMeaning(intervals, given);
  }

  // ----- clip -------------------------------------------------------------

  function Clip(xs: seq<Interval>, start: int, end: int): seq<Interval> {
    if xs == [] then []
    else
      var x := xs[|xs| - 1];
      Clip(xs[..|xs| - 1], start, end)
      + if x.end > start && x.start < end then [Interval(Max(x.start, start), Min(x.end, end))] else []
  }

  /** `clip` is exact intersection with the period, for any list. */
  lemma {:induction false} ClipMeaning(xs: seq<Interval>, start: int, end: int)
    ensures Points(Clip(xs, start, end)) == Points(xs) * Span(start, end)
  {
    if xs != [] {
      var front, x := xs[..|xs| - 1], xs[|xs| - 1];
      var clipped := Clip(front, start, end);
      ClipMeaning(front, start, end);
      if x.end > start && x.start < end {
        var part := Interval(Max(x.start, start), Min(x.end, end));
        assert Span(part.start, part.end) == Span(x.start, x.end) * Span(start, end);
        PointsAppend(clipped, part);
      } else {
        assert clipped + [] == clipped;
        assert Span(x.start, x.end) * Span(start, end) == {};
      }
    }
  }

  lemma {:induction false} ClipCanonical(xs: seq<Interval>, start: int, end: int, hi: int)
    requires Canonical(xs) && start < end && forall i :: 0 <= i < |xs| ==> xs[i].end <= hi
    ensures Canonical(Clip(xs, start, end))
    ensures forall i :: 0 <= i < |Clip(xs, start, end)| ==> Clip(xs, start, end)[i].end <= Min(hi, end)
  {
    if xs != [] {
      var front, x := xs[..|xs| - 1], xs[|xs| - 1];
      if x.end > start && x.start < end {
        ClipCanonical(front, start, end, x.start - 1);
      } else {
        ClipCanonical(front, start, end, hi);
      }
    }
  }

  // ----- measure ----------------------------------------------------------

  function Total(xs: seq<Interval>): int {
    if xs == [] then 0 else Total(xs[..|xs| - 1]) + (xs[|xs| - 1].end - xs[|xs| - 1].start)
  }

  /** The covered time in microseconds. */
  function Micros(xs: seq<Interval>): int {
    Total(Union(xs))
  }

  /** The covered time in whole seconds: the sum is cut, as `int()` does. */
  function Seconds(xs: seq<Interval>): int {
    Micros(xs) / MICROS_PER_SECOND
  }

  lemma {:induction false} SpanSize(lo: int, hi: int)
    requires lo <= hi
    ensures |Span(lo, hi)| == hi - lo
    decreases hi - lo
  {
    if lo < hi {
      SpanSize(lo, hi - 1);
      assert Span(lo, hi) == Span(lo, hi - 1) + {hi - 1};
    } else {
      assert Span(lo, hi) == {};
    }
  }

  lemma {:induction false} TotalIsSize(xs: seq<Interval>)
    requires Canonical(xs)
    ensures Total(xs) == |Points(xs)|
  {
    if xs != [] {
      var front, x := xs[..|xs| - 1], xs[|xs| - 1];
      TotalIsSize(front);
      SpanSize(x.start, x.end);
      forall t | t in Points(front) ensures t < x.start {
        InPoints(front, t);
      }
      assert Points(front) !! Span(x.start, x.end);
    }
  }

  /** `seconds` measures the covered instants, each once however many intervals cover it. */
  lemma SecondsCountInstants(xs: seq<Interval>)
    ensures Micros(xs) == |Points(xs)|
    ensures Seconds(xs) == |Points(xs)| / MICROS_PER_SECOND
  {
    UnionMeaning(xs);
    TotalIsSize(Union(xs));
  }

  lemma SubsetSize(a: set<int>, b: set<int>)
    requires a <= b
    ensures |a| <= |b|
  {
    assert b == a + (b - a);
  }

  lemma SecondsMonotone(xs: seq<Interval>, ys: seq<Interval>)
    requires Points(xs) <= Points(ys)
    ensures Micros(xs) <= Micros(ys) && Seconds(xs) <= Seconds(ys)
  {
    SecondsCountInstants(xs);
    SecondsCountInstants(ys);
    SubsetSize(Points(xs), Points(ys));
  }
}
