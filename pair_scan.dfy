/** The pairwise scan of `drawIntersections` (src/index.js): which pairs of
    lines it tests, in which order, and which points it marks. */
module PairScan {
  import opened Geometry
  import opened Lines

  /** The pairs (i, i+1), (i, i+2), ..., (i, j-1): row i of the inner loop,
      up to but not including j. */
  function RowUpTo(i: nat, j: nat): seq<(nat, nat)>
    decreases j
  {
    if j <= i + 1 then [] else RowUpTo(i, j - 1) + [(i, j - 1)]
  }

  /** The complete rows 0, ..., i-1 of the scan over n lines. */
  function PairsBefore(i: nat, n: nat): seq<(nat, nat)>
  {
    if i == 0 then [] else PairsBefore(i - 1, n) + RowUpTo(i - 1, n)
  }

  /** Every pair the scan over n lines tests, in the order it tests them. */
  function Pairs(n: nat): seq<(nat, nat)> {
    PairsBefore(n, n)
  }

  /** How the crossing point of two lines is found. The scan below is
      stated for any such function; the canvas uses SegmentCrossing. */
  type Crossing = (Line, Line) -> Option<Point>

  /** `calculateIntersection` applied to the ends of two lines. */
  function SegmentCrossing(l: Line, m: Line): Option<Point> {
    CalculateIntersection(l.startPosition, l.endPosition, m.startPosition, m.endPosition)
  }

  /** The crossing of lines i and j of `ls`. */
  function HitOf(cross: Crossing, ls: seq<Line>, i: nat, j: nat): Option<Point>
    requires i < |ls| && j < |ls|
  {
    cross(ls[i], ls[j])
  }

  /** Lines a < b of `ls` cross at q. */
  predicate CrossingAt(cross: Crossing, ls: seq<Line>, a: nat, b: nat, q: Point) {
    a < b < |ls| && HitOf(cross, ls, a, b) == Some(q)
  }

  /** The marker, if any, that testing pair p draws. */
  function Hit(cross: Crossing, ls: seq<Line>, p: (nat, nat)): seq<Point> {
    if p.0 < |ls| && p.1 < |ls| && HitOf(cross, ls, p.0, p.1).Some? then [HitOf(cross, ls, p.0, p.1).value] else []
  }

  /** The markers drawn in row i of the scan, up to but not including j. */
  function RowMarkers(cross: Crossing, ls: seq<Line>, i: nat, j: nat): seq<Point>
    decreases j
  {
    if j <= i + 1 then [] else RowMarkers(cross, ls, i, j - 1) + Hit(cross, ls, (i, j - 1))
  }

  /** The markers drawn in the complete rows 0, ..., i-1. */
  function ScanMarkers(cross: Crossing, ls: seq<Line>, i: nat): seq<Point> {
    if i == 0 then [] else ScanMarkers(cross, ls, i - 1) + RowMarkers(cross, ls, i - 1, |ls|)
  }

  /** Every marker of the scan over ls, in drawing order. */
  function Markers(cross: Crossing, ls: seq<Line>): seq<Point> {
    ScanMarkers(cross, ls, |ls|)
  }

  predicate NoDuplicates<T(==)>(s: seq<T>) {
    forall x, y :: 0 <= x < y < |s| ==> s[x] != s[y]
  }

  lemma NoDuplicatesAppend<T>(a: seq<T>, b: seq<T>)
    requires NoDuplicates(a) && NoDuplicates(b)
    requires forall e :: e in a ==> e !in b
    ensures NoDuplicates(a + b)
  {
    var s := a + b;
    forall x, y | 0 <= x < y < |s| ensures s[x] != s[y] {
      if y >= |a| && x < |a| {
        assert s[x] in a && s[y] in b;
      } else if x >= |a| {
        assert s[x] == b[x - |a|] && s[y] == b[y - |a|];
      }
    }
  }

  lemma {:induction false} RowMembership(i: nat, j: nat, p: (nat, nat))
    ensures p in RowUpTo(i, j) <==> p.0 == i && i < p.1 < j
    decreases j
  {
    if j > i + 1 {
      RowMembership(i, j - 1, p);
    }
  }

  lemma {:induction false} RowFacts(i: nat, j: nat)
    ensures |RowUpTo(i, j)| == if j <= i + 1 then 0 else j - i - 1
    ensures NoDuplicates(RowUpTo(i, j))
    decreases j
  {
    if j > i + 1 {
      RowFacts(i, j - 1);
      RowMembership(i, j - 1, (i, j - 1));
      NoDuplicatesAppend(RowUpTo(i, j - 1), [(i, j - 1)]);
    }
  }

  /** The first i rows hold exactly the pairs (a, b) with a < i and
      a < b < n. */
  lemma {:induction false} PairsBeforeMembership(i: nat, n: nat, p: (nat, nat))
    ensures p in PairsBefore(i, n) <==> p.0 < i && p.0 < p.1 < n
  {
    if i > 0 {
      var prev, row := PairsBefore(i - 1, n), RowUpTo(i - 1, n);
      assert PairsBefore(i, n) == prev + row;
      PairsBeforeMembership(i - 1, n, p);
      RowMembership(i - 1, n, p);
      assert p in prev + row <==> p in prev || p in row;
    }
  }

  lemma {:induction false} PairsBeforeDistinct(i: nat, n: nat)
    ensures NoDuplicates(PairsBefore(i, n))
  {
    if i > 0 {
      var prev, row := PairsBefore(i - 1, n), RowUpTo(i - 1, n);
      PairsBeforeDistinct(i - 1, n);
      RowFacts(i - 1, n);
      forall e | e in prev ensures e !in row {
        PairsBeforeMembership(i - 1, n, e);
        RowMembership(i - 1, n, e);
      }
      NoDuplicatesAppend(prev, row);
    }
  }

  lemma {:induction false} PairsBeforeCount(i: nat, n: nat)
    requires i <= n
    ensures 2 * |PairsBefore(i, n)| == i * (2 * n - i - 1)
  {
    if i > 0 {
      PairsBeforeCount(i - 1, n);
      RowFacts(i - 1, n);
      assert |PairsBefore(i, n)| == |PairsBefore(i - 1, n)| + (n - i);
      TriangleStep(i, n);
    }
  }

  lemma TriangleStep(i: int, n: int)
    ensures i * (2 * n - i - 1) == (i - 1) * (2 * n - (i - 1) - 1) + 2 * (n - i)
  {
  }

  /** The scan over n lines tests each unordered pair i < j exactly once:
      every pair it tests has i < j < n, every such pair is tested, none
      twice, n(n-1)/2 tests in all, and none at all below two lines. */
  lemma ScanTestsEachPairOnce(n: nat)
    ensures forall p :: p in Pairs(n) <==> p.0 < p.1 < n
    ensures NoDuplicates(Pairs(n))
    ensures 2 * |Pairs(n)| == n * (n - 1)
    ensures n < 2 ==> Pairs(n) == []
  {
    forall p ensures p in Pairs(n) <==> p.0 < p.1 < n {
      PairsBeforeMembership(n, n, p);
    }
    PairsBeforeDistinct(n, n);
    PairsBeforeCount(n, n);
  }

  lemma {:induction false} RowMarkersSound(cross: Crossing, ls: seq<Line>, i: nat, j: nat, q: Point)
    requires q in RowMarkers(cross, ls, i, j)
    ensures exists b: nat :: b < j && CrossingAt(cross, ls, i, b, q)
    decreases j
  {
    var last := Hit(cross, ls, (i, j - 1));
    assert RowMarkers(cross, ls, i, j) == RowMarkers(cross, ls, i, j - 1) + last;
    if q in last {
      assert CrossingAt(cross, ls, i, j - 1, q);
    } else {
      RowMarkersSound(cross, ls, i, j - 1, q);
    }
  }

  lemma {:induction false} RowMarkersComplete(cross: Crossing, ls: seq<Line>, i: nat, j: nat, b: nat, q: Point)
    requires b < j && CrossingAt(cross, ls, i, b, q)
    ensures q in RowMarkers(cross, ls, i, j)
    decreases j
  {
    var last := Hit(cross, ls, (i, j - 1));
    assert RowMarkers(cross, ls, i, j) == RowMarkers(cross, ls, i, j - 1) + last;
    if b == j - 1 {
      assert q in last;
    } else {
      RowMarkersComplete(cross, ls, i, j - 1, b, q);
    }
  }

  lemma {:induction false} RowMarkersLength(cross: Crossing, ls: seq<Line>, i: nat, j: nat)
    ensures |RowMarkers(cross, ls, i, j)| <= |RowUpTo(i, j)|
    decreases j
  {
    if j > i + 1 {
      RowMarkersLength(cross, ls, i, j - 1);
      assert |Hit(cross, ls, (i, j - 1))| <= 1;
    }
  }

  lemma {:induction false} ScanMarkersSound(cross: Crossing, ls: seq<Line>, i: nat, q: Point)
    requires q in ScanMarkers(cross, ls, i)
    ensures exists a: nat, b: nat :: a < i && CrossingAt(cross, ls, a, b, q)
  {
    var prev, row := ScanMarkers(cross, ls, i - 1), RowMarkers(cross, ls, i - 1, |ls|);
    assert ScanMarkers(cross, ls, i) == prev + row;
    var a: nat, b: nat;
    if q in prev {
      ScanMarkersSound(cross, ls, i - 1, q);
      a, b :| a < i - 1 && CrossingAt(cross, ls, a, b, q);
    } else {
      RowMarkersSound(cross, ls, i - 1, |ls|, q);
      b :| b < |ls| && CrossingAt(cross, ls, i - 1, b, q);
      a := i - 1;
    }
    assert a < i && CrossingAt(cross, ls, a, b, q);
  }

  lemma {:induction false} ScanMarkersComplete(cross: Crossing, ls: seq<Line>, i: nat, a: nat, b: nat, q: Point)
    requires a < i && CrossingAt(cross, ls, a, b, q)
    ensures q in ScanMarkers(cross, ls, i)
  {
    var prev, row := ScanMarkers(cross, ls, i - 1), RowMarkers(cross, ls, i - 1, |ls|);
    assert ScanMarkers(cross, ls, i) == prev + row;
    if a < i - 1 {
      ScanMarkersComplete(cross, ls, i - 1, a, b, q);
      assert q in prev;
    } else {
      RowMarkersComplete(cross, ls, i - 1, |ls|, b, q);
      assert q in row;
    }
  }

  lemma {:induction false} ScanMarkersLength(cross: Crossing, ls: seq<Line>, i: nat)
    ensures |ScanMarkers(cross, ls, i)| <= |PairsBefore(i, |ls|)|
  {
    if i > 0 {
      ScanMarkersLength(cross, ls, i - 1);
      RowMarkersLength(cross, ls, i - 1, |ls|);
    }
  }

  /** A point is marked by the scan exactly when it is the crossing of some
      pair of lines i < j, and there are never more markers than tests. */
  lemma MarkedIffSomePairCrosses(cross: Crossing, ls: seq<Line>, q: Point)
    ensures q in Markers(cross, ls) <==> exists i: nat, j: nat :: CrossingAt(cross, ls, i, j, q)
    ensures |Markers(cross, ls)| <= |Pairs(|ls|)|
  {
    if q in Markers(cross, ls) {
      ScanMarkersSound(cross, ls, |ls|, q);
    }
    if exists i: nat, j: nat :: CrossingAt(cross, ls, i, j, q) {
      var i: nat, j: nat :| CrossingAt(cross, ls, i, j, q);
      ScanMarkersComplete(cross, ls, |ls|, i, j, q);
    }
    ScanMarkersLength(cross, ls, |ls|);
  }
}
