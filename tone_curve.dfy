/**
 * The tone-curve editor (`ToneCurve`, script.js lines 62-123): an ordered
 * list of control points and the 256-entry lookup table interpolated from
 * them. Points are drawn top-down, so the table inverts y.
 */
module ToneCurves {
  import opened Wrappers
  import opened Bytes

  /**
   * A control point as a value: input level x, output y measured downwards.
   * Coordinates are integers here; the page stores mouse offsets, which may
   * be fractional, without rounding.
   */
  datatype Point = Point(x: int, y: int)

  /** The two endpoints every fresh curve starts with (lines 53, 66, 75). */
  const DefaultPoints: seq<Point> := [Point(0, 255), Point(255, 0)]

  function Abs(v: int): nat { if v < 0 then -v else v }

  /** `Math.max(lo, Math.min(hi, v))`. */
  function Clamp(v: int, lo: int, hi: int): int
    requires lo <= hi
  {
    if v < lo then lo else if v > hi then hi else v
  }

  // ---------------------------------------------------------------------
  // Ordering by x: `sort((a, b) => a.x - b.x)`, a stable sort.
  // ---------------------------------------------------------------------

  predicate SortedPts(s: seq<Point>)
  {
    forall i, j :: 0 <= i < j < |s| ==> s[i].x <= s[j].x
  }

  /** Inserts p in front of the first point whose x is not smaller (keeps equal keys in order). */
  function InsertPt(p: Point, s: seq<Point>): (r: seq<Point>)
    ensures |r| == |s| + 1
    ensures multiset(r) == multiset(s) + multiset{p}
  {
    if s == [] || p.x <= s[0].x then [p] + s
    else
      assert s == [s[0]] + s[1..];
      [s[0]] + InsertPt(p, s[1..])
  }

  /** Inserting into a sorted list keeps it sorted. */
  lemma {:induction false} InsertPtSorted(p: Point, s: seq<Point>)
    requires SortedPts(s)
    ensures SortedPts(InsertPt(p, s))
  {
    if s == [] || p.x <= s[0].x {
      ConsSorted(p, s);
    } else {
      assert s == [s[0]] + s[1..];
      InsertPtSorted(p, s[1..]);
      assert AllFrom(s[0].x, s[1..]) by {
        forall j | 0 <= j < |s[1..]| ensures s[0].x <= s[1..][j].x {
          assert s[1..][j] == s[j + 1];
        }
      }
      InsertPtAbove(p, s[1..], s[0].x);
      ConsSorted(s[0], InsertPt(p, s[1..]));
    }
  }

  /** No point of s lies left of a. */
  predicate AllFrom(a: int, s: seq<Point>)
  {
    forall j :: 0 <= j < |s| ==> a <= s[j].x
  }

  /** Inserting a point at or right of a into a list at or right of a keeps it there. */
  lemma {:induction false} InsertPtAbove(p: Point, s: seq<Point>, a: int)
    requires AllFrom(a, s) && a <= p.x
    ensures AllFrom(a, InsertPt(p, s))
  {
    if s != [] && p.x > s[0].x {
      assert s == [s[0]] + s[1..];
      InsertPtAbove(p, s[1..], a);
      var r := [s[0]] + InsertPt(p, s[1..]);
      forall j | 1 <= j < |r| ensures a <= r[j].x {
        assert r[j] == InsertPt(p, s[1..])[j - 1];
      }
    }
  }

  /** A point at or left of every point of a sorted list can go in front of it. */
  lemma ConsSorted(p: Point, s: seq<Point>)
    requires SortedPts(s) && AllFrom(p.x, s)
    ensures SortedPts([p] + s)
  {
    var r := [p] + s;
    forall i, j | 0 <= i < j < |r| ensures r[i].x <= r[j].x {
      assert r[j] == s[j - 1];
      if i > 0 {
        assert r[i] == s[i - 1];
      }
    }
  }

  /** Stable insertion sort by x: the order `Array.prototype.sort` gives with this comparator. */
  function SortPts(s: seq<Point>): (r: seq<Point>)
    ensures |r| == |s|
  {
    if s == [] then []
    else
      assert s == [s[0]] + s[1..];
      InsertPt(s[0], SortPts(s[1..]))
  }

  /** The sort is a permutation of its input, ordered by x. */
  lemma {:induction false} SortPtsSorted(s: seq<Point>)
    ensures multiset(SortPts(s)) == multiset(s)
    ensures SortedPts(SortPts(s))
  {
    if s != [] {
      assert s == [s[0]] + s[1..];
      SortPtsSorted(s[1..]);
      InsertPtSorted(s[0], SortPts(s[1..]));
    }
  }

  /** The points of s whose x is v, in their order in s. */
  function WithKey(s: seq<Point>, v: int): seq<Point>
  {
    if s == [] then [] else (if s[0].x == v then [s[0]] else []) + WithKey(s[1..], v)
  }

  /** Inserting p puts it in front of every point of t that shares its x, and moves nothing else of that x. */
  lemma {:induction false} InsertPtWithKey(p: Point, t: seq<Point>, v: int)
    ensures WithKey(InsertPt(p, t), v) == (if p.x == v then [p] else []) + WithKey(t, v)
  {
    if t == [] || p.x <= t[0].x {
      assert ([p] + t)[1..] == t;
    } else {
      InsertPtWithKey(p, t[1..], v);
      var r := [t[0]] + InsertPt(p, t[1..]);
      assert r[1..] == InsertPt(p, t[1..]);
    }
  }

  /**
   * The sort is stable: for every x, the points carrying it come out in
   * the order they went in.
   */
  lemma {:induction false} SortPtsStable(s: seq<Point>, v: int)
    ensures WithKey(SortPts(s), v) == WithKey(s, v)
  {
    if s != [] {
      SortPtsStable(s[1..], v);
      InsertPtWithKey(s[0], SortPts(s[1..]), v);
    }
  }

  // ---------------------------------------------------------------------
  // The lookup table (generateLUT, lines 97-106)
  // ---------------------------------------------------------------------

  /**
   * The index k of the left end of the segment used for input level i: the
   * first k (starting from `from`, capped at |pts| - 2) with pts[k+1].x >= i.
   */
  function Bracket(pts: seq<Point>, i: int, from: nat): (k: nat)
    requires 2 <= |pts| && from <= |pts| - 2
    ensures from <= k <= |pts| - 2
    ensures k < |pts| - 2 ==> pts[k + 1].x >= i
    ensures forall j :: from < j <= k ==> pts[j].x < i
    decreases |pts| - from
  {
    if from < |pts| - 2 && pts[from + 1].x < i then Bracket(pts, i, from + 1) else from
  }

  /** The interpolated, inverted level for input i before it is stored. */
  function Level(pts: seq<Point>, i: int): real
    requires |pts| >= 2
  {
    var k := Bracket(pts, i, 0);
    Interpolate(pts[k], pts[k + 1], i)
  }

  /** The inverted y of the segment p1-p2 at input i; a vertical segment gives p1's. */
  function Interpolate(p1: Point, p2: Point, i: int): real
  {
    var t := if p1.x == p2.x then 0.0 else (i - p1.x) as real / (p2.x - p1.x) as real;
    255.0 - (p1.y as real + t * (p2.y - p1.y) as real)
  }

  /** Entry i of the table: the level clamped and rounded by the `Uint8ClampedArray`. */
  function LutEntry(pts: seq<Point>, i: int): byte
    requires |pts| >= 2
  {
    ToClamped(Level(pts, i))
  }

  /** The whole table, one entry per input level 0..255. */
  function Lut(pts: seq<Point>): (r: seq<byte>)
    requires |pts| >= 2
    ensures |r| == 256
  {
    seq(256, i => LutEntry(pts, i))
  }

  /** The default curve (0,255)-(255,0) yields the identity table: entry i is i. */
  lemma DefaultLutIsIdentity(i: int)
    requires 0 <= i < 256
    ensures Lut(DefaultPoints)[i] == i
  {
    var pts := DefaultPoints;
    assert Bracket(pts, i, 0) == 0;
    var t := (i - 0) as real / (255 - 0) as real;
    assert t * 255.0 == i as real;
    assert Level(pts, i) == 255.0 - (255.0 + t * (0 - 255) as real);
    assert Level(pts, i) == i as real;
    ToClampedOfByte(i);
  }

  /**
   * Inside the span of a sorted curve, the segment chosen for input i
   * brackets it, and the level lies between the two inverted y values of
   * that segment's ends: the table never overshoots its control points.
   */
  lemma LevelWithinSegment(pts: seq<Point>, i: int)
    requires |pts| >= 2 && SortedPts(pts)
    requires pts[0].x <= i <= pts[|pts| - 1].x
    ensures var k := Bracket(pts, i, 0);
      && pts[k].x <= i <= pts[k + 1].x
      && Min(255 - pts[k].y, 255 - pts[k + 1].y) as real <= Level(pts, i)
      && Level(pts, i) <= Max(255 - pts[k].y, 255 - pts[k + 1].y) as real
  {
    var k := Bracket(pts, i, 0);
    BracketSpans(pts, i);
    InterpolateWithin(pts[k], pts[k + 1], i);
  }

  /** On a sorted curve spanning i, the chosen segment's ends bracket i. */
  lemma BracketSpans(pts: seq<Point>, i: int)
    requires |pts| >= 2 && SortedPts(pts)
    requires pts[0].x <= i <= pts[|pts| - 1].x
    ensures var k := Bracket(pts, i, 0); pts[k].x <= i <= pts[k + 1].x
  {
    var k := Bracket(pts, i, 0);
    if k > 0 {
      assert pts[k].x < i;
    }
  }

  /** Interpolating within a segment stays between its ends' inverted y values. */
  lemma InterpolateWithin(p1: Point, p2: Point, i: int)
    requires p1.x <= i <= p2.x
    ensures Min(255 - p1.y, 255 - p2.y) as real <= Interpolate(p1, p2, i) <= Max(255 - p1.y, 255 - p2.y) as real
  {
    var t := if p1.x == p2.x then 0.0 else (i - p1.x) as real / (p2.x - p1.x) as real;
    if p1.x != p2.x {
      FractionWithin(i - p1.x, p2.x - p1.x);
    }
    var d := (p2.y - p1.y) as real;
    var td := t * d;
    ScaleWithin(t, d);
    assert Interpolate(p1, p2, i) == 255.0 - (p1.y as real + td);
  }

  /** Scaling by a fraction keeps a value between 0 and itself. */
  lemma ScaleWithin(t: real, d: real)
    requires 0.0 <= t <= 1.0
    ensures d >= 0.0 ==> 0.0 <= t * d <= d
    ensures d < 0.0 ==> d <= t * d <= 0.0
  {
    if d >= 0.0 {
      assert t * d <= 1.0 * d;
    } else {
      assert t * (-d) <= 1.0 * (-d);
    }
  }

  /** a / b is a fraction when 0 <= a <= b and b > 0. */
  lemma FractionWithin(a: int, b: int)
    requires 0 <= a <= b && b > 0
    ensures 0.0 <= a as real / b as real <= 1.0
  {
    var q := a as real / b as real;
    assert q * b as real == a as real;
  }

  function Min(a: int, b: int): int { if a <= b then a else b }
  function Max(a: int, b: int): int { if a <= b then b else a }

  /** Sorted with no two points sharing an x. */
  predicate StrictlySorted(s: seq<Point>)
  {
    forall i, j :: 0 <= i < j < |s| ==> s[i].x < s[j].x
  }

  /** A positive quantity divided by itself is one. */
  lemma UnitRatio(a: real, d: real)
    requires a == d && d > 0.0
    ensures a / d == 1.0
  {
  }

  /**
   * When no two points share an x, the curve passes through every control
   * point: the level at a point's x is its inverted y.
   */
  lemma {:induction false} LevelAtControlPoint(pts: seq<Point>, j: nat)
    requires |pts| >= 2 && StrictlySorted(pts) && j < |pts|
    ensures Level(pts, pts[j].x) == (255 - pts[j].y) as real
  {
    var i := pts[j].x;
    var k := Bracket(pts, i, 0);
    if j == 0 {
      assert pts[1].x > i;
      assert k == 0;
    } else {
      assert k == j - 1;
      var p1, p2 := pts[k], pts[k + 1];
      assert p2 == pts[j] && p1.x < p2.x;
      var d := (p2.x - p1.x) as real;
      assert (i - p1.x) as real == d && d > 0.0;
      var t := (i - p1.x) as real / d;
      UnitRatio((i - p1.x) as real, d);
      assert Interpolate(p1, p2, i) == 255.0 - (p1.y as real + t * (p2.y - p1.y) as real);
    }
  }

  // ---------------------------------------------------------------------
  // The editor object: points are objects, so that a dragged point keeps
  // its identity through re-sorting, and the array itself is an object,
  // so that history entries can hold it by reference (lines 160, 205).
  // ---------------------------------------------------------------------

  class CurvePoint {
    var x: int
    var y: int

    constructor (x: int, y: int)
      ensures this.x == x && this.y == y
    {
      this.x := x;
      this.y := y;
    }

    /**
     * A dragged point follows the mouse (lines 118-119): x clamped to
     * [1, 254] unless the point is an endpoint at x 0 or 255, which never
     * moves sideways; y clamped to [0, 255].
     */
    method Follow(mx: int, my: int)
      modifies this
      ensures x == if old(x) == 0 || old(x) == 255 then old(x) else Clamp(mx, 1, 254)
      ensures y == Clamp(my, 0, 255)
    {
      if x != 0 && x != 255 {
        x := Clamp(mx, 1, 254);
      }
      y := Clamp(my, 0, 255);
    }
  }

  /** A JavaScript array of points: one mutable, shareable object. */
  class PointList {
    var items: seq<CurvePoint>

    constructor (items: seq<CurvePoint>)
      ensures this.items == items
    {
      this.items := items;
    }

    /**
     * `points.sort((a, b) => a.x - b.x)` (lines 113, 120): the same objects,
     * reordered in place so that their coordinates are stably sorted by x.
     */
    method SortByX()
      modifies this
      ensures multiset(items) == old(multiset(items))
      ensures Coords(items) == SortPts(old(Coords(items)))
    {
      var r := SortedByX(items);
      items := r;
    }
  }

  /** The coordinates the point objects currently hold. */
  function Coords(s: seq<CurvePoint>): seq<Point>
    reads s
  {
    seq(|s|, k reads s requires 0 <= k < |s| => Point(s[k].x, s[k].y))
  }

  /** No point object occurs twice in the list. */
  ghost predicate Distinct(s: seq<CurvePoint>)
  {
    forall q | q in s :: multiset(s)[q] == 1
  }

  lemma CoordsCons(a: CurvePoint, s: seq<CurvePoint>)
    ensures Coords([a] + s) == [Point(a.x, a.y)] + Coords(s)
  {
  }

  lemma CoordsSnoc(s: seq<CurvePoint>, a: CurvePoint)
    ensures Coords(s + [a]) == Coords(s) + [Point(a.x, a.y)]
  {
  }

  /** Two different objects make a list without repeats. */
  lemma DistinctPair(a: CurvePoint, b: CurvePoint)
    requires a != b
    ensures Distinct([a, b])
  {
    assert multiset([a, b]) == multiset{a} + multiset{b};
  }

  /** The default endpoints are in order. */
  lemma DefaultPointsInOrder()
    ensures SortedPts(DefaultPoints)
  {
  }

  /** A permutation of a list without repeated objects has none either. */
  lemma DistinctPerm(s: seq<CurvePoint>, t: seq<CurvePoint>)
    requires Distinct(s) && multiset(s) == multiset(t)
    ensures Distinct(t)
  {
    forall q | q in t ensures multiset(t)[q] == 1 {
      assert q in multiset(t);
    }
  }

  /** A list whose objects all occur in a list without repeats has no repeats either. */
  lemma DistinctSub(s: seq<CurvePoint>, t: seq<CurvePoint>)
    requires Distinct(s) && multiset(t) <= multiset(s)
    ensures Distinct(t)
  {
    forall q | q in t ensures multiset(t)[q] == 1 {
      assert q in multiset(t);
    }
  }

  /** `JSON.parse(JSON.stringify(points))`: new, distinct objects holding the given coordinates. */
  method FreshCopies(pts: seq<Point>) returns (items: seq<CurvePoint>)
    ensures Coords(items) == pts
    ensures Distinct(items)
    ensures forall q | q in items :: fresh(q)
  {
    items := [];
    for k := 0 to |pts|
      invariant Coords(items) == pts[..k]
      invariant forall q | q in items :: fresh(q)
      invariant Distinct(items)
    {
      var q := new CurvePoint(pts[k].x, pts[k].y);
      assert multiset(items)[q] == 0;
      CoordsSnoc(items, q);
      assert pts[..k + 1] == pts[..k] + [pts[k]];
      items := items + [q];
    }
    assert pts[..|pts|] == pts;
  }

  /** A fresh list of fresh point objects holding pts, stably sorted by x. */
  method SortedCopy(pts: seq<Point>) returns (list: PointList)
    ensures fresh(list) && Distinct(list.items) && |list.items| == |pts|
    ensures Coords(list.items) == SortPts(pts) && SortedPts(Coords(list.items))
  {
    var copies := FreshCopies(pts);
    list := new PointList(copies);
    assert Coords(list.items) == pts;
    list.SortByX();
    SortPtsSorted(pts);
    DistinctPerm(copies, list.items);
  }

  /** The loop of generateLUT (lines 99-105) over the current point objects. */
  method BuildLut(items: seq<CurvePoint>) returns (table: array<byte>)
    requires |items| >= 2
    ensures fresh(table) && table[..] == Lut(Coords(items))
  {
    table := new byte[256];
    ghost var pts := Coords(items);
    for i := 0 to 256
      invariant forall j :: 0 <= j < i ==> table[j] == LutEntry(pts, j)
    {
      var k := FindBracket(items, i);
      var p1, p2 := items[k], items[k + 1];
      assert pts[k] == Point(p1.x, p1.y) && pts[k + 1] == Point(p2.x, p2.y);
      table[i] := ToClamped(Interpolate(Point(p1.x, p1.y), Point(p2.x, p2.y), i));
    }
    assert table[..] == Lut(pts);
  }

  /** The scan of line 100: the first k (capped at length - 2) whose successor reaches i. */
  method FindBracket(items: seq<CurvePoint>, i: int) returns (k: nat)
    requires |items| >= 2
    ensures k == Bracket(Coords(items), i, 0)
  {
    ghost var pts := Coords(items);
    var n := |items|;
    k := 0;
    while k < n - 2 && items[k + 1].x < i
      invariant 0 <= k <= n - 2
      invariant Bracket(pts, i, k) == Bracket(pts, i, 0)
    {
      assert pts[k + 1].x == items[k + 1].x;
      k := k + 1;
    }
  }

  /** `InsertPt` on objects, keyed by their current x. */
  function InsertRef(p: CurvePoint, s: seq<CurvePoint>): seq<CurvePoint>
    reads p, s
  {
    if s == [] || p.x <= s[0].x then [p] + s
    else [s[0]] + InsertRef(p, s[1..])
  }

  /** Inserting an object inserts its coordinates, and nothing is lost or duplicated. */
  lemma {:induction false} InsertRefSpec(p: CurvePoint, s: seq<CurvePoint>)
    ensures multiset(InsertRef(p, s)) == multiset(s) + multiset{p}
    ensures Coords(InsertRef(p, s)) == InsertPt(Point(p.x, p.y), Coords(s))
  {
    if s == [] || p.x <= s[0].x {
      CoordsCons(p, s);
    } else {
      assert s == [s[0]] + s[1..];
      CoordsCons(s[0], s[1..]);
      InsertRefSpec(p, s[1..]);
      CoordsCons(s[0], InsertRef(p, s[1..]));
    }
  }

  lemma SortStep(src: seq<CurvePoint>, i: nat)
    requires i < |src|
    ensures SortPts(Coords(src[i..])) == InsertPt(Point(src[i].x, src[i].y), SortPts(Coords(src[i + 1..])))
  {
    assert src[i..] == [src[i]] + src[i + 1..];
    CoordsCons(src[i], src[i + 1..]);
  }

  lemma PermStep(src: seq<CurvePoint>, i: nat, r: seq<CurvePoint>)
    requires i < |src|
    requires multiset(r) == multiset(src[i + 1..])
    ensures multiset(r) + multiset{src[i]} == multiset(src[i..])
  {
    assert src[i..] == [src[i]] + src[i + 1..];
  }

  /**
   * The objects of `src` rearranged by a stable insertion sort on their
   * current x: a permutation whose coordinates are `SortPts` of theirs.
   */
  method SortedByX(src: seq<CurvePoint>) returns (r: seq<CurvePoint>)
    ensures multiset(r) == multiset(src)
    ensures Coords(r) == SortPts(Coords(src))
  {
    r := [];
    var i := |src|;
    while i > 0
      invariant 0 <= i <= |src|
      invariant Coords(r) == SortPts(Coords(src[i..]))
      invariant multiset(r) == multiset(src[i..])
    {
      i := i - 1;
      SortStep(src, i);
      InsertRefSpec(src[i], r);
      PermStep(src, i, r);
      r := InsertRef(src[i], r);
    }
    assert src[0..] == src;
  }

  /** `points.filter(p => p !== found)`: every occurrence of one object removed. */
  function Without(s: seq<CurvePoint>, p: CurvePoint): (r: seq<CurvePoint>)
    ensures multiset(r) == multiset(s)[p := 0]
    ensures |r| + multiset(s)[p] == |s|
  {
    if s == [] then []
    else
      assert s == [s[0]] + s[1..];
      if s[0] == p then Without(s[1..], p) else [s[0]] + Without(s[1..], p)
  }

  /** Filtering keeps the survivors in their order, so a sorted list stays sorted. */
  lemma {:induction false} WithoutSorted(s: seq<CurvePoint>, p: CurvePoint)
    requires SortedPts(Coords(s))
    ensures SortedPts(Coords(Without(s, p)))
  {
    if s != [] {
      assert s == [s[0]] + s[1..];
      CoordsCons(s[0], s[1..]);
      HeadBelow(Coords(s));
      assert Coords(s)[1..] == Coords(s[1..]);
      WithoutSorted(s[1..], p);
      if s[0] != p {
        CoordsCons(s[0], Without(s[1..], p));
        WithoutAbove(s[1..], p, s[0].x);
        ConsSorted(Point(s[0].x, s[0].y), Coords(Without(s[1..], p)));
      }
    }
  }

  /** The head of a sorted list lies left of the rest, which is sorted too. */
  lemma HeadBelow(c: seq<Point>)
    requires SortedPts(c) && c != []
    ensures AllFrom(c[0].x, c[1..]) && SortedPts(c[1..])
  {
    forall j | 0 <= j < |c[1..]| ensures c[0].x <= c[1..][j].x {
      assert c[1..][j] == c[j + 1];
    }
  }

  /** Filtering a list whose points all lie at or right of a keeps them there. */
  lemma {:induction false} WithoutAbove(s: seq<CurvePoint>, p: CurvePoint, a: int)
    requires AllFrom(a, Coords(s))
    ensures AllFrom(a, Coords(Without(s, p)))
  {
    if s != [] {
      assert s == [s[0]] + s[1..];
      CoordsCons(s[0], s[1..]);
      assert AllFrom(a, Coords(s[1..])) by {
        forall j | 0 <= j < |s[1..]| ensures a <= Coords(s[1..])[j].x {
          assert Coords(s[1..])[j] == Coords(s)[j + 1];
        }
      }
      WithoutAbove(s[1..], p, a);
      if s[0] != p {
        var rest := Coords(Without(s[1..], p));
        CoordsCons(s[0], Without(s[1..], p));
        assert a <= Coords(s)[0].x;
        forall j | 1 <= j < |rest| + 1 ensures a <= ([Point(s[0].x, s[0].y)] + rest)[j].x {
          assert ([Point(s[0].x, s[0].y)] + rest)[j] == rest[j - 1];
        }
      }
    }
  }

  /**
   * The curve editor. The invariant holds for the object's live list; a
   * list that history entries still hold after the editor replaced it may
   * later be changed through shared point objects and is not constrained.
   */
  class ToneCurve {
    var points: PointList
    var lut: array<byte>
    var dragging: CurvePoint?

    ghost predicate Valid()
      reads this`points, this`lut, points, points.items
    {
      && |points.items| >= 2
      && Distinct(points.items)
      && SortedPts(Coords(points.items))
      && lut.Length == 256
    }

    /** `new ToneCurve(...)` (lines 63-70, 81): the default endpoints and their table. */
    constructor ()
      ensures Valid() && fresh(points) && fresh(lut)
      ensures Coords(points.items) == DefaultPoints
      ensures lut[..] == Lut(Coords(points.items))
      ensures dragging == null
    {
      var a := new CurvePoint(0, 255);
      var b := new CurvePoint(255, 0);
      points := new PointList([a, b]);
      lut := new byte[256];
      dragging := null;
      new;
      DistinctPair(a, b);
      assert Coords([a, b]) == DefaultPoints;
      DefaultPointsInOrder();
      GenerateLUT();
    }

    /** generateLUT (lines 97-106): a fresh 256-entry table for the current points. */
    method GenerateLUT()
      requires |points.items| >= 2
      modifies this`lut
      ensures fresh(lut) && lut.Length == 256
      ensures lut[..] == Lut(Coords(points.items))
      ensures old(Valid()) ==> Valid()
    {
      lut := BuildLut(points.items);
    }

    /**
     * setPoints (line 83): a deep copy of the given points, sorted by x,
     * becomes the live list, and the table is regenerated. Copying then
     * sorting fresh objects is the same as sorting the values then copying.
     */
    method SetPoints(pts: seq<Point>)
      requires |pts| >= 2
      modifies this
      ensures Valid() && fresh(points) && fresh(lut)
      ensures Coords(points.items) == SortPts(pts)
      ensures lut[..] == Lut(SortPts(pts))
      ensures dragging == old(dragging)
    {
      points := SortedCopy(pts);
      ghost var sorted := Coords(points.items);
      GenerateLUT();
      assert Coords(points.items) == sorted;
    }

    /** The reset button (line 75): back to the default endpoints; notifies a change. */
    method Reset() returns (changed: bool)
      modifies this
      ensures Valid() && fresh(points) && fresh(lut)
      ensures Coords(points.items) == DefaultPoints
      ensures lut[..] == Lut(Coords(points.items))
      ensures changed
    {
      SetPoints(DefaultPoints);
      assert SortPts(DefaultPoints) == DefaultPoints by {
        assert SortPts(DefaultPoints[1..]) == [Point(255, 0)];
      }
      changed := true;
    }

    /** The first point within 8 px of (x, y) in both directions (line 109). */
    method HitTest(x: int, y: int) returns (hit: Option<nat>)
      ensures hit == FirstHit(Coords(points.items), x, y)
    {
      var items := points.items;
      ghost var pts := Coords(items);
      var k := 0;
      hit := None;
      while k < |items|
        invariant 0 <= k <= |items|
        invariant FirstHit(pts, x, y) == Shifted(FirstHit(pts[k..], x, y), k)
      {
        var p := Point(items[k].x, items[k].y);
        assert pts[k] == p;
        FirstHitStep(pts, k, x, y);
        if Near(p, x, y) {
          hit := Some(k);
          return;
        }
        k := k + 1;
      }
      assert pts[k..] == [];
    }

    /**
     * onMouseDown (lines 107-115). A ctrl-click on a point deletes it when
     * more than two points exist and its x is neither 0 nor 255: the list is
     * replaced by a filtered copy, the table regenerated and a change
     * reported. Any other hit starts dragging that point. A click that hits
     * nothing adds a new point, re-sorts the live list in place and drags
     * the new point.
     */
    method OnMouseDown(x: int, y: int, ctrl: bool) returns (changed: bool)
      requires Valid()
      modifies this, points
      ensures Valid()
      ensures var hit := FirstHit(old(Coords(points.items)), x, y);
        && (changed <==> hit.Some? && ctrl && old(|points.items|) > 2
                         && old(points.items[hit.value].x) != 0 && old(points.items[hit.value].x) != 255)
        && (changed ==>
              && fresh(points) && fresh(lut) && dragging == null
              && points.items == Without(old(points.items), old(points.items[hit.value]))
              && |points.items| == old(|points.items|) - 1
              && lut[..] == Lut(Coords(points.items))
              && unchanged(old(points)))
        && (!changed && hit.Some? ==>
              && points == old(points) && points.items == old(points.items) && lut == old(lut)
              && dragging == old(points.items[hit.value]))
        && (hit.None? ==>
              && points == old(points) && lut == old(lut)
              && dragging != null && fresh(dragging)
              && multiset(points.items) == old(multiset(points.items)) + multiset{dragging}
              && Coords(points.items) == SortPts(old(Coords(points.items)) + [Point(x, y)]))
    {
      var hit := HitTest(x, y);
      var items: seq<CurvePoint> := points.items;
      if hit.Some? && ctrl && |items| > 2 && items[hit.value].x != 0 && items[hit.value].x != 255 {
        DeletePoint(items[hit.value]);
        changed := true;
      } else if hit.Some? {
        dragging := items[hit.value];
        changed := false;
      } else {
        AddAndDrag(x, y);
        changed := false;
      }
    }

    /**
     * `this.points = this.points.filter(p => p !== found)` followed by a new
     * table (line 111): a new list replaces the live one, which itself is
     * left as it was.
     */
    method DeletePoint(found: CurvePoint)
      requires Valid() && found in points.items && |points.items| > 2
      modifies this
      ensures Valid() && fresh(points) && fresh(lut) && dragging == null
      ensures points.items == Without(old(points.items), found)
      ensures |points.items| == old(|points.items|) - 1
      ensures lut[..] == Lut(Coords(points.items))
    {
      var items: seq<CurvePoint> := points.items;
      assert multiset(items)[found] == 1;
      WithoutSorted(items, found);
      var kept := Without(items, found);
      DistinctSub(items, kept);
      ghost var coords := Coords(kept);
      assert SortedPts(coords);
      points := new PointList(kept);
      dragging := null;
      GenerateLUT();
      assert Coords(points.items) == coords;
    }

    /** A click on empty space (line 113): a new point is added and dragged. */
    method AddAndDrag(x: int, y: int)
      requires Valid()
      modifies this, points
      ensures Valid()
      ensures points == old(points) && lut == old(lut)
      ensures dragging != null && fresh(dragging)
      ensures multiset(points.items) == old(multiset(points.items)) + multiset{dragging}
      ensures Coords(points.items) == SortPts(old(Coords(points.items)) + [Point(x, y)])
    {
      ghost var before := Coords(points.items);
      var added := new CurvePoint(x, y);
      assert Coords(points.items) == before;
      AddPoint(added);
      ghost var after := Coords(points.items);
      assert after == SortPts(before + [Point(x, y)]);
      dragging := added;
      assert Coords(points.items) == after;
    }

    /** `points.push(newPoint); points.sort(...)` (line 113) for a new point object. */
    method AddPoint(added: CurvePoint)
      requires Valid() && added !in points.items
      modifies points
      ensures Valid()
      ensures multiset(points.items) == old(multiset(points.items)) + multiset{added}
      ensures Coords(points.items) == SortPts(old(Coords(points.items)) + [Point(added.x, added.y)])
    {
      var items: seq<CurvePoint> := points.items;
      ghost var before := Coords(items);
      points.items := items + [added];
      assert Coords(points.items) == before + [Point(added.x, added.y)];
      SortPtsSorted(before + [Point(added.x, added.y)]);
      points.SortByX();
      DistinctPerm(items + [added], points.items);
    }

    /**
     * onMouseMove (lines 116-121): the dragged point follows the mouse, x
     * clamped to [1, 254] unless it is an endpoint (x 0 or 255, which never
     * moves sideways), y clamped to [0, 255]; the live list is re-sorted in
     * place. The table is not regenerated until the button is released.
     */
    method OnMouseMove(x: int, y: int)
      requires Valid()
      modifies points, dragging
      ensures Valid()
      ensures old(dragging) == null ==> points.items == old(points.items)
      ensures dragging != null ==>
        && dragging.x == (if old(dragging.x) == 0 || old(dragging.x) == 255 then old(dragging.x) else Clamp(x, 1, 254))
        && dragging.y == Clamp(y, 0, 255)
        && multiset(points.items) == old(multiset(points.items))
        && Coords(points.items) == SortPts(Coords(old(points.items)))
    {
      if dragging == null {
        return;
      }
      ghost var items := points.items;
      dragging.Follow(x, y);
      ghost var moved := Coords(items);
      Resort();
      assert Coords(items) == moved;
    }

    /** `this.points.sort(...)` after a drag (line 120): the live list is re-sorted in place. */
    method Resort()
      requires |points.items| >= 2 && Distinct(points.items) && lut.Length == 256
      modifies points
      ensures Valid()
      ensures multiset(points.items) == old(multiset(points.items))
      ensures Coords(points.items) == SortPts(old(Coords(points.items)))
    {
      ghost var moved: seq<CurvePoint> := points.items;
      ghost var coords := Coords(moved);
      points.SortByX();
      SortPtsSorted(coords);
      DistinctPerm(moved, points.items);
    }

    /** onMouseUp (line 122): ends a drag, regenerates the table and reports a change. */
    method OnMouseUp() returns (changed: bool)
      requires Valid()
      modifies this
      ensures Valid() && dragging == null && points == old(points)
      ensures changed <==> old(dragging) != null
      ensures changed ==> fresh(lut) && lut[..] == Lut(Coords(points.items))
      ensures !changed ==> lut == old(lut)
    {
      changed := dragging != null;
      if changed {
        dragging := null;
        GenerateLUT();
      }
    }
  }

  /** Within 8 px of (x, y) in both directions. */
  predicate Near(p: Point, x: int, y: int)
  {
    Abs(p.x - x) < 8 && Abs(p.y - y) < 8
  }

  /** The index of the first point near (x, y), if any. */
  function FirstHit(pts: seq<Point>, x: int, y: int): (r: Option<nat>)
    ensures r.Some? ==> r.value < |pts|
  {
    if pts == [] then None
    else if Near(pts[0], x, y) then Some(0)
    else Shifted(FirstHit(pts[1..], x, y), 1)
  }

  /**
   * The search finds a point near (x, y) with none before it, and finds
   * nothing only when no point is near.
   */
  lemma {:induction false} FirstHitSpec(pts: seq<Point>, x: int, y: int)
    ensures var r := FirstHit(pts, x, y);
      && (r.Some? ==> Near(pts[r.value], x, y) && forall j :: 0 <= j < r.value ==> !Near(pts[j], x, y))
      && (r.None? ==> forall j :: 0 <= j < |pts| ==> !Near(pts[j], x, y))
  {
    if pts != [] && !Near(pts[0], x, y) {
      FirstHitSpec(pts[1..], x, y);
      var r := FirstHit(pts[1..], x, y);
      forall j | 1 <= j < |pts| && (r.None? || j < r.value + 1)
        ensures !Near(pts[j], x, y)
      {
        assert pts[j] == pts[1..][j - 1];
      }
    }
  }

  /** Searching from k: either point k is near, or the search goes on from k + 1. */
  lemma FirstHitStep(pts: seq<Point>, k: nat, x: int, y: int)
    requires k < |pts|
    ensures FirstHit(pts[k..], x, y)
         == if Near(pts[k], x, y) then Some(0) else Shifted(FirstHit(pts[k + 1..], x, y), 1)
  {
    assert pts[k..][1..] == pts[k + 1..];
  }

  function Shifted(o: Option<nat>, offset: nat): Option<nat>
  {
    if o.None? then None else Some(o.value + offset)
  }
}
