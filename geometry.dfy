/** Square detection: the exact-integer test of SquaresEngine.isSquare on four cells and the
    brute-force search of SquaresEngine.hasAnySquare over every four pieces of one colour. */
module Geometry {
  import opened Sorting

  /** A cell coordinate (x is the column, y the row), as the int[]{x, y} pairs of the engine. */
  datatype Point = Point(x: int, y: int)

  function SqDist(p: Point, q: Point): int
  {
    (p.x - q.x) * (p.x - q.x) + (p.y - q.y) * (p.y - q.y)
  }

  /** The six pairwise squared distances, in the order of the loops i < j over {p1, p2, p3, p4}. */
  function Distances(p1: Point, p2: Point, p3: Point, p4: Point): seq<int>
  {
    [SqDist(p1, p2), SqDist(p1, p3), SqDist(p1, p4), SqDist(p2, p3), SqDist(p2, p4), SqDist(p3, p4)]
  }

  /** The comparison applied to the sorted distances: four equal positive values followed by
      two equal values. */
  predicate SquareShaped(d: seq<int>)
    requires |d| == 6
  {
    d[0] > 0 && d[0] == d[1] && d[1] == d[2] && d[2] == d[3] && d[4] == d[5]
  }

  /** isSquare: the sorted squared distances of the four points are square-shaped. */
  predicate IsSquare(p1: Point, p2: Point, p3: Point, p4: Point)
  {
    SquareShaped(Sort(Distances(p1, p2, p3, p4)))
  }

  /** The distances are four "sides" s > 0 and two "diagonals" t >= s, in any order. */
  predicate SidesAndDiagonals(ds: seq<int>, s: int, t: int)
  {
    0 < s <= t && multiset(ds) == multiset{s, s, s, s, t, t}
  }

  /** A sorted square-shaped list holds its first value four times and its fifth value twice. */
  lemma SortedShapedMultiset(d: seq<int>)
    requires |d| == 6 && Sorted(d) && SquareShaped(d)
    ensures d[0] <= d[4] && multiset(d) == multiset{d[0], d[0], d[0], d[0], d[4], d[4]}
  {
    assert d[3] <= d[4];
    assert d == [d[0], d[0], d[0], d[0], d[4], d[4]];
  }

  lemma SquareShapedGivesSides(ds: seq<int>)
    requires |ds| == 6 && SquareShaped(Sort(ds))
    ensures SidesAndDiagonals(ds, Sort(ds)[0], Sort(ds)[4])
  {
    SortSorted(ds);
    SortPermutes(ds);
    SortedShapedMultiset(Sort(ds));
  }

  /** The sorted arrangement of four sides and two diagonals. */
  lemma SortedShape(s: int, t: int)
    requires s <= t
    ensures Sorted([s, s, s, s, t, t])
    ensures multiset([s, s, s, s, t, t]) == multiset{s, s, s, s, t, t}
  {
  }

  lemma SidesGiveSquareShaped(ds: seq<int>, s: int, t: int)
    requires |ds| == 6 && SidesAndDiagonals(ds, s, t)
    ensures SquareShaped(Sort(ds))
  {
    SortedShape(s, t);
    SortIsSortedPermutation(ds, [s, s, s, s, t, t]);
  }

  /** An order-free reading of the sorted test on six values. */
  lemma SquareShapedIff(ds: seq<int>)
    requires |ds| == 6
    ensures SquareShaped(Sort(ds)) <==> exists s, t :: SidesAndDiagonals(ds, s, t)
  {
    if SquareShaped(Sort(ds)) {
      SquareShapedGivesSides(ds);
    }
    if exists s, t :: SidesAndDiagonals(ds, s, t) {
      var s, t :| SidesAndDiagonals(ds, s, t);
      SidesGiveSquareShaped(ds, s, t);
    }
  }

  /** Four points pass the test exactly when their distances are four equal positive sides
      and two equal diagonals no shorter than a side. */
  lemma IsSquareIffSidesAndDiagonals(p1: Point, p2: Point, p3: Point, p4: Point)
    ensures IsSquare(p1, p2, p3, p4) <==> exists s, t :: SidesAndDiagonals(Distances(p1, p2, p3, p4), s, t)
  {
    SquareShapedIff(Distances(p1, p2, p3, p4));
  }

  lemma SeparatedPoints(p: Point, q: Point)
    ensures SqDist(p, q) > 0 ==> p != q
  {
  }

  /** Six values that pass the test are all positive. */
  lemma SquareShapedPositive(ds: seq<int>)
    requires |ds| == 6 && SquareShaped(Sort(ds))
    ensures ds[0] > 0 && ds[1] > 0 && ds[2] > 0 && ds[3] > 0 && ds[4] > 0 && ds[5] > 0
  {
    SortSorted(ds);
    SortPermutes(ds);
    forall i | 0 <= i < 6 ensures ds[i] > 0 {
      assert ds[i] in multiset(ds);
      SortedHeadIsLeast(Sort(ds), ds[i]);
    }
  }

  /** Points at a positive distance from each other are different. */
  lemma SeparatedCorners(p1: Point, p2: Point, p3: Point, p4: Point)
    requires SqDist(p1, p2) > 0 && SqDist(p1, p3) > 0 && SqDist(p1, p4) > 0
    requires SqDist(p2, p3) > 0 && SqDist(p2, p4) > 0 && SqDist(p3, p4) > 0
    ensures p1 != p2 && p1 != p3 && p1 != p4 && p2 != p3 && p2 != p4 && p3 != p4
  {
    SeparatedPoints(p1, p2);
    SeparatedPoints(p1, p3);
    SeparatedPoints(p1, p4);
    SeparatedPoints(p2, p3);
    SeparatedPoints(p2, p4);
    SeparatedPoints(p3, p4);
  }

  /** The four corners of a square are four different cells. */
  lemma IsSquareDistinct(p1: Point, p2: Point, p3: Point, p4: Point)
    requires IsSquare(p1, p2, p3, p4)
    ensures p1 != p2 && p1 != p3 && p1 != p4 && p2 != p3 && p2 != p4 && p3 != p4
  {
    SquareShapedPositive(Distances(p1, p2, p3, p4));
    SeparatedCorners(p1, p2, p3, p4);
  }

  lemma SqDistSymmetric(p: Point, q: Point)
    ensures SqDist(p, q) == SqDist(q, p)
  {
    assert (p.x - q.x) * (p.x - q.x) == (q.x - p.x) * (q.x - p.x);
    assert (p.y - q.y) * (p.y - q.y) == (q.y - p.y) * (q.y - p.y);
  }

  /** The distance lists of two orders of the same points are rearrangements of each other,
      by neighbour exchanges, and so sort to the same list. */
  lemma SortFirstSwap(ab: int, ac: int, ad: int, bc: int, bd: int, cd: int)
    ensures Sort([ab, ac, ad, bc, bd, cd]) == Sort([ab, bc, bd, ac, ad, cd])
  {
    SortSwapNeighbours([ab, ac], ad, bc, [bd, cd]);
    SortSwapNeighbours([ab], ac, bc, [ad, bd, cd]);
    SortSwapNeighbours([ab, bc, ac], ad, bd, [cd]);
    SortSwapNeighbours([ab, bc], ac, bd, [ad, cd]);
    assert [ab, ac] + [ad, bc] + [bd, cd] == [ab, ac, ad, bc, bd, cd];
    assert [ab] + [ac, bc] + [ad, bd, cd] == [ab, ac] + [bc, ad] + [bd, cd];
    assert [ab] + [bc, ac] + [ad, bd, cd] == [ab, bc, ac] + [ad, bd] + [cd];
    assert [ab, bc, ac] + [bd, ad] + [cd] == [ab, bc] + [ac, bd] + [ad, cd];
    assert [ab, bc] + [bd, ac] + [ad, cd] == [ab, bc, bd, ac, ad, cd];
  }

  lemma SortMiddleSwap(ab: int, ac: int, ad: int, bc: int, bd: int, cd: int)
    ensures Sort([ab, ac, ad, bc, bd, cd]) == Sort([ac, ab, ad, bc, cd, bd])
  {
    SortSwapNeighbours([], ab, ac, [ad, bc, bd, cd]);
    SortSwapNeighbours([ac, ab, ad, bc], bd, cd, []);
    assert [] + [ab, ac] + [ad, bc, bd, cd] == [ab, ac, ad, bc, bd, cd];
    assert [] + [ac, ab] + [ad, bc, bd, cd] == [ac, ab, ad, bc] + [bd, cd] + [];
    assert [ac, ab, ad, bc] + [cd, bd] + [] == [ac, ab, ad, bc, cd, bd];
  }

  lemma SortLastSwap(ab: int, ac: int, ad: int, bc: int, bd: int, cd: int)
    ensures Sort([ab, ac, ad, bc, bd, cd]) == Sort([ab, ad, ac, bd, bc, cd])
  {
    SortSwapNeighbours([ab], ac, ad, [bc, bd, cd]);
    SortSwapNeighbours([ab, ad, ac], bc, bd, [cd]);
    assert [ab] + [ac, ad] + [bc, bd, cd] == [ab, ac, ad, bc, bd, cd];
    assert [ab] + [ad, ac] + [bc, bd, cd] == [ab, ad, ac] + [bc, bd] + [cd];
    assert [ab, ad, ac] + [bd, bc] + [cd] == [ab, ad, ac, bd, bc, cd];
  }

  /** Swapping any two neighbouring arguments leaves the answer unchanged; these three swaps
      generate every reordering of the four points. */
  lemma IsSquareSymmetric(a: Point, b: Point, c: Point, d: Point)
    ensures IsSquare(a, b, c, d) == IsSquare(b, a, c, d)
    ensures IsSquare(a, b, c, d) == IsSquare(a, c, b, d)
    ensures IsSquare(a, b, c, d) == IsSquare(a, b, d, c)
  {
    SqDistSymmetric(a, b);
    SqDistSymmetric(b, c);
    SqDistSymmetric(c, d);
    var ab, ac, ad, bc, bd, cd := SqDist(a, b), SqDist(a, c), SqDist(a, d), SqDist(b, c), SqDist(b, d), SqDist(c, d);
    SortFirstSwap(ab, ac, ad, bc, bd, cd);
    SortMiddleSwap(ab, ac, ad, bc, bd, cd);
    SortLastSwap(ab, ac, ad, bc, bd, cd);
  }

  lemma SqDistOffset(p: Point, ax: int, ay: int)
    ensures SqDist(p, Point(p.x + ax, p.y + ay)) == ax * ax + ay * ay
  {
    assert (p.x - (p.x + ax)) * (p.x - (p.x + ax)) == ax * ax;
    assert (p.y - (p.y + ay)) * (p.y - (p.y + ay)) == ay * ay;
  }

  /** Four sides of squared length s and two diagonals of 2 * s, listed in the order of a
      square's corners taken round it, pass the sorted test. */
  lemma SquareDistancesPass(s: int)
    requires s > 0
    ensures SquareShaped(Sort([s, 2 * s, s, s, 2 * s, s]))
  {
    SortSwapNeighbours([s], 2 * s, s, [s, 2 * s, s]);
    SortSwapNeighbours([s, s], 2 * s, s, [2 * s, s]);
    SortSwapNeighbours([s, s, s, 2 * s], 2 * s, s, []);
    assert [s] + [2 * s, s] + [s, 2 * s, s] == [s, 2 * s, s, s, 2 * s, s];
    assert [s] + [s, 2 * s] + [s, 2 * s, s] == [s, s] + [2 * s, s] + [2 * s, s];
    assert [s, s] + [s, 2 * s] + [2 * s, s] == [s, s, s, 2 * s] + [2 * s, s] + [];
    SortSwapNeighbours([s, s, s], 2 * s, s, [2 * s]);
    assert [s, s, s, 2 * s] + [s, 2 * s] + [] == [s, s, s] + [2 * s, s] + [2 * s];
    var e := [s, s, s] + [s, 2 * s] + [2 * s];
    assert e == [s, s, s, s, 2 * s, 2 * s];
    assert Sorted(e);
    SortOfSorted(e);
  }

  /** Every square with integer corners is detected, whatever its orientation: the corners
      p, p + v, p + v + v', p + v' where v = (dx, dy) is not zero and v' = (-dy, dx) is v
      turned a quarter. */
  lemma EverySquareIsDetected(p: Point, dx: int, dy: int)
    requires dx != 0 || dy != 0
    ensures IsSquare(p, Point(p.x + dx, p.y + dy), Point(p.x + dx - dy, p.y + dy + dx), Point(p.x - dy, p.y + dx))
  {
    var q := Point(p.x + dx, p.y + dy);
    var r := Point(p.x + dx - dy, p.y + dy + dx);
    var u := Point(p.x - dy, p.y + dx);
    var s := dx * dx + dy * dy;
    assert s > 0 by {
      assert dx != 0 ==> dx * dx > 0;
      assert dy != 0 ==> dy * dy > 0;
    }
    assert SqDist(p, q) == s by { SqDistOffset(p, dx, dy); }
    assert SqDist(p, r) == 2 * s by {
      SqDistOffset(p, dx - dy, dy + dx);
      assert (dx - dy) * (dx - dy) + (dy + dx) * (dy + dx) == 2 * s;
    }
    assert SqDist(p, u) == s by {
      SqDistOffset(p, -dy, dx);
      assert (-dy) * (-dy) == dy * dy;
    }
    assert SqDist(q, r) == s by {
      SqDistOffset(q, -dy, dx);
      assert (-dy) * (-dy) == dy * dy;
    }
    assert SqDist(q, u) == 2 * s by {
      SqDistOffset(q, -dy - dx, dx - dy);
      assert (-dy - dx) * (-dy - dx) + (dx - dy) * (dx - dy) == 2 * s;
    }
    assert SqDist(r, u) == s by {
      SqDistOffset(r, -dx, -dy);
      assert (-dx) * (-dx) + (-dy) * (-dy) == s;
    }
    assert Distances(p, q, r, u) == [s, 2 * s, s, s, 2 * s, s];
    SquareDistancesPass(s);
  }

  // ---------- every four points that pass the test are the corners of a square ----------

  lemma SquareMod3(x: int)
    ensures x % 3 != 0 ==> (x * x) % 3 == 1
  {
    var q, r := x / 3, x % 3;
    assert x == 3 * q + r;
    assert x * x == 3 * (3 * q * q + 2 * q * r) + r * r;
  }

  lemma NotThreeMod3(x: int, y: int)
    requires x % 3 != 0
    ensures 4 * x * x != 3 * y * y
  {
    SquareMod3(x);
    var xx, yy := x * x, y * y;
    assert (3 * (yy - xx)) % 3 == 0;
    assert xx != 3 * (yy - xx);
  }

  lemma NotThreeMod9(x: int, y: int)
    requires x % 3 == 0 && y % 3 != 0
    ensures 4 * x * x != 3 * y * y
  {
    SquareMod3(y);
    var u, k := x / 3, (y * y) / 3;
    assert x == 3 * u;
    assert 4 * x * x == 9 * (4 * u * u);
    assert y * y == 3 * k + 1;
    assert 3 * y * y == 9 * k + 3;
  }

  lemma ScaleByThree(x: int, y: int)
    requires x % 3 == 0 && y % 3 == 0
    ensures 4 * x * x == 9 * (4 * (x / 3) * (x / 3)) && 3 * y * y == 9 * (3 * (y / 3) * (y / 3))
  {
    var u, v := x / 3, y / 3;
    assert x == 3 * u && y == 3 * v;
  }

  /** 3 is not the square of a rational: 4 x^2 = 3 y^2 only for y = 0. */
  lemma {:induction false} FourSquareNotThreeSquare(x: int, y: int)
    ensures y != 0 ==> 4 * x * x != 3 * y * y
    decreases if y < 0 then -y else y
  {
    if y != 0 {
      if x % 3 != 0 {
        NotThreeMod3(x, y);
      } else if y % 3 != 0 {
        NotThreeMod9(x, y);
      } else {
        FourSquareNotThreeSquare(x / 3, y / 3);
        ScaleByThree(x, y);
      }
    }
  }

  lemma NoEquilateralOffsets(a: int, b: int, c: int, d: int)
    ensures var s1, s2, s3 := a * a + b * b, c * c + d * d, (a - c) * (a - c) + (b - d) * (b - d);
      !(s1 > 0 && s1 == s3 && s3 == s2)
  {
    var s1, s2 := a * a + b * b, c * c + d * d;
    assert (a - c) * (a - c) + (b - d) * (b - d) == s1 + s2 - 2 * (a * c + b * d);
    Lagrange(a, b, c, d);
    FourSquareNotThreeSquare(a * d - b * c, s1);
  }

  lemma NoEquilateralCoordinates(px: int, py: int, qx: int, qy: int, rx: int, ry: int)
    ensures var s1, s2, s3 := (px - qx) * (px - qx) + (py - qy) * (py - qy), (qx - rx) * (qx - rx) + (qy - ry) * (qy - ry),
                              (rx - px) * (rx - px) + (ry - py) * (ry - py);
      !(s1 > 0 && s1 == s2 && s2 == s3)
  {
    var a, b, c, d := px - qx, py - qy, px - rx, py - ry;
    assert (qx - rx) * (qx - rx) == (a - c) * (a - c);
    assert (qy - ry) * (qy - ry) == (b - d) * (b - d);
    assert (rx - px) * (rx - px) == c * c;
    assert (ry - py) * (ry - py) == d * d;
    NoEquilateralOffsets(a, b, c, d);
  }

  /** No three points with integer coordinates are the corners of an equilateral triangle. */
  lemma NoLatticeEquilateral(p: Point, q: Point, r: Point)
    ensures !(SqDist(p, q) > 0 && SqDist(p, q) == SqDist(q, r) && SqDist(q, r) == SqDist(r, p))
  {
    NoEquilateralCoordinates(p.x, p.y, q.x, q.y, r.x, r.y);
  }

  /** a, b, c, d taken in this order round a quadrilateral with four equal sides and equal diagonals. */
  predicate Rhombic(a: Point, b: Point, c: Point, d: Point)
  {
    0 < SqDist(a, b) && SqDist(a, b) == SqDist(b, c) && SqDist(b, c) == SqDist(c, d) && SqDist(c, d) == SqDist(d, a) &&
    0 < SqDist(a, c) && SqDist(a, c) == SqDist(b, d)
  }

  function CountOf(ds: seq<int>, t: int): nat
  {
    if ds == [] then 0 else Hit(ds[0], t) + CountOf(ds[1..], t)
  }

  lemma {:induction false} CountOfMultiset(ds: seq<int>, t: int)
    ensures CountOf(ds, t) == multiset(ds)[t]
  {
    if ds != [] {
      CountOfMultiset(ds[1..], t);
      assert ds == [ds[0]] + ds[1..];
    }
  }

  function Hit(d: int, t: int): nat
  {
    if d == t then 1 else 0
  }

  /** Six distances made of four sides s and two diagonals t: each is one or the other, and t occurs twice. */
  lemma SixValues(ds: seq<int>, s: int, t: int)
    requires |ds| == 6 && multiset(ds) == multiset{s, s, s, s, t, t}
    ensures forall i | 0 <= i < 6 :: ds[i] == s || ds[i] == t
    ensures s != t ==> Hit(ds[0], t) + Hit(ds[1], t) + Hit(ds[2], t) + Hit(ds[3], t) + Hit(ds[4], t) + Hit(ds[5], t) == 2
  {
    forall i | 0 <= i < 6 ensures ds[i] == s || ds[i] == t {
      assert ds[i] in multiset(ds);
    }
    CountOfMultiset(ds, t);
    assert CountOf(ds, t) == Hit(ds[0], t) + CountOf(ds[1..], t);
    assert CountOf(ds[1..], t) == Hit(ds[1], t) + CountOf(ds[2..], t);
    assert CountOf(ds[2..], t) == Hit(ds[2], t) + CountOf(ds[3..], t);
    assert CountOf(ds[3..], t) == Hit(ds[3], t) + CountOf(ds[4..], t);
    assert CountOf(ds[4..], t) == Hit(ds[4], t) + CountOf(ds[5..], t);
    assert CountOf(ds[5..], t) == Hit(ds[5], t) + CountOf(ds[6..], t);
  }

  /**
   * Six distances ab, ac, ad, bc, bd, cd, four of them s and two t, no triangle of them equilateral:
   * the two t are a pair of opposite segments.
   */
  lemma SixPairing(ab: int, ac: int, ad: int, bc: int, bd: int, cd: int, s: int, t: int)
    requires (ab == s || ab == t) && (ac == s || ac == t) && (ad == s || ad == t)
    requires (bc == s || bc == t) && (bd == s || bd == t) && (cd == s || cd == t)
    requires s != t ==> Hit(ab, t) + Hit(ac, t) + Hit(ad, t) + Hit(bc, t) + Hit(bd, t) + Hit(cd, t) == 2
    requires !(bc == cd && cd == bd) && !(ac == cd && cd == ad)
    requires !(ab == bd && bd == ad) && !(ab == bc && bc == ac)
    ensures || (ab == cd && ac == bc && bc == bd && bd == ad)
            || (ac == bd && ab == bc && bc == cd && cd == ad)
            || (ad == bc && ab == bd && bd == cd && cd == ac)
  {
  }

  lemma DiagonalsOpposite(ds: seq<int>, s: int, t: int)
    requires |ds| == 6 && SidesAndDiagonals(ds, s, t)
    requires !(ds[3] > 0 && ds[3] == ds[5] && ds[5] == ds[4]) && !(ds[1] > 0 && ds[1] == ds[5] && ds[5] == ds[2])
    requires !(ds[0] > 0 && ds[0] == ds[4] && ds[4] == ds[2]) && !(ds[0] > 0 && ds[0] == ds[3] && ds[3] == ds[1])
    ensures || (ds[0] == ds[5] && ds[1] == ds[3] && ds[3] == ds[4] && ds[4] == ds[2])
            || (ds[1] == ds[4] && ds[0] == ds[3] && ds[3] == ds[5] && ds[5] == ds[2])
            || (ds[2] == ds[3] && ds[0] == ds[4] && ds[4] == ds[5] && ds[5] == ds[1])
  {
    SixValues(ds, s, t);
    SixPairing(ds[0], ds[1], ds[2], ds[3], ds[4], ds[5], s, t);
  }

  /** Four points pass the test only if, round one of the three ways of ordering them, they form a rhombus with equal diagonals. */
  lemma SquarePairing(p1: Point, p2: Point, p3: Point, p4: Point)
    ensures IsSquare(p1, p2, p3, p4) ==> Rhombic(p1, p2, p3, p4) || Rhombic(p1, p3, p2, p4) || Rhombic(p1, p2, p4, p3)
  {
    if IsSquare(p1, p2, p3, p4) {
      var ds := Distances(p1, p2, p3, p4);
      SquareShapedGivesSides(ds);
      SquareShapedPositive(ds);
      SqDistSymmetric(p3, p1);
      SqDistSymmetric(p4, p1);
      SqDistSymmetric(p3, p2);
      SqDistSymmetric(p4, p2);
      SqDistSymmetric(p4, p3);
      NoLatticeEquilateral(p2, p3, p4);
      NoLatticeEquilateral(p1, p3, p4);
      NoLatticeEquilateral(p1, p2, p4);
      NoLatticeEquilateral(p1, p2, p3);
      DiagonalsOpposite(ds, Sort(ds)[0], Sort(ds)[4]);
    }
  }

  /** a, b, c, d are the corners of a square in this order: d - a is b - a turned a quarter, either way, and c = b + d - a. */
  predicate SquareCorners(a: Point, b: Point, c: Point, d: Point)
  {
    var ux, uy, wx, wy := b.x - a.x, b.y - a.y, d.x - a.x, d.y - a.y;
    (ux != 0 || uy != 0) && ((wx == -uy && wy == ux) || (wx == uy && wy == -ux)) && c == Point(b.x + wx, b.y + wy)
  }

  lemma SumOfSquaresZero(a: int, b: int)
    ensures a * a + b * b == 0 ==> a == 0 && b == 0
  {
  }

  lemma ProductZero(a: int, b: int)
    ensures a * b == 0 ==> a == 0 || b == 0
  {
  }

  lemma CrossZero(e1: int, e2: int, x1: int, x2: int, c1: int, c2: int)
    requires e1 != 0 || e2 != 0
    requires x1 * e1 + x2 * e2 == 0 && c1 * e1 + c2 * e2 == 0
    ensures x1 * c2 - x2 * c1 == 0
  {
    var cr := x1 * c2 - x2 * c1;
    assert e1 * cr == (x1 * e1) * c2 - x2 * (c1 * e1);
    assert e2 * cr == x1 * (c2 * e2) - (x2 * e2) * c1;
    ProductZero(e1, cr);
    ProductZero(e2, cr);
  }

  lemma Lagrange(x1: int, x2: int, c1: int, c2: int)
    ensures (x1 * c1 + x2 * c2) * (x1 * c1 + x2 * c2) + (x1 * c2 - x2 * c1) * (x1 * c2 - x2 * c1)
         == (x1 * x1 + x2 * x2) * (c1 * c1 + c2 * c2)
  {
  }

  lemma SquaresEqual(dt: int, n: int)
    ensures dt * dt == n * n ==> dt == n || dt == -n
  {
    assert (dt - n) * (dt + n) == dt * dt - n * n;
    ProductZero(dt - n, dt + n);
  }

  lemma EqualOrOpposite(x1: int, x2: int, c1: int, c2: int, n: int)
    requires x1 * x1 + x2 * x2 == n && c1 * c1 + c2 * c2 == n
    ensures x1 * c1 + x2 * c2 == n ==> c1 == x1 && c2 == x2
    ensures x1 * c1 + x2 * c2 == -n ==> c1 == -x1 && c2 == -x2
  {
    assert (x1 - c1) * (x1 - c1) + (x2 - c2) * (x2 - c2) == 2 * n - 2 * (x1 * c1 + x2 * c2);
    assert (x1 + c1) * (x1 + c1) + (x2 + c2) * (x2 + c2) == 2 * n + 2 * (x1 * c1 + x2 * c2);
    SumOfSquaresZero(x1 - c1, x2 - c2);
    SumOfSquaresZero(x1 + c1, x2 + c2);
  }

  /** Two vectors of equal length, both perpendicular to a non-zero e, are equal or opposite. */
  lemma ParallelSameNorm(e1: int, e2: int, x1: int, x2: int, c1: int, c2: int)
    requires e1 != 0 || e2 != 0
    requires x1 * e1 + x2 * e2 == 0 && c1 * e1 + c2 * e2 == 0
    requires x1 * x1 + x2 * x2 == c1 * c1 + c2 * c2
    ensures (c1 == x1 && c2 == x2) || (c1 == -x1 && c2 == -x2)
  {
    CrossZero(e1, e2, x1, x2, c1, c2);
    Lagrange(x1, x2, c1, c2);
    var n, dt := x1 * x1 + x2 * x2, x1 * c1 + x2 * c2;
    assert dt * dt == n * n;
    SquaresEqual(dt, n);
    EqualOrOpposite(x1, x2, c1, c2, n);
  }

  lemma ParallelogramLaw(p1: int, p2: int, q1: int, q2: int)
    ensures (p1 + q1) * (p1 - q1) + (p2 + q2) * (p2 - q2) == p1 * p1 + p2 * p2 - (q1 * q1 + q2 * q2)
    ensures (p1 + q1) * (p1 + q1) + (p2 + q2) * (p2 + q2)
         == 2 * (p1 * p1 + p2 * p2) + 2 * (q1 * q1 + q2 * q2) - ((p1 - q1) * (p1 - q1) + (p2 - q2) * (p2 - q2))
  {
  }

  /** The median from a to the segment b d, doubled, against that segment. */
  lemma MedianFacts(a: Point, b: Point, d: Point)
    ensures (2 * a.x - b.x - d.x) * (d.x - b.x) + (2 * a.y - b.y - d.y) * (d.y - b.y) == SqDist(a, b) - SqDist(a, d)
    ensures (2 * a.x - b.x - d.x) * (2 * a.x - b.x - d.x) + (2 * a.y - b.y - d.y) * (2 * a.y - b.y - d.y)
         == 2 * SqDist(a, b) + 2 * SqDist(a, d) - SqDist(b, d)
  {
    ParallelogramLaw(a.x - b.x, a.y - b.y, a.x - d.x, a.y - d.y);
  }

  /** In a rhombus with equal diagonals the fourth corner closes the parallelogram: c = b + d - a. */
  lemma OppositeCorner(a: Point, b: Point, c: Point, d: Point)
    requires Rhombic(a, b, c, d)
    ensures c == Point(b.x + d.x - a.x, b.y + d.y - a.y)
  {
    SqDistSymmetric(d, a);
    SqDistSymmetric(b, c);
    MedianFacts(a, b, d);
    MedianFacts(c, b, d);
    ParallelSameNorm(d.x - b.x, d.y - b.y, 2 * a.x - b.x - d.x, 2 * a.y - b.y - d.y, 2 * c.x - b.x - d.x, 2 * c.y - b.y - d.y);
    SeparatedPoints(a, c);
    SeparatedPoints(b, d);
  }

  /** A rhombus with equal diagonals has its corners on a square. */
  lemma RhombicIsSquareCorners(a: Point, b: Point, c: Point, d: Point)
    requires Rhombic(a, b, c, d)
    ensures SquareCorners(a, b, c, d)
  {
    OppositeCorner(a, b, c, d);
    var ux, uy, wx, wy := b.x - a.x, b.y - a.y, d.x - a.x, d.y - a.y;
    SqDistSymmetric(d, a);
    assert SqDist(a, b) == ux * ux + uy * uy;
    assert SqDist(a, d) == wx * wx + wy * wy;
    assert SqDist(a, c) == SqDist(a, b) + SqDist(a, d) + 2 * (ux * wx + uy * wy);
    assert SqDist(b, d) == SqDist(a, b) + SqDist(a, d) - 2 * (ux * wx + uy * wy);
    ParallelSameNorm(ux, uy, -uy, ux, wx, wy);
  }

  /** Corners of a square, in either orientation, pass the test. */
  lemma SquareCornersPass(a: Point, b: Point, c: Point, d: Point)
    requires SquareCorners(a, b, c, d)
    ensures IsSquare(a, b, c, d)
  {
    var ux, uy := b.x - a.x, b.y - a.y;
    if d.x - a.x == -uy && d.y - a.y == ux {
      EverySquareIsDetected(a, ux, uy);
    } else {
      EverySquareIsDetected(a, uy, -ux);
      IsSquareSymmetric(a, d, c, b);
      IsSquareSymmetric(a, c, d, b);
      IsSquareSymmetric(a, c, b, d);
    }
  }

  /** The test is exact: four points pass it iff, taken in one of the three cyclic orders, they are the corners of a square. */
  lemma IsSquareIffSquareCorners(p1: Point, p2: Point, p3: Point, p4: Point)
    ensures IsSquare(p1, p2, p3, p4) <==>
      SquareCorners(p1, p2, p3, p4) || SquareCorners(p1, p3, p2, p4) || SquareCorners(p1, p2, p4, p3)
  {
    SquarePairing(p1, p2, p3, p4);
    IsSquareSymmetric(p1, p2, p3, p4);
    if Rhombic(p1, p2, p3, p4) {
      RhombicIsSquareCorners(p1, p2, p3, p4);
    }
    if Rhombic(p1, p3, p2, p4) {
      RhombicIsSquareCorners(p1, p3, p2, p4);
    }
    if Rhombic(p1, p2, p4, p3) {
      RhombicIsSquareCorners(p1, p2, p4, p3);
    }
    if SquareCorners(p1, p2, p3, p4) {
      SquareCornersPass(p1, p2, p3, p4);
    }
    if SquareCorners(p1, p3, p2, p4) {
      SquareCornersPass(p1, p3, p2, p4);
    }
    if SquareCorners(p1, p2, p4, p3) {
      SquareCornersPass(p1, p2, p4, p3);
    }
  }

  /** Equal sides are not enough: a rhombus whose diagonals differ is rejected. */
  lemma RhombusIsNotSquare(a: Point, b: Point, c: Point, d: Point)
    requires 0 < SqDist(a, b) && SqDist(a, b) == SqDist(b, c) && SqDist(b, c) == SqDist(c, d) && SqDist(c, d) == SqDist(d, a)
    requires SqDist(a, c) != SqDist(b, d)
    ensures !IsSquare(a, b, c, d)
  {
    SquarePairing(a, b, c, d);
    SqDistSymmetric(c, b);
    SqDistSymmetric(d, a);
    SqDistSymmetric(d, c);
    SqDistSymmetric(c, a);
  }

  /** Pieces i < j < k < l are the corners of a square. */
  predicate SquareAt(ps: seq<Point>, i: int, j: int, k: int, l: int)
  {
    0 <= i < j < k < l < |ps| && IsSquare(ps[i], ps[j], ps[k], ps[l])
  }

  ghost predicate HasSquare(ps: seq<Point>)
  {
    exists i, j, k, l :: SquareAt(ps, i, j, k, l)
  }

  /** Any four distinct pieces that pass the test, in whatever order, are found by the search
      over increasing indices. */
  lemma {:induction false} HasSquareInAnyOrder(ps: seq<Point>, i1: int, i2: int, i3: int, i4: int)
    requires 0 <= i1 < |ps| && 0 <= i2 < |ps| && 0 <= i3 < |ps| && 0 <= i4 < |ps|
    requires i1 != i2 && i1 != i3 && i1 != i4 && i2 != i3 && i2 != i4 && i3 != i4
    requires IsSquare(ps[i1], ps[i2], ps[i3], ps[i4])
    ensures HasSquare(ps)
  {
    var a, b, c, d := i1, i2, i3, i4;
    if a > b { IsSquareSymmetric(ps[a], ps[b], ps[c], ps[d]); a, b := b, a; }
    if b > c { IsSquareSymmetric(ps[a], ps[b], ps[c], ps[d]); b, c := c, b; }
    if c > d { IsSquareSymmetric(ps[a], ps[b], ps[c], ps[d]); c, d := d, c; }
    if a > b { IsSquareSymmetric(ps[a], ps[b], ps[c], ps[d]); a, b := b, a; }
    if b > c { IsSquareSymmetric(ps[a], ps[b], ps[c], ps[d]); b, c := c, b; }
    if a > b { IsSquareSymmetric(ps[a], ps[b], ps[c], ps[d]); a, b := b, a; }
    assert SquareAt(ps, a, b, c, d);
  }

  /** hasAnySquare: four nested loops over i < j < k < l, returning at the first square. */
  method HasAnySquare(ps: seq<Point>) returns (found: bool)
    ensures found <==> HasSquare(ps)
    ensures |ps| < 4 ==> !found
  {
    var m := |ps|;
    for i := 0 to m
      invariant forall i', j, k, l :: i' < i ==> !SquareAt(ps, i', j, k, l)
    {
      for j := i + 1 to m
        invariant forall i', j', k, l :: (i' < i || (i' == i && j' < j)) ==> !SquareAt(ps, i', j', k, l)
      {
        for k := j + 1 to m
          invariant forall i', j', k', l :: (i' < i || (i' == i && (j' < j || (j' == j && k' < k)))) ==> !SquareAt(ps, i', j', k', l)
        {
          for l := k + 1 to m
            invariant forall i', j', k', l' :: (i' < i || (i' == i && (j' < j || (j' == j && (k' < k || (k' == k && l' < l)))))) ==> !SquareAt(ps, i', j', k', l')
          {
            if IsSquare(ps[i], ps[j], ps[k], ps[l]) {
              assert SquareAt(ps, i, j, k, l);
              return true;
            }
          }
        }
      }
    }
    return false;
  }
}
