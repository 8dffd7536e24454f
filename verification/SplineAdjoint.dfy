/** The transpose of "nodal values -> slopes -> Hermite coefficients" (compact_radial.cpp:429-491). */
module SplineAdjoint {
  import opened RealArithmetic
  import opened FiniteSums
  import opened CubicSplines
  import opened SplineSolver

  /** Adjoints of the four coefficients of one interval. */
  datatype PieceAdjoint = PieceAdjoint(c0: real, c1: real, c2: real, c3: real) {
    function Pair(p: Cubic): real {
      c0 * p.c0 + c1 * p.c1 + c2 * p.c2 + c3 * p.c3
    }

    // What the interval adds to the adjoints of its left and right value and of its left and right slope.
    function LeftValue(h: real): real requires h > 0.0 { c0 - 3.0 * c2 / (h * h) + 2.0 * c3 / (h * h * h) }
    function RightValue(h: real): real requires h > 0.0 { 3.0 * c2 / (h * h) - 2.0 * c3 / (h * h * h) }
    function LeftSlope(h: real): real requires h > 0.0 { c1 - 2.0 * c2 / h + c3 / (h * h) }
    function RightSlope(h: real): real requires h > 0.0 { -c2 / h + c3 / (h * h) }
  }

  /** <g, coefficients of the spline through v>, summed over the intervals. */
  ghost function SplinePairing(h: real, g: int -> PieceAdjoint, v: seq<real>): real
    requires h > 0.0 && |v| >= 4
  {
    Sum(|v| - 1, PieceTerms(h, g, v))
  }

  /** What each interval adds to the pairing. */
  ghost function PieceTerms(h: real, g: int -> PieceAdjoint, v: seq<real>): int -> real
    requires h > 0.0 && |v| >= 4
  {
    i => if 0 <= i < |v| - 1 then g(i).Pair(HermitePiece(h, v, Slopes(h, v), i)) else 0.0
  }

  /** Adjoint collected by node n from its two neighbouring intervals, over the first k intervals. */
  ghost function FromIntervals(left: int -> real, right: int -> real, k: int, n: int): real {
    (if n < k then left(n) else 0.0) + (if 0 < n <= k then right(n - 1) else 0.0)
  }

  ghost function Collected(left: int -> real, right: int -> real, k: int): int -> real {
    n => FromIntervals(left, right, k, n)
  }

  lemma CollectedStep(left: int -> real, right: int -> real, k: nat, n: nat)
    ensures Collected(left, right, k + 1)(n)
         == Collected(left, right, k)(n) + (if n == k then left(k) else if n == k + 1 then right(k) else 0.0)
  {
  }

  ghost function LeftValues(h: real, g: int -> PieceAdjoint): int -> real requires h > 0.0 { i => g(i).LeftValue(h) }
  ghost function RightValues(h: real, g: int -> PieceAdjoint): int -> real requires h > 0.0 { i => g(i).RightValue(h) }
  ghost function LeftSlopes(h: real, g: int -> PieceAdjoint): int -> real requires h > 0.0 { i => g(i).LeftSlope(h) }
  ghost function RightSlopes(h: real, g: int -> PieceAdjoint): int -> real requires h > 0.0 { i => g(i).RightSlope(h) }

  /** Adjoints of the node values that come straight from the coefficient formulas. */
  ghost function DirectAdjoint(h: real, g: int -> PieceAdjoint, points: nat): int -> real
    requires h > 0.0
  {
    Collected(LeftValues(h, g), RightValues(h, g), points - 1)
  }

  /** Adjoints of the node slopes. */
  ghost function SlopeAdjoint(h: real, g: int -> PieceAdjoint, points: nat): int -> real
    requires h > 0.0
  {
    Collected(LeftSlopes(h, g), RightSlopes(h, g), points - 1)
  }

  /** What the transpose leaves at node n: the direct part plus the slope adjoints through the solver's matrix. */
  ghost function NodalAdjoint(h: real, g: int -> PieceAdjoint, points: nat): int -> real
    requires h > 0.0 && points >= 4
  {
    n => DirectAdjoint(h, g, points)(n) + Pulled(points, SolverMatrix(h, points), SlopeAdjoint(h, g, points))(n)
  }

  lemma PairScalars(h: real, g0: real, g1: real, g2: real, g3: real, x2: real, x3: real,
                    a: real, da: real, b: real, db: real, c2: real, c3: real)
    requires x2 * (h * h) == g2 && x3 * (h * h * h) == g3
    requires c2 * (h * h) == -3.0 * a - 2.0 * h * da + 3.0 * b - h * db
    requires c3 * (h * h * h) == 2.0 * a + h * da - 2.0 * b + h * db
    ensures g0 * a + g1 * da + g2 * c2 + g3 * c3
         == a * (g0 - 3.0 * x2 + 2.0 * x3) + b * (3.0 * x2 - 2.0 * x3)
            + da * (g1 - 2.0 * (x2 * h) + x3 * h) + db * (-(x2 * h) + x3 * h)
  {
    var n2 := -3.0 * a - 2.0 * h * da + 3.0 * b - h * db;
    var n3 := 2.0 * a + h * da - 2.0 * b + h * db;
    assert g2 * c2 == x2 * n2;
    assert g3 * c3 == x3 * n3;
    assert x2 * n2 == -3.0 * (x2 * a) - 2.0 * (x2 * h * da) + 3.0 * (x2 * b) - x2 * h * db;
    assert x3 * n3 == 2.0 * (x3 * a) + x3 * h * da - 2.0 * (x3 * b) + x3 * h * db;
  }

  lemma WeightsScaled(g: PieceAdjoint, h: real) returns (x2: real, x3: real)
    requires h > 0.0
    ensures x2 * (h * h) == g.c2 && x3 * (h * h * h) == g.c3
    ensures g.LeftValue(h) == g.c0 - 3.0 * x2 + 2.0 * x3 && g.RightValue(h) == 3.0 * x2 - 2.0 * x3
    ensures g.LeftSlope(h) == g.c1 - 2.0 * (x2 * h) + x3 * h && g.RightSlope(h) == -(x2 * h) + x3 * h
  {
    ProductPositive(h, h, h * h);
    ProductPositive(h * h, h, h * h * h);
    x2, x3 := g.c2 / (h * h), g.c3 / (h * h * h);
    DivisionUndone(g.c2, h * h);
    DivisionUndone(g.c3, h * h * h);
    QuotientIs(3.0 * g.c2, h * h, 3.0 * x2);
    QuotientIs(2.0 * g.c3, h * h * h, 2.0 * x3);
    QuotientIs(2.0 * g.c2, h, 2.0 * (x2 * h));
    QuotientIs(-g.c2, h, -(x2 * h));
    QuotientIs(g.c3, h * h, x3 * h);
  }

  /** One interval: the pairing with the Hermite coefficients, moved onto the interval's end data. */
  lemma PieceTransposed(h: real, g: PieceAdjoint, a: real, da: real, b: real, db: real)
    requires h > 0.0
    ensures g.Pair(Hermite(h, a, da, b, db))
         == a * g.LeftValue(h) + b * g.RightValue(h) + da * g.LeftSlope(h) + db * g.RightSlope(h)
  {
    var x2, x3 := WeightsScaled(g, h);
    HermiteScaled(h, a, da, b, db);
    var p := Hermite(h, a, da, b, db);
    PairScalars(h, g.c0, g.c1, g.c2, g.c3, x2, x3, a, da, b, db, p.c2, p.c3);
  }

  /** One more interval adds to its two nodes only. */
  lemma CollectedGrows(left: int -> real, right: int -> real, k: nat)
    ensures var w, w' := Collected(left, right, k), Collected(left, right, k + 1);
            && (forall n :: 0 <= n < k ==> w'(n) == w(n))
            && w'(k) == w(k) + left(k) && w'(k + 1) == right(k)
  {
  }

  lemma IntervalScalars(a: real, l: real, r: real, x: real, y: real, w: real)
    requires w == a + l
    ensures (l * x + r * y) - (w * x + r * y) == -(a * x)
  {
  }

  /** What interval i pairs with the entries of its two nodes. */
  ghost function EndTerms(left: int -> real, right: int -> real, x: seq<real>): int -> real {
    i => left(i) * At(x, i) + right(i) * At(x, i + 1)
  }

  lemma EndTerm(left: int -> real, right: int -> real, x: seq<real>, i: int)
    requires 0 <= i < |x| - 1
    ensures EndTerms(left, right, x)(i) == left(i) * x[i] + right(i) * x[i + 1]
  {
  }

  /** Summing over intervals equals summing what each node collects from its neighbours. */
  lemma {:induction false} IntervalsToNodes(left: int -> real, right: int -> real, x: seq<real>, k: nat)
    ensures Sum(k, EndTerms(left, right, x))
         == Inner(k + 1, Collected(left, right, k), Entries(x))
  {
    if k == 0 {
      InnerOfZero(Collected(left, right, 0), Entries(x));
    } else {
      IntervalsToNodes(left, right, x, k - 1);
      NodesGrow(left, right, x, k - 1);
    }
  }

  lemma InnerOfZero(w: int -> real, e: int -> real)
    requires w(0) == 0.0
    ensures Inner(1, w, e) == 0.0
  {
    var g := n => w(n) * e(n);
    assert Sum(1, g) == Sum(0, g) + g(0);
  }

  /** What interval k adds to the paired node adjoints. */
  lemma NodesGrow(left: int -> real, right: int -> real, x: seq<real>, k: nat)
    ensures Inner(k + 2, Collected(left, right, k + 1), Entries(x))
         == Inner(k + 1, Collected(left, right, k), Entries(x)) + (left(k) * At(x, k) + right(k) * At(x, k + 1))
  {
    var w, w', e := Collected(left, right, k), Collected(left, right, k + 1), Entries(x);
    CollectedGrows(left, right, k);
    InnerUpdate(k + 1, k, w, w', e);
    var g := n => w'(n) * e(n);
    assert Sum(k + 2, g) == Sum(k + 1, g) + g(k + 1);
    IntervalScalars(w(k), left(k), right(k), e(k), e(k + 1), w'(k));
  }

  lemma PieceTerm(h: real, g: int -> PieceAdjoint, v: seq<real>, i: int)
    requires h > 0.0 && |v| >= 4 && 0 <= i < |v| - 1
    ensures PieceTerms(h, g, v)(i)
         == EndTerms(LeftValues(h, g), RightValues(h, g), v)(i)
            + EndTerms(LeftSlopes(h, g), RightSlopes(h, g), Slopes(h, v))(i)
  {
    var d := Slopes(h, v);
    EndTerm(LeftValues(h, g), RightValues(h, g), v, i);
    EndTerm(LeftSlopes(h, g), RightSlopes(h, g), d, i);
    PieceTransposed(h, g(i), v[i], d[i], v[i + 1], d[i + 1]);
  }

  /** <g, coefficients(v)> split into its dependence on the values and on the slopes. */
  lemma PairingSplit(h: real, g: int -> PieceAdjoint, v: seq<real>)
    requires h > 0.0 && |v| >= 4
    ensures SplinePairing(h, g, v)
         == Inner(|v|, DirectAdjoint(h, g, |v|), Entries(v))
            + Inner(|v|, SlopeAdjoint(h, g, |v|), Entries(Slopes(h, v)))
  {
    var N, d := |v|, Slopes(h, v);
    var lv, rv, ls, rs := LeftValues(h, g), RightValues(h, g), LeftSlopes(h, g), RightSlopes(h, g);
    var onValues, onSlopes, onPieces := EndTerms(lv, rv, v), EndTerms(ls, rs, d), PieceTerms(h, g, v);
    forall i | 0 <= i < N - 1
      ensures onPieces(i) == onValues(i) + onSlopes(i)
    {
      PieceTerm(h, g, v, i);
    }
    SumAdded(N - 1, onValues, onSlopes, onPieces);
    IntervalsToNodes(lv, rv, v, N - 1);
    IntervalsToNodes(ls, rs, d, N - 1);
  }

  /** The exact adjoint: <g, coefficients(v)> = <transpose(g), v> for all g, all v and every grid. */
  lemma TransposeIsAdjoint(h: real, g: int -> PieceAdjoint, v: seq<real>)
    requires h > 0.0 && |v| >= 4
    ensures SplinePairing(h, g, v) == Inner(|v|, NodalAdjoint(h, g, |v|), Entries(v))
  {
    var N, x := |v|, Entries(v);
    var a, w := SolverMatrix(h, N), SlopeAdjoint(h, g, N);
    PairingSplit(h, g, v);
    forall o | 0 <= o < N
      ensures Entries(Slopes(h, v))(o) == Applied(N, a, x)(o)
    {
      SlopesByMatrix(h, v, o);
    }
    InnerCong(N, w, Entries(Slopes(h, v)), w, Applied(N, a, x));
    MatrixTranspose(N, N, a, w, x);
    var direct, pulled, total := DirectAdjoint(h, g, N), Pulled(N, a, w), NodalAdjoint(h, g, N);
    InnerAdded(N, direct, pulled, total, x);
  }

  /** The inner product is additive in its first factor. */
  lemma InnerAdded(n: nat, f: int -> real, g: int -> real, s: int -> real, x: int -> real)
    requires forall i :: 0 <= i < n ==> s(i) == f(i) + g(i)
    ensures Inner(n, s, x) == Inner(n, f, x) + Inner(n, g, x)
  {
    var fx, gx, sx := i => f(i) * x(i), i => g(i) * x(i), i => s(i) * x(i);
    forall i | 0 <= i < n ensures sx(i) == fx(i) + gx(i) {
      Distributed(f(i), g(i), s(i), x(i));
    }
    SumAdded(n, fx, gx, sx);
  }

  lemma Distributed(f: real, g: real, s: real, x: real)
    requires s == f + g
    ensures s * x == f * x + g * x
  {
  }
}
