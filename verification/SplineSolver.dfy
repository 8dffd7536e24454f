/** The nodal slopes of the radial splines (libsymmetrix/source/compact_radial.cpp:326-366): what they must satisfy,
    why they exist and are unique, and the consequences that need nothing but uniqueness. */
module SplineSolver {
  import opened RealArithmetic
  import opened FiniteSums
  import opened CubicSplines

  // ---------------------------------------------------------------- what is solved

  /** 3 * (v[k+1] - v[k-1]) / h, the right-hand side at an interior node. */
  function CentralDifference(h: real, v: seq<real>, k: int): real
    requires h > 0.0 && 1 <= k < |v| - 1
  {
    3.0 * (v[k + 1] - v[k - 1]) / h
  }

  /** The slope difference across the first two intervals that the not-a-knot condition dictates. */
  function LeftNotAKnot(h: real, v: seq<real>): real
    requires h > 0.0 && |v| >= 3
  {
    2.0 * (-v[0] + 2.0 * v[1] - v[2]) / h
  }

  /** The tridiagonal equation at interior node k. */
  ghost predicate RowHolds(h: real, v: seq<real>, d: seq<real>, k: int)
    requires h > 0.0 && |d| == |v| && 1 <= k < |v| - 1
  {
    d[k - 1] + 4.0 * d[k] + d[k + 1] == CentralDifference(h, v, k)
  }

  /** The linear conditions on the slopes d of the values v. */
  ghost predicate SolvesSystem(h: real, v: seq<real>, d: seq<real>)
    requires h > 0.0 && |v| >= 4
  {
    && |d| == |v|
    && d[0] == d[2] + LeftNotAKnot(h, v)
    && (forall k :: 1 <= k < |v| - 1 ==> RowHolds(h, v, d, k))
    && d[|v| - 1] == 0.0
  }

  /** The solved system in the entries of the two tables, without a division. */
  lemma SystemMeans(h: real, v: seq<real>, d: seq<real>)
    requires h > 0.0 && |v| >= 4 && SolvesSystem(h, v, d)
    ensures |d| == |v| && d[|d| - 1] == 0.0
    ensures h * (d[0] - d[2]) == 2.0 * (-v[0] + 2.0 * v[1] - v[2])
    ensures forall k :: 1 <= k < |d| - 1 ==> h * (d[k - 1] + 4.0 * d[k] + d[k + 1]) == 3.0 * (v[k + 1] - v[k - 1])
  {
    DivisionUndone(2.0 * (-v[0] + 2.0 * v[1] - v[2]), h);
    forall k | 1 <= k < |d| - 1
      ensures h * (d[k - 1] + 4.0 * d[k] + d[k + 1]) == 3.0 * (v[k + 1] - v[k - 1])
    {
      assert RowHolds(h, v, d, k);
      DivisionUndone(3.0 * (v[k + 1] - v[k - 1]), h);
    }
  }

  /** The k-th Hermite piece for values v and slopes d. */
  function HermitePiece(h: real, v: seq<real>, d: seq<real>, k: int): Cubic
    requires h > 0.0 && |d| == |v| && 0 <= k < |v| - 1
  {
    Hermite(h, v[k], d[k], v[k + 1], d[k + 1])
  }

  ghost predicate CurvatureContinuousAt(h: real, v: seq<real>, d: seq<real>, k: int)
    requires h > 0.0 && |d| == |v| && 1 <= k < |v| - 1
  {
    HermitePiece(h, v, d, k - 1).Curvature(h) == HermitePiece(h, v, d, k).Curvature(0.0)
  }

  /** The same thing geometrically: the piecewise cubic has continuous curvature at every interior node, one and the
      same third derivative on the first two intervals, and zero slope at the last node. */
  ghost predicate IsSmooth(h: real, v: seq<real>, d: seq<real>)
    requires h > 0.0 && |v| >= 4
  {
    && |d| == |v|
    && (forall k :: 1 <= k < |v| - 1 ==> CurvatureContinuousAt(h, v, d, k))
    && HermitePiece(h, v, d, 0).c3 == HermitePiece(h, v, d, 1).c3
    && HermitePiece(h, v, d, |v| - 2).Slope(h) == 0.0
  }

  /** The Hermite coefficients with their denominators cleared. */
  lemma HermiteScaled(h: real, a: real, da: real, b: real, db: real)
    requires h > 0.0
    ensures var p := Hermite(h, a, da, b, db);
            && p.c2 * (h * h) == -3.0 * a - 2.0 * h * da + 3.0 * b - h * db
            && p.c3 * (h * h * h) == 2.0 * a + h * da - 2.0 * b + h * db
  {
    ProductPositive(h, h, h * h);
    ProductPositive(h * h, h, h * h * h);
    DivisionUndone(-3.0 * a - 2.0 * h * da + 3.0 * b - h * db, h * h);
    DivisionUndone(2.0 * a + h * da - 2.0 * b + h * db, h * h * h);
  }

  /** Curvature continuity at the middle of three nodes is the tridiagonal equation there. */
  lemma CurvatureRow(h: real, a: real, da: real, b: real, db: real, e: real, de: real)
    requires h > 0.0
    ensures Hermite(h, a, da, b, db).Curvature(h) == Hermite(h, b, db, e, de).Curvature(0.0)
       <==> da + 4.0 * db + de == 3.0 * (e - a) / h
  {
    var p, q := Hermite(h, a, da, b, db), Hermite(h, b, db, e, de);
    HermiteScaled(h, a, da, b, db);
    HermiteScaled(h, b, db, e, de);
    QuotientIs(3.0 * (e - a), h, 3.0 * (e - a) / h);
    CurvatureScalars(h, p.c2, p.c3, q.c2, a, da, b, db, e, de, 3.0 * (e - a) / h);
  }

  lemma CurvatureScalars(h: real, c2: real, c3: real, e2: real,
                         a: real, da: real, b: real, db: real, e: real, de: real, rhs: real)
    requires h > 0.0
    requires c2 * (h * h) == -3.0 * a - 2.0 * h * da + 3.0 * b - h * db
    requires c3 * (h * h * h) == 2.0 * a + h * da - 2.0 * b + h * db
    requires e2 * (h * h) == -3.0 * b - 2.0 * h * db + 3.0 * e - h * de
    requires rhs * h == 3.0 * (e - a)
    ensures 2.0 * c2 + 6.0 * c3 * h == 2.0 * e2 + 6.0 * 0.0 <==> da + 4.0 * db + de == rhs
  {
    ProductPositive(h, h, h * h);
    var x := 2.0 * c2 + 6.0 * c3 * h - 2.0 * e2;
    var y := da + 4.0 * db + de - rhs;
    assert h * h * x == h * (2.0 * y) by {
      assert h * h * x == 2.0 * (c2 * (h * h)) + 6.0 * (c3 * (h * h * h)) - 2.0 * (e2 * (h * h));
    }
    if x == 0.0 {
      Cancel(h, 2.0 * y, 0.0);
    }
    if y == 0.0 {
      Cancel(h * h, x, 0.0);
    }
  }

  /** Equal third derivatives on two neighbouring intervals is the not-a-knot equation. */
  lemma NotAKnotRow(h: real, a: real, da: real, b: real, db: real, e: real, de: real)
    requires h > 0.0
    ensures Hermite(h, a, da, b, db).c3 == Hermite(h, b, db, e, de).c3
       <==> da == de + 2.0 * (-a + 2.0 * b - e) / h
  {
    HermiteScaled(h, a, da, b, db);
    HermiteScaled(h, b, db, e, de);
    QuotientIs(2.0 * (-a + 2.0 * b - e), h, 2.0 * (-a + 2.0 * b - e) / h);
    NotAKnotScalars(h, Hermite(h, a, da, b, db).c3, Hermite(h, b, db, e, de).c3,
                    a, da, b, db, e, de, 2.0 * (-a + 2.0 * b - e) / h);
  }

  lemma NotAKnotScalars(h: real, c3: real, e3: real,
                        a: real, da: real, b: real, db: real, e: real, de: real, jump: real)
    requires h > 0.0
    requires c3 * (h * h * h) == 2.0 * a + h * da - 2.0 * b + h * db
    requires e3 * (h * h * h) == 2.0 * b + h * db - 2.0 * e + h * de
    requires jump * h == 2.0 * (-a + 2.0 * b - e)
    ensures c3 == e3 <==> da == de + jump
  {
    ProductPositive(h, h, h * h);
    ProductPositive(h * h, h, h * h * h);
    var y := da - de - jump;
    assert h * h * h * (c3 - e3) == h * y;
    if c3 == e3 {
      Cancel(h, y, 0.0);
    }
    if y == 0.0 {
      Cancel(h * h * h, c3 - e3, 0.0);
    }
  }

  /** The solver's linear system says exactly that the piecewise cubic is smooth in the sense above. */
  lemma SystemIsSmoothness(h: real, v: seq<real>, d: seq<real>)
    requires h > 0.0 && |v| >= 4 && |d| == |v|
    ensures SolvesSystem(h, v, d) <==> IsSmooth(h, v, d)
  {
    forall k | 1 <= k < |v| - 1
      ensures CurvatureContinuousAt(h, v, d, k) <==> RowHolds(h, v, d, k)
    {
      CurvatureRow(h, v[k - 1], d[k - 1], v[k], d[k], v[k + 1], d[k + 1]);
    }
    assert HermitePiece(h, v, d, 0).c3 == HermitePiece(h, v, d, 1).c3 <==> d[0] == d[2] + LeftNotAKnot(h, v) by {
      NotAKnotRow(h, v[0], d[0], v[1], d[1], v[2], d[2]);
    }
    assert HermitePiece(h, v, d, |v| - 2).Slope(h) == d[|v| - 1] by {
      HermiteJoins(h, v[|v| - 2], d[|v| - 2], v[|v| - 1], d[|v| - 1]);
    }
  }

  // ---------------------------------------------------------------- uniqueness

  function Abs(x: real): real { if x < 0.0 then -x else x }

  /** Solutions of the homogeneous rows at least double in size from node to node. */
  lemma {:induction false} Doubling(e: seq<real>, k: int)
    requires 1 <= k < |e| - 1
    requires e[0] == e[2]
    requires forall i {:trigger e[i]} :: 1 <= i < |e| - 1 ==> e[i - 1] + 4.0 * e[i] + e[i + 1] == 0.0
    ensures 2.0 * Abs(e[k]) <= Abs(e[k + 1])
  {
    if k > 1 {
      Doubling(e, k - 1);
    }
    assert e[k - 1] + 4.0 * e[k] + e[k + 1] == 0.0;
  }

  lemma {:induction false} VanishesDownward(e: seq<real>, k: int)
    requires |e| >= 3 && 1 <= k < |e|
    requires e[0] == e[2]
    requires forall i {:trigger e[i]} :: 1 <= i < |e| - 1 ==> e[i - 1] + 4.0 * e[i] + e[i + 1] == 0.0
    requires e[|e| - 1] == 0.0
    ensures e[k] == 0.0
    decreases |e| - k
  {
    if k == |e| - 1 {
    } else {
      VanishesDownward(e, k + 1);
      Doubling(e, k);
    }
  }

  /** At most one slope vector solves the system. */
  lemma SolutionIsUnique(h: real, v: seq<real>, d: seq<real>, f: seq<real>)
    requires h > 0.0 && |v| >= 4
    requires SolvesSystem(h, v, d) && SolvesSystem(h, v, f)
    ensures d == f
  {
    var n := |v|;
    var e := seq(n, i requires 0 <= i < n => d[i] - f[i]);
    forall i | 1 <= i < n - 1
      ensures e[i - 1] + 4.0 * e[i] + e[i + 1] == 0.0
    {
      assert RowHolds(h, v, d, i) && RowHolds(h, v, f, i);
    }
    forall i | 1 <= i < n
      ensures d[i] == f[i]
    {
      VanishesDownward(e, i);
    }
    assert d[2] == f[2];
  }

  // ---------------------------------------------------------------- existence: forward elimination

  /** Coefficient above the diagonal in row `row` of the m-by-m system for the interior nodes. */
  function Upper(m: nat, row: nat): real {
    if row == 0 then 2.0 else if row < m - 1 then 1.0 else 0.0
  }

  /** Right-hand side of row `row`, which stands for node row + 1. */
  function RightHandSide(h: real, v: seq<real>, row: nat): real
    requires h > 0.0 && |v| >= 4 && row < |v| - 2
  {
    if row == 0 then CentralDifference(h, v, 1) - LeftNotAKnot(h, v) else CentralDifference(h, v, row + 1)
  }

  /** Pivots p and reduced right-hand sides r after eliminating up to row k: the pivot never drops below 3, so no step
      divides by zero. */
  ghost predicate Eliminated(m: nat, b: seq<real>, p: seq<real>, r: seq<real>, k: nat)
    requires |b| == |p| == |r| == m && k < m
  {
    && p[k] >= 3.0
    && (k == 0 ==> p[0] == 4.0 && r[0] == b[0])
    && (k > 0 && p[k - 1] >= 3.0 ==>
          p[k] == 4.0 - 1.0 / p[k - 1] * Upper(m, k - 1) && r[k] == b[k] - 1.0 / p[k - 1] * r[k - 1])
  }

  /** Row k of the eliminated, upper bidiagonal system; s carries a closing zero. */
  ghost predicate Substituted(m: nat, p: seq<real>, r: seq<real>, s: seq<real>, k: nat)
    requires |p| == |r| == m && |s| == m + 1 && k < m
  {
    p[k] * s[k] + Upper(m, k) * s[k + 1] == r[k]
  }

  lemma UnitFraction(q: real, p: real, u: real)
    requires q * p == 1.0 && p >= 3.0 && 0.0 <= u <= 2.0
    ensures 0.0 <= q * u <= 1.0
  {
    assert q * (p - 3.0) == 1.0 - 3.0 * q;
    assert q > 0.0;
    assert q * (p - 3.0) >= 0.0;
    assert q * (2.0 - u) >= 0.0;
  }

  /** The next pivot is again at least 3. */
  lemma NextPivot(p: real, u: real)
    requires p >= 3.0 && 0.0 <= u <= 2.0
    ensures 3.0 <= 4.0 - 1.0 / p * u <= 4.0
  {
    DivisionUndone(1.0, p);
    UnitFraction(1.0 / p, p, u);
  }

  lemma UndoElimination(q: real, p: real, u: real, r: real, rPrev: real, pNext: real, uNext: real, rNext: real,
                        sPrev: real, s: real, sNext: real)
    requires q * p == 1.0 && pNext == 4.0 - q * u && rNext == r - q * rPrev
    requires p * sPrev + u * s == rPrev
    requires pNext * s + uNext * sNext == rNext
    ensures sPrev + 4.0 * s + uNext * sNext == r
  {
    assert q * rPrev == q * p * sPrev + q * u * s;
    assert pNext * s == 4.0 * s - q * u * s;
  }

  /** A row of the original system, recovered from two rows of the eliminated one. */
  lemma RowRecovered(m: nat, b: seq<real>, p: seq<real>, r: seq<real>, s: seq<real>, k: nat)
    requires |b| == |p| == |r| == m && |s| == m + 1 && 1 <= k < m
    requires Eliminated(m, b, p, r, k - 1) && Eliminated(m, b, p, r, k)
    requires Substituted(m, p, r, s, k - 1) && Substituted(m, p, r, s, k)
    ensures s[k - 1] + 4.0 * s[k] + Upper(m, k) * s[k + 1] == b[k]
  {
    var q := 1.0 / p[k - 1];
    DivisionUndone(1.0, p[k - 1]);
    UndoElimination(q, p[k - 1], Upper(m, k - 1), b[k], r[k - 1], p[k], Upper(m, k), r[k], s[k - 1], s[k], s[k + 1]);
  }

  /** Node slopes assembled from the interior solution s, as compact_radial.cpp:360-364 does. */
  function Assembled(h: real, v: seq<real>, s: seq<real>): (d: seq<real>)
    requires h > 0.0 && |v| >= 4 && |s| == |v| - 1
    ensures |d| == |v|
  {
    [s[1] + LeftNotAKnot(h, v)] + s[..|v| - 2] + [0.0]
  }

  /** Elimination followed by back substitution solves the slope system. */
  lemma AssembledSolves(h: real, v: seq<real>, m: nat, b: seq<real>, p: seq<real>, r: seq<real>, s: seq<real>)
    requires h > 0.0 && |v| >= 4 && |b| == |p| == |r| == m == |v| - 2 && |s| == m + 1 && s[m] == 0.0
    requires forall k :: 0 <= k < m ==> b[k] == RightHandSide(h, v, k)
    requires forall k :: 0 <= k < m ==> Eliminated(m, b, p, r, k) && Substituted(m, p, r, s, k)
    ensures SolvesSystem(h, v, Assembled(h, v, s))
  {
    var d := Assembled(h, v, s);
    assert forall i :: 1 <= i <= m ==> d[i] == s[i - 1];
    assert Eliminated(m, b, p, r, 0) && Substituted(m, p, r, s, 0);
    assert RowHolds(h, v, d, 1);
    forall k | 2 <= k < |v| - 1
      ensures RowHolds(h, v, d, k)
    {
      RowRecovered(m, b, p, r, s, k - 1);
    }
  }

  /** One elimination step keeps the rows already eliminated and eliminates one more. */
  lemma EliminationStep(m: nat, b: seq<real>, p: seq<real>, r: seq<real>, n: nat)
    returns (p': seq<real>, r': seq<real>)
    requires m == |b| == |p| == |r| && 1 <= n < m
    requires forall k :: 0 <= k < n ==> Eliminated(m, b, p, r, k)
    ensures p[n - 1] >= 3.0
    ensures p' == p[n := 4.0 - 1.0 / p[n - 1] * Upper(m, n - 1)]
    ensures r' == r[n := b[n] - 1.0 / p[n - 1] * r[n - 1]]
    ensures forall k :: 0 <= k < n + 1 ==> Eliminated(m, b, p', r', k)
  {
    assert Eliminated(m, b, p, r, n - 1);
    NextPivot(p[n - 1], Upper(m, n - 1));
    p', r' := p[n := 4.0 - 1.0 / p[n - 1] * Upper(m, n - 1)], r[n := b[n] - 1.0 / p[n - 1] * r[n - 1]];
    forall k | 0 <= k < n + 1 ensures Eliminated(m, b, p', r', k) {
      if k < n {
        assert Eliminated(m, b, p, r, k);
      }
    }
  }

  lemma {:induction false} EliminationExists(m: nat, b: seq<real>, n: nat) returns (p: seq<real>, r: seq<real>)
    requires m == |b| && 1 <= n <= m
    ensures |p| == |r| == m
    ensures forall k :: 0 <= k < n ==> Eliminated(m, b, p, r, k)
  {
    if n == 1 {
      p, r := seq(m, _ => 4.0), b;
    } else {
      p, r := EliminationExists(m, b, n - 1);
      p, r := EliminationStep(m, b, p, r, n - 1);
    }
  }

  lemma {:induction false} SubstitutionExists(m: nat, p: seq<real>, r: seq<real>, n: nat) returns (s: seq<real>)
    requires |p| == |r| == m && n <= m
    requires forall k :: 0 <= k < m ==> p[k] >= 3.0
    ensures |s| == m + 1 && s[m] == 0.0
    ensures forall k :: n <= k < m ==> Substituted(m, p, r, s, k)
    decreases m - n
  {
    if n == m {
      s := seq(m + 1, _ => 0.0);
    } else {
      s := SubstitutionExists(m, p, r, n + 1);
      s := SubstitutionStep(m, p, r, s, n);
    }
  }

  /** One substitution step keeps the rows already solved and solves one more. */
  lemma SubstitutionStep(m: nat, p: seq<real>, r: seq<real>, s: seq<real>, n: nat) returns (s': seq<real>)
    requires |p| == |r| == m && |s| == m + 1 && n < m && p[n] != 0.0
    requires forall k :: n < k < m ==> Substituted(m, p, r, s, k)
    ensures s' == s[n := (r[n] - Upper(m, n) * s[n + 1]) / p[n]]
    ensures forall k :: n <= k < m ==> Substituted(m, p, r, s', k)
  {
    var top := r[n] - Upper(m, n) * s[n + 1];
    s' := s[n := top / p[n]];
    DivisionUndone(top, p[n]);
    forall k | n < k < m ensures Substituted(m, p, r, s', k) {
      assert Substituted(m, p, r, s, k);
    }
  }

  lemma SlopesExist(h: real, v: seq<real>)
    requires h > 0.0 && |v| >= 4
    ensures exists d :: SolvesSystem(h, v, d)
  {
    var m := |v| - 2;
    var b := seq(m, k requires 0 <= k < m => RightHandSide(h, v, k));
    var p, r := EliminationExists(m, b, m);
    forall k | 0 <= k < m ensures p[k] >= 3.0 {
      assert Eliminated(m, b, p, r, k);
    }
    var s := SubstitutionExists(m, p, r, 0);
    AssembledSolves(h, v, m, b, p, r, s);
  }

  /** The slopes of v: the one and only solution of the system. */
  ghost function Slopes(h: real, v: seq<real>): (d: seq<real>)
    requires h > 0.0 && |v| >= 4
    ensures SolvesSystem(h, v, d)
  {
    SlopesExist(h, v);
    var d :| SolvesSystem(h, v, d);
    d
  }

  /** For every table of values there is exactly one slope vector that makes the spline smooth. */
  lemma SlopesCharacterised(h: real, v: seq<real>, d: seq<real>)
    requires h > 0.0 && |v| >= 4
    ensures d == Slopes(h, v) <==> IsSmooth(h, v, d)
  {
    SystemIsSmoothness(h, v, Slopes(h, v));
    if IsSmooth(h, v, d) {
      SystemIsSmoothness(h, v, d);
      SolutionIsUnique(h, v, d, Slopes(h, v));
    }
  }

  // ---------------------------------------------------------------- linearity, from uniqueness alone

  lemma QuotientLinear(a: real, p: real, b: real, q: real, h: real)
    requires h > 0.0
    ensures (a * p + b * q) / h == a * (p / h) + b * (q / h)
  {
    var x, y := p / h, q / h;
    DivisionUndone(p, h);
    DivisionUndone(q, h);
    assert (a * x + b * y) * h == a * (x * h) + b * (y * h);
    QuotientIs(a * p + b * q, h, a * x + b * y);
  }

  /** u is the combination a*v + b*w, entry by entry. */
  ghost predicate IsCombination(u: seq<real>, a: real, v: seq<real>, b: real, w: seq<real>) {
    |u| == |v| == |w| && forall i :: 0 <= i < |u| ==> u[i] == Mix(a, v[i], b, w[i])
  }

  function Mix(a: real, x: real, b: real, y: real): real {
    a * x + b * y
  }

  lemma CentralDifferenceLinear(h: real, u: seq<real>, a: real, v: seq<real>, b: real, w: seq<real>, k: int)
    requires h > 0.0 && IsCombination(u, a, v, b, w) && 1 <= k < |u| - 1
    ensures CentralDifference(h, u, k) == a * CentralDifference(h, v, k) + b * CentralDifference(h, w, k)
  {
    QuotientLinear(a, 3.0 * (v[k + 1] - v[k - 1]), b, 3.0 * (w[k + 1] - w[k - 1]), h);
  }

  lemma LeftNotAKnotLinear(h: real, u: seq<real>, a: real, v: seq<real>, b: real, w: seq<real>)
    requires h > 0.0 && IsCombination(u, a, v, b, w) && |u| >= 3
    ensures LeftNotAKnot(h, u) == a * LeftNotAKnot(h, v) + b * LeftNotAKnot(h, w)
  {
    QuotientLinear(a, 2.0 * (-v[0] + 2.0 * v[1] - v[2]), b, 2.0 * (-w[0] + 2.0 * w[1] - w[2]), h);
  }

  /** The equation of node k carries over to combinations. */
  lemma RowCombines(h: real, u: seq<real>, a: real, v: seq<real>, b: real, w: seq<real>,
                    d: seq<real>, dv: seq<real>, dw: seq<real>, k: int)
    requires h > 0.0 && IsCombination(u, a, v, b, w) && IsCombination(d, a, dv, b, dw) && |d| == |u|
    requires 1 <= k < |u| - 1 && RowHolds(h, v, dv, k) && RowHolds(h, w, dw, k)
    ensures RowHolds(h, u, d, k)
  {
    CentralDifferenceLinear(h, u, a, v, b, w, k);
  }

  /** The solver is linear: the slopes of a combination are the combination of the slopes. */
  lemma SlopesLinear(h: real, u: seq<real>, a: real, v: seq<real>, b: real, w: seq<real>)
    requires h > 0.0 && |u| >= 4 && IsCombination(u, a, v, b, w)
    ensures IsCombination(Slopes(h, u), a, Slopes(h, v), b, Slopes(h, w))
  {
    var dv, dw := Slopes(h, v), Slopes(h, w);
    var d := seq(|u|, i requires 0 <= i < |u| => Mix(a, dv[i], b, dw[i]));
    LeftNotAKnotLinear(h, u, a, v, b, w);
    forall k | 1 <= k < |u| - 1 ensures RowHolds(h, u, d, k) {
      assert RowHolds(h, v, dv, k) && RowHolds(h, w, dw, k);
      RowCombines(h, u, a, v, b, w, d, dv, dw, k);
    }
    SolutionIsUnique(h, u, d, Slopes(h, u));
  }

  function Unit(n: nat, i: int): seq<real> {
    seq(n, k => if k == i then 1.0 else 0.0)
  }

  /** The matrix of the solver: entry (o, i) is what node i contributes to the slope at node o. */
  ghost function SolverMatrix(h: real, n: nat): (int, int) -> real
    requires h > 0.0 && n >= 4
  {
    (o, i) => At(Slopes(h, Unit(n, i)), o)
  }

  function Prefix(v: seq<real>, k: int): seq<real> {
    seq(|v|, i requires 0 <= i < |v| => if i < k then v[i] else 0.0)
  }

  lemma {:induction false} PrefixSlopes(h: real, v: seq<real>, o: nat, k: nat)
    requires h > 0.0 && |v| >= 4 && o < |v| && k <= |v|
    ensures var a, x := SolverMatrix(h, |v|), Entries(v);
            Slopes(h, Prefix(v, k))[o] == Sum(k, i => a(o, i) * x(i))
  {
    if k == 0 {
      SlopesLinear(h, Prefix(v, 0), 0.0, v, 0.0, v);
    } else {
      PrefixSlopes(h, v, o, k - 1);
      OneMoreEntry(h, v, o, k - 1);
    }
  }

  /** Entry k of the table adds its multiple of the unit table's slopes. */
  lemma OneMoreEntry(h: real, v: seq<real>, o: nat, k: nat)
    requires h > 0.0 && |v| >= 4 && o < |v| && k < |v|
    ensures Slopes(h, Prefix(v, k + 1))[o] == Slopes(h, Prefix(v, k))[o] + SolverMatrix(h, |v|)(o, k) * Entries(v)(k)
  {
    var u, p, e := Prefix(v, k + 1), Prefix(v, k), Unit(|v|, k);
    forall i | 0 <= i < |v| ensures u[i] == Mix(1.0, p[i], v[k], e[i]) {
    }
    SlopesLinear(h, u, 1.0, p, v[k], e);
  }

  /** Applying the solver is applying the matrix built column by column from unit tables. */
  lemma SlopesByMatrix(h: real, v: seq<real>, o: nat)
    requires h > 0.0 && |v| >= 4 && o < |v|
    ensures Slopes(h, v)[o] == Applied(|v|, SolverMatrix(h, |v|), Entries(v))(o)
  {
    PrefixSlopes(h, v, o, |v|);
    assert Prefix(v, |v|) == v;
  }

  // ---------------------------------------------------------------- exactness on cubics

  /** The cubic t -> q(x + t). */
  function Shifted(q: Cubic, x: real): Cubic {
    Cubic(q.Value(x), q.Slope(x), q.c2 + 3.0 * q.c3 * x, q.c3)
  }

  lemma Taylor(q: Cubic, x: real, t: real)
    ensures Shifted(q, x).Value(t) == q.Value(x + t)
    ensures Shifted(q, x).Slope(t) == q.Slope(x + t)
  {
    var y := x + t;
    assert y * y == x * x + 2.0 * (x * t) + t * t;
    assert y * y * y == x * x * x + 3.0 * (x * x * t) + 3.0 * (x * (t * t)) + t * t * t;
    assert q.c3 * (y * y * y)
        == q.c3 * (x * x * x) + 3.0 * (q.c3 * (x * x)) * t + 3.0 * q.c3 * x * (t * t) + q.c3 * (t * t * t);
    assert q.c2 * (y * y) == q.c2 * (x * x) + 2.0 * q.c2 * x * t + q.c2 * (t * t);
    assert 3.0 * q.c3 * (y * y) == 3.0 * q.c3 * (x * x) + 2.0 * (3.0 * q.c3 * x) * t + 3.0 * q.c3 * (t * t);
  }

  function SampledValues(q: Cubic, x0: real, h: real, n: nat): seq<real> {
    seq(n, k requires 0 <= k < n => q.Value(GridPoint(x0, h, k)))
  }

  function SampledSlopes(q: Cubic, x0: real, h: real, n: nat): seq<real> {
    seq(n, k requires 0 <= k < n => q.Slope(GridPoint(x0, h, k)))
  }

  /** Values and slopes of a cubic at -h, 0 and h meet the interior equation and the not-a-knot equation. */
  lemma CubicRows(h: real, c0: real, c1: real, c2: real, c3: real,
                  vm: real, v0: real, vp: real, dm: real, d0: real, dp: real)
    requires h > 0.0
    requires vm == c0 - c1 * h + c2 * (h * h) - c3 * (h * h * h) && v0 == c0
    requires vp == c0 + c1 * h + c2 * (h * h) + c3 * (h * h * h)
    requires dm == c1 - 2.0 * c2 * h + 3.0 * c3 * (h * h) && d0 == c1
    requires dp == c1 + 2.0 * c2 * h + 3.0 * c3 * (h * h)
    ensures dm + 4.0 * d0 + dp == 3.0 * (vp - vm) / h
    ensures dm == dp + 2.0 * (-vm + 2.0 * v0 - vp) / h
  {
    var x := 6.0 * c1 + 6.0 * c3 * (h * h);
    assert x * h == 3.0 * (vp - vm);
    QuotientIs(3.0 * (vp - vm), h, x);
    var y := -4.0 * c2 * h;
    assert y * h == 2.0 * (-vm + 2.0 * v0 - vp);
    QuotientIs(2.0 * (-vm + 2.0 * v0 - vp), h, y);
  }

  /** The sample at distance t from x, as a value of the shifted cubic. */
  lemma SampleShifted(q: Cubic, x: real, x0: real, h: real, n: nat, k: int, t: real)
    requires 0 <= k < n && GridPoint(x0, h, k) == x + t
    ensures SampledValues(q, x0, h, n)[k] == Shifted(q, x).Value(t)
    ensures SampledSlopes(q, x0, h, n)[k] == Shifted(q, x).Slope(t)
  {
    Taylor(q, x, t);
  }

  /** Both equations, for samples of a cubic at -h, 0 and h. */
  lemma CubicMeetsRows(a: Cubic, h: real, vm: real, v0: real, vp: real, dm: real, d0: real, dp: real)
    requires h > 0.0
    requires vm == a.Value(-h) && v0 == a.Value(0.0) && vp == a.Value(h)
    requires dm == a.Slope(-h) && d0 == a.Slope(0.0) && dp == a.Slope(h)
    ensures dm + 4.0 * d0 + dp == 3.0 * (vp - vm) / h
    ensures dm == dp + 2.0 * (-vm + 2.0 * v0 - vp) / h
  {
    assert (-h) * (-h) == h * h && (-h) * (-h) * (-h) == -(h * h * h);
    CubicRows(h, a.c0, a.c1, a.c2, a.c3, vm, v0, vp, dm, d0, dp);
  }

  lemma GridNeighbours(x0: real, h: real, k: int)
    ensures GridPoint(x0, h, k - 1) == GridPoint(x0, h, k) - h
    ensures GridPoint(x0, h, k + 1) == GridPoint(x0, h, k) + h
  {
  }

  lemma CubicSampleRows(q: Cubic, x0: real, h: real, n: nat, k: int)
    requires h > 0.0 && n >= 4 && 1 <= k < n - 1
    ensures var v, d := SampledValues(q, x0, h, n), SampledSlopes(q, x0, h, n);
            && d[k - 1] + 4.0 * d[k] + d[k + 1] == 3.0 * (v[k + 1] - v[k - 1]) / h
            && d[k - 1] == d[k + 1] + 2.0 * (-v[k - 1] + 2.0 * v[k] - v[k + 1]) / h
  {
    var v, d := SampledValues(q, x0, h, n), SampledSlopes(q, x0, h, n);
    var x := GridPoint(x0, h, k);
    GridNeighbours(x0, h, k);
    SampleShifted(q, x, x0, h, n, k - 1, -h);
    SampleShifted(q, x, x0, h, n, k, 0.0);
    SampleShifted(q, x, x0, h, n, k + 1, h);
    CubicMeetsRows(Shifted(q, x), h, v[k - 1], v[k], v[k + 1], d[k - 1], d[k], d[k + 1]);
  }

  /** The solver returns the exact slopes of every cubic that is flat at the last node. */
  lemma SlopesExactOnCubics(q: Cubic, x0: real, h: real, n: nat)
    requires h > 0.0 && n >= 4
    requires q.Slope(GridPoint(x0, h, n - 1)) == 0.0
    ensures Slopes(h, SampledValues(q, x0, h, n)) == SampledSlopes(q, x0, h, n)
  {
    var v, d := SampledValues(q, x0, h, n), SampledSlopes(q, x0, h, n);
    forall k | 1 <= k < n - 1 ensures RowHolds(h, v, d, k) {
      CubicSampleRows(q, x0, h, n, k);
    }
    CubicSampleRows(q, x0, h, n, 1);
    SolutionIsUnique(h, v, d, Slopes(h, v));
  }

  /** ... and of no other cubic: flatness at the last node is the exact condition. */
  lemma SlopesExactIffFlat(q: Cubic, x0: real, h: real, n: nat)
    requires h > 0.0 && n >= 4
    ensures Slopes(h, SampledValues(q, x0, h, n)) == SampledSlopes(q, x0, h, n)
       <==> q.Slope(GridPoint(x0, h, n - 1)) == 0.0
  {
    var v, d := SampledValues(q, x0, h, n), SampledSlopes(q, x0, h, n);
    assert d[n - 1] == q.Slope(GridPoint(x0, h, n - 1));
    assert Slopes(h, v)[|v| - 1] == 0.0;
    if q.Slope(GridPoint(x0, h, n - 1)) == 0.0 {
      SlopesExactOnCubics(q, x0, h, n);
    }
  }

  /** s holds the spline through values v with slopes d. */
  ghost predicate Interpolates(s: CubicSpline, v: seq<real>, d: seq<real>)
  {
    && s.Valid() && |v| == |d| == s.Intervals() + 1
    && forall i :: 0 <= i < s.Intervals() ==> Joins(Piece(s.c, i), s.h, v[i], d[i], v[i + 1], d[i + 1])
  }

  lemma PieceIsTaylor(s: CubicSpline, q: Cubic, i: nat)
    requires Interpolates(s, SampledValues(q, s.x0, s.h, s.Intervals() + 1),
                          SampledSlopes(q, s.x0, s.h, s.Intervals() + 1))
    requires i < s.Intervals()
    ensures Piece(s.c, i) == Shifted(q, s.Node(i))
  {
    var n := s.Intervals() + 1;
    var v, d := SampledValues(q, s.x0, s.h, n), SampledSlopes(q, s.x0, s.h, n);
    s.NodesStep(i);
    Taylor(q, s.Node(i), s.h);
    assert v[i] == q.Value(s.Node(i)) && d[i] == q.Slope(s.Node(i));
    assert v[i + 1] == q.Value(s.Node(i + 1)) && d[i + 1] == q.Slope(s.Node(i + 1));
    JoinsIsUnique(Piece(s.c, i), Shifted(q, s.Node(i)), s.h, v[i], d[i], v[i + 1], d[i + 1]);
  }

  /** Building a spline from a flat-ended cubic and reading it anywhere on the grid, both ends and every interior node
      included, gives back the cubic and its derivative. */
  lemma SplineReproducesCubic(s: CubicSpline, q: Cubic, r: real, y: (real, real))
    requires s.Valid() && s.Intervals() >= 3
    requires q.Slope(s.Node(s.Intervals())) == 0.0
    requires var v := SampledValues(q, s.x0, s.h, s.Intervals() + 1); Interpolates(s, v, Slopes(s.h, v))
    requires s.ReadsAt(r, y) && s.x0 <= r <= s.Node(s.Intervals())
    ensures y == (q.Value(r), q.Slope(r))
  {
    SlopesExactOnCubics(q, s.x0, s.h, s.Intervals() + 1);
    var i := s.IntervalHolding(r, s.Intervals());
    PieceIsTaylor(s, q, i);
    Taylor(q, s.Node(i), r - s.Node(i));
    assert s.Node(i) + (r - s.Node(i)) == r;
    assert y == s.Sample(i, r - s.Node(i));
  }
}
