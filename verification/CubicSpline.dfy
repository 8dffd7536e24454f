/** Piecewise cubic Hermite splines on a uniform grid (libsymmetrix/source/cubic_spline.cpp). */
module CubicSplines {
  import opened Results
  import opened RealArithmetic

  /** One piece c0 + c1*x + c2*x^2 + c3*x^3, x measured from the piece's left node. */
  datatype Cubic = Cubic(c0: real, c1: real, c2: real, c3: real) {
    function Value(x: real): real {
      c0 + c1 * x + c2 * (x * x) + c3 * (x * x * x)
    }

    function Slope(x: real): real {
      c1 + 2.0 * c2 * x + 3.0 * c3 * (x * x)
    }

    function Curvature(x: real): real {
      2.0 * c2 + 6.0 * c3 * x
    }
  }

  datatype SplineError = InvalidSpacing | InvalidSizes | OutOfBounds

  /** p has value a and slope da at the left end, value b and slope db at distance h. */
  predicate Joins(p: Cubic, h: real, a: real, da: real, b: real, db: real) {
    p.Value(0.0) == a && p.Slope(0.0) == da && p.Value(h) == b && p.Slope(h) == db
  }

  /** The coefficient formulas of cubic_spline.cpp:107-110. */
  function Hermite(h: real, a: real, da: real, b: real, db: real): Cubic
    requires h > 0.0
  {
    Cubic(a, da,
          (-3.0 * a - 2.0 * h * da + 3.0 * b - h * db) / (h * h),
          (2.0 * a + h * da - 2.0 * b + h * db) / (h * h * h))
  }

  lemma HermiteJoins(h: real, a: real, da: real, b: real, db: real)
    requires h > 0.0
    ensures Joins(Hermite(h, a, da, b, db), h, a, da, b, db)
  {
    var p := Hermite(h, a, da, b, db);
    var n2 := -3.0 * a - 2.0 * h * da + 3.0 * b - h * db;
    var n3 := 2.0 * a + h * da - 2.0 * b + h * db;
    ProductPositive(h, h, h * h);
    ProductPositive(h * h, h, h * h * h);
    DivisionUndone(n2, h * h);
    DivisionUndone(n3, h * h * h);
    assert p.c2 * (h * h) == n2;
    assert p.c3 * (h * h * h) == n3;
    assert p.Value(h) == b;
    calc {
      h * p.Slope(h);
      h * p.c1 + 2.0 * (p.c2 * (h * h)) + 3.0 * (p.c3 * (h * h * h));
      h * da + 2.0 * n2 + 3.0 * n3;
      h * db;
    }
    Cancel(h, p.Slope(h), db);
  }

  /** Endpoint data determine the cubic: there is no other way to fill the coefficient table. */
  lemma JoinsIsUnique(p: Cubic, q: Cubic, h: real, a: real, da: real, b: real, db: real)
    requires h > 0.0
    requires Joins(p, h, a, da, b, db) && Joins(q, h, a, da, b, db)
    ensures p == q
  {
    var e2, e3 := p.c2 - q.c2, p.c3 - q.c3;
    assert p.c0 == q.c0 && p.c1 == q.c1;
    assert e2 * (h * h) + e3 * (h * h * h) == 0.0 by {
      assert p.Value(h) - q.Value(h) == 0.0;
    }
    assert 2.0 * e2 * h + 3.0 * e3 * (h * h) == 0.0 by {
      assert p.Slope(h) - q.Slope(h) == 0.0;
    }
    TwoEquations(h, e2, e3);
  }

  lemma TwoEquations(h: real, e2: real, e3: real)
    requires h > 0.0
    requires e2 * (h * h) + e3 * (h * h * h) == 0.0
    requires 2.0 * e2 * h + 3.0 * e3 * (h * h) == 0.0
    ensures e2 == 0.0 && e3 == 0.0
  {
    var u := e3 * h;
    assert h * h * (e2 + u) == 0.0;
    ProductPositive(h, h, h * h);
    Cancel(h * h, e2 + u, 0.0);
    assert h * (2.0 * e2 + 3.0 * u) == 0.0;
    Cancel(h, 2.0 * e2 + 3.0 * u, 0.0);
    assert u == 0.0;
    Cancel(h, e3, 0.0);
  }

  /** The i-th piece stored in a flat coefficient table of four entries per interval. */
  function Piece(c: seq<real>, i: nat): Cubic
    requires 4 * i + 3 < |c|
  {
    Cubic(c[4 * i], c[4 * i + 1], c[4 * i + 2], c[4 * i + 3])
  }

  /** Position of node i of the uniform grid. */
  function GridPoint(x0: real, h: real, i: int): real {
    x0 + h * i as real
  }

  datatype CubicSpline = CubicSpline(h: real, x0: real, c: seq<real>) {
    function Intervals(): nat { |c| / 4 }

    function Node(i: int): real { GridPoint(x0, h, i) }

    /** A spline as the constructor leaves it: whole pieces, meeting with equal value and slope. */
    ghost predicate Valid() {
      && h > 0.0
      && |c| > 0 && |c| % 4 == 0
      && forall i :: 0 <= i < Intervals() - 1 ==>
           && Piece(c, i).Value(h) == Piece(c, i + 1).Value(0.0)
           && Piece(c, i).Slope(h) == Piece(c, i + 1).Slope(0.0)
    }

    /** Value and slope of piece i at offset x from its left node. */
    function Sample(i: nat, x: real): (real, real)
      requires i < |c| / 4
    {
      (Piece(c, i).Value(x), Piece(c, i).Slope(x))
    }

    /** v is the value and slope at r of every piece whose closed interval holds r. */
    ghost predicate AgreesAt(r: real, v: (real, real))
      requires Valid()
    {
      forall i :: 0 <= i < Intervals() && Node(i) <= r <= Node(i + 1) ==> v == Sample(i, r - Node(i))
    }

    /** The clamped reading at r: inside the grid every piece holding r agrees with v, and outside it v is the reading
        at the nearest end node. */
    ghost predicate ReadsAt(r: real, v: (real, real))
      requires Valid()
    {
      && AgreesAt(r, v)
      && (r <= x0 ==> v == Sample(0, 0.0))
      && (r >= Node(Intervals()) ==> v == Sample(Intervals() - 1, h))
    }

    /** Value and slope at r; a spline starting at 0 rejects an r outside the grid. */
    method EvaluateDeriv(r: real) returns (result: Result<(real, real), SplineError>)
      requires Valid()
      ensures result.Err? <==> x0 == 0.0 && !(0.0 <= r <= h * (|c| / 4) as real)
      ensures result.Ok? ==> ReadsAt(r, result.value)
    {
      var numIntervals := |c| / 4;
      var upperBound := x0 + h * numIntervals as real;
      if x0 == 0.0 && (r < x0 || r > upperBound) {
        return Err(OutOfBounds);
      }
      var i, x := Locate(r);
      result := Ok((Piece(c, i).Value(x), Piece(c, i).Slope(x)));
      LocatedReads(r, i, x);
    }

    /** A reading in the entries of the table: the cubic of any interval that holds r, at r's distance from its left
        node; outside the grid, the cubic of the nearest interval at the nearest end. */
    lemma ReadingIs(r: real, v: (real, real), i: nat, x: real)
      requires Valid() && ReadsAt(r, v) && i < |c| / 4
      requires || (x == r - (x0 + h * i as real) && 0.0 <= x <= h)
               || (r <= x0 && i == 0 && x == 0.0)
               || (r >= x0 + h * (|c| / 4) as real && i == |c| / 4 - 1 && x == h)
      ensures v.0 == c[4 * i] + c[4 * i + 1] * x + c[4 * i + 2] * (x * x) + c[4 * i + 3] * (x * x * x)
      ensures v.1 == c[4 * i + 1] + 2.0 * c[4 * i + 2] * x + 3.0 * c[4 * i + 3] * (x * x)
    {
      SampleRead(r, v, i, x);
    }

    lemma SampleRead(r: real, v: (real, real), i: nat, x: real)
      requires Valid() && ReadsAt(r, v) && i < |c| / 4
      requires || (x == r - (x0 + h * i as real) && 0.0 <= x <= h)
               || (r <= x0 && i == 0 && x == 0.0)
               || (r >= x0 + h * (|c| / 4) as real && i == |c| / 4 - 1 && x == h)
      ensures v == Sample(i, x)
    {
      if x == r - (x0 + h * i as real) && 0.0 <= x <= h {
        NodesStep(i);
        assert Node(i) == x0 + h * i as real && Node(i) <= r <= Node(i + 1);
      } else if r >= x0 + h * (|c| / 4) as real {
        assert Node(Intervals()) == x0 + h * (|c| / 4) as real;
      }
    }

    lemma LocatedReads(r: real, i: nat, x: real)
      requires Valid() && i < Intervals()
      requires r < x0 ==> i == 0 && x == 0.0
      requires r >= Node(Intervals()) ==> i == Intervals() - 1 && x == h
      requires x0 <= r < Node(Intervals()) ==> Node(i) <= r < Node(i + 1) && x == r - Node(i)
      ensures ReadsAt(r, Sample(i, x))
    {
      if r < x0 {
        Below(r);
      } else if r >= Node(Intervals()) {
        Above(r);
      } else {
        Inside(i, r);
      }
    }

    /** The interval holding r and the offset inside it, clamped to the grid. */
    method Locate(r: real) returns (i: nat, x: real)
      requires Valid()
      ensures i < Intervals()
      ensures r < x0 ==> i == 0 && x == 0.0
      ensures r >= Node(Intervals()) ==> i == Intervals() - 1 && x == h
      ensures x0 <= r < Node(Intervals()) ==> Node(i) <= r < Node(i + 1) && x == r - Node(i)
    {
      var numIntervals := |c| / 4;
      var k := ((r - x0) / h).Floor;
      Bracketed(r, k);
      if k < 0 {
        i, x := 0, 0.0;
      } else if k >= numIntervals {
        i, x := numIntervals - 1, h;
      } else {
        i, x := k, r - x0 - h * k as real;
      }
    }

    /** Which side of the grid, or which interval, the quotient's floor stands for. */
    lemma Bracketed(r: real, k: int)
      requires Valid() && k == ((r - x0) / h).Floor
      ensures k < 0 <==> r < x0
      ensures k >= Intervals() <==> r >= Node(Intervals())
      ensures Node(k) <= r < Node(k + 1)
      ensures r - x0 - h * k as real == r - Node(k)
    {
      FloorBracket(h, r - x0, k);
      if k < 0 {
        NodesIncrease(k + 1, 0);
      } else {
        NodesIncrease(0, k);
      }
      NodesIncrease(0, Intervals());
      if k < Intervals() {
        NodesIncrease(k + 1, Intervals());
      } else {
        NodesIncrease(Intervals(), k);
      }
    }

    lemma Below(r: real)
      requires Valid() && r < x0
      ensures AgreesAt(r, Sample(0, 0.0))
      ensures r < Node(Intervals())
    {
      forall k | 0 <= k <= Intervals() ensures r < Node(k) {
        NodesIncrease(0, k);
      }
    }

    lemma Above(r: real)
      requires Valid() && r >= Node(Intervals())
      ensures AgreesAt(r, Sample(Intervals() - 1, h))
      ensures r >= x0 && (r == x0 ==> false)
    {
      var n := Intervals();
      NodesStep(0);
      NodesIncrease(1, n);
      forall k | 0 <= k < n && Node(k) <= r <= Node(k + 1)
        ensures k == n - 1 && r - Node(k) == h
      {
        NodesIncrease(k + 1, n);
        NodesDistinct(k + 1, n);
        NodesStep(k);
      }
    }

    lemma Inside(i: nat, r: real)
      requires Valid() && i < Intervals() && Node(i) <= r < Node(i + 1)
      ensures AgreesAt(r, Sample(i, r - Node(i)))
      ensures r < Node(Intervals())
      ensures r >= x0 && (r == x0 ==> i == 0)
    {
      NodesIncrease(i + 1, Intervals());
      NodesIncrease(0, i);
      if r == x0 {
        NodesDistinct(0, i);
      }
      forall k | 0 <= k < Intervals() && Node(k) <= r <= Node(k + 1)
        ensures Sample(k, r - Node(k)) == Sample(i, r - Node(i))
      {
        if k < i {
          NodesIncrease(k + 1, i);
          NodesDistinct(i, k + 1);
          NodesStep(k);
        } else if k > i {
          NodesIncrease(i + 1, k);
        }
      }
    }

    /** Every point of the grid lies in some closed interval. */
    lemma {:induction false} IntervalHolding(r: real, n: nat) returns (i: nat)
      requires n > 0 && x0 <= r <= Node(n)
      ensures i < n && Node(i) <= r <= Node(i + 1)
    {
      if n == 1 || Node(n - 1) <= r {
        i := n - 1;
      } else {
        i := IntervalHolding(r, n - 1);
      }
    }

    lemma NodesStep(i: int)
      ensures Node(i + 1) == Node(i) + h
    {
    }

    lemma NodesIncrease(i: int, j: int)
      requires h > 0.0 && i <= j
      ensures Node(i) <= Node(j)
    {
      assert Node(j) - Node(i) == h * (j - i) as real;
    }

    lemma NodesDistinct(i: int, j: int)
      requires h > 0.0 && Node(i) == Node(j)
      ensures i == j
    {
      Cancel(h, i as real, j as real);
    }
  }

  lemma FloorBracket(h: real, y: real, i: int)
    requires h > 0.0 && i == (y / h).Floor
    ensures h * i as real <= y < h * (i + 1) as real
  {
    DivisionUndone(y, h);
    var q := y / h;
    assert i as real <= q < (i + 1) as real;
    assert q * h == y;
    assert (q - i as real) * h >= 0.0;
    assert ((i + 1) as real - q) * h > 0.0;
  }

  /** Fills the coefficient table: piece i is the cubic through the data of nodes i and i+1. */
  method GenerateCoefficients(h: real, nodalValues: seq<real>, nodalDerivs: seq<real>)
    returns (result: Result<seq<real>, SplineError>)
    ensures result.Err? <==> h <= 0.0 || |nodalValues| < 2 || |nodalValues| != |nodalDerivs|
    ensures result.Ok? ==>
              && |result.value| == 4 * (|nodalValues| - 1)
              && forall i :: 0 <= i < |nodalValues| - 1 ==>
                   Joins(Piece(result.value, i), h, nodalValues[i], nodalDerivs[i],
                         nodalValues[i + 1], nodalDerivs[i + 1])
  {
    if h <= 0.0 {
      return Err(InvalidSpacing);
    }
    if |nodalValues| < 2 || |nodalValues| != |nodalDerivs| {
      return Err(InvalidSizes);
    }
    var n := |nodalValues| - 1;
    var c := new real[4 * n](_ => 0.0);
    for i := 0 to n
      invariant forall k {:trigger Stored(c[..], k, h, nodalValues, nodalDerivs)} :: 0 <= k < i ==>
                  Stored(c[..], k, h, nodalValues, nodalDerivs)
    {
      StorePiece(c, i, h, nodalValues, nodalDerivs);
    }
    forall i | 0 <= i < n
      ensures Joins(Piece(c[..], i), h, nodalValues[i], nodalDerivs[i], nodalValues[i + 1], nodalDerivs[i + 1])
    {
      assert Stored(c[..], i, h, nodalValues, nodalDerivs);
      HermiteJoins(h, nodalValues[i], nodalDerivs[i], nodalValues[i + 1], nodalDerivs[i + 1]);
    }
    result := Ok(c[..]);
  }

  /** What joining the data means for the four entries of piece i. */
  lemma EntriesMeetData(c: seq<real>, i: nat, h: real, a: real, da: real, b: real, db: real)
    requires 4 * i + 3 < |c| && Joins(Piece(c, i), h, a, da, b, db)
    ensures c[4 * i] == a && c[4 * i + 1] == da
    ensures c[4 * i] + c[4 * i + 1] * h + c[4 * i + 2] * (h * h) + c[4 * i + 3] * (h * h * h) == b
    ensures c[4 * i + 1] + 2.0 * c[4 * i + 2] * h + 3.0 * c[4 * i + 3] * (h * h) == db
  {
  }

  /** The four coefficients of one piece. */
  method StorePiece(c: array<real>, i: nat, h: real, nodalValues: seq<real>, nodalDerivs: seq<real>)
    requires h > 0.0 && i + 1 < |nodalValues| == |nodalDerivs| && c.Length == 4 * (|nodalValues| - 1)
    requires forall k {:trigger Stored(c[..], k, h, nodalValues, nodalDerivs)} :: 0 <= k < i ==>
               Stored(c[..], k, h, nodalValues, nodalDerivs)
    modifies c
    ensures forall k {:trigger Stored(c[..], k, h, nodalValues, nodalDerivs)} :: 0 <= k <= i ==>
              Stored(c[..], k, h, nodalValues, nodalDerivs)
  {
    ghost var before := c[..];
    var p := HermiteOf(h, nodalValues[i], nodalDerivs[i], nodalValues[i + 1], nodalDerivs[i + 1]);
    c[4 * i], c[4 * i + 1], c[4 * i + 2], c[4 * i + 3] := p.c0, p.c1, p.c2, p.c3;
    assert Piece(c[..], i) == p;
    forall k | 0 <= k < i ensures Stored(c[..], k, h, nodalValues, nodalDerivs) {
      assert Stored(before, k, h, nodalValues, nodalDerivs);
      assert Piece(c[..], k) == Piece(before, k);
    }
  }

  method HermiteOf(h: real, a: real, da: real, b: real, db: real) returns (p: Cubic)
    requires h > 0.0
    ensures p == Hermite(h, a, da, b, db)
  {
    ProductPositive(h, h, h * h);
    ProductPositive(h * h, h, h * h * h);
    p := Cubic(a, da, (-3.0 * a - 2.0 * h * da + 3.0 * b - h * db) / (h * h),
               (2.0 * a + h * da - 2.0 * b + h * db) / (h * h * h));
  }

  predicate Stored(c: seq<real>, k: nat, h: real, v: seq<real>, d: seq<real>)
    requires h > 0.0 && k + 1 < |v| == |d| && 4 * k + 3 < |c|
  {
    Piece(c, k) == Hermite(h, v[k], d[k], v[k + 1], d[k + 1])
  }

  /** The spline object: built from matching values and slopes it is continuous with continuous slope. */
  method Create(h: real, nodalValues: seq<real>, nodalDerivs: seq<real>, x0: real)
    returns (result: Result<CubicSpline, SplineError>)
    ensures result.Err? <==> h <= 0.0 || |nodalValues| < 2 || |nodalValues| != |nodalDerivs|
    ensures result.Ok? ==>
              && result.value.Valid() && result.value.h == h && result.value.x0 == x0
              && result.value.Intervals() == |nodalValues| - 1
              && forall i :: 0 <= i < |nodalValues| - 1 ==>
                   Joins(Piece(result.value.c, i), h, nodalValues[i], nodalDerivs[i],
                         nodalValues[i + 1], nodalDerivs[i + 1])
  {
    var table := GenerateCoefficients(h, nodalValues, nodalDerivs);
    if table.Err? {
      return Err(table.error);
    }
    var s := CubicSpline(h, x0, table.value);
    assert |s.c| == 4 * (|nodalValues| - 1);
    forall i | 0 <= i < s.Intervals() - 1
      ensures Piece(s.c, i).Value(h) == Piece(s.c, i + 1).Value(0.0)
      ensures Piece(s.c, i).Slope(h) == Piece(s.c, i + 1).Slope(0.0)
    {
      assert Joins(Piece(s.c, i), h, nodalValues[i], nodalDerivs[i], nodalValues[i + 1], nodalDerivs[i + 1]);
      assert Joins(Piece(s.c, i + 1), h, nodalValues[i + 1], nodalDerivs[i + 1], nodalValues[i + 2],
                   nodalDerivs[i + 2]);
    }
    result := Ok(s);
  }
}
