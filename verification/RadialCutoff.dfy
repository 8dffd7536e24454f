/** What the radial tables read at the model's cutoff: the features at the last grid node, a network without biases,
    and the spline's last node (libsymmetrix/source/compact_radial.cpp:110-185, 227-265). */
module RadialCutoff {
  import opened Results
  import opened RealArithmetic
  import opened FiniteSums
  import opened FlatIndex
  import opened DualNumbers
  import opened CubicSplines
  import opened RadialNetworks
  import opened RadialBackprop
  import opened CutoffPolynomial
  import RadialTables
  import opened GhostGraph
  import opened EdgeTopology
  import opened EdgeClamping

  datatype BasisError = TypeOutOfRange

  datatype Transform =
    | NoTransform
    | Agnesi(a: real, q: real, p: real, covalentRadii: seq<real>)

  /** What the constructor reads, with sin and pow as given functions. */
  datatype RadialBasis = RadialBasis(types: nat, gridMin: real, splinePoints: nat, rCut: real, weights: seq<real>,
                                     prefactor: real, cutoffRMax: real, cutoffP: nat, transform: Transform,
                                     sin: real -> real, pow: (real, real) -> real)
  {
    /** The constructor's checks. The two cutoffs may differ by 1e-12 either way. */
    predicate Accepted() {
      && gridMin > 0.0 && splinePoints >= 4 && H() > 0.0 && weights != [] && cutoffP > 0
      && -0.000000000001 <= cutoffRMax - rCut <= 0.000000000001
      && (transform.Agnesi? ==> |transform.covalentRadii| == types && AllPositive(transform.covalentRadii))
    }

    predicate AllPositive(radii: seq<real>) {
      forall t :: 0 <= t < |radii| ==> radii[t] > 0.0
    }

    function H(): real
      requires splinePoints >= 2
    {
      (rCut - gridMin) / (splinePoints - 1) as real
    }

    /** Distance of grid node k. */
    function Distance(k: nat): real
      requires splinePoints >= 2
    {
      GridPoint(gridMin, H(), k)
    }

    predicate IsType(t: int) { 0 <= t < types }

    function R0(typeI: int, typeJ: int): (r: real)
      requires Accepted() && IsType(typeI) && IsType(typeJ)
      ensures r > 0.0
    {
      match transform
      case NoTransform => 1.0
      case Agnesi(_, _, _, radii) => 0.5 * (radii[typeI] + radii[typeJ])
    }

    /** The inner denominator of the Agnesi transform, and the outer one. */
    function Inner(s: real): real
      requires transform.Agnesi?
    {
      1.0 + pow(s, transform.q - transform.p)
    }

    function Outer(s: real): real
      requires transform.Agnesi? && Inner(s) != 0.0
    {
      1.0 + transform.a * pow(s, transform.q) / Inner(s)
    }

    /** The transform divides by nothing that is zero. */
    predicate Defined(r: real, r0: real)
      requires r0 > 0.0
    {
      transform.Agnesi? ==> Inner(r / r0) != 0.0 && Outer(r / r0) != 0.0
    }

    function Transformed(r: real, r0: real): (t: real)
      requires r > 0.0 && r0 > 0.0 && Defined(r, r0)
      ensures t != 0.0
    {
      if transform.NoTransform? then r else
        var s := r / r0;
        QuotientIs(1.0, Outer(s), 0.0);
        1.0 / Outer(s)
    }

    /** The cutoff factor. */
    function Factor(r: real): real
      requires r > 0.0
    {
      if r < cutoffRMax then CutoffValue(cutoffRMax, cutoffP, r) else 0.0
    }

    /** One Bessel function, without the cutoff factor. */
    function Wave(b: nat, t: real): real
      requires b < |weights| && t != 0.0
    {
      prefactor * sin(Angle(b, t)) / t
    }

    function Angle(b: nat, t: real): real
      requires b < |weights|
    {
      weights[b] * t
    }

    predicate DefinedOnGrid(typeI: int, typeJ: int)
      requires Accepted() && IsType(typeI) && IsType(typeJ)
    {
      forall k: nat :: k < splinePoints ==> Defined(Distance(k), R0(typeI, typeJ))
    }

    /** The radial basis function b of a pair of types at grid node k. */
    function Feature(typeI: int, typeJ: int, k: nat, b: nat): real
      requires Accepted() && IsType(typeI) && IsType(typeJ) && DefinedOnGrid(typeI, typeJ)
      requires k < splinePoints && b < |weights|
    {
      DistancePositive(k);
      Wave(b, Transformed(Distance(k), R0(typeI, typeJ))) * Factor(Distance(k))
    }

    lemma DistancePositive(k: nat)
      requires Accepted()
      ensures Distance(k) > 0.0
    {
      NonNegativeProduct(H(), k as real);
    }

    /** All rows in front of node k, and the first b entries of row k. */
    ghost predicate Holds(features: seq<real>, typeI: int, typeJ: int, k: nat, b: nat)
      requires Accepted() && IsType(typeI) && IsType(typeJ) && DefinedOnGrid(typeI, typeJ) && k <= splinePoints
    {
      && |features| == splinePoints * |weights|
      && forall n: nat, c: nat :: n < splinePoints && c < |weights| && (n < k || (n == k && c < b)) ==>
           At(features, Offset(n, |weights|, c)) == Feature(typeI, typeJ, n, c)
    }

    lemma OneMoreEntry(features: seq<real>, typeI: int, typeJ: int, k: nat, b: nat, v: real)
      requires Accepted() && IsType(typeI) && IsType(typeJ) && DefinedOnGrid(typeI, typeJ)
      requires k < splinePoints && b < |weights| && Holds(features, typeI, typeJ, k, b)
      requires v == Feature(typeI, typeJ, k, b)
      ensures 0 <= Offset(k, |weights|, b) < |features|
      ensures Holds(features[Offset(k, |weights|, b) := v], typeI, typeJ, k, b + 1)
    {
      OffsetBound(k, splinePoints, |weights|, b);
      var next := features[Offset(k, |weights|, b) := v];
      forall n: nat, c: nat | n < splinePoints && c < |weights| && (n < k || (n == k && c < b + 1))
        ensures At(next, Offset(n, |weights|, c)) == Feature(typeI, typeJ, n, c)
      {
        if Offset(n, |weights|, c) == Offset(k, |weights|, b) {
          OffsetInjective(|weights|, n, c, k, b);
        } else {
          assert At(next, Offset(n, |weights|, c)) == At(features, Offset(n, |weights|, c));
        }
      }
    }

    /** radial_features: the basis of a pair of types on the whole grid. */
    method RadialFeatures(typeI: int, typeJ: int) returns (result: Result<seq<real>, BasisError>)
      requires Accepted() && (IsType(typeI) && IsType(typeJ) ==> DefinedOnGrid(typeI, typeJ))
      ensures result.Err? <==> !IsType(typeI) || !IsType(typeJ)
      ensures result.Ok? ==> Holds(result.value, typeI, typeJ, splinePoints, 0)
    {
      if !IsType(typeI) || !IsType(typeJ) {
        return Err(TypeOutOfRange);
      }
      var r0 := R0(typeI, typeJ);
      ProductNonNegative(splinePoints, |weights|);
      var features := seq(splinePoints * |weights|, _ => 0.0);
      for node := 0 to splinePoints
        invariant Holds(features, typeI, typeJ, node, 0)
      {
        features := NodeFeatures(features, typeI, typeJ, node, r0);
      }
      result := Ok(features);
    }

    /** The features of one grid node. */
    method NodeFeatures(before: seq<real>, ghost typeI: int, ghost typeJ: int, node: nat, r0: real)
      returns (features: seq<real>)
      requires Accepted() && IsType(typeI) && IsType(typeJ) && DefinedOnGrid(typeI, typeJ)
      requires node < splinePoints && r0 == R0(typeI, typeJ) && Holds(before, typeI, typeJ, node, 0)
      ensures Holds(features, typeI, typeJ, node + 1, 0)
    {
      DistancePositive(node);
      var r := Distance(node);
      var t, cutoffValue := Transformed(r, r0), 0.0;
      if r < cutoffRMax {
        cutoffValue := CutoffPolynomialAt(cutoffP, r / cutoffRMax);
      }
      features := before;
      for basis := 0 to |weights|
        invariant Holds(features, typeI, typeJ, node, basis)
      {
        var value := Wave(basis, t) * cutoffValue;
        OneMoreEntry(features, typeI, typeJ, node, basis, value);
        features := features[Offset(node, |weights|, basis) := value];
      }
    }

    /** t is r, or the Agnesi transform of r, whose scaled distance is s. */
    ghost predicate SolvesTransform(typeI: int, typeJ: int, r: real, s: real, t: real)
      requires Accepted() && IsType(typeI) && IsType(typeJ)
    {
      if transform.NoTransform? then t == r else
        && s * (0.5 * (transform.covalentRadii[typeI] + transform.covalentRadii[typeJ])) == r
        && 1.0 + pow(s, transform.q - transform.p) != 0.0
        && t * (1.0 + transform.a * pow(s, transform.q) / (1.0 + pow(s, transform.q - transform.p))) == 1.0
    }

    /** Entry `index` of the table, written out: basis function b at grid node k, whose distance is r, transformed
        distance t and cutoff factor `factor`. */
    lemma FeatureEntry(features: seq<real>, typeI: int, typeJ: int, k: nat, b: nat, index: int, r: real, s: real,
                       t: real, factor: real, angle: real)
      requires Accepted() && IsType(typeI) && IsType(typeJ) && DefinedOnGrid(typeI, typeJ)
      requires Holds(features, typeI, typeJ, splinePoints, 0) && k < splinePoints && b < |weights|
      requires index == k * |weights| + b
      requires r == gridMin + (rCut - gridMin) / (splinePoints - 1) as real * k as real
      requires SolvesTransform(typeI, typeJ, r, s, t)
      requires angle == weights[b] * t && (r >= cutoffRMax ==> factor == 0.0)
      requires 0.0 < r < cutoffRMax ==>
                 factor == CutoffPolynomialAt(cutoffP, r / cutoffRMax)
      ensures r > 0.0 && t != 0.0 && At(features, index) * t == prefactor * sin(angle) * factor
    {
      TransformedIs(typeI, typeJ, r, s, t, k);
      FactorIs(r, factor);
      EntryIs(features, typeI, typeJ, k, b, index, r, t, factor);
      WaveTimes(b, t, factor, angle, At(features, index));
    }

    lemma EntryIs(features: seq<real>, typeI: int, typeJ: int, k: nat, b: nat, index: int, r: real, t: real,
                  factor: real)
      requires Accepted() && IsType(typeI) && IsType(typeJ) && DefinedOnGrid(typeI, typeJ)
      requires Holds(features, typeI, typeJ, splinePoints, 0) && k < splinePoints && b < |weights|
      requires index == k * |weights| + b && r == Distance(k) > 0.0 && t == Transformed(r, R0(typeI, typeJ))
      requires factor == Factor(r)
      ensures At(features, index) == Wave(b, t) * factor
    {
      FeatureIs(typeI, typeJ, k, b, r, t, factor);
      assert At(features, Offset(k, |weights|, b)) == Feature(typeI, typeJ, k, b);
    }

    lemma FeatureIs(typeI: int, typeJ: int, k: nat, b: nat, r: real, t: real, factor: real)
      requires Accepted() && IsType(typeI) && IsType(typeJ) && DefinedOnGrid(typeI, typeJ)
      requires k < splinePoints && b < |weights|
      requires r == Distance(k) > 0.0 && t == Transformed(r, R0(typeI, typeJ)) && factor == Factor(r)
      ensures Feature(typeI, typeJ, k, b) == Wave(b, t) * factor
    {
    }

    lemma FactorIs(r: real, factor: real)
      requires r > 0.0 && (r >= cutoffRMax ==> factor == 0.0)
      requires r < cutoffRMax ==>
                 factor == CutoffPolynomialAt(cutoffP, r / cutoffRMax)
      ensures factor == Factor(r)
    {
    }

    lemma TransformedIs(typeI: int, typeJ: int, r: real, s: real, t: real, k: nat)
      requires Accepted() && IsType(typeI) && IsType(typeJ) && DefinedOnGrid(typeI, typeJ) && k < splinePoints
      requires r == gridMin + (rCut - gridMin) / (splinePoints - 1) as real * k as real
      requires SolvesTransform(typeI, typeJ, r, s, t)
      ensures r == Distance(k) > 0.0 && t != 0.0 && t == Transformed(r, R0(typeI, typeJ))
    {
      DistancePositive(k);
      if transform.Agnesi? {
        QuotientIs(r, R0(typeI, typeJ), s);
        QuotientIs(1.0, Outer(s), t);
      }
    }

    /** Dividing the wave by t is undone by multiplying with t. */
    lemma WaveTimes(b: nat, t: real, factor: real, angle: real, v: real)
      requires b < |weights| && t != 0.0 && angle == weights[b] * t && v == Wave(b, t) * factor
      ensures v * t == prefactor * sin(angle) * factor
    {
      WaveIs(b, t, angle);
      QuotientTimes(prefactor * sin(angle), t, Wave(b, t), factor);
    }

    lemma WaveIs(b: nat, t: real, angle: real)
      requires b < |weights| && t != 0.0 && angle == weights[b] * t
      ensures Wave(b, t) == prefactor * sin(angle) / t
    {
      assert Angle(b, t) == angle;
    }

    static lemma QuotientTimes(crest: real, t: real, wave: real, factor: real)
      requires t != 0.0 && wave == crest / t
      ensures wave * factor * t == crest * factor
    {
      DivisionUndone(crest, t);
      SwapFactors(wave, factor, t, crest);
    }

    static lemma SwapFactors(w: real, factor: real, t: real, crest: real)
      requires w * t == crest
      ensures w * factor * t == crest * factor
    {
    }

    // ------------------------------------------------------------ the last node

    /** The last grid node stands at the model's cutoff. */
    lemma LastNodeIsCutoff()
      requires Accepted()
      ensures Distance(splinePoints - 1) == rCut
    {
      DivisionUndone(rCut - gridMin, (splinePoints - 1) as real);
    }

    /** The wave of basis function b has a root at the last node. */
    predicate Silent(typeI: int, typeJ: int, b: nat)
      requires Accepted() && IsType(typeI) && IsType(typeJ) && DefinedOnGrid(typeI, typeJ) && b < |weights|
    {
      DistancePositive(splinePoints - 1);
      Wave(b, Transformed(Distance(splinePoints - 1), R0(typeI, typeJ))) == 0.0
    }

    /** At the last node a basis function vanishes exactly when the model's cutoff reaches the basis's own, unless its
        wave has a root there. */
    lemma LastFeature(typeI: int, typeJ: int, b: nat)
      requires Accepted() && IsType(typeI) && IsType(typeJ) && DefinedOnGrid(typeI, typeJ) && b < |weights|
      ensures Feature(typeI, typeJ, splinePoints - 1, b) == 0.0 <==> rCut >= cutoffRMax || Silent(typeI, typeJ, b)
    {
      LastNodeIsCutoff();
      DistancePositive(splinePoints - 1);
      if rCut < cutoffRMax {
        CutoffValueInRange(cutoffRMax, cutoffP, rCut);
        var wave := Wave(b, Transformed(rCut, R0(typeI, typeJ)));
        if wave != 0.0 {
          NonZeroProduct(wave, Factor(rCut), wave * Factor(rCut));
        }
      }
    }

    /** Every basis function vanishes at the last node. */
    predicate AllEnd(typeI: int, typeJ: int)
      requires Accepted() && IsType(typeI) && IsType(typeJ) && DefinedOnGrid(typeI, typeJ)
    {
      rCut >= cutoffRMax || forall b: nat :: b < |weights| ==> Silent(typeI, typeJ, b)
    }

    /** The last row of the features, as the networks see it. */
    ghost function LastRow(features: seq<real>): int -> real
      requires splinePoints > 0
    {
      DenseKernels.RowSlice(features, |weights|, splinePoints - 1)
    }

    lemma LastRowEntry(features: seq<real>, typeI: int, typeJ: int, b: nat)
      requires Accepted() && IsType(typeI) && IsType(typeJ) && DefinedOnGrid(typeI, typeJ) && b < |weights|
      requires Holds(features, typeI, typeJ, splinePoints, 0)
      ensures LastRow(features)(b) == 0.0 <==> rCut >= cutoffRMax || Silent(typeI, typeJ, b)
    {
      LastFeature(typeI, typeJ, b);
      var last := splinePoints - 1;
      assert At(features, Offset(last, |weights|, b)) == Feature(typeI, typeJ, last, b);
    }

    /** Every network without postprocessing ends at zero in every output exactly when all basis functions do. */
    lemma NetworksEndAtZero(m: Elementary, features: seq<real>, typeI: int, typeJ: int)
      requires m.Valid() && Accepted() && IsType(typeI) && IsType(typeJ) && DefinedOnGrid(typeI, typeJ)
      requires Holds(features, typeI, typeJ, splinePoints, 0)
      ensures (forall net: Network :: Fed(net) && !net.tanhSquare ==> EndsAtZero(net, LastRow(features)))
         <==> AllEnd(typeI, typeJ)
    {
      var x := LastRow(features);
      forall net: Network | AllEnd(typeI, typeJ) && Fed(net) && !net.tanhSquare ensures EndsAtZero(net, x) {
        forall b: nat | b < |weights| ensures x(b) == 0.0 {
          LastRowEntry(features, typeI, typeJ, b);
        }
        ZeroInZeroOut(net, x);
      }
      if !AllEnd(typeI, typeJ) {
        var b: nat :| b < |weights| && !Silent(typeI, typeJ, b);
        LastRowEntry(features, typeI, typeJ, b);
        var net := Selector(m, |weights|, b);
        SelectorSelects(m, |weights|, b, x);
        assert Fed(net) && !EndsAtZero(net, x);
      }
    }

    /** The constructor's check that a network takes the basis. */
    ghost predicate Fed(net: Network) {
      net.Valid() && net.shape[0] == |weights|
    }
  }

  // ---------------------------------------------------------------- networks without biases

  ghost predicate ZeroOn(n: nat, x: int -> real) {
    forall i: nat :: i < n ==> x(i) == 0.0
  }

  ghost predicate EndsAtZero(net: Network, x: int -> real)
    requires net.Valid()
  {
    ZeroOn(net.shape[net.Layers()], net.Model().Output(x))
  }

  lemma {:induction false} ZeroLevels(p: Perceptron, x: int -> real, l: nat)
    requires p.Valid() && l <= p.Layers() && p.activation.value(0.0) == 0.0 && ZeroOn(p.shape[0], x)
    ensures ZeroOn(p.shape[l], p.Level(x, l))
  {
    if l == 0 {
      assert p.Level(x, 0) == x;
    } else {
      var below := l - 1;
      ZeroLevels(p, x, below);
      var level, a := p.Level(x, below), p.Weight(below);
      forall i: nat | i < p.shape[l] ensures p.Level(x, l)(i) == 0.0 {
        SumZero(p.shape[below], j => a(i, j) * level(j));
        assert p.Pre(x, below)(i) == 0.0;
      }
    }
  }

  /** Zero in, zero out, whatever the weights. */
  lemma ZeroInZeroOut(net: Network, x: int -> real)
    requires net.Valid() && ZeroOn(net.shape[0], x) && (net.tanhSquare ==> net.tanh(0.0) == 0.0)
    ensures ZeroOn(net.shape[net.Layers() - 1], net.Model().Level(x, net.Layers() - 1)) && EndsAtZero(net, x)
  {
    var p, L := net.Model(), net.Layers();
    assert p.activation.value(0.0) == 0.0;
    ZeroLevels(p, x, L - 1);
    ZeroLevels(p, x, L);
    forall i: nat | i < net.shape[L] ensures p.Output(x)(i) == 0.0 {
      assert p.Level(x, L)(i) == 0.0;
      assert Square(0.0) == 0.0 && p.post.value(0.0) == 0.0;
    }
  }

  /** One layer whose only output is entry b of its input. */
  function Selector(m: Elementary, n: nat, b: nat): Network
    requires b < n
  {
    Network(m, [n, 1], [seq(n, _ => 0.0)[b := 1.0]], 1.0, false, _ => 0.0)
  }

  lemma SelectorSelects(m: Elementary, n: nat, b: nat, x: int -> real)
    requires m.Valid() && b < n
    ensures Selector(m, n, b).Valid() && Selector(m, n, b).Model().Output(x)(0) == x(b)
  {
    var net := Selector(m, n, b);
    assert net.Sized(0);
    var p, w := net.Model(), net.weights[0];
    var term := j => MatrixOf(w, n)(0, j) * x(j);
    forall j | 0 <= j < n ensures term(j) == if j == b then x(b) else 0.0 {
      assert Offset(0, n, j) == j;
      assert MatrixOf(w, n)(0, j) == w[j];
    }
    SumSingle(n, b, term);
    assert p.Level(x, 0) == x && p.Weight(0) == MatrixOf(w, n);
    assert p.Pre(x, 0)(0) == Sum(n, j => MatrixOf(w, n)(0, j) * x(j)) == Sum(n, term) by {
      SumCong(n, j => MatrixOf(w, n)(0, j) * x(j), term);
    }
    assert p.Level(x, 1)(0) == p.Pre(x, 0)(0);
  }

  // ---------------------------------------------------------------- tables and splines

  /** One radial function of one pair of types, from the features to the spline that is read. */
  datatype RadialEntry = RadialEntry(basis: RadialBasis, typeI: int, typeJ: int, features: seq<real>, net: Network,
                                     data: RadialTables.RadialSplineData, e: nat, spline: CubicSpline)
  {
    ghost predicate HasFeatures() {
      && basis.Accepted() && basis.IsType(typeI) && basis.IsType(typeJ) && basis.DefinedOnGrid(typeI, typeJ)
      && basis.Holds(features, typeI, typeJ, basis.splinePoints, 0)
    }

    /** What RadialFeatures, EvaluateNetwork and Create return for it. */
    ghost predicate Compiled() {
      && HasFeatures() && basis.Fed(net) && (net.tanhSquare ==> net.tanh(0.0) == 0.0) && e < net.shape[net.Layers()]
      && RadialTables.IsSplineOf(basis.H(), basis.splinePoints, data, net.shape[net.Layers()],
                                 RadialTables.NetworkValues(net, features))
      && PassesThrough(spline, basis.H(), basis.gridMin, data.values[e], data.derivatives[e])
    }

    ghost predicate AllEnd()
      requires HasFeatures()
    {
      basis.AllEnd(typeI, typeJ)
    }

    /** The table's last value is the network's at the cutoff, and its last slope is zero. */
    lemma LastValueAndSlope()
      requires Compiled()
      ensures data.values[e] != [] && |data.derivatives[e]| == |data.values[e]|
      ensures data.values[e][|data.values[e]| - 1] == net.Model().Output(basis.LastRow(features))(e)
      ensures data.derivatives[e][|data.values[e]| - 1] == 0.0
    {
      var f, last := RadialTables.NetworkValues(net, features), basis.splinePoints - 1;
      assert RadialTables.IsSplineRow(basis.H(), basis.splinePoints, data.values[e], data.derivatives[e], f, e);
      assert data.values[e][last] == f(last, e);
    }

    /** Every reading at the cutoff or beyond is the network's value at the cutoff, with slope zero. */
    lemma ReadingBeyond(r: real, q: (real, real))
      requires Compiled() && r >= basis.rCut && spline.ReadsAt(r, q)
      ensures q == (net.Model().Output(basis.LastRow(features))(e), 0.0)
    {
      LastValueAndSlope();
      basis.LastNodeIsCutoff();
      var last := spline.Intervals() - 1;
      assert Joins(Piece(spline.c, last), spline.h, data.values[e][last], data.derivatives[e][last],
                   data.values[e][last + 1], data.derivatives[e][last + 1]);
    }

    /** When all basis functions end, the spline reads zero with slope zero at the cutoff. */
    lemma ReadsZero(q: (real, real))
      requires Compiled() && AllEnd() && spline.ReadsAt(basis.rCut, q)
      ensures q == (0.0, 0.0)
    {
      var x := basis.LastRow(features);
      forall b: nat | b < |basis.weights| ensures x(b) == 0.0 {
        basis.LastRowEntry(features, typeI, typeJ, b);
      }
      ZeroInZeroOut(net, x);
      ReadingBeyond(basis.rCut, q);
    }

    /** There is a reading at the cutoff. */
    lemma SomeReading() returns (q: (real, real))
      requires Compiled()
      ensures spline.ReadsAt(basis.rCut, q)
    {
      basis.LastNodeIsCutoff();
      spline.Above(basis.rCut);
      q := spline.Sample(spline.Intervals() - 1, spline.h);
    }
  }

  /** What the spline constructor makes of a table. */
  ghost predicate PassesThrough(s: CubicSpline, h: real, x0: real, values: seq<real>, slopes: seq<real>) {
    && s.Valid() && s.h == h && s.x0 == x0 && |values| == |slopes| && s.Intervals() == |values| - 1
    && forall i :: 0 <= i < |values| - 1 ==>
         Joins(Piece(s.c, i), h, values[i], slopes[i], values[i + 1], slopes[i + 1])
  }

  // ---------------------------------------------------------------- edges

  /** What multiplies the value and the slope a spline reads: anything else about the edge. */
  type EdgeFactor = (int, Position, real) -> real

  /** An energy or force term: linear in the value and the slope read from the neighbour's spline. */
  ghost predicate ReadsTables(f: EdgeFunction, entries: int -> RadialEntry, a: EdgeFactor, b: EdgeFactor) {
    forall j: int, v: Position, r: real, q: (real, real)
      | entries(j).spline.Valid() && entries(j).spline.ReadsAt(r, q) ::
      f(j, v, r) == a(j, v, r) * q.0 + b(j, v, r) * q.1
  }

  /** Every neighbour has a spline of the model with this cutoff, all of whose basis functions end there. */
  ghost predicate AllCompiled(entries: int -> RadialEntry, rCut: real) {
    forall j: int :: entries(j).Compiled() && entries(j).AllEnd() && entries(j).basis.rCut == rCut
  }

  /** Terms read from such tables vanish at the cutoff. */
  lemma TableTermsVanish(f: EdgeFunction, entries: int -> RadialEntry, a: EdgeFactor, b: EdgeFactor, rCut: real)
    requires AllCompiled(entries, rCut) && ReadsTables(f, entries, a, b)
    ensures VanishesAtCutoff(f, rCut)
  {
    forall j: int, v: Position ensures f(j, v, rCut) == 0.0 {
      var q := entries(j).SomeReading();
      entries(j).ReadsZero(q);
      assert entries(j).spline.ReadsAt(rCut, q);
    }
  }

  /** So the clamped skin list gives every receiver the sum over the edges within the cutoff. */
  lemma SkinListIsHarmless(g: Geometry, list: NeighbourList, positions: seq<Position>, i: nat, f: EdgeFunction,
                           entries: int -> RadialEntry, a: EdgeFactor, b: EdgeFactor)
    requires g.rCut > 0.0 && g.stable && TakesRoots(g.sqrt) && list.Valid(|positions|) && i < |positions|
    requires AllCompiled(entries, g.rCut) && ReadsTables(f, entries, a, b)
    ensures var n := |list.neighbours[i]|;
            var skin, close := g.Rule(list, positions).EdgesOf(i, n), g.CutoffRule(list, positions).EdgesOf(i, n);
            && (forall e <- skin :: e.i < |positions| && e.j < |positions|)
            && (forall e <- close :: e.i < |positions| && e.j < |positions|)
            && StoredSum(g, positions, skin, f) == StoredSum(g, positions, close, f)
  {
    TableTermsVanish(f, entries, a, b, g.rCut);
    SkinEdgesAddNothing(g, list, positions, i, |list.neighbours[i]|, f);
  }
}
