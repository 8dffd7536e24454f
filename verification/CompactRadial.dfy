/** The spline compiler object (libsymmetrix/source/compact_radial.cpp): solver, its matrix, its adjoint. */
module CompactRadial {
  import opened Results
  import opened RealArithmetic
  import opened FiniteSums
  import CubicSplines
  import opened SplineSolver
  import opened SplineAdjoint
  import opened NestedSums
  import opened FlatIndex

  datatype RadialError = InvalidArgument

  class CompactRadialModel {
    const h: real
    const splinePoints: nat
    var splineDerivativeOperator: seq<real>

    /** The operator is either still empty or holds the solver's matrix, row-major. */
    ghost predicate Valid()
      reads this
    {
      && h > 0.0 && splinePoints >= 4
      && (splineDerivativeOperator == [] || HoldsMatrix(splineDerivativeOperator, splinePoints))
    }

    /** The first `columns` columns of op are those of the solver's matrix. */
    ghost predicate HoldsMatrix(op: seq<real>, columns: nat)
      requires h > 0.0 && splinePoints >= 4
    {
      && |op| == splinePoints * splinePoints
      && forall o: nat, i: nat :: o < splinePoints && i < columns ==>
           At(op, Offset(o, splinePoints, i)) == SolverMatrix(h, splinePoints)(o, i)
    }

    constructor (h: real, splinePoints: nat)
      requires h > 0.0 && splinePoints >= 4
      ensures Valid() && this.h == h && this.splinePoints == splinePoints && splineDerivativeOperator == []
    {
      this.h, this.splinePoints, splineDerivativeOperator := h, splinePoints, [];
    }

    /** The tridiagonal system for the interior nodes (compact_radial.cpp:332-348). */
    method BuildSystem(values: seq<real>)
      returns (lower: array<real>, diagonal: array<real>, upper: array<real>, rhs: array<real>)
      requires h > 0.0 && |values| >= 4
      ensures fresh(lower) && fresh(diagonal) && fresh(upper) && fresh(rhs) && diagonal != rhs
      ensures lower != diagonal && lower != rhs && upper != diagonal && upper != rhs
      ensures lower.Length == diagonal.Length == upper.Length == rhs.Length == |values| - 2
      ensures forall row :: 0 <= row < |values| - 2 ==> diagonal[row] == 4.0 && (row > 0 ==> lower[row] == 1.0)
      ensures forall row :: 0 <= row < |values| - 2 ==> upper[row] == Upper(|values| - 2, row)
      ensures forall row :: 0 <= row < |values| - 2 ==> rhs[row] == RightHandSide(h, values, row)
    {
      var unknowns := |values| - 2;
      lower := new real[unknowns](_ => 0.0);
      diagonal := new real[unknowns](_ => 4.0);
      upper := new real[unknowns](_ => 0.0);
      rhs := new real[unknowns](_ => 0.0);
      var leftNotAKnot := 2.0 * (-values[0] + 2.0 * values[1] - values[2]) / h;
      upper[0] := 2.0;
      rhs[0] := 3.0 * (values[2] - values[0]) / h - leftNotAKnot;
      for node := 2 to |values| - 1
        invariant forall row :: 1 <= row < node - 1 ==> lower[row] == 1.0
        invariant forall row :: 0 <= row < unknowns ==>
                    upper[row] == if row < node - 1 then Upper(unknowns, row) else 0.0
        invariant forall row :: 0 <= row < node - 1 ==> rhs[row] == RightHandSide(h, values, row)
        invariant forall row :: 0 <= row < unknowns ==> diagonal[row] == 4.0
      {
        var row := node - 1;
        lower[row] := 1.0;
        if node + 1 <= |values| - 2 {
          upper[row] := 1.0;
        }
        rhs[row] := 3.0 * (values[node + 1] - values[node - 1]) / h;
        assert rhs[row] == CentralDifference(h, values, row + 1);
      }
    }

    /** Forward elimination in place (compact_radial.cpp:350-354); every pivot it divides by is at least 3. */
    method Eliminate(lower: array<real>, diagonal: array<real>, upper: array<real>, rhs: array<real>)
      requires lower.Length == diagonal.Length == upper.Length == rhs.Length >= 2
      requires diagonal != rhs && lower != diagonal && lower != rhs && upper != diagonal && upper != rhs
      requires forall row :: 0 <= row < diagonal.Length ==> diagonal[row] == 4.0 && (row > 0 ==> lower[row] == 1.0)
      requires forall row :: 0 <= row < diagonal.Length ==> upper[row] == Upper(diagonal.Length, row)
      modifies diagonal, rhs
      ensures forall k :: 0 <= k < diagonal.Length ==>
                Eliminated(diagonal.Length, old(rhs[..]), diagonal[..], rhs[..], k)
    {
      var unknowns := diagonal.Length;
      ghost var b := rhs[..];
      for row := 1 to unknowns
        invariant forall k :: 0 <= k < row ==> Eliminated(unknowns, b, diagonal[..], rhs[..], k)
        invariant forall k :: row <= k < unknowns ==> diagonal[k] == 4.0 && rhs[k] == b[k]
      {
        ghost var p, r := diagonal[..], rhs[..];
        ghost var p', r' := EliminationStep(unknowns, b, p, r, row);
        var factor := lower[row] / diagonal[row - 1];
        diagonal[row] := diagonal[row] - factor * upper[row - 1];
        rhs[row] := rhs[row] - factor * rhs[row - 1];
        assert diagonal[..] == p' && rhs[..] == r';
      }
    }

    /** Back substitution (compact_radial.cpp:355-358). */
    method BackSubstitute(diagonal: array<real>, upper: array<real>, rhs: array<real>) returns (solution: array<real>)
      requires diagonal.Length == upper.Length == rhs.Length >= 2
      requires forall row :: 0 <= row < diagonal.Length ==> diagonal[row] >= 3.0
      requires forall row :: 0 <= row < diagonal.Length ==> upper[row] == Upper(diagonal.Length, row)
      ensures fresh(solution) && solution.Length == diagonal.Length
      ensures forall k :: 0 <= k < diagonal.Length ==>
                Substituted(diagonal.Length, diagonal[..], rhs[..], solution[..] + [0.0], k)
    {
      var unknowns := diagonal.Length;
      ghost var p, r := diagonal[..], rhs[..];
      solution := new real[unknowns](_ => 0.0);
      DivisionUndone(rhs[unknowns - 1], diagonal[unknowns - 1]);
      solution[unknowns - 1] := rhs[unknowns - 1] / diagonal[unknowns - 1];
      for row := unknowns - 1 downto 0
        invariant forall k :: row <= k < unknowns ==> Substituted(unknowns, p, r, solution[..] + [0.0], k)
        invariant diagonal[..] == p && rhs[..] == r
      {
        ghost var s := SubstitutionStep(unknowns, p, r, solution[..] + [0.0], row);
        solution[row] := (rhs[row] - upper[row] * solution[row + 1]) / diagonal[row];
        assert solution[..] + [0.0] == s;
      }
    }

    /** The nodal slopes. The answer is the only one that makes the spline smooth. */
    method SplineDerivatives(values: seq<real>) returns (result: Result<seq<real>, RadialError>)
      requires h > 0.0 && splinePoints >= 4
      ensures result.Err? <==> |values| != splinePoints
      ensures result.Ok? ==> IsSmooth(h, values, result.value) && result.value == Slopes(h, values)
    {
      if |values| != splinePoints {
        return Err(InvalidArgument);
      }
      var lower, diagonal, upper, rhs := BuildSystem(values);
      ghost var b := rhs[..];
      Eliminate(lower, diagonal, upper, rhs);
      ghost var p, r, m := diagonal[..], rhs[..], splinePoints - 2;
      forall k | 0 <= k < m ensures diagonal[k] >= 3.0 {
        assert Eliminated(m, b, p, r, k);
      }
      var solution := BackSubstitute(diagonal, upper, rhs);
      assert diagonal[..] == p && rhs[..] == r;
      ghost var tail := solution[..];
      var derivatives := new real[splinePoints](_ => 0.0);
      for node := 1 to splinePoints - 1
        invariant forall k :: 1 <= k < node ==> derivatives[k] == solution[k - 1]
        invariant solution[..] == tail
      {
        derivatives[node] := solution[node - 1];
      }
      derivatives[0] := derivatives[2] + 2.0 * (-values[0] + 2.0 * values[1] - values[2]) / h;
      derivatives[splinePoints - 1] := 0.0;
      Assemble(values, b, p, r, tail, derivatives[..]);
      result := Ok(derivatives[..]);
    }

    lemma Assemble(values: seq<real>, b: seq<real>, p: seq<real>, r: seq<real>, solution: seq<real>, d: seq<real>)
      requires h > 0.0 && |values| >= 4 && |b| == |p| == |r| == |solution| == |values| - 2
      requires forall k :: 0 <= k < |b| ==> b[k] == RightHandSide(h, values, k)
      requires forall k :: 0 <= k < |b| ==> Eliminated(|b|, b, p, r, k)
      requires forall k :: 0 <= k < |b| ==> Substituted(|b|, p, r, solution + [0.0], k)
      requires |d| == |values| && d[0] == d[2] + LeftNotAKnot(h, values) && d[|d| - 1] == 0.0
      requires forall k :: 1 <= k < |d| - 1 ==> d[k] == solution[k - 1]
      ensures IsSmooth(h, values, d) && d == Slopes(h, values)
    {
      var s := solution + [0.0];
      AssembledSolves(h, values, |b|, b, p, r, s);
      assert d == Assembled(h, values, s);
      SolutionIsUnique(h, values, d, Slopes(h, values));
      SlopesCharacterised(h, values, d);
    }

    /** Builds the solver's matrix, one unit table per column, unless it is there already. */
    method EnsureDerivativeOperator()
      requires Valid()
      modifies this`splineDerivativeOperator
      ensures Valid() && HoldsMatrix(splineDerivativeOperator, splinePoints)
      ensures old(splineDerivativeOperator) != [] ==> splineDerivativeOperator == old(splineDerivativeOperator)
    {
      if splineDerivativeOperator == [] {
        var op := seq(splinePoints * splinePoints, _ => 0.0);
        for inputNode := 0 to splinePoints
          invariant HoldsMatrix(op, inputNode)
        {
          var basis := seq(splinePoints, _ => 0.0)[inputNode := 1.0];
          assert basis == Unit(splinePoints, inputNode);
          var derivatives := SplineDerivatives(basis);
          ghost var before := op;
          for outputNode := 0 to splinePoints
            invariant |op| == |before| && HoldsMatrix(before, inputNode)
            invariant forall o: nat, i: nat :: o < splinePoints && i < inputNode ==>
                        At(op, Offset(o, splinePoints, i)) == At(before, Offset(o, splinePoints, i))
            invariant forall o: nat :: o < outputNode ==>
                        At(op, Offset(o, splinePoints, inputNode)) == SolverMatrix(h, splinePoints)(o, inputNode)
          {
            OffsetBound(outputNode, splinePoints, splinePoints, inputNode);
            forall o: nat, i: nat | o < splinePoints && i <= inputNode && (o, i) != (outputNode, inputNode)
              ensures Offset(o, splinePoints, i) != Offset(outputNode, splinePoints, inputNode)
            {
              if Offset(o, splinePoints, i) == Offset(outputNode, splinePoints, inputNode) {
                OffsetInjective(splinePoints, o, i, outputNode, inputNode);
              }
            }
            op := op[outputNode * splinePoints + inputNode := derivatives.value[outputNode]];
          }
        }
        splineDerivativeOperator := op;
        OffsetBound(0, splinePoints, splinePoints, 0);
      }
    }

    /** Flat position of node n of function f of pair p. */
    function NodalIndex(functions: nat, p: int, n: int, f: int): int {
      Offset(Offset(p, splinePoints, n), functions, f)
    }

    /** Flat position of coefficient `order` of one interval. */
    function CoefficientIndex(functions: nat, p: int, interval: int, order: int, f: int): int {
      Offset(Offset(Offset(p, splinePoints - 1, interval), 4, order), functions, f)
    }

    lemma NodalIndexInjective(functions: nat, p: int, n: int, f: int, p': int, n': int, f': int)
      requires 0 <= n < splinePoints && 0 <= n' < splinePoints && 0 <= f < functions && 0 <= f' < functions
      requires NodalIndex(functions, p, n, f) == NodalIndex(functions, p', n', f')
      ensures p == p' && n == n' && f == f'
    {
      OffsetInjective(functions, Offset(p, splinePoints, n), f, Offset(p', splinePoints, n'), f');
      OffsetInjective(splinePoints, p, n, p', n');
    }

    lemma NodalIndexBound(pairs: nat, functions: nat, p: int, n: int, f: int)
      requires 0 <= p < pairs && 0 <= n < splinePoints && 0 <= f < functions
      ensures 0 <= NodalIndex(functions, p, n, f) < pairs * splinePoints * functions
    {
      OffsetBound(p, pairs, splinePoints, n);
      OffsetBound(Offset(p, splinePoints, n), pairs * splinePoints, functions, f);
    }

    lemma CoefficientIndexBound(pairs: nat, functions: nat, p: int, interval: int, order: int, f: int)
      requires 0 <= p < pairs && 0 <= interval < splinePoints - 1 && 0 <= order < 4 && 0 <= f < functions
      ensures 0 <= CoefficientIndex(functions, p, interval, order, f) < pairs * (splinePoints - 1) * 4 * functions
    {
      OffsetBound(p, pairs, splinePoints - 1, interval);
      OffsetBound(Offset(p, splinePoints - 1, interval), pairs * (splinePoints - 1), 4, order);
      OffsetBound(Offset(Offset(p, splinePoints - 1, interval), 4, order), pairs * (splinePoints - 1) * 4, functions,
                  f);
    }

    /** The coefficient adjoints of function f of pair p. */
    ghost function PairAdjoint(adjoints: seq<real>, functions: nat, p: int, f: int): int -> PieceAdjoint {
      i => PieceAdjoint(
          At(adjoints, CoefficientIndex(functions, p, i, 0, f)), At(adjoints, CoefficientIndex(functions, p, i, 1, f)),
          At(adjoints, CoefficientIndex(functions, p, i, 2, f)), At(adjoints, CoefficientIndex(functions, p, i, 3, f)))
    }

    /** The entries of nodal buffer x that belong to function f of pair p. */
    ghost function NodalSlice(x: seq<real>, functions: nat, p: int, f: int): int -> real {
      n => At(x, NodalIndex(functions, p, n, f))
    }

    /** Entries of other pairs and functions are untouched. */
    ghost predicate OnlySliceChanged(x: seq<real>, y: seq<real>, functions: nat, p: int, f: int) {
      && |x| == |y|
      && forall p', n', f' :: 0 <= n' < splinePoints && 0 <= f' < functions && (p', f') != (p, f) ==>
           At(y, NodalIndex(functions, p', n', f')) == At(x, NodalIndex(functions, p', n', f'))
    }

    /** Entry n of the slice of (p, f) grew by this amount; nothing else changed. */
    ghost predicate EntryGrew(x: seq<real>, y: seq<real>, functions: nat, p: int, n: int, f: int, amount: real) {
      && OnlySliceChanged(x, y, functions, p, f)
      && forall n' :: 0 <= n' < splinePoints ==>
           NodalSlice(y, functions, p, f)(n') == NodalSlice(x, functions, p, f)(n') + (if n' == n then amount else 0.0)
    }

    lemma NothingGrew(x: seq<real>, functions: nat, p: int, n: int, f: int)
      ensures EntryGrew(x, x, functions, p, n, f, 0.0)
    {
    }

    lemma GrewTwice(x: seq<real>, y: seq<real>, z: seq<real>, functions: nat, p: int, n: int, f: int, a: real, b: real)
      requires EntryGrew(x, y, functions, p, n, f, a) && EntryGrew(y, z, functions, p, n, f, b)
      ensures EntryGrew(x, z, functions, p, n, f, a + b)
    {
    }

    /** Writing one entry of the slice of (p, f). */
    lemma SliceWritten(x: seq<real>, functions: nat, p: int, n: int, f: int, value: real)
      requires 0 <= n < splinePoints && 0 <= f < functions
      requires 0 <= NodalIndex(functions, p, n, f) < |x|
      ensures var y := x[NodalIndex(functions, p, n, f) := value];
              && OnlySliceChanged(x, y, functions, p, f)
              && NodalSlice(y, functions, p, f)(n) == value
              && forall n' :: 0 <= n' < splinePoints && n' != n ==>
                   NodalSlice(y, functions, p, f)(n') == NodalSlice(x, functions, p, f)(n')
    {
      var y := x[NodalIndex(functions, p, n, f) := value];
      forall p', n', f' | 0 <= n' < splinePoints && 0 <= f' < functions && (p', n', f') != (p, n, f)
        ensures NodalIndex(functions, p', n', f') != NodalIndex(functions, p, n, f)
      {
        if NodalIndex(functions, p', n', f') == NodalIndex(functions, p, n, f) {
          NodalIndexInjective(functions, p', n', f', p, n, f);
        }
      }
    }

    /** Adds `amount` to node n of function f of pair p, in place. */
    method Accumulate(nodal: array<real>, functions: nat, p: int, n: int, f: int, amount: real)
      requires 0 <= n < splinePoints && 0 <= f < functions
      requires 0 <= NodalIndex(functions, p, n, f) < nodal.Length
      modifies nodal
      ensures EntryGrew(old(nodal[..]), nodal[..], functions, p, n, f, amount)
    {
      ghost var x := nodal[..];
      var k := (p * splinePoints + n) * functions + f;
      SliceWritten(x, functions, p, n, f, nodal[k] + amount);
      nodal[k] := nodal[k] + amount;
      assert nodal[..] == x[k := x[k] + amount];
    }

    /** One interval of one pair and function: four coefficient adjoints onto two nodes (compact_radial.cpp:474-481). */
    method ScatterInterval(c: PieceAdjoint, pairs: nat, functions: nat, p: nat, interval: nat, f: nat,
                           nodal: array<real>, slopeAdjoints: array<real>)
      requires h > 0.0 && p < pairs && f < functions && interval < splinePoints - 1 && nodal != slopeAdjoints
      requires nodal.Length == pairs * splinePoints * functions && slopeAdjoints.Length == splinePoints
      modifies nodal, slopeAdjoints
      ensures OnlySliceChanged(old(nodal[..]), nodal[..], functions, p, f)
      ensures forall n :: 0 <= n < splinePoints ==>
                (NodalSlice(nodal[..], functions, p, f)(n)
              == old(NodalSlice(nodal[..], functions, p, f))(n)
                 + (if n == interval then c.LeftValue(h) else if n == interval + 1 then c.RightValue(h) else 0.0))
      ensures forall n :: 0 <= n < splinePoints ==>
                (slopeAdjoints[n] == old(slopeAdjoints[n])
                 + (if n == interval then c.LeftSlope(h) else if n == interval + 1 then c.RightSlope(h) else 0.0))
    {
      NodalIndexBound(pairs, functions, p, interval, f);
      NodalIndexBound(pairs, functions, p, interval + 1, f);
      var lv, rv, ls, rs := c.LeftValue(h), c.RightValue(h), c.LeftSlope(h), c.RightSlope(h);
      Accumulate(nodal, functions, p, interval, f, lv);
      Accumulate(nodal, functions, p, interval + 1, f, rv);
      slopeAdjoints[interval] := slopeAdjoints[interval] + ls;
      slopeAdjoints[interval + 1] := slopeAdjoints[interval + 1] + rs;
    }

    method CoefficientAdjoints(adjoints: seq<real>, pairs: nat, functions: nat, p: nat, interval: nat, f: nat)
      returns (c: PieceAdjoint)
      requires p < pairs && f < functions && interval < splinePoints - 1
      requires |adjoints| == pairs * (splinePoints - 1) * 4 * functions
      ensures c == PairAdjoint(adjoints, functions, p, f)(interval)
    {
      CoefficientIndexBound(pairs, functions, p, interval, 0, f);
      CoefficientIndexBound(pairs, functions, p, interval, 1, f);
      CoefficientIndexBound(pairs, functions, p, interval, 2, f);
      CoefficientIndexBound(pairs, functions, p, interval, 3, f);
      var intervals := splinePoints - 1;
      c := PieceAdjoint(adjoints[((p * intervals + interval) * 4 + 0) * functions + f],
                        adjoints[((p * intervals + interval) * 4 + 1) * functions + f],
                        adjoints[((p * intervals + interval) * 4 + 2) * functions + f],
                        adjoints[((p * intervals + interval) * 4 + 3) * functions + f]);
    }

    /** The interval loop for one pair and function (compact_radial.cpp:473-482). */
    method ScatterIntervals(adjoints: seq<real>, pairs: nat, functions: nat, p: nat, f: nat,
                            nodal: array<real>, slopeAdjoints: array<real>)
      requires h > 0.0 && splinePoints >= 4 && p < pairs && f < functions && nodal != slopeAdjoints
      requires |adjoints| == pairs * (splinePoints - 1) * 4 * functions
      requires nodal.Length == pairs * splinePoints * functions && slopeAdjoints.Length == splinePoints
      requires forall n :: 0 <= n < splinePoints ==> NodalSlice(nodal[..], functions, p, f)(n) == 0.0
      requires forall n :: 0 <= n < splinePoints ==> slopeAdjoints[n] == 0.0
      modifies nodal, slopeAdjoints
      ensures OnlySliceChanged(old(nodal[..]), nodal[..], functions, p, f)
      ensures var g := PairAdjoint(adjoints, functions, p, f);
              forall n :: 0 <= n < splinePoints ==>
                && NodalSlice(nodal[..], functions, p, f)(n) == DirectAdjoint(h, g, splinePoints)(n)
                && slopeAdjoints[n] == SlopeAdjoint(h, g, splinePoints)(n)
    {
      ghost var g := PairAdjoint(adjoints, functions, p, f);
      ghost var lv, rv, ls, rs := LeftValues(h, g), RightValues(h, g), LeftSlopes(h, g), RightSlopes(h, g);
      for interval := 0 to splinePoints - 1
        invariant OnlySliceChanged(old(nodal[..]), nodal[..], functions, p, f)
        invariant forall n :: 0 <= n < splinePoints ==>
                    NodalSlice(nodal[..], functions, p, f)(n) == Collected(lv, rv, interval)(n)
        invariant forall n :: 0 <= n < splinePoints ==> slopeAdjoints[n] == Collected(ls, rs, interval)(n)
      {
        var c := CoefficientAdjoints(adjoints, pairs, functions, p, interval, f);
        assert c.LeftValue(h) == lv(interval) && c.RightValue(h) == rv(interval);
        assert c.LeftSlope(h) == ls(interval) && c.RightSlope(h) == rs(interval);
        ScatterInterval(c, pairs, functions, p, interval, f, nodal, slopeAdjoints);
        forall n | 0 <= n < splinePoints
          ensures NodalSlice(nodal[..], functions, p, f)(n) == Collected(lv, rv, interval + 1)(n)
          ensures slopeAdjoints[n] == Collected(ls, rs, interval + 1)(n)
        {
          CollectedStep(lv, rv, interval, n);
          CollectedStep(ls, rs, interval, n);
        }
      }
    }

    /** What the slopes' adjoints contribute to input node k. */
    static ghost function PulledTerms(a: (int, int) -> real, w: int -> real, k: int): int -> real {
      o => a(o, k) * w(o)
    }

    /** One row of the product with the transposed solver matrix (compact_radial.cpp:484-487). */
    method PullSlopesTo(functions: nat, p: nat, f: nat, inputNode: nat, nodal: array<real>,
                        slopeAdjoints: array<real>)
      requires Valid() && HoldsMatrix(splineDerivativeOperator, splinePoints)
      requires f < functions && inputNode < splinePoints && nodal != slopeAdjoints
      requires 0 <= NodalIndex(functions, p, inputNode, f) < nodal.Length && slopeAdjoints.Length == splinePoints
      modifies nodal
      ensures EntryGrew(old(nodal[..]), nodal[..], functions, p, inputNode, f,
                        Pulled(splinePoints, SolverMatrix(h, splinePoints), Entries(slopeAdjoints[..]))(inputNode))
    {
      ghost var w := Entries(slopeAdjoints[..]);
      ghost var terms := PulledTerms(SolverMatrix(h, splinePoints), w, inputNode);
      NothingGrew(nodal[..], functions, p, inputNode, f);
      for outputNode := 0 to splinePoints
        invariant EntryGrew(old(nodal[..]), nodal[..], functions, p, inputNode, f, Sum(outputNode, terms))
      {
        SumStep(outputNode, terms, terms(outputNode));
        PullEntry(functions, p, f, inputNode, outputNode, nodal, slopeAdjoints[outputNode], old(nodal[..]),
                  Sum(outputNode, terms), w);
      }
    }

    /** One term of that product. */
    method PullEntry(functions: nat, p: nat, f: nat, inputNode: nat, outputNode: nat, nodal: array<real>,
                     slopeAdjoint: real, ghost start: seq<real>, ghost sum: real, ghost w: int -> real)
      requires Valid() && HoldsMatrix(splineDerivativeOperator, splinePoints)
      requires f < functions && inputNode < splinePoints && outputNode < splinePoints && slopeAdjoint == w(outputNode)
      requires 0 <= NodalIndex(functions, p, inputNode, f) < nodal.Length
      requires EntryGrew(start, nodal[..], functions, p, inputNode, f, sum)
      modifies nodal
      ensures EntryGrew(start, nodal[..], functions, p, inputNode, f,
                        sum + PulledTerms(SolverMatrix(h, splinePoints), w, inputNode)(outputNode))
    {
      var amount := SlopeTerm(inputNode, outputNode, slopeAdjoint, w);
      ghost var before := nodal[..];
      Accumulate(nodal, functions, p, inputNode, f, amount);
      GrewTwice(start, before, nodal[..], functions, p, inputNode, f, sum, amount);
    }

    /** One entry of the operator times one slope adjoint. */
    method SlopeTerm(inputNode: nat, outputNode: nat, slopeAdjoint: real, ghost w: int -> real) returns (amount: real)
      requires Valid() && HoldsMatrix(splineDerivativeOperator, splinePoints)
      requires inputNode < splinePoints && outputNode < splinePoints && slopeAdjoint == w(outputNode)
      ensures amount == PulledTerms(SolverMatrix(h, splinePoints), w, inputNode)(outputNode)
    {
      OffsetBound(outputNode, splinePoints, splinePoints, inputNode);
      var entry := splineDerivativeOperator[outputNode * splinePoints + inputNode];
      assert entry == At(splineDerivativeOperator, Offset(outputNode, splinePoints, inputNode));
      amount := entry * slopeAdjoint;
    }

    lemma SumStep(n: nat, f: int -> real, v: real)
      requires f(n) == v
      ensures Sum(n + 1, f) == Sum(n, f) + v
    {
    }

    /** The product with the transposed solver matrix for one pair and function (compact_radial.cpp:483-487). */
    method PullSlopes(pairs: nat, functions: nat, p: nat, f: nat, nodal: array<real>, slopeAdjoints: array<real>)
      requires Valid() && HoldsMatrix(splineDerivativeOperator, splinePoints)
      requires p < pairs && f < functions && nodal != slopeAdjoints
      requires nodal.Length == pairs * splinePoints * functions && slopeAdjoints.Length == splinePoints
      modifies nodal
      ensures OnlySliceChanged(old(nodal[..]), nodal[..], functions, p, f)
      ensures forall n :: 0 <= n < splinePoints ==>
                (NodalSlice(nodal[..], functions, p, f)(n)
              == old(NodalSlice(nodal[..], functions, p, f))(n)
                 + Pulled(splinePoints, SolverMatrix(h, splinePoints), Entries(slopeAdjoints[..]))(n))
    {
      ghost var before := NodalSlice(nodal[..], functions, p, f);
      ghost var pulled := Pulled(splinePoints, SolverMatrix(h, splinePoints), Entries(slopeAdjoints[..]));
      for inputNode := 0 to splinePoints
        invariant slopeAdjoints[..] == old(slopeAdjoints[..])
        invariant OnlySliceChanged(old(nodal[..]), nodal[..], functions, p, f)
        invariant forall n :: 0 <= n < inputNode ==>
                    NodalSlice(nodal[..], functions, p, f)(n) == before(n) + pulled(n)
        invariant forall n :: inputNode <= n < splinePoints ==> NodalSlice(nodal[..], functions, p, f)(n) == before(n)
      {
        NodalIndexBound(pairs, functions, p, inputNode, f);
        PullSlopesTo(functions, p, f, inputNode, nodal, slopeAdjoints);
      }
    }

    /** The slice of pair p and function f holds the transpose of its coefficient adjoints. */
    ghost predicate Transposed(adjoints: seq<real>, nodal: seq<real>, functions: nat, p: int, f: int)
      requires h > 0.0 && splinePoints >= 4
    {
      var target := NodalAdjoint(h, PairAdjoint(adjoints, functions, p, f), splinePoints);
      forall n :: 0 <= n < splinePoints ==> NodalSlice(nodal, functions, p, f)(n) == target(n)
    }

    ghost predicate Untouched(nodal: seq<real>, functions: nat, p: int, f: int) {
      forall n :: 0 <= n < splinePoints ==> NodalSlice(nodal, functions, p, f)(n) == 0.0
    }

    lemma OtherSlices(adjoints: seq<real>, x: seq<real>, y: seq<real>, functions: nat, p: nat, f: nat, p': int, f': int)
      requires h > 0.0 && splinePoints >= 4
      requires OnlySliceChanged(x, y, functions, p, f) && 0 <= f' < functions && (p', f') != (p, f)
      ensures Transposed(adjoints, x, functions, p', f') ==> Transposed(adjoints, y, functions, p', f')
      ensures Untouched(x, functions, p', f') ==> Untouched(y, functions, p', f')
    {
      forall n | 0 <= n < splinePoints
        ensures NodalSlice(y, functions, p', f')(n) == NodalSlice(x, functions, p', f')(n)
      {
        assert At(y, NodalIndex(functions, p', n, f')) == At(x, NodalIndex(functions, p', n, f'));
      }
    }

    method TransposePair(adjoints: seq<real>, pairs: nat, functions: nat, p: nat, f: nat,
                         nodal: array<real>, slopeAdjoints: array<real>)
      requires Valid() && HoldsMatrix(splineDerivativeOperator, splinePoints)
      requires p < pairs && f < functions && nodal != slopeAdjoints
      requires |adjoints| == pairs * (splinePoints - 1) * 4 * functions
      requires nodal.Length == pairs * splinePoints * functions && slopeAdjoints.Length == splinePoints
      requires Untouched(nodal[..], functions, p, f)
      modifies nodal, slopeAdjoints
      ensures OnlySliceChanged(old(nodal[..]), nodal[..], functions, p, f)
      ensures Transposed(adjoints, nodal[..], functions, p, f)
    {
      forall n | 0 <= n < splinePoints {
        slopeAdjoints[n] := 0.0;
      }
      assert nodal[..] == old(nodal[..]);
      ScatterIntervals(adjoints, pairs, functions, p, f, nodal, slopeAdjoints);
      ghost var g := PairAdjoint(adjoints, functions, p, f);
      ghost var a, w, w' := SolverMatrix(h, splinePoints), Entries(slopeAdjoints[..]), SlopeAdjoint(h, g, splinePoints);
      PullSlopes(pairs, functions, p, f, nodal, slopeAdjoints);
      forall n | 0 <= n < splinePoints
        ensures Pulled(splinePoints, a, w)(n) == Pulled(splinePoints, a, w')(n)
      {
        PulledCong(splinePoints, a, w, w', n);
      }
    }

    lemma TransposedPairs(adjoints: seq<real>, nodal: seq<real>, functions: nat, p: int, f: int, v: seq<real>)
      requires h > 0.0 && splinePoints >= 4 && |v| == splinePoints
      requires Transposed(adjoints, nodal, functions, p, f)
      ensures PairsAsTranspose(adjoints, nodal, functions, p, f, v)
    {
      var g := PairAdjoint(adjoints, functions, p, f);
      TransposeIsAdjoint(h, g, v);
      InnerCong(splinePoints, NodalSlice(nodal, functions, p, f), Entries(v), NodalAdjoint(h, g, splinePoints),
                Entries(v));
    }

    // ---------------------------------------------------------------- the same on flat buffers

    /** The table of pair p and function f in a flat buffer of node values: node n stands at
        (p * splinePoints + n) * functions + f. */
    ghost function TableOf(v: seq<real>, functions: nat, p: int, f: int): (t: seq<real>)
      ensures |t| == splinePoints
    {
      seq(splinePoints, n => At(v, (p * splinePoints + n) * functions + f))
    }

    /** The flat buffer c holds the pieces of the spline through the table: coefficient `order` of interval i stands at
        ((p * (splinePoints - 1) + i) * 4 + order) * functions + f. */
    ghost predicate HoldsPieces(c: seq<real>, v: seq<real>, functions: nat, p: int, f: int)
      requires h > 0.0 && splinePoints >= 4
    {
      var t := TableOf(v, functions, p, f);
      forall i :: 0 <= i < splinePoints - 1 ==> HoldsPiece(c, functions, p, f, i, HermitePiece(h, t, Slopes(h, t), i))
    }

    ghost predicate HoldsPiece(c: seq<real>, functions: nat, p: int, f: int, i: int, piece: CubicSplines.Cubic) {
      && At(c, ((p * (splinePoints - 1) + i) * 4 + 0) * functions + f) == piece.c0
      && At(c, ((p * (splinePoints - 1) + i) * 4 + 1) * functions + f) == piece.c1
      && At(c, ((p * (splinePoints - 1) + i) * 4 + 2) * functions + f) == piece.c2
      && At(c, ((p * (splinePoints - 1) + i) * 4 + 3) * functions + f) == piece.c3
    }

    /** c holds the coefficients of the splines through all tables of v. */
    ghost predicate HoldsSplines(c: seq<real>, v: seq<real>, pairs: nat, functions: nat)
      requires h > 0.0 && splinePoints >= 4
    {
      && |v| == pairs * splinePoints * functions && |c| == pairs * (splinePoints - 1) * 4 * functions
      && forall p, f :: 0 <= p < pairs && 0 <= f < functions ==> HoldsPieces(c, v, functions, p, f)
    }

    /** The result pairs with every table as the coefficient adjoints pair with its spline. */
    ghost predicate PairsAsTranspose(adjoints: seq<real>, nodal: seq<real>, functions: nat, p: int, f: int,
                                     v: seq<real>)
      requires h > 0.0 && splinePoints >= 4 && |v| == splinePoints
    {
      SplinePairing(h, PairAdjoint(adjoints, functions, p, f), v)
      == Inner(splinePoints, NodalSlice(nodal, functions, p, f), Entries(v))
    }

    /** The pairings of all functions of pair p, and of all pairs. */
    ghost function TablePairings(adjoints: seq<real>, v: seq<real>, functions: nat, p: int): int -> real
      requires h > 0.0 && splinePoints >= 4
    {
      f => SplinePairing(h, PairAdjoint(adjoints, functions, p, f), TableOf(v, functions, p, f))
    }

    ghost function AllPairings(adjoints: seq<real>, v: seq<real>, functions: nat): int -> real
      requires h > 0.0 && splinePoints >= 4
    {
      p => Sum(functions, TablePairings(adjoints, v, functions, p))
    }

    /** Pairing the flat buffers pairs every table's spline with its adjoints. */
    lemma CoefficientDot(adjoints: seq<real>, c: seq<real>, v: seq<real>, pairs: nat, functions: nat)
      requires h > 0.0 && splinePoints >= 4 && HoldsSplines(c, v, pairs, functions) && |adjoints| == |c|
      ensures Dot(adjoints, c) == Sum(pairs, AllPairings(adjoints, v, functions))
    {
      var rows, x := (splinePoints - 1) * 4, Terms(adjoints, c);
      BlockSum(pairs, rows, functions, x);
      forall p | 0 <= p < pairs ensures BlockTotals(x, rows, functions)(p) == AllPairings(adjoints, v, functions)(p) {
        CoefficientBlock(adjoints, c, v, pairs, functions, p, rows);
      }
      SumCong(pairs, BlockTotals(x, rows, functions), AllPairings(adjoints, v, functions));
      FlatLength(pairs, rows, functions);
      FlatDot(adjoints, c, pairs * rows * functions);
    }

    lemma CoefficientBlock(adjoints: seq<real>, c: seq<real>, v: seq<real>, pairs: nat, functions: nat, p: int,
                           rows: nat)
      requires h > 0.0 && splinePoints >= 4 && HoldsSplines(c, v, pairs, functions) && 0 <= p < pairs
      requires rows == (splinePoints - 1) * 4
      ensures BlockTotals(Terms(adjoints, c), rows, functions)(p) == AllPairings(adjoints, v, functions)(p)
    {
      forall f | 0 <= f < functions
        ensures ColumnTotal(Terms(adjoints, c), rows, functions, p, f) == TablePairings(adjoints, v, functions, p)(f)
      {
        CoefficientColumn(adjoints, c, v, functions, p, f, rows);
      }
      SumCong(functions, f => ColumnTotal(Terms(adjoints, c), rows, functions, p, f),
              TablePairings(adjoints, v, functions, p));
    }

    /** All of it as two flat inner products. */
    lemma FlatPairing(adjoints: seq<real>, nodal: seq<real>, c: seq<real>, v: seq<real>, pairs: nat, functions: nat)
      requires h > 0.0 && splinePoints >= 4 && HoldsSplines(c, v, pairs, functions)
      requires |adjoints| == |c| && |nodal| == |v|
      requires forall p, f :: 0 <= p < pairs && 0 <= f < functions ==>
                 PairsAsTranspose(adjoints, nodal, functions, p, f, TableOf(v, functions, p, f))
      ensures Dot(adjoints, c) == Dot(nodal, v)
    {
      CoefficientDot(adjoints, c, v, pairs, functions);
      BlockSum(pairs, splinePoints, functions, Terms(nodal, v));
      forall p | 0 <= p < pairs
        ensures AllPairings(adjoints, v, functions)(p) == BlockTotals(Terms(nodal, v), splinePoints, functions)(p)
      {
        NodalBlock(adjoints, nodal, v, pairs, functions, p);
      }
      SumCong(pairs, AllPairings(adjoints, v, functions), BlockTotals(Terms(nodal, v), splinePoints, functions));
      FlatDot(nodal, v, pairs * splinePoints * functions);
    }

    lemma NodalBlock(adjoints: seq<real>, nodal: seq<real>, v: seq<real>, pairs: nat, functions: nat, p: int)
      requires h > 0.0 && splinePoints >= 4 && 0 <= p < pairs
      requires forall p, f :: 0 <= p < pairs && 0 <= f < functions ==>
                 PairsAsTranspose(adjoints, nodal, functions, p, f, TableOf(v, functions, p, f))
      ensures AllPairings(adjoints, v, functions)(p) == BlockTotals(Terms(nodal, v), splinePoints, functions)(p)
    {
      forall f | 0 <= f < functions
        ensures TablePairings(adjoints, v, functions, p)(f)
             == ColumnTotal(Terms(nodal, v), splinePoints, functions, p, f)
      {
        NodalColumn(nodal, v, functions, p, f);
        assert PairsAsTranspose(adjoints, nodal, functions, p, f, TableOf(v, functions, p, f));
      }
      SumCong(functions, TablePairings(adjoints, v, functions, p),
              f => ColumnTotal(Terms(nodal, v), splinePoints, functions, p, f));
    }

    static lemma FlatDot(x: seq<real>, y: seq<real>, n: nat)
      requires n == |x| == |y|
      ensures Dot(x, y) == Sum(n, Terms(x, y))
    {
      var e, f := Entries(x), Entries(y);
      SumCong(n, i => e(i) * f(i), Terms(x, y));
    }

    lemma FlatLength(pairs: nat, rows: nat, functions: nat)
      requires splinePoints >= 4 && rows == (splinePoints - 1) * 4
      ensures pairs * (splinePoints - 1) * 4 * functions == pairs * rows * functions
    {
      assert pairs * (splinePoints - 1) * 4 == pairs * rows;
    }

    /** The terms of an inner product. */
    static ghost function Terms(x: seq<real>, y: seq<real>): int -> real {
      i => At(x, i) * At(y, i)
    }

    lemma NodalColumn(nodal: seq<real>, v: seq<real>, functions: nat, p: int, f: int)
      ensures ColumnTotal(Terms(nodal, v), splinePoints, functions, p, f)
           == Inner(splinePoints, NodalSlice(nodal, functions, p, f), Entries(TableOf(v, functions, p, f)))
    {
      var y, slice, table := Terms(nodal, v), NodalSlice(nodal, functions, p, f), TableOf(v, functions, p, f);
      forall n | 0 <= n < splinePoints
        ensures BlockColumn(y, splinePoints, functions, p, f)(n) == slice(n) * Entries(table)(n)
      {
        assert NodalIndex(functions, p, n, f) == (p * splinePoints + n) * functions + f;
      }
      SumCong(splinePoints, BlockColumn(y, splinePoints, functions, p, f), n => slice(n) * Entries(table)(n));
    }

    lemma CoefficientColumn(adjoints: seq<real>, c: seq<real>, v: seq<real>, functions: nat, p: int, f: int, rows: nat)
      requires h > 0.0 && splinePoints >= 4 && rows == (splinePoints - 1) * 4 && HoldsPieces(c, v, functions, p, f)
      ensures ColumnTotal(Terms(adjoints, c), rows, functions, p, f)
           == SplinePairing(h, PairAdjoint(adjoints, functions, p, f), TableOf(v, functions, p, f))
    {
      var intervals, x := splinePoints - 1, Terms(adjoints, c);
      var g, t := PairAdjoint(adjoints, functions, p, f), TableOf(v, functions, p, f);
      var column := BlockColumn(x, rows, functions, p, f);
      FlatSum(intervals, 4, column);
      forall i | 0 <= i < intervals ensures RowTotals(column, 4)(i) == PieceTerms(h, g, t)(i) {
        OneInterval(adjoints, c, functions, p, f, i, HermitePiece(h, t, Slopes(h, t), i));
        IntervalTerms(adjoints, c, functions, p, f, i, rows, column);
      }
      SumCong(intervals, RowTotals(column, 4), PieceTerms(h, g, t));
    }

    /** The four terms of one interval. */
    ghost function OrderTerms(adjoints: seq<real>, c: seq<real>, functions: nat, p: int, f: int, i: int): int -> real {
      o => Terms(adjoints, c)(CoefficientIndex(functions, p, i, o, f))
    }

    lemma IntervalTerms(adjoints: seq<real>, c: seq<real>, functions: nat, p: int, f: int, i: int, rows: nat,
                        column: int -> real)
      requires splinePoints >= 4 && rows == (splinePoints - 1) * 4
      requires column == BlockColumn(Terms(adjoints, c), rows, functions, p, f)
      ensures RowTotals(column, 4)(i) == Sum(4, OrderTerms(adjoints, c, functions, p, f, i))
    {
      forall o: int ensures column(Offset(i, 4, o)) == OrderTerms(adjoints, c, functions, p, f, i)(o) {
        SameRow(p, i, o, rows);
        var k, row := Offset(i, 4, o), Offset(Offset(p, splinePoints - 1, i), 4, o);
        ColumnAt(Terms(adjoints, c), rows, functions, p, f, k, row);
        OrderTermAt(adjoints, c, functions, p, f, i, o, row);
      }
      SumCong(4, o => column(Offset(i, 4, o)), OrderTerms(adjoints, c, functions, p, f, i));
    }

    lemma OrderTermAt(adjoints: seq<real>, c: seq<real>, functions: nat, p: int, f: int, i: int, o: int, row: int)
      requires row == Offset(Offset(p, splinePoints - 1, i), 4, o)
      ensures OrderTerms(adjoints, c, functions, p, f, i)(o) == Terms(adjoints, c)(Offset(row, functions, f))
    {
      assert CoefficientIndex(functions, p, i, o, f) == Offset(row, functions, f);
    }

    lemma SameRow(p: int, i: int, o: int, rows: nat)
      requires splinePoints >= 4 && rows == (splinePoints - 1) * 4
      ensures Offset(p, rows, Offset(i, 4, o)) == Offset(Offset(p, splinePoints - 1, i), 4, o)
    {
      assert p * rows == p * (splinePoints - 1) * 4;
    }

    lemma CoefficientPosition(functions: nat, p: int, i: int, o: int, f: int)
      ensures CoefficientIndex(functions, p, i, o, f) == ((p * (splinePoints - 1) + i) * 4 + o) * functions + f
    {
    }

    lemma OneInterval(adjoints: seq<real>, c: seq<real>, functions: nat, p: int, f: int, i: int,
                      piece: CubicSplines.Cubic)
      requires splinePoints >= 4 && HoldsPiece(c, functions, p, f, i, piece)
      ensures Sum(4, OrderTerms(adjoints, c, functions, p, f, i))
           == PairAdjoint(adjoints, functions, p, f)(i).Pair(piece)
    {
      PieceEntries(c, functions, p, f, i, piece);
      PairTerms(adjoints, c, functions, p, f, i, piece);
      FourTerms(OrderTerms(adjoints, c, functions, p, f, i));
    }

    lemma PieceEntries(c: seq<real>, functions: nat, p: int, f: int, i: int, piece: CubicSplines.Cubic)
      requires splinePoints >= 4 && HoldsPiece(c, functions, p, f, i, piece)
      ensures At(c, CoefficientIndex(functions, p, i, 0, f)) == piece.c0
      ensures At(c, CoefficientIndex(functions, p, i, 1, f)) == piece.c1
      ensures At(c, CoefficientIndex(functions, p, i, 2, f)) == piece.c2
      ensures At(c, CoefficientIndex(functions, p, i, 3, f)) == piece.c3
    {
      CoefficientPosition(functions, p, i, 0, f);
      CoefficientPosition(functions, p, i, 1, f);
      CoefficientPosition(functions, p, i, 2, f);
      CoefficientPosition(functions, p, i, 3, f);
    }

    lemma PairTerms(adjoints: seq<real>, c: seq<real>, functions: nat, p: int, f: int, i: int,
                    piece: CubicSplines.Cubic)
      requires At(c, CoefficientIndex(functions, p, i, 0, f)) == piece.c0
      requires At(c, CoefficientIndex(functions, p, i, 1, f)) == piece.c1
      requires At(c, CoefficientIndex(functions, p, i, 2, f)) == piece.c2
      requires At(c, CoefficientIndex(functions, p, i, 3, f)) == piece.c3
      ensures var t := OrderTerms(adjoints, c, functions, p, f, i);
              t(0) + t(1) + t(2) + t(3) == PairAdjoint(adjoints, functions, p, f)(i).Pair(piece)
    {
      var t, g := OrderTerms(adjoints, c, functions, p, f, i), PairAdjoint(adjoints, functions, p, f)(i);
      TermIs(adjoints, c, CoefficientIndex(functions, p, i, 0, f), g.c0, piece.c0);
      TermIs(adjoints, c, CoefficientIndex(functions, p, i, 1, f), g.c1, piece.c1);
      TermIs(adjoints, c, CoefficientIndex(functions, p, i, 2, f), g.c2, piece.c2);
      TermIs(adjoints, c, CoefficientIndex(functions, p, i, 3, f), g.c3, piece.c3);
    }

    static lemma TermIs(x: seq<real>, y: seq<real>, k: int, a: real, b: real)
      requires At(x, k) == a && At(y, k) == b
      ensures Terms(x, y)(k) == a * b
    {
    }

    static lemma FourTerms(t: int -> real)
      ensures Sum(4, t) == t(0) + t(1) + t(2) + t(3)
    {
      assert Sum(1, t) == t(0) && Sum(2, t) == Sum(1, t) + t(1) && Sum(3, t) == Sum(2, t) + t(2);
    }

    /** The whole transpose: for every pair, every function and every table of node values v, pairing the coefficient
        adjoints with the coefficients of v equals pairing the result with v; and so do the flat buffers, for every
        buffer c of spline coefficients and the buffer v of the tables they come from. */
    method TransposeSplineCoefficients(adjoints: seq<real>, pairCount: int, functionCount: int)
      returns (result: Result<seq<real>, RadialError>)
      requires Valid()
      modifies this`splineDerivativeOperator
      ensures Valid()
      ensures result.Err? <==> pairCount < 0 || functionCount <= 0
                               || |adjoints| != pairCount * (splinePoints - 1) * 4 * functionCount
      ensures result.Ok? ==> |result.value| == pairCount * splinePoints * functionCount
      ensures result.Ok? ==> forall p, f, v: seq<real> ::
                0 <= p < pairCount && 0 <= f < functionCount && |v| == splinePoints ==>
                PairsAsTranspose(adjoints, result.value, functionCount, p, f, v)
      ensures result.Ok? ==> forall c, v: seq<real> ::
                HoldsSplines(c, v, pairCount, functionCount) ==> Dot(adjoints, c) == Dot(result.value, v)
    {
      if pairCount < 0 || functionCount <= 0 || |adjoints| != pairCount * (splinePoints - 1) * 4 * functionCount {
        return Err(InvalidArgument);
      }
      EnsureDerivativeOperator();
      ProductNonNegative(pairCount, splinePoints);
      ProductNonNegative(pairCount * splinePoints, functionCount);
      var nodal := new real[pairCount * splinePoints * functionCount](_ => 0.0);
      var slopeAdjoints := new real[splinePoints](_ => 0.0);
      for pair := 0 to pairCount
        invariant Valid() && HoldsMatrix(splineDerivativeOperator, splinePoints)
        invariant forall p, f :: 0 <= p < pair && 0 <= f < functionCount ==>
                    Transposed(adjoints, nodal[..], functionCount, p, f)
        invariant forall p, f :: pair <= p < pairCount && 0 <= f < functionCount ==>
                    Untouched(nodal[..], functionCount, p, f)
      {
        for function_ := 0 to functionCount
          invariant Valid() && HoldsMatrix(splineDerivativeOperator, splinePoints)
          invariant forall p, f :: 0 <= f < functionCount && (0 <= p < pair || (p == pair && f < function_)) ==>
                      Transposed(adjoints, nodal[..], functionCount, p, f)
          invariant forall p, f :: 0 <= f < functionCount && (pair < p < pairCount || (p == pair && f >= function_)) ==>
                      Untouched(nodal[..], functionCount, p, f)
        {
          ghost var x := nodal[..];
          TransposePair(adjoints, pairCount, functionCount, pair, function_, nodal, slopeAdjoints);
          forall p, f | 0 <= f < functionCount && (p, f) != (pair, function_)
            ensures Transposed(adjoints, x, functionCount, p, f) ==>
                      Transposed(adjoints, nodal[..], functionCount, p, f)
            ensures Untouched(x, functionCount, p, f) ==> Untouched(nodal[..], functionCount, p, f)
          {
            OtherSlices(adjoints, x, nodal[..], functionCount, pair, function_, p, f);
          }
        }
      }
      forall p, f, v: seq<real> | 0 <= p < pairCount && 0 <= f < functionCount && |v| == splinePoints
        ensures PairsAsTranspose(adjoints, nodal[..], functionCount, p, f, v)
      {
        TransposedPairs(adjoints, nodal[..], functionCount, p, f, v);
      }
      forall c, v: seq<real> | HoldsSplines(c, v, pairCount, functionCount)
        ensures Dot(adjoints, c) == Dot(nodal[..], v)
      {
        FlatPairing(adjoints, nodal[..], c, v, pairCount, functionCount);
      }
      result := Ok(nodal[..]);
    }
  }
}
