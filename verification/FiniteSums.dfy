/** Finite sums of real-valued index functions, and the bilinear algebra the adjoint proofs rest on. */
module FiniteSums {

  /** f(0) + f(1) + ... + f(n-1) */
  ghost function Sum(n: nat, f: int -> real): real {
    if n == 0 then 0.0 else Sum(n - 1, f) + f(n - 1)
  }

  /** Total element access: 0 outside the sequence, so that index functions need no precondition. */
  ghost function At(x: seq<real>, i: int): real {
    if 0 <= i < |x| then x[i] else 0.0
  }

  /** The entries of x as an index function. */
  ghost function Entries(x: seq<real>): int -> real {
    i => At(x, i)
  }

  /** Inner product of the first n entries. */
  ghost function Inner(n: nat, f: int -> real, g: int -> real): real {
    Sum(n, i => f(i) * g(i))
  }

  ghost function Dot(x: seq<real>, y: seq<real>): real {
    Inner(|x|, Entries(x), Entries(y))
  }

  /** Matrix a (n columns) times x. */
  ghost function Applied(n: nat, a: (int, int) -> real, x: int -> real): int -> real {
    i => Sum(n, j => a(i, j) * x(j))
  }

  /** Transpose of a (m rows) times w. */
  ghost function Pulled(m: nat, a: (int, int) -> real, w: int -> real): int -> real {
    j => Sum(m, i => a(i, j) * w(i))
  }

  lemma {:induction false} SumCong(n: nat, f: int -> real, g: int -> real)
    requires forall i :: 0 <= i < n ==> f(i) == g(i)
    ensures Sum(n, f) == Sum(n, g)
  {
    if n == 0 {
    } else {
      SumCong(n - 1, f, g);
    }
  }

  lemma {:induction false} SumAdd(n: nat, f: int -> real, g: int -> real)
    ensures Sum(n, i => f(i) + g(i)) == Sum(n, f) + Sum(n, g)
  {
    if n == 0 {
    } else {
      SumAdd(n - 1, f, g);
    }
  }

  /** c * (a + b) when a scaled by c is known to be s and b scaled by c to be t. */
  lemma ScaledSum(c: real, a: real, b: real, s: real, t: real)
    requires s == c * a && t == c * b
    ensures s + t == c * (a + b)
  {
  }

  lemma {:induction false} SumZero(n: nat, f: int -> real)
    requires forall i :: 0 <= i < n ==> f(i) == 0.0
    ensures Sum(n, f) == 0.0
  {
    if n == 0 {
    } else {
      SumZero(n - 1, f);
    }
  }

  lemma OneMore(n: real, m: real, c: real)
    requires n == m + 1.0
    ensures n * c == m * c + c
  {
  }

  lemma {:induction false} SumConst(n: nat, c: real, f: int -> real)
    requires forall i :: 0 <= i < n ==> f(i) == c
    ensures Sum(n, f) == n as real * c
  {
    if n == 0 {
    } else {
      SumConst(n - 1, c, f);
      OneMore(n as real, (n - 1) as real, c);
    }
  }

  /** A sum whose terms vanish except possibly at k. */
  lemma {:induction false} SumSingle(n: nat, k: nat, f: int -> real)
    requires k < n
    requires forall i :: 0 <= i < n && i != k ==> f(i) == 0.0
    ensures Sum(n, f) == f(k)
  {
    if k == n - 1 {
      SumZero(n - 1, f);
    } else {
      SumSingle(n - 1, k, f);
    }
  }

  /** Changing one term changes the sum by the difference of that term. */
  lemma {:induction false} SumUpdate(n: nat, k: nat, f: int -> real, g: int -> real)
    requires k < n
    requires forall i :: 0 <= i < n && i != k ==> f(i) == g(i)
    ensures Sum(n, g) == Sum(n, f) - f(k) + g(k)
  {
    if k == n - 1 {
      SumCong(n - 1, f, g);
    } else {
      SumUpdate(n - 1, k, f, g);
    }
  }

  lemma {:induction false} SumSplit(m: nat, n: nat, f: int -> real)
    ensures Sum(m + n, f) == Sum(m, f) + Sum(n, i => f(m + i))
  {
    if n == 0 {
    } else {
      SumSplit(m, n - 1, f);
      assert Sum(m + n, f) == Sum(m + n - 1, f) + f(m + n - 1);
    }
  }

  lemma {:induction false} SumNonNegative(n: nat, f: int -> real)
    requires forall i :: 0 <= i < n ==> f(i) >= 0.0
    ensures Sum(n, f) >= 0.0
  {
    if n == 0 {
    } else {
      SumNonNegative(n - 1, f);
    }
  }

  /** Exchange of two summations. */
  lemma {:induction false} SumSwap(m: nat, n: nat, f: (int, int) -> real)
    ensures Sum(m, i => Sum(n, j => f(i, j))) == Sum(n, j => Sum(m, i => f(i, j)))
  {
    if m == 0 {
      SumZero(n, j => Sum(m, i => f(i, j)));
    } else {
      SumSwap(m - 1, n, f);
      SumAdd(n, j => Sum(m - 1, i => f(i, j)), j => f(m - 1, j));
      SumCong(n, j => Sum(m, i => f(i, j)),
              j => (k => Sum(m - 1, i => f(i, k)))(j) + (k => f(m - 1, k))(j));
      SumCong(n, j => Sum(m - 1, i => f(i, j)) + f(m - 1, j),
              j => (k => Sum(m - 1, i => f(i, k)))(j) + (k => f(m - 1, k))(j));
    }
  }

  /** A sum whose terms are c times those of another. */
  lemma {:induction false} SumScaled(n: nat, c: real, f: int -> real, r: int -> real)
    requires forall i :: 0 <= i < n ==> r(i) == c * f(i)
    ensures Sum(n, r) == c * Sum(n, f)
  {
    if n == 0 {
    } else {
      SumScaled(n - 1, c, f, r);
      ScaledSum(c, Sum(n - 1, f), f(n - 1), Sum(n - 1, r), r(n - 1));
    }
  }

  /** A sum whose terms are the sums of two others' terms. */
  lemma {:induction false} SumAdded(n: nat, f: int -> real, g: int -> real, r: int -> real)
    requires forall i :: 0 <= i < n ==> r(i) == f(i) + g(i)
    ensures Sum(n, r) == Sum(n, f) + Sum(n, g)
  {
    if n == 0 {
    } else {
      SumAdded(n - 1, f, g, r);
    }
  }

  /** A sum whose terms are a*f + b*g. */
  lemma SumLinear(n: nat, a: real, f: int -> real, b: real, g: int -> real, r: int -> real)
    requires forall i :: 0 <= i < n ==> r(i) == a * f(i) + b * g(i)
    ensures Sum(n, r) == a * Sum(n, f) + b * Sum(n, g)
  {
    var af, bg := i => a * f(i), i => b * g(i);
    SumScaled(n, a, f, af);
    SumScaled(n, b, g, bg);
    SumAdded(n, af, bg, r);
  }

  lemma {:induction false} InnerCong(n: nat, f: int -> real, g: int -> real, f': int -> real, g': int -> real)
    requires forall i :: 0 <= i < n ==> f(i) == f'(i) && g(i) == g'(i)
    ensures Inner(n, f, g) == Inner(n, f', g')
  {
    SumCong(n, i => f(i) * g(i), i => f'(i) * g'(i));
  }

  /** Changing one entry of the first factor. */
  lemma InnerUpdate(n: nat, k: nat, f: int -> real, f': int -> real, g: int -> real)
    requires k < n && forall i :: 0 <= i < n && i != k ==> f(i) == f'(i)
    ensures Inner(n, f', g) == Inner(n, f, g) - f(k) * g(k) + f'(k) * g(k)
  {
    var p, q := i => f(i) * g(i), i => f'(i) * g(i);
    forall i | 0 <= i < n && i != k ensures p(i) == q(i) {
      SameFactor(f(i), f'(i), g(i), p(i), q(i));
    }
    SumUpdate(n, k, p, q);
  }

  lemma SameFactor(f: real, f': real, g: real, p: real, q: real)
    requires f == f' && p == f * g && q == f' * g
    ensures p == q
  {
  }

  lemma PulledCong(m: nat, a: (int, int) -> real, w: int -> real, w': int -> real, j: int)
    requires forall i :: 0 <= i < m ==> w(i) == w'(i)
    ensures Pulled(m, a, w)(j) == Pulled(m, a, w')(j)
  {
    SumCong(m, i => a(i, j) * w(i), i => a(i, j) * w'(i));
  }

  /** The inner product is linear in its second argument. */
  lemma InnerLinear(n: nat, f: int -> real, a: real, g: int -> real, b: real, k: int -> real, r: int -> real)
    requires forall i :: 0 <= i < n ==> r(i) == a * g(i) + b * k(i)
    ensures Inner(n, f, r) == a * Inner(n, f, g) + b * Inner(n, f, k)
  {
    forall i | 0 <= i < n
      ensures f(i) * r(i) == a * (f(i) * g(i)) + b * (f(i) * k(i))
    {
      Distribute(f(i), a, g(i), b, k(i), r(i));
    }
    SumLinear(n, a, i => f(i) * g(i), b, i => f(i) * k(i), i => f(i) * r(i));
  }

  lemma Distribute(f: real, a: real, g: real, b: real, k: real, r: real)
    requires r == a * g + b * k
    ensures f * r == a * (f * g) + b * (f * k)
  {
  }

  lemma InnerSymmetric(n: nat, f: int -> real, g: int -> real)
    ensures Inner(n, f, g) == Inner(n, g, f)
  {
    SumCong(n, i => f(i) * g(i), i => g(i) * f(i));
  }

  /** Moving a matrix across an inner product: <w, a x> = <a^T w, x>. */
  lemma MatrixTranspose(m: nat, n: nat, a: (int, int) -> real, w: int -> real, x: int -> real)
    ensures Inner(m, w, Applied(n, a, x)) == Inner(n, Pulled(m, a, w), x)
  {
    var f := (i, j) => a(i, j) * w(i) * x(j);
    SumSwap(m, n, f);
    RowsOut(m, n, a, w, x, f);
    ColumnsOut(m, n, a, w, x, f);
  }

  lemma RowsOut(m: nat, n: nat, a: (int, int) -> real, w: int -> real, x: int -> real, f: (int, int) -> real)
    requires forall i, j :: f(i, j) == a(i, j) * w(i) * x(j)
    ensures Inner(m, w, Applied(n, a, x)) == Sum(m, i => Sum(n, j => f(i, j)))
  {
    var ax := Applied(n, a, x);
    forall i | 0 <= i < m
      ensures w(i) * ax(i) == Sum(n, j => f(i, j))
    {
      SumScaled(n, w(i), j => a(i, j) * x(j), j => f(i, j));
    }
    SumCong(m, i => w(i) * ax(i), i => Sum(n, j => f(i, j)));
  }

  lemma ColumnsOut(m: nat, n: nat, a: (int, int) -> real, w: int -> real, x: int -> real, f: (int, int) -> real)
    requires forall i, j :: f(i, j) == a(i, j) * w(i) * x(j)
    ensures Inner(n, Pulled(m, a, w), x) == Sum(n, j => Sum(m, i => f(i, j)))
  {
    var aw := Pulled(m, a, w);
    forall j | 0 <= j < n
      ensures aw(j) * x(j) == Sum(m, i => f(i, j))
    {
      SumScaled(m, x(j), i => a(i, j) * w(i), i => f(i, j));
    }
    SumCong(n, j => aw(j) * x(j), j => Sum(m, i => f(i, j)));
  }

  /** A row of a matrix-vector product, computed from slices that agree entry by entry. */
  lemma AppliedByInner(n: nat, a: (int, int) -> real, x: int -> real, i: int, f: int -> real, g: int -> real)
    requires forall t :: 0 <= t < n ==> f(t) == x(t) && g(t) == a(i, t)
    ensures Inner(n, f, g) == Applied(n, a, x)(i)
  {
    SumCong(n, t => f(t) * g(t), t => a(i, t) * x(t));
  }

  /** The same for a product with the transpose. */
  lemma PulledByInner(m: nat, a: (int, int) -> real, w: int -> real, j: int, f: int -> real, g: int -> real)
    requires forall t :: 0 <= t < m ==> f(t) == a(t, j) && g(t) == w(t)
    ensures Inner(m, f, g) == Pulled(m, a, w)(j)
  {
    SumCong(m, t => f(t) * g(t), t => a(t, j) * w(t));
  }
}
