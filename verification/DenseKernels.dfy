/** Dense matrix kernels on flat row-major buffers: the textbook products the BLAS calls stand for, and the row view
    of a batch buffer. */
module DenseKernels {
  import opened FiniteSums
  import opened FlatIndex

  /** Row s of a buffer whose rows are `width` long. */
  function Row(flat: seq<real>, width: nat, s: int): (r: seq<real>)
    ensures |r| == width
  {
    seq(width, c requires 0 <= c < width =>
      if 0 <= Offset(s, width, c) < |flat| then flat[Offset(s, width, c)] else 0.0)
  }

  lemma RowEntry(flat: seq<real>, rows: nat, width: nat, s: int, c: int)
    requires |flat| == rows * width && 0 <= s < rows && 0 <= c < width
    ensures 0 <= Offset(s, width, c) < |flat|
    ensures Row(flat, width, s)[c] == flat[Offset(s, width, c)]
  {
    OffsetBound(s, rows, width, c);
  }

  /** Row i of a matrix whose rows are ld long. */
  ghost function RowSlice(a: seq<real>, ld: nat, i: int): int -> real {
    t => At(a, Offset(i, ld, t))
  }

  /** Column j of the same. */
  ghost function ColumnSlice(a: seq<real>, ld: nat, j: int): int -> real {
    t => At(a, Offset(t, ld, j))
  }

  /** Row i of a (row length lda) times row j of b (row length ldb), over the first n columns. */
  function RowByRow(a: seq<real>, lda: nat, i: nat, b: seq<real>, ldb: nat, j: nat, n: nat): (r: real)
    requires n <= lda && n <= ldb && (i + 1) * lda <= |a| && (j + 1) * ldb <= |b|
    ensures r == Inner(n, RowSlice(a, lda, i), RowSlice(b, ldb, j))
  {
    if n == 0 then 0.0 else
      OffsetBound(i, i + 1, lda, n - 1);
      OffsetBound(j, j + 1, ldb, n - 1);
      RowByRow(a, lda, i, b, ldb, j, n - 1) + a[i * lda + n - 1] * b[j * ldb + n - 1]
  }

  /** Row i of a times column j of b, over the first n rows of b. */
  function RowByColumn(a: seq<real>, lda: nat, i: nat, b: seq<real>, ldb: nat, j: nat, n: nat): (r: real)
    requires n <= lda && j < ldb && (i + 1) * lda <= |a| && n * ldb <= |b|
    ensures r == Inner(n, ColumnSlice(b, ldb, j), RowSlice(a, lda, i))
  {
    if n == 0 then 0.0 else
      OffsetBound(i, i + 1, lda, n - 1);
      OffsetBound(n - 1, n, ldb, j);
      ProductMonotone(n - 1, n, ldb);
      RowByColumn(a, lda, i, b, ldb, j, n - 1) + b[(n - 1) * ldb + j] * a[i * lda + n - 1]
  }

  /** C = A * B^T for m rows of A and n rows of B, k columns each; B's rows may be longer than k. */
  method GemmNT(m: nat, n: nat, k: nat, a: seq<real>, b: seq<real>, ldb: nat) returns (c: seq<real>)
    requires |a| == m * k && k <= ldb && |b| == n * ldb && n > 0
    ensures |c| == m * n
    ensures forall i, j :: 0 <= i < m && 0 <= j < n ==>
              Row(c, n, i)[j] == Inner(k, RowSlice(a, k, i), RowSlice(b, ldb, j))
  {
    ProductNonNegative(m, n);
    ghost var f := (i: int, j: int) => Inner(k, RowSlice(a, k, i), RowSlice(b, ldb, j));
    c := [];
    for t := 0 to m * n
      invariant |c| == t
      invariant forall u :: 0 <= u < t ==> c[u] == f(u / n, u % n)
    {
      FlatDecoded(t, m, n);
      ProductMonotone(t / n + 1, m, k);
      ProductMonotone(t % n + 1, n, ldb);
      var value := RowByRow(a, k, t / n, b, ldb, t % n, k);
      c := c + [value];
    }
    forall i, j | 0 <= i < m && 0 <= j < n ensures Row(c, n, i)[j] == f(i, j) {
      RowEntry(c, m, n, i, j);
      OffsetDecoded(i, n, j);
    }
  }

  /** C = A * B for m rows of A (k columns) and the first n columns of B. */
  method GemmNN(m: nat, n: nat, k: nat, a: seq<real>, b: seq<real>, ldb: nat) returns (c: seq<real>)
    requires |a| == m * k && 0 < n <= ldb && |b| == k * ldb
    ensures |c| == m * n
    ensures forall i, j :: 0 <= i < m && 0 <= j < n ==>
              Row(c, n, i)[j] == Inner(k, ColumnSlice(b, ldb, j), RowSlice(a, k, i))
  {
    ProductNonNegative(m, n);
    ghost var f := (i: int, j: int) => Inner(k, ColumnSlice(b, ldb, j), RowSlice(a, k, i));
    c := [];
    for t := 0 to m * n
      invariant |c| == t
      invariant forall u :: 0 <= u < t ==> c[u] == f(u / n, u % n)
    {
      FlatDecoded(t, m, n);
      ProductMonotone(t / n + 1, m, k);
      var value := RowByColumn(a, k, t / n, b, ldb, t % n, k);
      c := c + [value];
    }
    forall i, j | 0 <= i < m && 0 <= j < n ensures Row(c, n, i)[j] == f(i, j) {
      RowEntry(c, m, n, i, j);
      OffsetDecoded(i, n, j);
    }
  }

  /** A two-dimensional view. */
  datatype Matrix = Matrix(rows: nat, cols: nat, data: seq<real>) {
    predicate Valid() { |data| == rows * cols }
  }

  /** KokkosBlas::gemm("N", "T", ...) into a view of rows x cols entries. Operands whose extents do not match are
      refused. */
  method KokkosGemmNT(a: Matrix, b: Matrix, rows: nat, cols: nat) returns (ok: bool, c: seq<real>)
    requires a.Valid() && b.Valid() && cols > 0
    ensures ok <==> a.cols == b.cols && a.rows == rows && b.rows == cols
    ensures ok ==> |c| == rows * cols
    ensures ok ==> forall i, j :: 0 <= i < rows && 0 <= j < cols ==>
              Row(c, cols, i)[j] == Inner(a.cols, RowSlice(a.data, a.cols, i), RowSlice(b.data, a.cols, j))
  {
    if a.cols != b.cols || a.rows != rows || b.rows != cols {
      return false, [];
    }
    c := GemmNT(rows, cols, a.cols, a.data, b.data, b.cols);
    ok := true;
  }

  /** KokkosBlas::gemm("N", "N", ...), with the same check. */
  method KokkosGemmNN(a: Matrix, b: Matrix, rows: nat, cols: nat) returns (ok: bool, c: seq<real>)
    requires a.Valid() && b.Valid() && cols > 0
    ensures ok <==> a.cols == b.rows && a.rows == rows && b.cols == cols
    ensures ok ==> |c| == rows * cols
    ensures ok ==> forall i, j :: 0 <= i < rows && 0 <= j < cols ==>
              Row(c, cols, i)[j] == Inner(a.cols, ColumnSlice(b.data, cols, j), RowSlice(a.data, a.cols, i))
  {
    if a.cols != b.rows || a.rows != rows || b.cols != cols {
      return false, [];
    }
    c := GemmNN(rows, cols, a.cols, a.data, b.data, b.cols);
    ok := true;
  }
}
