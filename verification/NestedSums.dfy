/** Sums over flat buffers, taken apart row by row. */
module NestedSums {
  import opened FiniteSums
  import opened FlatIndex

  /** The sum over row a of a buffer with rows of this width. */
  ghost function RowTotals(g: int -> real, width: nat): int -> real {
    a => Sum(width, b => g(Offset(a, width, b)))
  }

  /** A flat sum is the sum of its rows. */
  lemma {:induction false} FlatSum(rows: nat, width: nat, g: int -> real)
    ensures rows * width >= 0 && Sum(rows * width, g) == Sum(rows, RowTotals(g, width))
  {
    ProductNonNegative(rows, width);
    if rows == 0 {
    } else {
      var last := rows - 1;
      ProductNonNegative(last, width);
      FlatSum(last, width, g);
      assert rows * width == last * width + width;
      LastRow(last, width, last * width, g);
    }
  }

  lemma LastRow(last: nat, width: nat, start: nat, g: int -> real)
    requires start == last * width
    ensures Sum(start + width, g) == Sum(start, g) + RowTotals(g, width)(last)
  {
    SumSplit(start, width, g);
    forall b ensures g(start + b) == g(Offset(last, width, b)) {
      assert start + b == Offset(last, width, b);
    }
    SumCong(width, b => g(start + b), b => g(Offset(last, width, b)));
  }

  // ---------------------------------------------------------------- three indices

  /** Column f of the rows that belong to p: entry n stands at (p * rows + n) * width + f. */
  ghost function ColumnEntry(g: int -> real, rows: nat, width: nat, p: int): (int, int) -> real {
    (n, f) => g(Offset(Offset(p, rows, n), width, f))
  }

  ghost function BlockColumn(g: int -> real, rows: nat, width: nat, p: int, f: int): int -> real {
    n => g(Offset(Offset(p, rows, n), width, f))
  }

  lemma ColumnAt(g: int -> real, rows: nat, width: nat, p: int, f: int, n: int, row: int)
    requires row == Offset(p, rows, n)
    ensures BlockColumn(g, rows, width, p, f)(n) == g(Offset(row, width, f))
  {
  }

  ghost function ColumnTotal(g: int -> real, rows: nat, width: nat, p: int, f: int): real {
    Sum(rows, BlockColumn(g, rows, width, p, f))
  }

  ghost function BlockTotals(g: int -> real, rows: nat, width: nat): int -> real {
    p => Sum(width, f => ColumnTotal(g, rows, width, p, f))
  }

  /** A flat sum over blocks of rows is the sum of the columns of the blocks. */
  lemma BlockSum(blocks: nat, rows: nat, width: nat, g: int -> real)
    ensures blocks * rows >= 0 && blocks * rows * width >= 0
    ensures Sum(blocks * rows * width, g) == Sum(blocks, BlockTotals(g, rows, width))
  {
    FlatSum(blocks, rows, RowTotals(g, width));
    FlatSum(blocks * rows, width, g);
    var totals := RowTotals(RowTotals(g, width), rows);
    forall p | 0 <= p < blocks ensures totals(p) == BlockTotals(g, rows, width)(p) {
      BlockByColumns(rows, width, g, p);
    }
    SumCong(blocks, totals, BlockTotals(g, rows, width));
  }

  lemma BlockByColumns(rows: nat, width: nat, g: int -> real, p: int)
    ensures RowTotals(RowTotals(g, width), rows)(p) == Sum(width, f => ColumnTotal(g, rows, width, p, f))
  {
    var entry := ColumnEntry(g, rows, width, p);
    forall n | 0 <= n < rows
      ensures RowTotals(g, width)(Offset(p, rows, n)) == Sum(width, f => entry(n, f))
    {
      var row := Offset(p, rows, n);
      SumCong(width, f => g(Offset(row, width, f)), f => entry(n, f));
    }
    SumCong(rows, n => RowTotals(g, width)(Offset(p, rows, n)), n => Sum(width, f => entry(n, f)));
    SumSwap(rows, width, entry);
    forall f | 0 <= f < width ensures Sum(rows, n => entry(n, f)) == ColumnTotal(g, rows, width, p, f) {
      SumCong(rows, n => entry(n, f), BlockColumn(g, rows, width, p, f));
    }
    SumCong(width, f => Sum(rows, n => entry(n, f)), f => ColumnTotal(g, rows, width, p, f));
  }
}
