/** Row-major flat addressing: offsets are unique and stay inside the buffer. */
module FlatIndex {

  /** Offset of column b in row a when rows are `width` long. */
  function Offset(a: int, width: int, b: int): int {
    a * width + b
  }

  lemma OffsetInjective(width: nat, a: int, b: int, a': int, b': int)
    requires 0 <= b < width && 0 <= b' < width
    requires Offset(a, width, b) == Offset(a', width, b')
    ensures a == a' && b == b'
  {
    assert (a - a') * width == b' - b;
    assert (a' - a) * width == b - b';
    if a > a' {
      Scaled(a - a', width);
    } else if a < a' {
      Scaled(a' - a, width);
    }
  }

  lemma Scaled(k: int, width: nat)
    requires k >= 1
    ensures k * width >= width
  {
    assert k * width == (k - 1) * width + width;
    ProductNonNegative(k - 1, width);
  }

  lemma ProductNonNegative(x: int, y: int)
    requires x >= 0 && y >= 0
    ensures x * y >= 0
  {
  }

  lemma OffsetBound(a: int, rows: nat, width: nat, b: int)
    requires 0 <= a < rows && 0 <= b < width
    ensures 0 <= Offset(a, width, b) < rows * width
  {
    ProductNonNegative(a, width);
    Scaled(rows - a, width);
    assert rows * width == a * width + (rows - a) * width;
  }

  /** Taking a flat position apart again, as the flat kernels do with / and %. */
  lemma OffsetDecoded(a: int, width: nat, b: int)
    requires 0 <= b < width
    ensures Offset(a, width, b) / width == a && Offset(a, width, b) % width == b
  {
    var t := Offset(a, width, b);
    assert t == Offset(t / width, width, t % width);
    OffsetInjective(width, a, b, t / width, t % width);
  }

  lemma ProductMonotone(a: int, b: int, width: nat)
    requires a <= b
    ensures a * width <= b * width
  {
    assert b * width == a * width + (b - a) * width;
    ProductNonNegative(b - a, width);
  }

  lemma FlatDecoded(t: int, rows: nat, width: nat)
    requires 0 <= t < rows * width && width > 0
    ensures 0 <= t / width < rows && 0 <= t % width < width
    ensures t == Offset(t / width, width, t % width)
  {
    if t / width >= rows {
      ProductMonotone(rows, t / width, width);
      assert false;
    }
  }
}
