/** Row-major offsets. `RowStart(y, s)` is the product `y * s`, written as a repeated sum so that
    every layout argument stays linear; `RowStartIsProduct` is the bridge to checked products. */
module Arithmetic {

  /** Offset of row `row` in a buffer of rows `stride` long. */
  function RowStart(row: nat, stride: nat): nat {
    if row == 0 then 0 else RowStart(row - 1, stride) + stride
  }

  lemma {:induction false} RowStartIsProduct(row: nat, stride: nat)
    ensures RowStart(row, stride) == row * stride
  {
    if row > 0 {
      RowStartIsProduct(row - 1, stride);
      assert row * stride == (row - 1) * stride + stride;
    }
  }

  /** An earlier row ends before a later row starts. */
  lemma {:induction false} RowsOrdered(a: nat, b: nat, stride: nat)
    requires a < b
    ensures RowStart(a, stride) + stride <= RowStart(b, stride)
  {
    if a + 1 < b {
      RowsOrdered(a, b - 1, stride);
    }
  }

  lemma RowStartGrows(a: nat, b: nat, stride: nat)
    requires a <= b
    ensures RowStart(a, stride) <= RowStart(b, stride)
  {
    if a < b {
      RowsOrdered(a, b, stride);
    }
  }

  /** Rows compose: b rows after the first a. */
  lemma {:induction false} RowStartAdd(a: nat, b: nat, stride: nat)
    ensures RowStart(a + b, stride) == RowStart(a, stride) + RowStart(b, stride)
  {
    if b > 0 {
      RowStartAdd(a, b - 1, stride);
    }
  }

  /** Every offset of a buffer has a row and a column. */
  lemma {:induction false} SplitOffset(i: nat, stride: nat, height: nat) returns (row: nat, column: nat)
    requires i < RowStart(height, stride)
    ensures row < height && column < stride && i == RowStart(row, stride) + column
  {
    if i < RowStart(height - 1, stride) {
      row, column := SplitOffset(i, stride, height - 1);
    } else {
      row, column := height - 1, i - RowStart(height - 1, stride);
    }
  }

  /** ... and only one. */
  lemma RowColumnUnique(a: nat, c: nat, b: nat, d: nat, stride: nat)
    requires c < stride && d < stride
    requires RowStart(a, stride) + c == RowStart(b, stride) + d
    ensures a == b && c == d
  {
    if a < b {
      RowsOrdered(a, b, stride);
    } else if b < a {
      RowsOrdered(b, a, stride);
    }
  }

  lemma ProductMonotone(a: nat, b: nat, c: nat, d: nat)
    requires a <= b && c <= d
    ensures a * c <= b * d
  {
    assert a * c <= b * c;
  }

  lemma DivModUnique(n: nat, m: nat, q: nat, r: nat)
    requires r < m && n == q * m + r
    ensures n / m == q && n % m == r
  {
    var d: int := n / m - q;
    assert n == n / m * m + n % m;
    assert d * m == r - n % m;
    assert d >= 1 ==> d * m >= m;
    assert d <= -1 ==> d * m + m <= 0;
  }

  lemma ModStep(n: nat, m: nat)
    requires m > 0
    ensures (n + 1) % m == if n % m == m - 1 then 0 else n % m + 1
  {
    var q, r := n / m, n % m;
    if r == m - 1 {
      assert n + 1 == (q + 1) * m + 0;
      DivModUnique(n + 1, m, q + 1, 0);
    } else {
      DivModUnique(n + 1, m, q, r + 1);
    }
  }

  lemma ModPeriod(n: nat, m: nat)
    requires m > 0
    ensures (n + m) % m == n % m
  {
    assert n + m == (n / m + 1) * m + n % m;
    DivModUnique(n + m, m, n / m + 1, n % m);
  }

  /** Numbers less than m apart with the same remainder are equal. */
  lemma SameRemainder(a: nat, b: nat, m: nat)
    requires a <= b < a + m && a % m == b % m
    ensures a == b
  {
    var d := b / m - a / m;
    assert b - a == d * m;
    assert d >= 1 ==> d * m >= m;
  }
}
