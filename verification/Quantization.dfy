/** Per-row int8 weight-only quantization of a linear layer, over exact reals before any dtype cast. */
module Quantization {
  import opened Common

  const LEVELS := 127
  const MINIMUM_PEAK := 0.00000001

  type Row = seq<real>

  /** `abs().amax()` of a row. */
  function Peak(row: Row): (p: real)
    ensures p >= 0.0
    ensures forall i :: 0 <= i < |row| ==> Abs(row[i]) <= p
    ensures p > 0.0 ==> exists i :: 0 <= i < |row| && Abs(row[i]) == p
  {
    if row == [] then 0.0 else
    var n := |row| - 1;
    var before := Peak(row[..n]);
    assert forall i :: 0 <= i < n ==> row[..n][i] == row[i];
    if Abs(row[n]) > before then Abs(row[n]) else before
  }

  function Scale(row: Row): (s: real)
    ensures s > 0.0
  {
    var peak := Peak(row);
    (if peak < MINIMUM_PEAK then MINIMUM_PEAK else peak) / (LEVELS as real)
  }

  /** 127 steps make the peak of the row, or the minimum peak. */
  lemma ScaleExact(row: Row)
    ensures 127.0 * Scale(row) == if Peak(row) < 0.00000001 then 0.00000001 else Peak(row)
  {
  }

  function HalfStep(row: Row): (e: real) {
    Scale(row) / 2.0
  }

  /** `torch.round`: nearest integer, ties to even. */
  function Round(x: real): (n: int)
    ensures -0.5 <= (n as real) - x <= 0.5
    ensures (n as real) - x == 0.5 || (n as real) - x == -0.5 ==> n % 2 == 0
  {
    var floor := x.Floor;
    var fraction := x - (floor as real);
    if fraction < 0.5 then floor else if fraction > 0.5 then floor + 1
    else if floor % 2 == 0 then floor else floor + 1
  }

  function Quantize(weight: real, scale: real): (q: int)
    requires scale > 0.0
    ensures -LEVELS <= q <= LEVELS
  {
    ClampInt(Round(weight / scale), -LEVELS, LEVELS)
  }

  function QuantizeWith(row: Row, scale: real): (q: seq<int>)
    requires scale > 0.0
    ensures |q| == |row| && forall i :: 0 <= i < |q| ==> -LEVELS <= q[i] <= LEVELS
  {
    seq(|row|, i requires 0 <= i < |row| => Quantize(row[i], scale))
  }

  function QuantizeRow(row: Row): (q: seq<int>)
    ensures |q| == |row|
  {
    QuantizeWith(row, Scale(row))
  }

  function Dequantize(q: seq<int>, scale: real): (row: Row)
    ensures |row| == |q|
  {
    seq(|q|, i requires 0 <= i < |q| => (q[i] as real) * scale)
  }

  lemma ProductSign(a: real, b: real)
    ensures a >= 0.0 && b >= 0.0 ==> a * b >= 0.0
    ensures a * b == 0.0 && b != 0.0 ==> a == 0.0
  {
  }

  lemma Spread(a: real, b: real, c: real)
    ensures (a + b) * c == a * c + b * c && (a - b) * c == a * c - b * c
  {
  }

  lemma RatioBound(w: real, s: real)
    requires s > 0.0 && -127.0 * s <= w <= 127.0 * s
    ensures -127.0 <= w / s <= 127.0
  {
    var r := w / s;
    assert r * s == w;
    Spread(r, 127.0, s);
    ProductSign(r - 127.0, s);
    ProductSign(-127.0 - r, s);
  }

  lemma RoundingError(w: real, s: real, n: int)
    requires s > 0.0 && -0.5 <= (n as real) - w / s <= 0.5
    ensures Abs((n as real) * s - w) <= s / 2.0
  {
    var d := (n as real) - w / s;
    Spread(n as real, w / s, s);
    assert (n as real) * s - w == d * s;
    ProductSign(0.5 - d, s);
    ProductSign(0.5 + d, s);
  }

  /** The clamp and the error of one weight, for a scale under which the weight stays within the levels. */
  lemma OneWeight(w: real, s: real, n: int)
    requires s > 0.0 && -127.0 * s <= w <= 127.0 * s && n == Round(w / s)
    ensures -LEVELS <= n <= LEVELS && Abs((n as real) * s - w) <= s / 2.0
  {
    RatioBound(w, s);
    RoundingError(w, s, n);
  }

  lemma WithinPeak(row: Row, i: nat)
    requires i < |row|
    ensures -127.0 * Scale(row) <= row[i] <= 127.0 * Scale(row)
  {
    assert 127.0 * Scale(row) >= Peak(row) >= Abs(row[i]);
  }

  /** The clamp to [-127, 127] never changes a value. */
  lemma ClampIsIdle(row: Row, i: nat)
    requires i < |row|
    ensures QuantizeRow(row)[i] == Round(row[i] / Scale(row))
  {
    WithinPeak(row, i);
    OneWeight(row[i], Scale(row), Round(row[i] / Scale(row)));
  }

  lemma RecoveredError(row: Row, q: seq<int>, s: real, i: nat)
    requires i < |row| == |q| && s > 0.0 && -127.0 * s <= row[i] <= 127.0 * s && q[i] == Round(row[i] / s)
    ensures Abs(Dequantize(q, s)[i] - row[i]) <= s / 2.0
  {
    OneWeight(row[i], s, q[i]);
  }

  /** Each weight is recovered within half a quantization step. */
  lemma WeightError(row: Row, i: nat)
    requires i < |row|
    ensures Abs(Dequantize(QuantizeRow(row), Scale(row))[i] - row[i]) <= Scale(row) / 2.0
  {
    ClampIsIdle(row, i);
    WithinPeak(row, i);
    RecoveredError(row, QuantizeRow(row), Scale(row), i);
  }

  // ----- the layer

  function Dot(row: Row, x: Row): (d: real)
    requires |row| == |x|
  {
    if row == [] then 0.0 else Dot(row[..|row| - 1], x[..|x| - 1]) + Product(row[|row| - 1], x[|x| - 1])
  }

  function Product(a: real, b: real): (p: real) {
    a * b
  }

  lemma DotLast(row: Row, x: Row, n: nat)
    requires |row| == |x| == n + 1
    ensures Dot(row, x) == Dot(row[..n], x[..n]) + Product(row[n], x[n])
  {
  }

  function AbsSum(x: Row): (d: real)
    ensures d >= 0.0
  {
    if x == [] then 0.0 else AbsSum(x[..|x| - 1]) + Abs(x[|x| - 1])
  }

  lemma ProductError(a: real, b: real, x: real, e: real, m: real)
    requires Abs(a - b) <= e && m == Abs(x)
    ensures Abs(Product(a, x) - Product(b, x)) <= Product(e, m)
  {
    var d := a - b;
    Spread(a, b, x);
    Spread(e, d, m);
    ProductSign(e - d, m);
    ProductSign(e + d, m);
    assert x == m || x == -m;
    assert d * x == d * m || d * x == -(d * m);
  }

  lemma SumError(a: real, b: real, p: real, q: real, e: real, s: real, m: real, t: real)
    requires Abs(a - b) <= Product(e, s) && Abs(p - q) <= Product(e, m) && t == s + m
    ensures Abs((a + p) - (b + q)) <= Product(e, t)
  {
    Spread(s, m, e);
  }

  lemma {:induction false} DotError(a: Row, b: Row, x: Row, e: real, t: real)
    requires |a| == |b| == |x| && forall i :: 0 <= i < |a| ==> Abs(a[i] - b[i]) <= e
    requires t == AbsSum(x)
    ensures Abs(Dot(a, x) - Dot(b, x)) <= Product(e, t)
  {
    if a != [] {
      var n := |a| - 1;
      var s, m := AbsSum(x[..n]), Abs(x[n]);
      DotError(a[..n], b[..n], x[..n], e, s);
      DotLast(a, x, n);
      DotLast(b, x, n);
      ProductError(a[n], b[n], x[n], e, m);
      SumError(Dot(a[..n], x[..n]), Dot(b[..n], x[..n]), Product(a[n], x[n]), Product(b[n], x[n]), e, s, m, t);
    }
  }

  /** One output of the original layer and of its quantized replacement. */
  function Linear(row: Row, bias: real, x: Row): (y: real)
    requires |row| == |x|
  {
    Dot(row, x) + bias
  }

  function QuantizedLinear(row: Row, bias: real, x: Row): (y: real)
    requires |row| == |x|
  {
    Dot(Dequantize(QuantizeRow(row), Scale(row)), x) + bias
  }

  lemma RowError(row: Row)
    ensures var recovered := Dequantize(QuantizeRow(row), Scale(row));
            forall i :: 0 <= i < |row| ==> Abs(recovered[i] - row[i]) <= Scale(row) / 2.0
  {
    var recovered := Dequantize(QuantizeRow(row), Scale(row));
    forall i | 0 <= i < |row|
      ensures Abs(recovered[i] - row[i]) <= Scale(row) / 2.0
    {
      WeightError(row, i);
    }
  }

  lemma Shifted(a: real, b: real, bias: real, e: real)
    requires Abs(a - b) <= e
    ensures Abs((a + bias) - (b + bias)) <= e
  {
  }

  lemma LayerError(row: Row, recovered: Row, bias: real, x: Row, e: real, t: real)
    requires |row| == |recovered| == |x| && forall i :: 0 <= i < |row| ==> Abs(recovered[i] - row[i]) <= e
    requires t == AbsSum(x)
    ensures Abs((Dot(recovered, x) + bias) - (Dot(row, x) + bias)) <= Product(e, t)
  {
    DotError(recovered, row, x, e, t);
    Shifted(Dot(recovered, x), Dot(row, x), bias, Product(e, t));
  }

  /** Every output row differs from the original by at most half a step times the sum of the |x_j|. */
  lemma OutputError(row: Row, bias: real, x: Row)
    requires |row| == |x|
    ensures Abs(QuantizedLinear(row, bias, x) - Linear(row, bias, x)) <= Product(HalfStep(row), AbsSum(x))
  {
    RowError(row);
    LayerError(row, Dequantize(QuantizeRow(row), Scale(row)), bias, x, HalfStep(row), AbsSum(x));
  }

  // ----- the representation is a fixed point

  lemma FullRange(w: real, s: real, peak: real)
    requires s > 0.0 && peak == 127.0 * s && Abs(w) == peak
    ensures w / s == 127.0 || w / s == -127.0
  {
    var r := w / s;
    assert r * s == w;
    Spread(r, 127.0, s);
    ProductSign(r - 127.0, s);
    ProductSign(r + 127.0, s);
  }

  lemma BelowPeak(q: int, s: real)
    requires s > 0.0 && -LEVELS <= q <= LEVELS
    ensures Abs((q as real) * s) <= 127.0 * s
    ensures q == LEVELS || q == -LEVELS ==> Abs((q as real) * s) == 127.0 * s
  {
    var x := q as real;
    Spread(127.0, x, s);
    ProductSign(127.0 - x, s);
    ProductSign(127.0 + x, s);
  }

  /** A weight of peak magnitude takes the largest integer of its sign. */
  lemma PeakUsesFullRange(row: Row, i: nat)
    requires i < |row| && Peak(row) >= MINIMUM_PEAK && Abs(row[i]) == Peak(row)
    ensures QuantizeRow(row)[i] == 127 || QuantizeRow(row)[i] == -127
  {
    ClampIsIdle(row, i);
    FullRange(row[i], Scale(row), Peak(row));
  }

  lemma PeakIs(row: Row, p: real, k: nat)
    requires k < |row| && Abs(row[k]) == p && forall i :: 0 <= i < |row| ==> Abs(row[i]) <= p
    ensures Peak(row) == p
  {
  }

  lemma RoundOfMultiple(n: int, s: real)
    requires s > 0.0
    ensures Round((n as real) * s / s) == n
  {
    assert (n as real) * s / s == n as real;
  }

  lemma PeakOfRecovered(q: seq<int>, s: real, k: nat)
    requires s > 0.0 && k < |q| && (q[k] == LEVELS || q[k] == -LEVELS)
    requires forall i :: 0 <= i < |q| ==> -LEVELS <= q[i] <= LEVELS
    ensures Peak(Dequantize(q, s)) == 127.0 * s
  {
    var recovered := Dequantize(q, s);
    BelowPeak(q[k], s);
    forall i | 0 <= i < |recovered|
      ensures Abs(recovered[i]) <= 127.0 * s
    {
      BelowPeak(q[i], s);
    }
    PeakIs(recovered, 127.0 * s, k);
  }

  lemma RecoveredScale(row: Row)
    requires Peak(row) >= MINIMUM_PEAK
    ensures Scale(Dequantize(QuantizeRow(row), Scale(row))) == Scale(row)
  {
    var k :| 0 <= k < |row| && Abs(row[k]) == Peak(row);
    PeakUsesFullRange(row, k);
    PeakOfRecovered(QuantizeRow(row), Scale(row), k);
  }

  lemma SameInteger(w: real, q: int, s: real)
    requires s > 0.0 && -LEVELS <= q <= LEVELS && w == (q as real) * s
    ensures Quantize(w, s) == q
  {
    RoundOfMultiple(q, s);
  }

  lemma SameIntegers(q: seq<int>, s: real)
    requires s > 0.0 && forall i :: 0 <= i < |q| ==> -LEVELS <= q[i] <= LEVELS
    ensures QuantizeWith(Dequantize(q, s), s) == q
  {
    forall i | 0 <= i < |q|
      ensures QuantizeWith(Dequantize(q, s), s)[i] == q[i]
    {
      SameInteger(Dequantize(q, s)[i], q[i], s);
    }
  }

  /** Quantizing the recovered weights again gives the same scale and the same integers, unless the whole row is
      below the minimum peak. */
  lemma RequantizingChangesNothing(row: Row)
    requires Peak(row) >= MINIMUM_PEAK
    ensures var recovered := Dequantize(QuantizeRow(row), Scale(row));
            Scale(recovered) == Scale(row) && QuantizeRow(recovered) == QuantizeRow(row)
  {
    RecoveredScale(row);
    SameIntegers(QuantizeRow(row), Scale(row));
  }
}
