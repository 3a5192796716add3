/** Per-token integer quantization (vllm/_xpu_ops.py), over exact real numbers. */
module Int8Quant {

  function Pow2(n: nat): (r: nat)
    ensures r > 0
  {
    if n == 0 then 1 else 2 * Pow2(n - 1)
  }

  function Abs(x: real): real { if x < 0.0 then -x else x }

  function Max(a: real, b: real): real { if a < b then b else a }

  function Smallest(row: seq<real>): (r: real)
    requires row != []
    ensures r in row && forall i :: 0 <= i < |row| ==> r <= row[i]
  {
    if |row| == 1 then row[0]
    else
      var r := Smallest(row[1..]);
      assert forall i :: 0 < i < |row| ==> row[i] == row[1..][i - 1];
      if row[0] < r then row[0] else r
  }

  function Largest(row: seq<real>): (r: real)
    requires row != []
    ensures r in row && forall i :: 0 <= i < |row| ==> row[i] <= r
  {
    if |row| == 1 then row[0]
    else
      var r := Largest(row[1..]);
      assert forall i :: 0 < i < |row| ==> row[i] == row[1..][i - 1];
      if row[0] > r then row[0] else r
  }

  /** To the nearest integer, and to the even one of two. */
  function Round(x: real): (r: int)
    ensures Abs(x - r as real) <= 0.5
    ensures Abs(x - r as real) == 0.5 ==> r % 2 == 0
  {
    var f := x.Floor;
    var d := x - f as real;
    if d < 0.5 then f
    else if d > 0.5 then f + 1
    else if f % 2 == 0 then f
    else f + 1
  }

  function Clamp(x: int, low: int, high: int): (r: int)
    requires low <= high
    ensures low <= r <= high
  {
    if x < low then low else if x > high then high else x
  }

  datatype Quantized = Quantized(values: seq<int>, scale: real, zeroPoint: int)

  function QMin(symmetric: bool, bits: nat): int
    requires bits > 0
  {
    if symmetric then 0 - Pow2(bits - 1) else 0
  }

  function QMax(symmetric: bool, bits: nat): (r: int)
    requires bits > 0
    ensures r >= 0 && r - QMin(symmetric, bits) == Pow2(bits) - 1
    ensures (symmetric ==> bits >= 2) ==> r > 0
  {
    if symmetric then Pow2(bits - 1) - 1 else Pow2(bits) - 1
  }

  const MIN_SCALE := 0.00001

  /** What has to be covered by the range of quantized values. */
  function Span(row: seq<real>, symmetric: bool): real
    requires row != []
  {
    var low, high := Smallest(row), Largest(row);
    if symmetric then Max(Abs(low), Abs(high)) else high - low
  }

  function Scale(row: seq<real>, symmetric: bool, bits: nat): (s: real)
    requires row != [] && bits > 0 && (symmetric ==> bits >= 2)
    ensures s >= MIN_SCALE
  {
    Max(Span(row, symmetric) / QMax(symmetric, bits) as real, MIN_SCALE)
  }

  function ZeroPoint(row: seq<real>, symmetric: bool, bits: nat): int
    requires row != [] && bits > 0 && (symmetric ==> bits >= 2)
  {
    if symmetric then 0 else -Round(Smallest(row) / Scale(row, symmetric, bits))
  }

  function QuantizeOne(x: real, scale: real, zeroPoint: int, low: int, high: int): int
    requires scale > 0.0 && low <= high
  {
    Clamp(Round(x / scale + zeroPoint as real), low, high)
  }

  function DequantizeOne(v: int, scale: real, zeroPoint: int): real {
    (v - zeroPoint) as real * scale
  }

  /** Before the cast to eight bits. */
  function Quantize(row: seq<real>, symmetric: bool, bits: nat): Quantized
    requires row != [] && bits > 0 && (symmetric ==> bits >= 2)
  {
    var scale, zeroPoint := Scale(row, symmetric, bits), ZeroPoint(row, symmetric, bits);
    var low, high := QMin(symmetric, bits), QMax(symmetric, bits);
    Quantized(seq(|row|, i requires 0 <= i < |row| => QuantizeOne(row[i], scale, zeroPoint, low, high)),
              scale, zeroPoint)
  }

  function Dequantize(q: Quantized, i: nat): real
    requires i < |q.values|
  {
    DequantizeOne(q.values[i], q.scale, q.zeroPoint)
  }

  /** Clamping costs nothing beyond rounding when the value is at most a half outside the range. */
  lemma {:induction false} ClampIsHarmless(x: real, low: int, high: int)
    requires low <= high && low as real - 0.5 <= x <= high as real + 0.5
    ensures Abs(x - Clamp(Round(x), low, high) as real) <= 0.5
  {
  }

  lemma {:induction false} Cancel(a: real, b: real, s: real)
    requires s > 0.0
    ensures a * s <= b * s ==> a <= b
    ensures a <= b ==> a * s <= b * s
  {
  }

  lemma {:induction false} Quotient(x: real, s: real)
    requires s > 0.0
    ensures (x / s) * s == x
  {
  }

  /** The scale makes the widest value fit. */
  lemma {:induction false} ScaleIsWide(span: real, q: int, s: real)
    requires q > 0 && s == Max(span / q as real, MIN_SCALE)
    ensures s > 0.0 && span <= q as real * s
  {
    Quotient(span, q as real);
    Cancel(span / q as real, s, q as real);
  }

  lemma {:induction false} SymmetricFits(x: real, widest: real, q: int, s: real)
    requires Abs(x) <= widest && q > 0 && s == Max(widest / q as real, MIN_SCALE)
    ensures -(q as real) <= x / s <= q as real
  {
    ScaleIsWide(widest, q, s);
    Quotient(x, s);
    Cancel(x / s, q as real, s);
    Cancel(-(q as real), x / s, s);
  }

  /** The rounded zero point moves the values by at most a half. */
  lemma {:induction false} AsymmetricNearlyFits(x: real, low: real, high: real, q: int, s: real)
    requires low <= x <= high && q > 0 && s == Max((high - low) / q as real, MIN_SCALE)
    ensures -0.5 <= x / s + (-Round(low / s)) as real <= q as real + 0.5
  {
    ScaleIsWide(high - low, q, s);
    Ratios(x, low, s);
    Cancel(x / s - low / s, q as real, s);
    Cancel(0.0, x / s - low / s, s);
    var r := Round(low / s);
  }

  lemma {:induction false} Ratios(x: real, y: real, s: real)
    requires s > 0.0
    ensures (x / s - y / s) * s == x - y
  {
    Quotient(x, s);
    Quotient(y, s);
    Distribute(x / s, y / s, s);
  }

  lemma {:induction false} Distribute(a: real, b: real, s: real)
    ensures (a - b) * s == a * s - b * s
  {
  }

  /** A rounding error of a half is an error of half the scale. */
  lemma {:induction false} HalfAStep(x: real, s: real, z: int, v: int)
    requires s > 0.0 && Abs(x / s + z as real - v as real) <= 0.5
    ensures Abs(DequantizeOne(v, s, z) - x) <= s / 2.0
  {
    var u := Ratio(x, s);
    HalfOf(s, u, (v - z) as real, x, DequantizeOne(v, s, z));
  }

  lemma {:induction false} Ratio(x: real, s: real) returns (u: real)
    requires s > 0.0
    ensures u == x / s && u * s == x
  {
    u := x / s;
    Quotient(x, s);
  }

  lemma {:induction false} HalfOf(s: real, u: real, d: real, x: real, y: real)
    requires s > 0.0 && -0.5 <= d - u <= 0.5 && x == u * s && y == d * s
    ensures Abs(y - x) <= s / 2.0
  {
    AtMostHalf(s, s / 2.0, u, d, x, y);
    AtMostHalf(s, s / 2.0, d, u, y, x);
  }

  lemma {:induction false} AtMostHalf(s: real, h: real, a: real, b: real, p: real, q: real)
    requires s > 0.0 && h + h == s && a <= b + 0.5 && p == a * s && q == b * s
    ensures p <= q + h
  {
    Cancel(a, b + 0.5, s);
    assert (b + 0.5) * s == q + h;
  }

  /** Before rounding and clamping, a value is at most a half outside the range. */
  ghost predicate NearRange(x: real, s: real, z: int, low: int, high: int)
    requires s > 0.0
  {
    low as real - 0.5 <= x / s + z as real <= high as real + 0.5
  }

  lemma {:induction false} NearRangeIsEnough(x: real, s: real, z: int, low: int, high: int)
    requires s > 0.0 && low <= high && NearRange(x, s, z, low, high)
    ensures Abs(DequantizeOne(QuantizeOne(x, s, z, low, high), s, z) - x) <= s / 2.0
  {
    ClampIsHarmless(x / s + z as real, low, high);
    HalfAStep(x, s, z, QuantizeOne(x, s, z, low, high));
  }

  lemma {:induction false} RowIsNearRange(row: seq<real>, symmetric: bool, bits: nat, i: nat)
    requires row != [] && bits > 0 && (symmetric ==> bits >= 2) && i < |row|
    ensures NearRange(row[i], Scale(row, symmetric, bits), ZeroPoint(row, symmetric, bits),
                      QMin(symmetric, bits), QMax(symmetric, bits))
  {
    var s, q, low, high := Scale(row, symmetric, bits), QMax(symmetric, bits), Smallest(row), Largest(row);
    if symmetric {
      SymmetricFits(row[i], Max(Abs(low), Abs(high)), q, s);
    } else {
      AsymmetricNearlyFits(row[i], low, high, q, s);
    }
  }

  /** Every value comes back with an error of at most half the scale. */
  lemma {:induction false} ErrorIsHalfAStep(row: seq<real>, symmetric: bool, bits: nat, i: nat)
    requires row != [] && bits > 0 && (symmetric ==> bits >= 2) && i < |row|
    ensures var q := Quantize(row, symmetric, bits);
            |q.values| == |row| && Abs(Dequantize(q, i) - row[i]) <= q.scale / 2.0
  {
    RowIsNearRange(row, symmetric, bits, i);
    NearRangeIsEnough(row[i], Scale(row, symmetric, bits), ZeroPoint(row, symmetric, bits),
                      QMin(symmetric, bits), QMax(symmetric, bits));
  }

  // ----- The scale is the least that works -----

  /** The row is no wider than that: on either side of zero, or from its smallest value to its largest. */
  ghost predicate IsWithin(row: seq<real>, symmetric: bool, width: real) {
    if symmetric then forall i :: 0 <= i < |row| ==> Abs(row[i]) <= width
    else forall i, j :: 0 <= i < |row| && 0 <= j < |row| ==> row[i] - row[j] <= width
  }

  /** The span is the least width, and some elements attain it. */
  lemma {:induction false} SpanIsLeast(row: seq<real>, symmetric: bool, width: real) returns (i: nat, j: nat)
    requires row != []
    ensures IsWithin(row, symmetric, width) <==> Span(row, symmetric) <= width
    ensures i < |row| && j < |row| && Span(row, symmetric) == if symmetric then Abs(row[i]) else row[i] - row[j]
  {
    var low, high := Smallest(row), Largest(row);
    i :| 0 <= i < |row| && row[i] == high;
    j :| 0 <= j < |row| && row[j] == low;
    if symmetric && Abs(low) > Abs(high) {
      i := j;
    }
  }

  lemma {:induction false} LeastStep(row: seq<real>, symmetric: bool, s: real, q: real, width: real)
    requires row != [] && q > 0.0 && width == s * q
    ensures IsWithin(row, symmetric, width) <==> Span(row, symmetric) / q <= s
  {
    var _, _ := SpanIsLeast(row, symmetric, width);
    DivideBoth(Span(row, symmetric), s, q, width);
  }

  lemma {:induction false} DivideBoth(span: real, s: real, q: real, width: real)
    requires q > 0.0 && width == s * q
    ensures span <= width <==> span / q <= s
  {
    var step := Ratio(span, q);
    Cancel(step, s, q);
  }

  /** Of the scales from 1e-5 on, exactly those make the row fit that are at least `Scale`: so it makes the
      row fit itself, no smaller one does, and it is 1e-5 exactly when that makes the row fit. */
  lemma {:induction false} ScaleIsLeast(row: seq<real>, symmetric: bool, bits: nat, s: real, width: real)
    requires row != [] && bits > 0 && (symmetric ==> bits >= 2)
    requires s >= 0.00001 && width == s * QMax(symmetric, bits) as real
    ensures Scale(row, symmetric, bits) >= 0.00001
    ensures IsWithin(row, symmetric, width) <==> Scale(row, symmetric, bits) <= s
  {
    LeastStep(row, symmetric, s, QMax(symmetric, bits) as real, width);
  }

  /** Above 1e-5 the whole range is used: symmetric, some value becomes plus or minus the largest one;
      asymmetric, two values are exactly all the steps apart. */
  lemma {:induction false} WholeRangeIsUsed(row: seq<real>, symmetric: bool, bits: nat) returns (i: nat, j: nat)
    requires row != [] && bits > 0 && (symmetric ==> bits >= 2) && Scale(row, symmetric, bits) > 0.00001
    ensures i < |row| && j < |row|
    ensures var r, q := Quantize(row, symmetric, bits), QMax(symmetric, bits);
            && |r.values| == |row|
            && (symmetric ==> r.values[i] == q || r.values[i] == -q)
            && (!symmetric ==> row[i] - row[j] == r.scale * q as real)
  {
    i, j := SpanIsLeast(row, symmetric, 0.0);
    var step := Ratio(Span(row, symmetric), QMax(symmetric, bits) as real);
    if symmetric {
      EndOfRange(row[i], step, QMax(symmetric, bits));
    }
  }

  lemma {:induction false} EndOfRange(x: real, s: real, q: int)
    requires s > 0.0 && q >= 0 && Abs(x) == s * q as real
    ensures QuantizeOne(x, s, 0, -q - 1, q) in {q, -q}
  {
    var u := RatioIs(x, s, q as real);
  }

  lemma {:induction false} RatioIs(x: real, s: real, r: real) returns (u: real)
    requires s > 0.0 && Abs(x) == s * r
    ensures u == x / s && (u == r || u == -r)
  {
    u := Ratio(x, s);
    if x >= 0.0 {
      Cancel(u, r, s);
      Cancel(r, u, s);
    } else {
      Cancel(u, -r, s);
      Cancel(-r, u, s);
    }
  }

  // ----- The cast -----

  /** To int8 or uint8: the low eight bits. */
  function Cast(v: int, symmetric: bool): (r: int)
    ensures if symmetric then -128 <= r < 128 else 0 <= r < 256
  {
    if symmetric then (v + 128) % 256 - 128 else v % 256
  }

  lemma {:induction false} Pow2Grows(a: nat, b: nat)
    requires a <= b
    ensures Pow2(a) <= Pow2(b)
  {
    if a < b {
      Pow2Grows(a, b - 1);
    }
  }

  /** The cast keeps every quantized value exactly when they have eight bits or fewer. */
  lemma {:induction false} CastIsExact(symmetric: bool, bits: nat)
    requires bits > 0
    ensures bits <= 8 <==> forall v :: QMin(symmetric, bits) <= v <= QMax(symmetric, bits) ==> Cast(v, symmetric) == v
  {
    var pow7 := Pow2(7);
    assert Pow2(4) == 16 && pow7 == 128;
    if bits <= 8 {
      Pow2Grows(bits - 1, 7);
      Pow2Grows(bits, 8);
    } else {
      Pow2Grows(8, bits - 1);
      assert QMax(symmetric, bits) >= 255;
      assert QMax(symmetric, bits) >= 256 || symmetric by {
        Pow2Grows(9, bits);
        assert Pow2(9) == 512;
      }
      var v := QMax(symmetric, bits);
      assert Cast(v, symmetric) != v;
    }
  }

  /** What is stored comes back with an error of at most half the scale. */
  lemma {:induction false} StoredErrorIsHalfAStep(row: seq<real>, symmetric: bool, bits: nat, i: nat)
    requires row != [] && 0 < bits <= 8 && (symmetric ==> bits >= 2) && i < |row|
    ensures var q := Quantize(row, symmetric, bits);
            Abs(DequantizeOne(Cast(q.values[i], symmetric), q.scale, q.zeroPoint) - row[i]) <= q.scale / 2.0
  {
    CastIsExact(symmetric, bits);
    ErrorIsHalfAStep(row, symmetric, bits, i);
  }

  /** The bound without the scale: whatever step of at least 1e-5 spans the row with the values there are,
      what is stored comes back with an error of at most half of it. */
  lemma {:induction false} StoredErrorIsBounded(row: seq<real>, symmetric: bool, bits: nat, i: nat, s: real,
                                                width: real)
    requires row != [] && 0 < bits <= 8 && (symmetric ==> bits >= 2) && i < |row|
    requires s >= 0.00001 && width == s * QMax(symmetric, bits) as real && IsWithin(row, symmetric, width)
    ensures var q := Quantize(row, symmetric, bits);
            Abs(DequantizeOne(Cast(q.values[i], symmetric), q.scale, q.zeroPoint) - row[i]) <= s / 2.0
  {
    ScaleIsLeast(row, symmetric, bits, s, width);
    StoredErrorIsHalfAStep(row, symmetric, bits, i);
  }
}
