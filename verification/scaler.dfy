/** The scaler `conv_value` of the sketch: it maps a sensor reading onto a
    chart row and clamps the result. The float arithmetic is modelled over
    the reals; the conversion to `int16_t` truncates toward zero, and the
    final conversion to `uint16_t` is modular. */
module Scaler {

  /** Rows of the chart area: the scaled value is `value` out of this many. */
  const CHART_ROWS: int := 240

  /** Upper bound of the H2S domain passed by the main loop (MAX_conH2S). */
  const MAX_CON_H2S: int := 100

  const INT16_MIN: int := -0x8000
  const INT16_MAX: int := 0x7FFF
  const UINT16_MOD: int := 0x1_0000

  /** C's float-to-integer conversion: drop the fraction, rounding toward zero. */
  function TruncToInt(r: real): (v: int)
    ensures r >= 0.0 ==> 0 <= v && v as real <= r < v as real + 1.0
    ensures r < 0.0 ==> v <= 0 && v as real - 1.0 < r <= v as real
  {
    if r >= 0.0 then r.Floor else -((-r).Floor)
  }

  /** Conversion of an `int16_t` to the `uint16_t` result type. */
  function ToUint16(v: int): (u: int)
    ensures 0 <= u < UINT16_MOD
    ensures 0 <= v < UINT16_MOD ==> u == v
    ensures (u - v) % UINT16_MOD == 0
  {
    v % UINT16_MOD
  }

  /** The value before the clamp: the reading's position in the domain,
      as a fraction of the domain's width, times the 240 chart rows, with the
      fraction dropped toward zero. */
  function Scaled(value: real, lo: int, hi: int): (v: int)
    requires lo != hi
    ensures var e := (value - lo as real) / (hi - lo) as real * CHART_ROWS as real;
            (e >= 0.0 ==> 0 <= v && v as real <= e < v as real + 1.0)
            && (e < 0.0 ==> v <= 0 && v as real - 1.0 < e <= v as real)
  {
    TruncToInt((value - lo as real) / (hi - lo) as real * CHART_ROWS as real)
  }

  /** The scaler applied to a reading with domain bounds lo and hi: the truncated scaled value, clamped to the
      DOMAIN bounds [lo, hi] (not to the row range [0, 240]), then converted
      to `uint16_t`. The bounds must differ (the source divides by their
      difference) and fit `int16_t` (the source stores them into one). With
      reversed bounds (lo > hi) the clamp still runs, lower bound first, and
      the result is always one of the two bounds. */
  function ConvValue(value: real, lo: int, hi: int): (r: int)
    requires lo != hi
    requires INT16_MIN <= lo <= INT16_MAX && INT16_MIN <= hi <= INT16_MAX
    ensures 0 <= r < UINT16_MOD
    ensures 0 <= lo < hi ==> lo <= r <= hi
    ensures 0 <= lo < hi && Scaled(value, lo, hi) <= lo ==> r == lo
    ensures 0 <= lo < hi && Scaled(value, lo, hi) >= hi ==> r == hi
    ensures 0 <= lo < hi && lo <= Scaled(value, lo, hi) <= hi ==> r == Scaled(value, lo, hi)
    ensures 0 <= hi < lo ==> (r == lo <==> Scaled(value, lo, hi) < lo)
    ensures 0 <= hi < lo ==> (r == hi <==> Scaled(value, lo, hi) >= lo)
  {
    var v := Scaled(value, lo, hi);
    var clamped := if v < lo then lo else if v > hi then hi else v;
    ToUint16(clamped)
  }

  /** The scaler as the main loop calls it, on the H2S domain [0, MAX_CON_H2S].
      Because the clamp is against the domain bound 100, no result ever
      exceeds 100, so the upper 140 rows of the 240-row chart are never used. */
  function ConvH2S(reading: real): (r: int)
    ensures 0 <= r <= MAX_CON_H2S
    ensures r < CHART_ROWS
  {
    ConvValue(reading, 0, MAX_CON_H2S)
  }

  /** Truncation toward zero is monotonic. */
  lemma TruncMonotone(a: real, b: real)
    requires a <= b
    ensures TruncToInt(a) <= TruncToInt(b)
  {
  }

  /** Larger readings never scale to smaller values. */
  lemma ScaledMonotone(a: real, b: real, lo: int, hi: int)
    requires lo < hi && a <= b
    ensures Scaled(a, lo, hi) <= Scaled(b, lo, hi)
  {
    var d := (hi - lo) as real;
    assert (a - lo as real) / d <= (b - lo as real) / d by {
      assert (b - lo as real) / d - (a - lo as real) / d == (b - a) / d;
    }
    TruncMonotone((a - lo as real) / d * CHART_ROWS as real, (b - lo as real) / d * CHART_ROWS as real);
  }

  /** `conv_value` is monotonic in the reading, for non-negative domains. */
  lemma ConvValueMonotone(a: real, b: real, lo: int, hi: int)
    requires 0 <= lo < hi <= INT16_MAX
    requires a <= b
    ensures ConvValue(a, lo, hi) <= ConvValue(b, lo, hi)
  {
    ScaledMonotone(a, b, lo, hi);
  }

  /** Clamping law: every reading at or below the domain minimum gives the
      same result as the minimum itself, namely `lo`. */
  lemma ConvValueBelowDomain(value: real, lo: int, hi: int)
    requires 0 <= lo < hi <= INT16_MAX
    requires value <= lo as real
    ensures ConvValue(value, lo, hi) == ConvValue(lo as real, lo, hi) == lo
  {
  }

  /** A reading of 50 on the H2S domain [0, 100] scales to row 120, yet the
      clamp against the domain maximum returns 100. */
  lemma ConvH2SMidReading()
    ensures Scaled(50.0, 0, MAX_CON_H2S) == 120
    ensures ConvH2S(50.0) == 100
  {
  }

  /** From 100/240 of the domain on (a reading of about 41.7) the scaled
      value reaches 100 and the result is pinned at the domain maximum. */
  lemma ConvH2SSaturates(reading: real)
    requires reading >= 100.0 * 100.0 / 240.0
    ensures ConvH2S(reading) == MAX_CON_H2S
  {
  }
}
