/** The fixed-width C integer semantics the sketch relies on: the unsigned
    8- and 16-bit types of its buffers and of the DAC, the conversion of a
    wider value into them, C's truncating division, and Arduino's `map`. */
module CInt {

  /** `uint8_t`: the DAC's 8-bit sample and the `DataRDY` flag. */
  type U8 = x: int | 0 <= x < 0x100

  /** `uint16_t`: a touch-pad reading and an element of `ReadVal`. */
  type U16 = x: int | 0 <= x < 0x1_0000

  function Abs(x: int): nat
  {
    if x < 0 then -x else x
  }

  /** Storing an `int` or `long` into a `uint16_t` keeps it modulo 2^16
      (Dafny's `%` is Euclidean, which is exactly C's unsigned conversion). */
  function WrapU16(x: int): (r: U16)
    ensures 0 <= x < 0x1_0000 ==> r == x
    ensures (x - r) % 0x1_0000 == 0
  {
    x % 0x1_0000
  }

  /** Passing a `uint16_t` where a `uint8_t` is expected keeps it modulo 2^8. */
  function WrapU8(x: int): (r: U8)
    ensures 0 <= x < 0x100 ==> r == x
    ensures (x - r) % 0x100 == 0
  {
    x % 0x100
  }

  /** Floor division of naturals, known to be a natural. */
  function NatDiv(x: nat, y: nat): (q: nat)
    requires y > 0
  {
    x / y
  }

  /** C's `/` on signed integers: the quotient truncated toward zero. */
  function CDiv(a: int, b: int): (q: int)
    requires b != 0
    ensures Abs(q) == Abs(a) / Abs(b)
    ensures q < 0 ==> (a < 0) != (b < 0)
    ensures q > 0 ==> (a < 0) == (b < 0)
  {
    var m: int := NatDiv(Abs(a), Abs(b));
    if (a < 0) == (b < 0) then m else -m
  }

  /** Truncation toward zero: |q| * |b| is the largest multiple of |b| not
      above |a|, so the discarded remainder is smaller than the divisor. */
  lemma CDivTruncates(a: int, b: int)
    requires b != 0
    ensures var q := CDiv(a, b);
      Abs(q) * Abs(b) <= Abs(a) < (Abs(q) + 1) * Abs(b)
  {
    var m, r := Abs(a) / Abs(b), Abs(a) % Abs(b);
    assert Abs(a) == m * Abs(b) + r && 0 <= r < Abs(b);
    assert (m + 1) * Abs(b) == m * Abs(b) + Abs(b);
  }

  /** On non-negative operands C's truncating division is Dafny's floor division. */
  lemma CDivNonNegative(a: int, b: int)
    requires a >= 0 && b > 0
    ensures CDiv(a, b) == a / b
  {
  }

  /** Arduino's `map(x, in_min, in_max, out_min, out_max)`: linear
      rescaling from [in_min, in_max] to [out_min, out_max] in `long`
      arithmetic, with the quotient truncated toward zero. */
  function ArduinoMap(x: int, inMin: int, inMax: int, outMin: int, outMax: int): (r: int)
    requires inMin != inMax
    // the ends of the input range go to the ends of the output range
    ensures x == inMin ==> r == outMin
    ensures x == inMax ==> r == outMax
  {
    var run, rise := inMax - inMin, outMax - outMin;
    assert x == inMax ==> CDiv((x - inMin) * rise, run) == rise by {
      if x == inMax {
        CDivExact(rise, run);
      }
    }
    CDiv((x - inMin) * rise, run) + outMin
  }

  /** Dividing an exact multiple gives the factor back, with either sign. */
  lemma CDivExact(a: int, b: int)
    requires b != 0
    ensures CDiv(b * a, b) == a
  {
    assert Abs(b * a) == Abs(a) * Abs(b) by {
      if a < 0 && b < 0 { assert b * a == (-a) * (-b); }
      else if a < 0 { assert -(b * a) == (-a) * b; }
      else if b < 0 { assert -(b * a) == a * (-b); }
    }
    MulDivCancel(Abs(a), Abs(b));
  }

  /** (m * n) / n == m for a positive divisor. */
  lemma MulDivCancel(m: nat, n: int)
    requires n > 0
    ensures m * n / n == m
  {
    var q := m * n / n;
    assert q * n <= m * n < (q + 1) * n;
    MulCancelStrict(n, q, m + 1);
    MulCancelStrict(n, m, q + 1);
  }

  /** For an input inside an increasing input range and an increasing
      output range, `map` lands inside the output range and rounds down:
      (r - outMin) * (inMax - inMin) is the largest multiple not above
      (x - inMin) * (outMax - outMin). */
  lemma ArduinoMapInRange(x: int, inMin: int, inMax: int, outMin: int, outMax: int)
    requires inMin < inMax && outMin <= outMax && inMin <= x <= inMax
    ensures outMin <= ArduinoMap(x, inMin, inMax, outMin, outMax) <= outMax
    ensures var r := ArduinoMap(x, inMin, inMax, outMin, outMax);
      (r - outMin) * (inMax - inMin) <= (x - inMin) * (outMax - outMin) < (r - outMin + 1) * (inMax - inMin)
  {
    var run, rise, delta := inMax - inMin, outMax - outMin, x - inMin;
    CDivNonNegative(delta * rise, run);
    var q := delta * rise / run;
    assert delta * rise <= run * rise by {
      MulLeftMonotone(rise, delta, run);
    }
    assert run * rise < run * (rise + 1);
    DivUpperBound(delta * rise, run, rise);
  }

  lemma MulLeftMonotone(k: nat, a: int, b: int)
    requires a <= b
    ensures a * k <= b * k
  {
  }

  lemma MulCancelStrict(k: int, a: int, b: int)
    requires k > 0 && a * k < b * k
    ensures a < b
  {
  }

  /** a < d * (m + 1) implies a / d <= m. */
  lemma DivUpperBound(a: nat, d: int, m: nat)
    requires d > 0 && a < d * (m + 1)
    ensures a / d <= m
  {
    var q := a / d;
    assert q * d <= a;
    MulCancelStrict(d, q, m + 1);
  }
}
