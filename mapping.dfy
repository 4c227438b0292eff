/** The per-sample transform of the superloop: a raw touch-pad reading is
    clamped to the belt's calibrated range, flipped so that stretching the
    belt (which lowers the capacitance reading) raises the signal, and
    rescaled to the 8-bit DAC range. */
module Mapping {
  import opened CInt

  /** Highest reading recorded for the belt (the unstretched end). */
  const MaxCapVal: int := 1500
  /** Lowest reading recorded for the belt (the fully stretched end). */
  const MinCapVal: int := 1200
  /** Width of the calibrated range, the input span of the rescale. */
  const CapSpan: int := MaxCapVal - MinCapVal
  /** Top of the DAC's 8-bit output range. */
  const DacMax: int := 255

  /** The "sanitize" step: readings above the range become `MaxCapVal`,
      readings below it become `MinCapVal`, readings inside are kept. */
  function Clamp(v: U16): (c: U16)
    ensures MinCapVal <= c <= MaxCapVal
    ensures MinCapVal <= v <= MaxCapVal ==> c == v
    ensures v > MaxCapVal ==> c == MaxCapVal
    ensures v < MinCapVal ==> c == MinCapVal
  {
    if v > MaxCapVal then MaxCapVal
    else if v < MinCapVal then MinCapVal
    else v
  }

  /** The flip `MAX_CAP_VAL - v`, stored back into a `uint16_t`. */
  function Invert(c: U16): (d: U16)
    requires MinCapVal <= c <= MaxCapVal
    ensures 0 <= d <= CapSpan
    ensures d + c == MaxCapVal
  {
    WrapU16(MaxCapVal - c)
  }

  /** `map(d, 0, MAX_CAP_VAL - MIN_CAP_VAL, 0, 255)`, stored back into a
      `uint16_t`. */
  function Rescale(d: U16): (out: U16)
    // 0..300 lands in 0..255, with 0 and 300 on the two ends
    ensures d <= CapSpan ==> out <= DacMax
    ensures d == 0 ==> out == 0
    ensures d == CapSpan ==> out == DacMax
  {
    var m := ArduinoMap(d, 0, CapSpan, 0, DacMax);
    assert d <= CapSpan ==> 0 <= m <= DacMax by {
      if d <= CapSpan {
        ArduinoMapInRange(d, 0, CapSpan, 0, DacMax);
      }
    }
    WrapU16(m)
  }

  /** The value the superloop leaves in `ReadVal[0]` and writes to the DAC
      for a raw reading, computed step by step as the sketch does. */
  function Transform(raw: U16): (out: U16)
    ensures out <= DacMax
  {
    Rescale(Invert(Clamp(raw)))
  }

  /** The transform in closed form: the inverted reading scaled by
      255/300 with the remainder dropped. No step wraps around on the
      way: the subtraction stays within 0..300 and the quotient within
      0..255, so neither `uint16_t` store loses a bit. */
  lemma TransformClosedForm(raw: U16)
    ensures Transform(raw) == (MaxCapVal - Clamp(raw)) * DacMax / CapSpan
  {
    var d := Invert(Clamp(raw));
    ArduinoMapInRange(d, 0, CapSpan, 0, DacMax);
    CDivNonNegative(d * DacMax, CapSpan);
  }

  /** The rescale rounds down: `Transform(raw)` is the largest output whose
      exact preimage on the line through (1500, 0) and (1200, 255) is not
      above the clamped reading's position on it. */
  lemma TransformRoundsDown(raw: U16)
    ensures var c, t := Clamp(raw), Transform(raw);
      CapSpan * t <= (MaxCapVal - c) * DacMax < CapSpan * (t + 1)
  {
    var d := Invert(Clamp(raw));
    ArduinoMapInRange(d, 0, CapSpan, 0, DacMax);
  }

  /** The extremes of the calibrated range land on the extremes of the DAC
      range, and the clamp is silent: any reading at or above `MaxCapVal`
      gives 0 and any reading at or below `MinCapVal` gives 255. */
  lemma TransformSaturates(raw: U16)
    ensures raw >= MaxCapVal ==> Transform(raw) == 0
    ensures raw <= MinCapVal ==> Transform(raw) == DacMax
  {
    TransformClosedForm(raw);
  }

  /** Stretching never lowers the signal: a smaller reading maps to an
      output at least as large. */
  lemma TransformMonotone(r1: U16, r2: U16)
    requires r1 <= r2
    ensures Transform(r1) >= Transform(r2)
  {
    TransformClosedForm(r1);
    TransformClosedForm(r2);
    var d1, d2 := MaxCapVal - Clamp(r1), MaxCapVal - Clamp(r2);
    assert 0 <= d2 <= d1;
    MulLeftMonotone(DacMax, d2, d1);
    DivMonotone(d2 * DacMax, d1 * DacMax, CapSpan);
  }

  lemma DivMonotone(a: nat, b: nat, d: int)
    requires a <= b && d > 0
    ensures a / d <= b / d
  {
    var qa, qb := a / d, b / d;
    assert qa * d <= a;
    assert b < (qb + 1) * d;
    MulCancelStrict(d, qa, qb + 1);
  }

  /** The two ends of the range, one reading beyond each end, and the
      midpoint, which the floor division sends to 127 (150 * 255 / 300 is
      127.5). */
  lemma TransformExamples()
    ensures Transform(1500) == 0 && Transform(1600) == 0
    ensures Transform(1200) == 255 && Transform(1000) == 255
    ensures Transform(1350) == 127
  {
    TransformSaturates(1500);
    TransformSaturates(1600);
    TransformSaturates(1200);
    TransformSaturates(1000);
    TransformClosedForm(1350);
  }

  /** Every one of the DAC's 256 levels is produced by some reading in the
      calibrated range: the rescale leaves no gap in the output. */
  lemma TransformOnto(level: int)
    requires 0 <= level <= DacMax
    ensures exists raw: U16 :: MinCapVal <= raw <= MaxCapVal && Transform(raw) == level
  {
    // the smallest inverted value d with d * 255 >= level * 300
    var d := (level * CapSpan + DacMax - 1) / DacMax;
    assert d * DacMax <= level * CapSpan + DacMax - 1;
    assert level * CapSpan <= d * DacMax;
    assert d <= CapSpan by {
      DivUpperBound(level * CapSpan + DacMax - 1, DacMax, CapSpan);
    }
    var raw: U16 := MaxCapVal - d;
    TransformRoundsDown(raw);
    var t := Transform(raw);
    assert CapSpan * t <= d * DacMax < CapSpan * (t + 1);
    assert level * CapSpan < (t + 1) * CapSpan;
    MulCancelStrict(CapSpan, level, t + 1);
    assert t * CapSpan < (level + 1) * CapSpan;
    MulCancelStrict(CapSpan, t, level + 1);
  }

}
