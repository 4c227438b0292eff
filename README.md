# Capacitive stretch-belt to DAC: a Dafny model of the superloop

The ESP32 sketch reads a capacitive stretch belt on touch pad T5 and
drives DAC channel 1 with an 8-bit value that grows as the belt is
stretched. All of its logic sits in the superloop of `loop()`:

* once `DelayTimeMS` (90 ms) has passed since loop entry, each pass reads
  the filtered touch value into `ReadVal[0]`; a failed read is logged, a
  reading equal to `ReadVal[1]` clears `DataRDY`, a different one sets it;
  in all three cases `ReadVal[1] = ReadVal[0]` follows;
* when `DataRDY` is set, `ReadVal[0]` is clamped to
  `[MIN_CAP_VAL, MAX_CAP_VAL] = [1200, 1500]`, flipped to
  `MAX_CAP_VAL - ReadVal[0]`, rescaled by Arduino's `map(x, 0, 300, 0, 255)`
  and written to the DAC; a failed write is logged, and `DataRDY` is cleared.

The project has three modules, one file each:

* `CInt` (`cint.dfy`): the C integer behaviour the sketch depends on:
  `uint8_t` and `uint16_t`, the modular conversion into them, C's
  truncating `/`, and Arduino's `map` formula.
* `Mapping` (`mapping.dfy`): the clamp, flip and rescale as pure
  functions, with `Transform` as their composition. The lemmas cover range,
  endpoints, saturation, monotonicity, the floor rounding, a closed form
  and the fact that every DAC level is reached.
* `SuperLoop` (`superloop.dfy`): the loop state as a value, `LoopState`.
  `Iterate` is one pass and `Trace` is a finite run of passes; the lemmas
  about them cover change gating, the read timing and the failed-read
  behaviour. The class `Superloop` keeps `ReadVal` as a two-element
  `array` and `DataRDY` and `TempTime` as fields, and updates them in place.
  Its `Step` and `Run` are proved to follow `Iterate` and `Trace`.

Time, the read result and the DAC status are parameters of each pass
(`Event`). The DAC write is the `dacWrite` of the pass's `Report`, and the
serial output is a list of abstract `Diag` events.

Rounding: the rescale is floor division (every operand is non-negative), so
1350 gives 127.

Three points about the code that its comments alone would not tell a
reader; the model follows the code in each:

* Cadence. The comments on `DelayTimeMS` (src/main.cpp:42) and on the time
  test (line 96) describe 90 ms as the time between new data points, that
  is, a reading every 90 ms. But `TempTime` is assigned once, at line 73, and
  never again. So every pass from 90 ms after loop entry reads, with no
  interval between reads (`TraceReadsWhenDue`, `TraceReadsForever`).
  `Superloop.Step` does not have `tempTime` in its frame.
* Failed reads. Line 108 copies `ReadVal[0]` into `ReadVal[1]` after every
  read attempt, the failed ones included. After a changed reading,
  `ReadVal[0]` holds the transformed value (0..255), so a failure makes that
  value the "previous" reading. If the next reading equals the last raw one
  and is above 255, it no longer matches `ReadVal[1]`, counts as a change
  and is written again (`FailedReadForgetsPrevious`).
* Read path. The comments at lines 97-98 speak of both a raw and a filtered
  read. The code calls only `touch_pad_read_filtered`, and the model has
  that single read.

## Model

| member | source | states |
|---|---|---|
| `CInt.WrapU16` | src/main.cpp:125-126 | storing a value into a `uint16_t` keeps it modulo 2^16, and a value already in 0..65535 is kept unchanged |
| `CInt.WrapU8` | src/main.cpp:132 | passing `ReadVal[0]` as the DAC's `uint8_t` keeps it modulo 2^8, and a value in 0..255 is kept unchanged |
| `CInt.CDiv` | src/main.cpp:126 | C division: the quotient's magnitude is the floor of the magnitudes' quotient, and its sign is negative only when the operands' signs differ |
| `CInt.CDivTruncates` | src/main.cpp:126 | truncation toward zero: the dropped remainder has a magnitude smaller than the divisor's |
| `CInt.CDivNonNegative` | src/main.cpp:126 | on non-negative operands, C division equals floor division |
| `CInt.ArduinoMap` | src/main.cpp:126 | `map` sends the start of the input range to the start of the output range and the end to the end |
| `CInt.ArduinoMapInRange` | src/main.cpp:126 | for x inside increasing input and output ranges, `map` stays inside the output range and is the floor of the exact linear interpolation |
| `Mapping.Clamp` | src/main.cpp:114-122 | the result lies in [1200, 1500]; readings inside the range are kept; readings above become 1500; readings below become 1200 |
| `Mapping.Invert` | src/main.cpp:125 | the flipped value lies in 0..300 and adds up with the clamped reading to 1500, so the `uint16_t` store does not wrap |
| `Mapping.Rescale` | src/main.cpp:126 | `map(d, 0, 300, 0, 255)` stored in a `uint16_t` takes 0..300 into 0..255, with 0 going to 0 and 300 to 255 |
| `Mapping.Transform` | src/main.cpp:114-126 | for every `uint16_t` reading the value left in `ReadVal[0]` is at most 255 |
| `Mapping.TransformClosedForm` | src/main.cpp:114-126 | the stepwise computation equals `(1500 - clamp(r)) * 255 / 300` with floor division, so no intermediate store wraps |
| `Mapping.TransformRoundsDown` | src/main.cpp:126 | `300 * T(r) <= (1500 - clamp(r)) * 255 < 300 * (T(r) + 1)`: the largest output not above the exact rescaled value |
| `Mapping.TransformSaturates` | src/main.cpp:114-126 | any reading of 1500 or more gives 0 and any reading of 1200 or less gives 255, with no error path for out-of-range readings |
| `Mapping.TransformMonotone` | src/main.cpp:124-126 | r1 <= r2 implies T(r1) >= T(r2): more stretch, a lower reading, never gives less signal |
| `Mapping.TransformExamples` | src/main.cpp:114-126 | T(1500) = T(1600) = 0, T(1200) = T(1000) = 255, T(1350) = 127 |
| `Mapping.TransformOnto` | src/main.cpp:125-126 | every level 0..255 is the transform of some reading in [1200, 1500] |
| `SuperLoop.Initial` | src/main.cpp:71-73 | at loop entry `DataRDY` is clear, the first read is due 90 ms after entry, and a first reading counts as a change exactly when it is not 0 (the zeroed `ReadVal[1]`) |
| `SuperLoop.ReadPhase` | src/main.cpp:96-109 | nothing happens before the read is due; after any read attempt `ReadVal[1]` equals `ReadVal[0]`; a successful reading lands in `ReadVal[0]` and a failed one leaves it and `DataRDY` alone; from the loop top `DataRDY` is raised exactly for a reading that differs from `ReadVal[1]`; a failure and a changed reading are logged, an equal reading is not |
| `SuperLoop.WritePhase` | src/main.cpp:112-137 | `DataRDY` is clear afterwards and `ReadVal[1]` untouched; with `DataRDY` clear nothing is written or logged; with it set, the transform of `ReadVal[0]`, at most 255, is kept in `ReadVal[0]` and written; the DAC error is logged with that value exactly when the write fails |
| `SuperLoop.Iterate` | src/main.cpp:95-138 | one pass. It reads exactly when `TempTime + 90 <= now`, and no state changes before then. It writes to the DAC exactly when a successful read differs from `ReadVal[1]`, and the value written is that reading's transform, which also ends up in `ReadVal[0]` with the raw reading in `ReadVal[1]`. An equal reading writes and logs nothing. A failed read is logged, writes nothing, and still copies `ReadVal[0]` into `ReadVal[1]`. `DataRDY` is 0 at the end of every pass. `TempTime` never changes. A DAC failure is logged with the value it tried to write |
| `SuperLoop.IterateIgnoresDacStatus` | src/main.cpp:132-136 | the DAC's return status changes neither the state after the pass nor the value written |
| `SuperLoop.Trace` | src/main.cpp:95-138 | a run has one report per event, keeps `TempTime` at its entry value, and ends with `DataRDY` clear |
| `SuperLoop.TraceReportAt` | src/main.cpp:95-138 | pass i of a run is `Iterate` applied to the state left by the first i passes |
| `SuperLoop.TraceKeepsLoopTop` | src/main.cpp:95-138 | every state reached in a run has `DataRDY` clear and `TempTime` equal to the loop-entry time |
| `SuperLoop.TraceReadsWhenDue` | src/main.cpp:73-96 | pass i reads if and only if its time is at least 90 ms after loop entry, however recently the last read was |
| `SuperLoop.TraceReadsForever` | src/main.cpp:96 | with a clock that never goes back, once a pass reads, every later pass reads |
| `SuperLoop.TraceWritesOnlyOnChange` | src/main.cpp:97-132 | in a run, pass i writes to the DAC if and only if its read succeeds and differs from the `ReadVal[1]` of that moment; the value written is the transform of that pass's own reading and is at most 255 |
| `SuperLoop.RepeatedReadingSuppressed` | src/main.cpp:97-108 | in any run from the loop top, a due pass whose successful reading equals the previous pass's successful reading writes nothing to the DAC and logs nothing |
| `SuperLoop.FailedReadForgetsPrevious` | src/main.cpp:97-108 | a reading above 255, then a failed read, then the same reading again: both successful reads are written. The failed pass put the transformed value into `ReadVal[1]` |
| `SuperLoop.Superloop.constructor` | src/main.cpp:71-73 | `ReadVal = {0, 0}`, `DataRDY = 0`, `TempTime` = entry time |
| `SuperLoop.Superloop.Step` | src/main.cpp:96-137 | the in-place pass on the array and flag leaves exactly the state and report of `Iterate`, keeps `DataRDY` clear and does not touch `TempTime` |
| `SuperLoop.Superloop.Run` | src/main.cpp:95-138 | running the passes of an event list in place gives exactly the final state and reports of `Trace` |

## Left out

- `setup()` and the driver configuration in `loop()` (src/main.cpp:52-66, 75-90). These are foreign ESP-IDF calls whose errors are only logged; they do not change the loop state.
- `PrintVoltageSettings`, `PrintThresholdSettings`, `PrintSlopeSettings`, `PrintMeasTimeSettings` (src/main.cpp:143-184) and the text of every `Serial` line. This is output only; a pass's log is kept as abstract `Diag` events.
- `DacCycle` (src/main.cpp:187-195). It is hardware writes timed by `delay`. It is also never run: line 92 declares the function again rather than calling it.
- The internals of `touch_pad_read_filtered`, `dac_output_voltage`, `millis()` and `delay()`. The read result, the DAC status and the time are inputs of each pass. A failed read is assumed to leave `ReadVal[0]` unchanged.
- `millis()` wrap-around and the `long` / `unsigned long` mix in the time test (src/main.cpp:73, 96). Time is an unbounded natural number.
- The endless `while (1)`. The model has one pass (`Iterate`, `Superloop.Step`) and finite runs (`Trace`, `Superloop.Run`).
- The Arduino core's `map` is not part of this model. It is modelled by its formula with C truncating division (`CInt.ArduinoMap`), and it requires a non-empty input range; the sketch calls it only with 0..300. 32-bit overflow of `long` is not modelled, since the largest product here is 300 * 255.
