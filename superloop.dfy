/** The sketch's superloop: every pass checks whether the sampling delay has
    elapsed since loop entry, reads the touch pad if so, and when the reading
    differs from the previous one transforms it and writes it to the DAC.

    The loop state is specified twice over: as a value (`LoopState`) with a
    pure step function `Iterate` and its finite traces `Trace`, about which
    the lemmas below are stated; and as the class `Superloop`, whose array
    `readVal` and flag `dataRdy` are updated in place as the sketch does,
    and whose methods are proved to follow `Iterate` and `Trace`. */
module SuperLoop {
  import opened CInt
  import opened Mapping

  /** Milliseconds after loop entry before the first reading is taken. */
  const DelayTimeMs: nat := 90

  datatype Option<T> = None | Some(value: T)

  /** What `touch_pad_read_filtered` gives back: a reading, or an error
      status. A failed read is taken to leave `ReadVal[0]` untouched. */
  datatype ReadResult = ReadOk(value: U16) | ReadFailed

  /** The outside world seen by one pass of the loop: the time `millis()`
      returns, the result the read would have if it is made, and whether
      `dac_output_voltage` reports `ESP_OK` if it is called. */
  datatype Event = Event(now: nat, read: ReadResult, dacOk: bool)

  /** The lines a pass sends to the serial port, as abstract events. */
  datatype Diag =
    | ReadError            // "Read filtered value error"
    | RawValue(raw: U16)   // the raw reading of a changed sample
    | Converted(out: U16)  // the transformed value
    | DacError(out: U16)   // "[Error] Setting the DAC voltage failed at <out>."

  /** What one pass did: whether it called the read, the byte it passed to
      the DAC if it wrote one, and what it logged. */
  datatype Report = Report(readAttempted: bool, dacWrite: Option<U8>, log: seq<Diag>)

  /** The locals of `loop()`: `ReadVal[0]`, `ReadVal[1]`, `DataRDY` and
      `TempTime`. */
  datatype LoopState = LoopState(cur: U16, prev: U16, dataRdy: U8, tempTime: nat)

  /** The state on entry to the superloop, `entry` being `millis()` then. */
  function Initial(entry: nat): (s: LoopState)
    ensures AtLoopTop(s)
    // the first read is due 90 ms after entry ...
    ensures forall now: nat :: ReadDue(s, now) <==> entry + DelayTimeMs <= now
    // ... and a first reading of 0 equals the zeroed ReadVal[1], so it is not a change
    ensures forall e: Event :: Changed(s, e) <==>
      entry + DelayTimeMs <= e.now && e.read.ReadOk? && e.read.value != 0
  {
    LoopState(0, 0, 0, entry)
  }

  /** `DataRDY` is clear at the top of every pass. */
  predicate AtLoopTop(s: LoopState)
  {
    s.dataRdy == 0
  }

  /** The guard of the read: `TempTime + DelayTimeMS <= millis()`. */
  predicate ReadDue(s: LoopState, now: nat)
  {
    s.tempTime + DelayTimeMs <= now
  }

  /** A pass that reads successfully and gets a value different from
      `ReadVal[1]`. */
  predicate Changed(s: LoopState, e: Event)
  {
    ReadDue(s, e.now) && e.read.ReadOk? && e.read.value != s.prev
  }

  /** The change-gated read (first half of a pass). */
  function ReadPhase(s: LoopState, e: Event): (r: (LoopState, seq<Diag>))
    ensures r.0.tempTime == s.tempTime
    // nothing happens before the read is due
    ensures !ReadDue(s, e.now) ==> r == (s, [])
    // after every attempted read, successful or not, ReadVal[1] equals ReadVal[0]
    ensures ReadDue(s, e.now) ==> r.0.prev == r.0.cur
    // a successful read lands in ReadVal[0]; a failed one leaves it alone
    ensures ReadDue(s, e.now) && e.read.ReadOk? ==> r.0.cur == e.read.value
    ensures e.read.ReadFailed? ==> r.0.cur == s.cur && r.0.dataRdy == s.dataRdy
    // from the loop top, DataRDY is raised exactly for a changed reading
    ensures AtLoopTop(s) ==> (r.0.dataRdy != 0 <==> Changed(s, e))
    // a failed read and a changed reading are logged; an equal reading is not
    ensures r.1 == [ReadError] <==> ReadDue(s, e.now) && e.read.ReadFailed?
    ensures Changed(s, e) ==> r.1 == [RawValue(e.read.value)]
    ensures ReadDue(s, e.now) && e.read == ReadOk(s.prev) ==> r.1 == []
  {
    if !ReadDue(s, e.now) then (s, [])
    else match e.read
      case ReadFailed => (s.(prev := s.cur), [ReadError])
      case ReadOk(v) =>
        if v == s.prev then (s.(cur := v, prev := v, dataRdy := 0), [])
        else (s.(cur := v, prev := v, dataRdy := 1), [RawValue(v)])
  }

  /** The transform and DAC write, done when `DataRDY` is set (second half
      of a pass). */
  function WritePhase(s: LoopState, dacOk: bool): (r: (LoopState, Option<U8>, seq<Diag>))
    // DataRDY is always clear afterwards, and only ReadVal[0] may change
    ensures AtLoopTop(r.0)
    ensures r.0.prev == s.prev && r.0.tempTime == s.tempTime
    // with DataRDY clear nothing is written, logged or changed
    ensures s.dataRdy == 0 ==> r.0 == s && r.1 == None && r.2 == []
    // with DataRDY set, the transform of ReadVal[0] is kept and written, within the DAC range
    ensures s.dataRdy != 0 ==>
      r.0.cur == Transform(s.cur) && r.1 == Some(Transform(s.cur)) && Transform(s.cur) <= DacMax
    // a failed DAC write is logged with the value it attempted
    ensures DacError(Transform(s.cur)) in r.2 <==> s.dataRdy != 0 && !dacOk
  {
    if s.dataRdy == 0 then (s, None, [])
    else
      var out := Transform(s.cur);
      (s.(cur := out, dataRdy := 0), Some(WrapU8(out)),
       [Converted(out)] + if dacOk then [] else [DacError(out)])
  }

  /** One pass of the superloop. */
  function Iterate(s: LoopState, e: Event): (r: (LoopState, Report))
    // DataRDY is clear when the pass ends, whatever the DAC reported
    ensures AtLoopTop(r.0)
    // TempTime is never reassigned
    ensures r.0.tempTime == s.tempTime
    // the read is attempted exactly when the delay since loop entry has elapsed
    ensures r.1.readAttempted <==> ReadDue(s, e.now)
    ensures !ReadDue(s, e.now) && AtLoopTop(s) ==> r.0 == s && r.1.dacWrite == None && r.1.log == []
    // a DAC write happens exactly when a successful read differs from ReadVal[1] ...
    ensures AtLoopTop(s) ==> (r.1.dacWrite.Some? <==> Changed(s, e))
    // ... and writes the transform of that very reading, which stays in ReadVal[0]
    ensures AtLoopTop(s) && Changed(s, e) ==>
      r.1.dacWrite == Some(Transform(e.read.value)) &&
      r.0.cur == Transform(e.read.value) && r.0.prev == e.read.value
    // a reading equal to ReadVal[1] is kept raw and nothing is written or logged
    ensures AtLoopTop(s) && ReadDue(s, e.now) && e.read == ReadOk(s.prev) ==>
      r.0 == s.(cur := s.prev) && r.1.dacWrite == None && r.1.log == []
    // a failed read is logged, writes nothing, and still copies ReadVal[0] into ReadVal[1]
    ensures AtLoopTop(s) && ReadDue(s, e.now) && e.read.ReadFailed? ==>
      r.0 == s.(prev := s.cur) && r.1.dacWrite == None && r.1.log == [ReadError]
    // a failing DAC write is logged with the value it tried to write
    ensures AtLoopTop(s) && Changed(s, e) ==>
      (DacError(Transform(e.read.value)) in r.1.log <==> !e.dacOk)
  {
    var (afterRead, readLog) := ReadPhase(s, e);
    var (afterWrite, dac, writeLog) := WritePhase(afterRead, e.dacOk);
    (afterWrite, Report(ReadDue(s, e.now), dac, readLog + writeLog))
  }

  /** The DAC's status only reaches the log: the state after a pass and
      the value written are the same whether the write succeeds or not. */
  lemma IterateIgnoresDacStatus(s: LoopState, e: Event)
    ensures var ok, failed := Iterate(s, e.(dacOk := true)), Iterate(s, e.(dacOk := false));
      ok.0 == failed.0 && ok.1.dacWrite == failed.1.dacWrite &&
      ok.1.readAttempted == failed.1.readAttempted
  {
  }

  /** A finite run of the superloop over `events`, one pass per event:
      the final state and the report of every pass. */
  function Trace(s: LoopState, events: seq<Event>): (r: (LoopState, seq<Report>))
    ensures |r.1| == |events|
    ensures r.0.tempTime == s.tempTime
    ensures events == [] ==> r.0 == s
    ensures events != [] ==> AtLoopTop(r.0)
    ensures AtLoopTop(s) ==> AtLoopTop(r.0)
    decreases |events|
  {
    if events == [] then (s, [])
    else
      var (t, reports) := Trace(s, events[..|events| - 1]);
      var (u, report) := Iterate(t, events[|events| - 1]);
      (u, reports + [report])
  }

  /** The state at the top of pass `i`. */
  function StateBefore(s: LoopState, events: seq<Event>, i: nat): LoopState
    requires i <= |events|
  {
    Trace(s, events[..i]).0
  }

  /** Pass `i` of a trace is `Iterate` applied to the state the first `i`
      passes left behind. */
  lemma {:induction false} TraceReportAt(s: LoopState, events: seq<Event>, i: nat)
    requires i < |events|
    ensures Trace(s, events).1[i] == Iterate(StateBefore(s, events, i), events[i]).1
    ensures StateBefore(s, events, i + 1) == Iterate(StateBefore(s, events, i), events[i]).0
    decreases |events|
  {
    var n := |events| - 1;
    assert events[..i + 1][..i] == events[..i];
    if i < n {
      assert events[..n][..i] == events[..i];
      assert events[..n][..i + 1] == events[..i + 1];
      TraceReportAt(s, events[..n], i);
    } else {
      assert events[..n] == events[..i];
      assert events[..i + 1] == events;
    }
  }

  /** Every state a trace passes through has `DataRDY` clear and the
      entry time in `TempTime`. */
  lemma TraceKeepsLoopTop(s: LoopState, events: seq<Event>, i: nat)
    requires AtLoopTop(s) && i <= |events|
    ensures AtLoopTop(StateBefore(s, events, i))
    ensures StateBefore(s, events, i).tempTime == s.tempTime
  {
  }

  /** There is no sampling cadence: `TempTime` stays at the loop-entry
      time, so a pass reads exactly when its time is at least 90 ms after
      entry, however recently the previous read happened. */
  lemma TraceReadsWhenDue(s: LoopState, events: seq<Event>, i: nat)
    requires i < |events|
    ensures Trace(s, events).1[i].readAttempted <==> s.tempTime + DelayTimeMs <= events[i].now
  {
    TraceReportAt(s, events, i);
  }

  /** With a clock that never goes back, once one pass has read, every
      later pass reads too. */
  lemma TraceReadsForever(s: LoopState, events: seq<Event>, i: nat, j: nat)
    requires forall k :: 0 < k < |events| ==> events[k - 1].now <= events[k].now
    requires i <= j < |events|
    requires Trace(s, events).1[i].readAttempted
    ensures Trace(s, events).1[j].readAttempted
  {
    TraceReadsWhenDue(s, events, i);
    TraceReadsWhenDue(s, events, j);
    NowMonotone(events, i, j);
  }

  lemma {:induction false} NowMonotone(events: seq<Event>, i: nat, j: nat)
    requires forall k :: 0 < k < |events| ==> events[k - 1].now <= events[k].now
    requires i <= j < |events|
    ensures events[i].now <= events[j].now
    decreases j - i
  {
    if i < j {
      NowMonotone(events, i, j - 1);
    }
  }

  /** Every DAC write of a run starting at the loop top comes from a
      successful read in that same pass whose value differs from the
      `ReadVal[1]` of that moment, and is the transform of that value;
      and every such pass writes. */
  lemma TraceWritesOnlyOnChange(s: LoopState, events: seq<Event>, i: nat)
    requires AtLoopTop(s) && i < |events|
    ensures var dac := Trace(s, events).1[i].dacWrite;
      (dac.Some? <==> Changed(StateBefore(s, events, i), events[i])) &&
      (dac.Some? ==> dac.value == Transform(events[i].read.value) && dac.value <= DacMax)
  {
    TraceReportAt(s, events, i);
    TraceKeepsLoopTop(s, events, i);
  }

  /** Equal successive readings are written at most once: in any run
      from the loop top, a pass whose successful reading equals the one
      read in the pass before writes nothing and logs nothing. */
  lemma RepeatedReadingSuppressed(s: LoopState, events: seq<Event>, i: nat, v: U16)
    requires AtLoopTop(s) && i + 1 < |events|
    requires events[i].read == ReadOk(v) && events[i + 1].read == ReadOk(v)
    requires ReadDue(s, events[i].now) && ReadDue(s, events[i + 1].now)
    ensures Trace(s, events).1[i + 1].dacWrite == None
    ensures Trace(s, events).1[i + 1].log == []
  {
    TraceReportAt(s, events, i);
    TraceReportAt(s, events, i + 1);
    TraceKeepsLoopTop(s, events, i);
  }

  /** A failed read between two equal readings makes the second one be
      written again: the failed pass copies the transformed value left in
      `ReadVal[0]` into `ReadVal[1]`, so the repeated raw reading no longer
      matches it. */
  lemma FailedReadForgetsPrevious(entry: nat, v: U16)
    requires v > DacMax
    ensures var reports := Trace(Initial(entry), [Event(entry + DelayTimeMs, ReadOk(v), true),
                                                  Event(entry + DelayTimeMs, ReadFailed, true),
                                                  Event(entry + DelayTimeMs, ReadOk(v), true)]).1;
      reports[0].dacWrite == Some(Transform(v)) && reports[1].dacWrite == None &&
      reports[2].dacWrite == Some(Transform(v))
  {
    var events := [Event(entry + DelayTimeMs, ReadOk(v), true),
                   Event(entry + DelayTimeMs, ReadFailed, true),
                   Event(entry + DelayTimeMs, ReadOk(v), true)];
    TraceReportAt(Initial(entry), events, 0);
    TraceReportAt(Initial(entry), events, 1);
    TraceReportAt(Initial(entry), events, 2);
  }

  /** The superloop's state, held and updated in place as in `loop()`. */
  class Superloop {
    /** `ReadVal`: [0] the current value, [1] the previous one. */
    const readVal: array<U16>
    /** `DataRDY`. */
    var dataRdy: U8
    /** `TempTime`, the time of loop entry. */
    var tempTime: nat

    ghost predicate Valid()
      reads this
    {
      readVal.Length == 2 && dataRdy == 0
    }

    function State(): LoopState
      reads this, readVal
      requires readVal.Length == 2
    {
      LoopState(readVal[0], readVal[1], dataRdy, tempTime)
    }

    /** The declarations at the head of `loop()`, `entry` being `millis()`. */
    constructor (entry: nat)
      ensures Valid() && fresh(readVal)
      ensures State() == Initial(entry)
    {
      readVal := new U16[2](_ => 0);
      dataRdy := 0;
      tempTime := entry;
    }

    /** One pass of the `while (1)` body. `TempTime` is outside the frame:
        no pass reassigns it. */
    method Step(now: nat, read: ReadResult, dacOk: bool) returns (report: Report)
      requires Valid()
      modifies readVal, this`dataRdy
      ensures Valid() && tempTime == old(tempTime)
      ensures (State(), report) == Iterate(old(State()), Event(now, read, dacOk))
    {
      ghost var e := Event(now, read, dacOk);
      ghost var s0 := State();
      var attempted := false;
      var log: seq<Diag> := [];
      if tempTime + DelayTimeMs <= now {
        attempted := true;
        match read {
          case ReadFailed =>
            log := [ReadError];
          case ReadOk(v) =>
            readVal[0] := v;
            if readVal[0] == readVal[1] {
              dataRdy := 0;
            } else {
              log := [RawValue(readVal[0])];
              dataRdy := 1;
            }
        }
        readVal[1] := readVal[0];
      }
      assert (State(), log) == ReadPhase(s0, e);

      ghost var s1, readLog := State(), log;
      var dac: Option<U8> := None;
      if dataRdy != 0 {
        if readVal[0] > MaxCapVal {
          readVal[0] := MaxCapVal;
        } else if readVal[0] < MinCapVal {
          readVal[0] := MinCapVal;
        }
        assert readVal[0] == Clamp(s1.cur);
        readVal[0] := WrapU16(MaxCapVal - readVal[0]);
        readVal[0] := WrapU16(ArduinoMap(readVal[0], 0, CapSpan, 0, DacMax));
        assert readVal[0] == Transform(s1.cur);
        log := log + [Converted(readVal[0])];
        dac := Some(WrapU8(readVal[0]));
        if !dacOk {
          log := log + [DacError(readVal[0])];
        }
        dataRdy := 0;
      }
      assert State() == WritePhase(s1, dacOk).0;
      assert dac == WritePhase(s1, dacOk).1;
      assert log == readLog + WritePhase(s1, dacOk).2;
      report := Report(attempted, dac, log);
    }

    /** A bounded stand-in for the endless `while (1)`: one pass per event. */
    method Run(events: seq<Event>) returns (reports: seq<Report>)
      requires Valid()
      modifies readVal, this`dataRdy
      ensures Valid() && tempTime == old(tempTime)
      ensures (State(), reports) == Trace(old(State()), events)
    {
      reports := [];
      var i := 0;
      while i < |events|
        invariant 0 <= i <= |events|
        invariant Valid() && tempTime == old(tempTime)
        invariant (State(), reports) == Trace(old(State()), events[..i])
      {
        var report := Step(events[i].now, events[i].read, events[i].dacOk);
        assert events[..i + 1][..i] == events[..i];
        assert Event(events[i].now, events[i].read, events[i].dacOk) == events[i];
        reports := reports + [report];
        i := i + 1;
      }
      assert events[..i] == events;
    }
  }
}
