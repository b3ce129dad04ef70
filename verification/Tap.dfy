/** The test access port controller of section 6.1 of IEEE Std 1149.1, one clock at a time. */
module Tap {
  import opened Bits

  datatype TapState =
    | TestLogicReset | RunTestIdle
    | SelectDR | CaptureDR | ShiftDR | Exit1DR | PauseDR | Exit2DR | UpdateDR
    | SelectIR | CaptureIR | ShiftIR | Exit1IR | PauseIR | Exit2IR | UpdateIR

  function Next(s: TapState, tms: bool): TapState {
    match s
    case TestLogicReset => if tms then TestLogicReset else RunTestIdle
    case RunTestIdle => if tms then SelectDR else RunTestIdle
    case SelectDR => if tms then SelectIR else CaptureDR
    case CaptureDR => if tms then Exit1DR else ShiftDR
    case ShiftDR => if tms then Exit1DR else ShiftDR
    case Exit1DR => if tms then UpdateDR else PauseDR
    case PauseDR => if tms then Exit2DR else PauseDR
    case Exit2DR => if tms then UpdateDR else ShiftDR
    case UpdateDR => if tms then SelectDR else RunTestIdle
    case SelectIR => if tms then TestLogicReset else CaptureIR
    case CaptureIR => if tms then Exit1IR else ShiftIR
    case ShiftIR => if tms then Exit1IR else ShiftIR
    case Exit1IR => if tms then UpdateIR else PauseIR
    case PauseIR => if tms then Exit2IR else PauseIR
    case Exit2IR => if tms then UpdateIR else ShiftIR
    case UpdateIR => if tms then SelectDR else RunTestIdle
  }

  /** What the logic behind the port sees. */
  datatype TapEvent =
    | Captured | Shifted(tdi: bool) | Updated
    | CapturedIR | ShiftedIR(tdi: bool) | UpdatedIR

  function Effect(s: TapState, tdi: bool): seq<TapEvent> {
    match s
    case CaptureDR => [Captured]
    case ShiftDR => [Shifted(tdi)]
    case UpdateDR => [Updated]
    case CaptureIR => [CapturedIR]
    case ShiftIR => [ShiftedIR(tdi)]
    case UpdateIR => [UpdatedIR]
    case _ => []
  }

  /** One TCK cycle as the adapter drives it. */
  datatype Pulse = Pulse(tms: bool, tdi: bool)

  /**
   A clocked port: its state, the events so far and the bits the host sampled. The data
   register has presented `shifted` bits on TDO; the next one is `tdo(shifted)`.
   */
  datatype Clocked = Clocked(tap: TapState, shifted: nat, events: seq<TapEvent>, samples: bits)

  function Play(tap: TapState, shifted: nat, pulses: seq<Pulse>, tdo: nat -> bool): (r: Clocked)
    ensures |r.samples| == |pulses|
    decreases |pulses|
  {
    if pulses == [] then Clocked(tap, shifted, [], [])
    else
      var p := pulses[0];
      var rest := Play(Next(tap, p.tms), if tap.ShiftDR? then shifted + 1 else shifted, pulses[1..], tdo);
      Clocked(rest.tap, rest.shifted, Effect(tap, p.tdi) + rest.events, [tdo(shifted)] + rest.samples)
  }

  lemma {:induction false} PlayAppend(tap: TapState, shifted: nat, a: seq<Pulse>, b: seq<Pulse>, tdo: nat -> bool)
    ensures var first := Play(tap, shifted, a, tdo);
            var second := Play(first.tap, first.shifted, b, tdo);
            Play(tap, shifted, a + b, tdo) ==
              Clocked(second.tap, second.shifted, first.events + second.events, first.samples + second.samples)
    decreases |a|
  {
    if a == [] {
      assert a + b == b;
      var second := Play(tap, shifted, b, tdo);
      assert [] + second.events == second.events && [] + second.samples == second.samples;
    } else {
      assert (a + b)[1..] == a[1..] + b;
      var tap', shifted' := Next(tap, a[0].tms), if tap.ShiftDR? then shifted + 1 else shifted;
      var effect, sample := Effect(tap, a[0].tdi), [tdo(shifted)];
      var rest := Play(tap', shifted', a[1..], tdo);
      var second := Play(rest.tap, rest.shifted, b, tdo);
      PlayAppend(tap', shifted', a[1..], b, tdo);
      assert effect + rest.events + second.events == effect + (rest.events + second.events);
      assert sample + rest.samples + second.samples == sample + (rest.samples + second.samples);
    }
  }

  lemma PlayOne(tap: TapState, shifted: nat, p: Pulse, tdo: nat -> bool)
    ensures Play(tap, shifted, [p], tdo)
         == Clocked(Next(tap, p.tms), if tap.ShiftDR? then shifted + 1 else shifted, Effect(tap, p.tdi), [tdo(shifted)])
  {
    assert [p][1..] == [];
    assert Effect(tap, p.tdi) + [] == Effect(tap, p.tdi);
    assert [tdo(shifted)] + [] == [tdo(shifted)];
  }

  function ShiftsOf(tdi: bits): (r: seq<TapEvent>)
    ensures |r| == |tdi|
  {
    seq(|tdi|, i requires 0 <= i < |tdi| => Shifted(tdi[i]))
  }

  lemma ShiftsAppend(a: bits, b: bits)
    ensures ShiftsOf(a + b) == ShiftsOf(a) + ShiftsOf(b)
  {
  }

  function Window(tdo: nat -> bool, start: nat, n: nat): (r: bits)
    ensures |r| == n
  {
    seq(n, i requires 0 <= i < n => tdo(start + i))
  }

  lemma WindowAppend(tdo: nat -> bool, start: nat, m: nat, n: nat)
    ensures Window(tdo, start, m) + Window(tdo, start + m, n) == Window(tdo, start, m + n)
  {
  }

  /** Data clocks with TMS low stay in Shift-DR: one bit in and one bit out per clock. */
  lemma {:induction false} PlayShifting(shifted: nat, pulses: seq<Pulse>, tdi: bits, tdo: nat -> bool)
    requires |pulses| == |tdi|
    requires forall i :: 0 <= i < |tdi| ==> pulses[i] == Pulse(false, tdi[i])
    ensures Play(ShiftDR, shifted, pulses, tdo) ==
            Clocked(ShiftDR, shifted + |tdi|, ShiftsOf(tdi), Window(tdo, shifted, |tdi|))
    decreases |tdi|
  {
    if tdi == [] {
      assert ShiftsOf(tdi) == [] && Window(tdo, shifted, 0) == [];
    } else {
      PlayShifting(shifted + 1, pulses[1..], tdi[1..], tdo);
      assert ShiftsOf(tdi) == [Shifted(tdi[0])] + ShiftsOf(tdi[1..]);
      assert Window(tdo, shifted, |tdi|) == [tdo(shifted)] + Window(tdo, shifted + 1, |tdi| - 1);
    }
  }
}
