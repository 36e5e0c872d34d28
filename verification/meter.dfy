/**
 The metering pipeline of src/bl0937.cpp as a step system. A poll is cut at every
 action an interrupt can observe (the two counter swaps and the SEL pin write), so
 that pulses may land before, between and after them.
 */
module Meter {
  import opened Shared
  import opened Units
  import MedianFilter

  const MILLI_COUNTS_PER_WATT: int := 775
  const MILLI_COUNTS_PER_VOLT: int := 8077
  const MILLI_COUNTS_PER_AMP: int := 91636

  function ScalePower(countsPerSec: uint32): int { countsPerSec * 1_000_000 / MILLI_COUNTS_PER_WATT }
  function ScaleVoltage(countsPerSec: uint32): int { countsPerSec * 1_000_000 / MILLI_COUNTS_PER_VOLT }
  function ScaleCurrent(countsPerSec: uint32): int { countsPerSec * 1_000_000 / MILLI_COUNTS_PER_AMP }

  function CountsPerSec(pulses: uint32, windowMs: int): uint32
    requires 0 < windowMs
  {
    ToUint32(pulses * 1000 / windowMs)
  }

  /** One accepted poll: what the two counters held, the rates fed to the filters, and where the CF1 pulses
      came from: `high` and `low` count those that arrived while SEL was high and low. */
  datatype Sample = Sample(windowMs: int, cf: uint32, cf1: uint32, cfRate: uint32, cf1Rate: uint32,
                           high: nat, low: nat)
  {
    /** All CF1 pulses of the sample arrived at this level of SEL. */
    predicate Pure(selHigh: bool) { if selHigh then low == 0 else high == 0 }
  }

  /** Where the app task is inside MeterPoll, with the local variables alive there. */
  datatype Pc =
    | Idle
    | Clocked(windowMs: int)
    | TookCf(windowMs: int, cf: uint32)
    | TookBoth(sample: Sample)
    | SelDue
    | PublishDue

  /** The file's static variables and the SEL pin. */
  datatype Registers = Registers(
    cfPulses: uint32, cf1Pulses: uint32, lastPollMs: int,
    cfPending: seq<uint32>, cf1Pending: seq<uint32>,
    selIsVoltage: bool, selPin: bool, readings: Readings)

  /** What an observer of the run has seen. Held pulses have arrived since the last CF1 swap; `polls` are the
      clock readings of the polls. */
  datatype Log = Log(
    cfRaised: nat, cf1Raised: nat, cfDropped: nat, cf1Dropped: nat, cfWraps: nat, cf1Wraps: nat,
    heldHigh: nat, heldLow: nat, polls: seq<int>, samples: seq<Sample>, published: seq<Readings>)

  datatype World = World(regs: Registers, pc: Pc, log: Log)

  datatype Event =
    | CfPulse
    | Cf1Pulse
    | ReadClock(nowMs: int)
    | TakeCf
    | TakeCf1
    | Process
    | WriteSel
    | Publish

  const Boot: World := World(
    Registers(0, 0, 0, [], [], true, true, Readings(0, 0, 0)),
    Idle,
    Log(0, 0, 0, 0, 0, 0, 0, 0, [], [], []))

  /** Whether the next poll starts a window, and how long it was. */
  function WindowMs(lastPollMs: int, nowMs: int): int {
    if lastPollMs != 0 then nowMs - lastPollMs else 0
  }

  /** One sample into a filter: what stays pending, and the median if a window is complete. */
  function Pushed(pending: seq<uint32>, sample: uint32): seq<uint32> {
    if |pending| + 1 < MedianFilter.FILTER_DEPTH then pending + [sample] else []
  }

  predicate Completes(pending: seq<uint32>) {
    |pending| == MedianFilter.FILTER_DEPTH - 1
  }

  function Median(pending: seq<uint32>, sample: uint32): uint32
    requires Completes(pending)
  {
    MedianFilter.Middle(pending[0], pending[1], sample)
  }

  /** The readings after one accepted sample. */
  function NewReadings(r: Registers, s: Sample): Readings {
    var power := if Completes(r.cfPending) then ScalePower(Median(r.cfPending, s.cfRate)) else r.readings.powerMw;
    if !Completes(r.cf1Pending) then r.readings.(powerMw := power)
    else
      var median := Median(r.cf1Pending, s.cf1Rate);
      if r.selIsVoltage then r.readings.(powerMw := power, voltageMv := ScaleVoltage(median))
      else r.readings.(powerMw := power, currentMa := ScaleCurrent(median))
  }

  function ProcessSample(r: Registers, s: Sample): Registers {
    r.(readings := NewReadings(r, s),
       cfPending := Pushed(r.cfPending, s.cfRate),
       cf1Pending := Pushed(r.cf1Pending, s.cf1Rate),
       selIsVoltage := if Completes(r.cf1Pending) then !r.selIsVoltage else r.selIsVoltage)
  }

  predicate Enabled(pc: Pc, e: Event) {
    match e
    case CfPulse => true
    case Cf1Pulse => true
    case ReadClock(_) => pc.Idle?
    case TakeCf => pc.Clocked?
    case TakeCf1 => pc.TookCf?
    case Process => pc.TookBoth?
    case WriteSel => pc.SelDue?
    case Publish => pc.PublishDue?
  }

  function StepEnabled(w: World, e: Event): World
    requires Enabled(w.pc, e)
  {
    var r, log := w.regs, w.log;
    match e
    case CfPulse =>
      w.(regs := r.(cfPulses := ToUint32(r.cfPulses + 1)),
         log := log.(cfRaised := log.cfRaised + 1,
                     cfWraps := log.cfWraps + if r.cfPulses + 1 == UINT32_SPAN then 1 else 0))
    case Cf1Pulse =>
      w.(regs := r.(cf1Pulses := ToUint32(r.cf1Pulses + 1)),
         log := log.(cf1Raised := log.cf1Raised + 1,
                     cf1Wraps := log.cf1Wraps + if r.cf1Pulses + 1 == UINT32_SPAN then 1 else 0,
                     heldHigh := log.heldHigh + if r.selPin then 1 else 0,
                     heldLow := log.heldLow + if r.selPin then 0 else 1))
    case ReadClock(nowMs) =>
      w.(regs := r.(lastPollMs := nowMs), pc := Clocked(WindowMs(r.lastPollMs, nowMs)),
         log := log.(polls := log.polls + [nowMs]))
    case TakeCf =>
      w.(regs := r.(cfPulses := 0), pc := TookCf(w.pc.windowMs, r.cfPulses))
    case TakeCf1 =>
      var taken := w.(regs := r.(cf1Pulses := 0), log := log.(heldHigh := 0, heldLow := 0));
      if w.pc.windowMs <= 0 then
        taken.(pc := Idle,
               log := taken.log.(cfDropped := log.cfDropped + w.pc.cf, cf1Dropped := log.cf1Dropped + r.cf1Pulses))
      else
        taken.(pc := TookBoth(Sample(w.pc.windowMs, w.pc.cf, r.cf1Pulses,
                                     CountsPerSec(w.pc.cf, w.pc.windowMs), CountsPerSec(r.cf1Pulses, w.pc.windowMs),
                                     log.heldHigh, log.heldLow)))
    case Process =>
      World(ProcessSample(r, w.pc.sample),
            if Completes(r.cf1Pending) then SelDue else PublishDue,
            log.(samples := log.samples + [w.pc.sample]))
    case WriteSel =>
      w.(regs := r.(selPin := r.selIsVoltage), pc := PublishDue)
    case Publish =>
      w.(pc := Idle, log := log.(published := log.published + [r.readings]))
  }

  /** An event the program is not ready for does not happen. */
  function Step(w: World, e: Event): World {
    if Enabled(w.pc, e) then StepEnabled(w, e) else w
  }

  function Run(events: seq<Event>): World {
    if events == [] then Boot
    else Step(Run(events[..|events| - 1]), events[|events| - 1])
  }

  lemma RunExtends(events: seq<Event>, e: Event)
    ensures Run(events + [e]) == Step(Run(events), e)
  {
    assert (events + [e])[..|events|] == events;
  }
}
