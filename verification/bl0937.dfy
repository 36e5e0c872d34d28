/**
 The code of src/bl0937.cpp: pulse interrupts, the poll on the app task with interrupts at every point they can
 be observed, the over-power check, and the hand-over of the readings.
 */
module Bl0937 {
  import opened Shared
  import opened Units
  import opened Meter
  import MedianFilter
  import OverPower
  import PM = PowerMeasurement
  import AppTask
  import OnOffBridge
  import ReportingRuns
  import MeterTheorems

  /** The power of each accepted sample, as the over-power check sees it. */
  function SamplePowers(samples: seq<Sample>): (powers: seq<int>)
    ensures |powers| == |samples|
  {
    seq(|samples|, i requires 0 <= i < |samples| => ScalePower(samples[i].cfRate))
  }

  /** The app task's steps of a trip, if there is one. */
  function TripEvents(trips: bool): seq<OnOffBridge.Event> {
    if trips then [OnOffBridge.OverPower, OnOffBridge.TripRelay, OnOffBridge.Post] else []
  }

  /** The check sees the power of the CF rate of each sample, not the filtered one: to within one milliwatt, a count
      per second is 1 / 0.775 W. */
  lemma SamplePowersAreCalibrated(samples: seq<Sample>, i: nat)
    requires i < |samples|
    ensures 0 <= samples[i].cfRate * 1_000_000 - 775 * SamplePowers(samples)[i] < 775
  {
    MeterTheorems.ScalesAreCalibrated(samples[i].cfRate);
  }

  /** Accepted polls: the sample, whether the relay was on when it was taken, and the app task's steps in it. */
  datatype Poll = Poll(sample: Sample, relayOn: bool, steps: seq<OnOffBridge.Event>)

  function SamplesOf(polls: seq<Poll>): (samples: seq<Sample>)
    ensures |samples| == |polls|
  {
    seq(|polls|, i requires 0 <= i < |polls| => polls[i].sample)
  }

  /** What MeterPoll says of the app task's steps in each of them. */
  ghost predicate StepsAsPolled(cfg: OverPower.Config, polls: seq<Poll>) {
    forall i :: 0 <= i < |polls| ==>
      var fired := OverPower.CheckAfter(cfg, SamplePowers(SamplesOf(polls)[..i + 1])).fired;
      polls[i].steps == if fired && polls[i].relayOn
                        then [OnOffBridge.OverPower, OnOffBridge.TripRelay, OnOffBridge.Post] else []
  }

  lemma PolledPower(polls: seq<Poll>, j: nat)
    requires j < |polls|
    ensures SamplePowers(SamplesOf(polls))[j] == polls[j].sample.cfRate * 1_000_000 / 775
    ensures SamplePowers(SamplesOf(polls)[..j + 1]) == SamplePowers(SamplesOf(polls))[..j + 1]
  {
    SamplePowersAreCalibrated(SamplesOf(polls), j);
  }

  lemma PolledSteps(cfg: OverPower.Config, polls: seq<Poll>, j: nat)
    requires StepsAsPolled(cfg, polls) && j < |polls|
    ensures polls[j].steps == if OverPower.FiresAt(cfg, SamplePowers(SamplesOf(polls)), j) && polls[j].relayOn
                              then [OnOffBridge.OverPower, OnOffBridge.TripRelay, OnOffBridge.Post] else []
  {
    PolledPower(polls, j);
  }

  /** As many accepted polls as configured (n, one if that is zero), all with the relay on and a rate whose power is
      above the threshold, contain exactly one that opens the relay and reports it; the app task does nothing in
      the others, nor in any poll at or below the threshold. */
  lemma SustainedOverloadTrips(cfg: OverPower.Config, polls: seq<Poll>, i: nat, n: nat) returns (k: nat)
    requires StepsAsPolled(cfg, polls) && n == (if cfg.samples == 0 then 1 else cfg.samples) && i + n <= |polls|
    requires forall j :: i <= j < i + n ==>
               polls[j].relayOn && polls[j].sample.cfRate * 1_000_000 / 775 > cfg.thresholdMw
    ensures i <= k < i + n
    ensures polls[k].steps == [OnOffBridge.OverPower, OnOffBridge.TripRelay, OnOffBridge.Post]
    ensures forall j :: i <= j < i + n && j != k ==> polls[j].steps == []
    ensures forall j :: 0 <= j < |polls| && polls[j].sample.cfRate * 1_000_000 / 775 <= cfg.thresholdMw ==>
              polls[j].steps == []
  {
    var powers := SamplePowers(SamplesOf(polls));
    forall j | 0 <= j < |polls| ensures powers[j] == polls[j].sample.cfRate * 1_000_000 / 775 {
      PolledPower(polls, j);
    }
    k := OverPower.SustainedBreachFiresOnce(cfg, powers, i);
    forall j | 0 <= j < |polls|
      ensures polls[j].steps == if OverPower.FiresAt(cfg, powers, j) && polls[j].relayOn
                                then [OnOffBridge.OverPower, OnOffBridge.TripRelay, OnOffBridge.Post] else []
    {
      PolledSteps(cfg, polls, j);
    }
  }

  class Bl0937 {
    const overPower: OverPower.Config
    const cfFilter: MedianFilter.MedianFilter
    const cf1Filter: MedianFilter.MedianFilter
    const app: AppTask.AppTask
    const power: PM.PowerMeasurement
    var cfPulses: uint32
    var cf1Pulses: uint32
    var selIsVoltage: bool
    var selPin: bool
    var lastActivePowerMw: int
    var lastRmsVoltageMv: int
    var lastRmsCurrentMa: int
    var lastPollMs: int
    var overPowerSamples: uint32
    ghost var pc: Pc
    ghost var log: Log
    ghost var trace: seq<Event>

    ghost predicate Shape()
      reads this, cfFilter, cf1Filter
    {
      && cfFilter.Valid() && cf1Filter.Valid()
      && cfFilter != cf1Filter && cfFilter.samples != cf1Filter.samples
    }

    ghost function State(): World
      requires Shape()
      reads this, cfFilter, cf1Filter, cfFilter.samples, cf1Filter.samples
    {
      World(Registers(cfPulses, cf1Pulses, lastPollMs, cfFilter.Pending(), cf1Filter.Pending(), selIsVoltage, selPin,
                      Readings(lastActivePowerMw, lastRmsVoltageMv, lastRmsCurrentMa)),
            pc, log)
    }

    /** The object is in the state its trace leads to; the debounce counter has seen every accepted sample. */
    ghost predicate Valid()
      reads this, cfFilter, cf1Filter, cfFilter.samples, cf1Filter.samples
    {
      Shape() && State() == Run(trace) && Debounced()
    }

    ghost predicate Debounced()
      reads this
    {
      overPowerSamples == OverPower.CheckAfter(overPower, SamplePowers(log.samples)).counter
    }

    /** Zeroed statics and the pins as MeterInit leaves them. */
    constructor (overPower: OverPower.Config, app: AppTask.AppTask, power: PM.PowerMeasurement)
      ensures Valid() && pc.Idle? && trace == [] && fresh(cfFilter) && fresh(cf1Filter)
      ensures fresh(cfFilter.samples) && fresh(cf1Filter.samples)
      ensures this.overPower == overPower && this.app == app && this.power == power
    {
      this.overPower, this.app, this.power := overPower, app, power;
      cfFilter := new MedianFilter.MedianFilter();
      cf1Filter := new MedianFilter.MedianFilter();
      cfPulses, cf1Pulses, selIsVoltage, selPin := 0, 0, true, true;
      lastActivePowerMw, lastRmsVoltageMv, lastRmsCurrentMa, lastPollMs := 0, 0, 0, 0;
      overPowerSamples := 0;
      pc, log, trace := Idle, Boot.log, [];
    }

    ghost method Record(e: Event)
      modifies this`pc, this`log, this`trace
      ensures trace == old(trace) + [e] && Run(trace) == Step(Run(old(trace)), e)
      ensures pc == Step(Run(old(trace)), e).pc && log == Step(Run(old(trace)), e).log
    {
      RunExtends(trace, e);
      trace := trace + [e];
      pc, log := Run(trace).pc, Run(trace).log;
    }

    /* ---- Interrupts ---- */

    method CfIsr()
      requires Valid()
      modifies this`cfPulses, this`pc, this`log, this`trace
      ensures Valid() && trace == old(trace) + [CfPulse]
      ensures pc == old(pc) && log.samples == old(log.samples)
    {
      cfPulses := ToUint32(cfPulses + 1);
      Record(CfPulse);
    }

    method Cf1Isr()
      requires Valid()
      modifies this`cf1Pulses, this`pc, this`log, this`trace
      ensures Valid() && trace == old(trace) + [Cf1Pulse]
      ensures pc == old(pc) && log.samples == old(log.samples)
    {
      cf1Pulses := ToUint32(cf1Pulses + 1);
      Record(Cf1Pulse);
    }

    /** Any number of pulses on both lines. */
    method Interrupts()
      requires Valid()
      modifies this`cfPulses, this`cf1Pulses, this`pc, this`log, this`trace
      ensures Valid() && pc == old(pc) && log.samples == old(log.samples) && old(trace) <= trace
    {
      var pulses: nat :| true;
      while pulses > 0
        invariant Valid() && pc == old(pc) && log.samples == old(log.samples) && old(trace) <= trace
      {
        if {
          case true => CfIsr();
          case true => Cf1Isr();
        }
        pulses := pulses - 1;
      }
    }

    /* ---- The steps of MeterPoll ---- */

    method StartClock(nowMs: int) returns (windowMs: int)
      requires Valid() && pc.Idle?
      modifies this`lastPollMs, this`pc, this`log, this`trace
      ensures Valid() && trace == old(trace) + [ReadClock(nowMs)]
      ensures log == old(log).(polls := old(log.polls) + [nowMs])
      ensures pc == Clocked(windowMs) && windowMs == WindowMs(old(lastPollMs), nowMs)
    {
      windowMs := if lastPollMs != 0 then nowMs - lastPollMs else 0;
      lastPollMs := nowMs;
      Record(ReadClock(nowMs));
    }

    method TakeCfPulses() returns (pulses: uint32)
      requires Valid() && pc.Clocked?
      modifies this`cfPulses, this`pc, this`log, this`trace
      ensures Valid() && trace == old(trace) + [TakeCf] && log == old(log)
      ensures pc == TookCf(old(pc.windowMs), pulses)
    {
      pulses := cfPulses;
      cfPulses := 0;
      Record(TakeCf);
    }

    method TakeCf1Pulses() returns (pulses: uint32)
      requires Valid() && pc.TookCf?
      modifies this`cf1Pulses, this`pc, this`log, this`trace
      ensures Valid() && trace == old(trace) + [TakeCf1] && log.samples == old(log.samples)
      ensures if old(pc.windowMs) <= 0 then pc.Idle?
              else
                && pc.TookBoth? && pc.sample.windowMs == old(pc.windowMs)
                && pc.sample.cfRate == CountsPerSec(old(pc.cf), old(pc.windowMs))
                && pc.sample.cf1Rate == CountsPerSec(pulses, old(pc.windowMs))
    {
      pulses := cf1Pulses;
      cf1Pulses := 0;
      Record(TakeCf1);
    }

    /** CheckOverPower up to the point where the relay is consulted. */
    method CountOverPower(instantPowerMw: int) returns (fired: bool)
      modifies this`overPowerSamples
      ensures OverPower.Check(overPowerSamples, fired)
              == OverPower.CheckSample(overPower, old(overPowerSamples), instantPowerMw)
    {
      if instantPowerMw <= overPower.thresholdMw {
        overPowerSamples := 0;
        return false;
      }
      overPowerSamples := ToUint32(overPowerSamples + 1);
      if overPowerSamples < overPower.samples {
        return false;
      }
      overPowerSamples := 0;
      return true;
    }

    /** Active power is measured continuously. */
    method PushCf(rate: uint32)
      requires Shape()
      modifies this`lastActivePowerMw, cfFilter, cfFilter.samples
      ensures Shape() && cfFilter.Pending() == Pushed(old(cfFilter.Pending()), rate)
      ensures lastActivePowerMw == if Completes(old(cfFilter.Pending()))
          then ScalePower(Median(old(cfFilter.Pending()), rate))
                                   else old(lastActivePowerMw)
    {
      ghost var before := cfFilter.Pending();
      var complete, median := cfFilter.Push(rate);
      if complete {
        MedianFilter.MiddleIsUnique(median, before[0], before[1], rate);
        lastActivePowerMw := median * 1_000_000 / MILLI_COUNTS_PER_WATT;
      }
    }

    /** CF1 carries voltage or current, by SEL; the variable flips when a window completes. */
    method PushCf1(rate: uint32) returns (flipped: bool)
      requires Shape()
      modifies this`lastRmsVoltageMv, this`lastRmsCurrentMa, this`selIsVoltage, cf1Filter, cf1Filter.samples
      ensures Shape() && cf1Filter.Pending() == Pushed(old(cf1Filter.Pending()), rate)
      ensures flipped <==> Completes(old(cf1Filter.Pending()))
      ensures selIsVoltage == (old(selIsVoltage) != flipped)
      ensures lastRmsVoltageMv == if flipped && old(selIsVoltage)
                                  then ScaleVoltage(Median(old(cf1Filter.Pending()), rate))
                                  else old(lastRmsVoltageMv)
      ensures lastRmsCurrentMa == if flipped && !old(selIsVoltage)
                                  then ScaleCurrent(Median(old(cf1Filter.Pending()), rate))
                                  else old(lastRmsCurrentMa)
    {
      ghost var before := cf1Filter.Pending();
      var median;
      flipped, median := cf1Filter.Push(rate);
      if flipped {
        MedianFilter.MiddleIsUnique(median, before[0], before[1], rate);
        if selIsVoltage {
          lastRmsVoltageMv := median * 1_000_000 / MILLI_COUNTS_PER_VOLT;
        } else {
          lastRmsCurrentMa := median * 1_000_000 / MILLI_COUNTS_PER_AMP;
        }
        selIsVoltage := !selIsVoltage;
      }
    }

    method PushRates(ghost sample: Sample, cfRate: uint32, cf1Rate: uint32) returns (flipped: bool)
      requires Shape() && sample.cfRate == cfRate && sample.cf1Rate == cf1Rate
      modifies this`lastActivePowerMw, this`lastRmsVoltageMv, this`lastRmsCurrentMa, this`selIsVoltage,
               cfFilter, cf1Filter, cfFilter.samples, cf1Filter.samples
      ensures Shape() && State().regs == ProcessSample(old(State().regs), sample)
      ensures flipped <==> Completes(old(cf1Filter.Pending()))
    {
      PushCf(cfRate);
      flipped := PushCf1(cf1Rate);
    }

    /** Feeds both filters and flips the SEL variable when a CF1 window completes. */
    method PushSamples(ghost sample: Sample, cfRate: uint32, cf1Rate: uint32) returns (flipped: bool)
      requires Shape() && State() == Run(trace) && pc == TookBoth(sample)
      requires sample.cfRate == cfRate && sample.cf1Rate == cf1Rate
      modifies this`lastActivePowerMw, this`lastRmsVoltageMv, this`lastRmsCurrentMa, this`selIsVoltage,
               this`pc, this`log, this`trace, cfFilter, cf1Filter, cfFilter.samples, cf1Filter.samples
      ensures Shape() && State() == Run(trace) && trace == old(trace) + [Process]
      ensures log.samples == old(log.samples) + [sample]
      ensures pc == if flipped then SelDue else PublishDue
    {
      flipped := PushRates(sample, cfRate, cf1Rate);
      Record(Process);
    }

    method SetSelPin()
      requires Valid() && pc.SelDue?
      modifies this`selPin, this`pc, this`log, this`trace
      ensures Valid() && trace == old(trace) + [WriteSel] && pc.PublishDue? && log == old(log)
    {
      selPin := selIsVoltage;
      Record(WriteSel);
    }

    method RecordPublication()
      requires Valid() && pc.PublishDue?
      modifies this`pc, this`log, this`trace
      ensures Valid() && trace == old(trace) + [Publish] && pc.Idle? && log.samples == old(log.samples)
    {
      Record(Publish);
    }

    /* ---- MeterPoll ---- */

    /** Up to the two swaps: the window and the rates, or no rates for a window without length. */
    method TakeSample(nowMs: int) returns (accepted: bool, cfRate: uint32, cf1Rate: uint32)
      requires Valid() && pc.Idle?
      modifies this`cfPulses, this`cf1Pulses, this`lastPollMs, this`pc, this`log, this`trace
      ensures Valid() && old(trace) <= trace && log.samples == old(log.samples)
      ensures accepted <==> WindowMs(old(lastPollMs), nowMs) > 0
      ensures if accepted then pc.TookBoth? && pc.sample.cfRate == cfRate && pc.sample.cf1Rate == cf1Rate else pc.Idle?
    {
      Interrupts();
      var windowMs := StartClock(nowMs);
      Interrupts();
      var cf := TakeCfPulses();
      accepted, cfRate, cf1Rate := TakeRates(windowMs, cf);
    }

    /** From the CF swap to the rates. */
    method TakeRates(windowMs: int, cf: uint32) returns (accepted: bool, cfRate: uint32, cf1Rate: uint32)
      requires Valid() && pc == TookCf(windowMs, cf)
      modifies this`cfPulses, this`cf1Pulses, this`pc, this`log, this`trace
      ensures Valid() && old(trace) <= trace && log.samples == old(log.samples)
      ensures accepted <==> windowMs > 0
      ensures if accepted then pc.TookBoth? && pc.sample.cfRate == cfRate && pc.sample.cf1Rate == cf1Rate else pc.Idle?
    {
      Interrupts();
      var cf1 := TakeCf1Pulses();
      accepted := windowMs > 0;
      cfRate, cf1Rate := 0, 0;
      if accepted {
        cfRate, cf1Rate := CountsPerSec(cf, windowMs), CountsPerSec(cf1, windowMs);
        Interrupts();
      }
    }

    /** CheckOverPower on the sample in flight: counts it, and trips the relay when the counter runs out. */
    method CheckOverPower(instantPowerMw: int) returns (fired: bool)
      requires app.Valid() && app.app.AppIdle?
      modifies this`overPowerSamples, app, app.relay, app.relay.led
      ensures OverPower.Check(overPowerSamples, fired)
              == OverPower.CheckSample(overPower, old(overPowerSamples), instantPowerMw)
      ensures app.Valid() && app.app.AppIdle? && old(app.trace) <= app.trace
      ensures AppTask.Thread(app.trace, true)
              == AppTask.Thread(old(app.trace), true)
                 + (if fired && old(app.relay.on)
                    then [OnOffBridge.OverPower, OnOffBridge.TripRelay, OnOffBridge.Post] else [])
    {
      fired := CountOverPower(instantPowerMw);
      if fired {
        app.TripIfOn();
      }
    }

    /** The filters, and the SEL pin if it is due. */
    method FilterRates(ghost sample: Sample, cfRate: uint32, cf1Rate: uint32)
      requires Shape() && State() == Run(trace) && pc == TookBoth(sample)
      requires sample.cfRate == cfRate && sample.cf1Rate == cf1Rate
      requires overPowerSamples == OverPower.CheckAfter(overPower, SamplePowers(log.samples + [sample])).counter
      modifies this, cfFilter, cf1Filter, cfFilter.samples, cf1Filter.samples
      ensures Valid() && old(trace) <= trace && pc.PublishDue?
      ensures log.samples == old(log.samples) + [sample] && lastPollMs == old(lastPollMs)
    {
      var flipped := PushSamples(sample, cfRate, cf1Rate);
      Interrupts();
      if flipped {
        SetSelPin();
        Interrupts();
      }
    }

    lemma CheckExtends(samples: seq<Sample>, sample: Sample, counter: uint32)
      requires counter == OverPower.CheckAfter(overPower, SamplePowers(samples)).counter
      ensures OverPower.CheckSample(overPower, counter, ScalePower(sample.cfRate))
              == OverPower.CheckAfter(overPower, SamplePowers(samples + [sample]))
    {
      var powers := SamplePowers(samples + [sample]);
      assert powers[..|powers| - 1] == SamplePowers(samples);
    }

    /** What an accepted sample leads to before the readings are handed on. */
    method ProcessRates(cfRate: uint32, cf1Rate: uint32)
      requires Valid() && pc.TookBoth? && pc.sample.cfRate == cfRate && pc.sample.cf1Rate == cf1Rate
      requires app.Valid() && app.app.AppIdle?
      modifies this, cfFilter, cf1Filter, cfFilter.samples, cf1Filter.samples, app, app.relay, app.relay.led
      ensures Valid() && old(trace) <= trace && pc.PublishDue?
      ensures log.samples == old(log.samples) + [old(pc.sample)]
      ensures app.Valid() && app.app.AppIdle? && old(app.trace) <= app.trace
      ensures var fired := OverPower.CheckAfter(overPower, SamplePowers(log.samples)).fired;
              AppTask.Thread(app.trace, true)
              == AppTask.Thread(old(app.trace), true) + TripEvents(fired && old(app.relay.on))
    {
      CheckExtends(log.samples, pc.sample, overPowerSamples);
      var fired := CheckOverPower(cfRate * 1_000_000 / MILLI_COUNTS_PER_WATT);
      FilterRates(pc.sample, cfRate, cf1Rate);
    }

    /** Whatever was last reported is a triple of scaled counts. */
    ghost predicate Synced()
      reads power
    {
      power.haveReported ==> ReportingRuns.Scaled(power.ReportingState().reported)
    }

    /** The readings an accepted poll leaves, and what the clusters make of them. */
    twostate predicate HandedOver(laterMs: int, putOk: bool, fabricCount: nat)
      reads this, power, power.kvs
    {
      var readings := Readings(lastActivePowerMw, lastRmsVoltageMv, lastRmsCurrentMa);
      && power.delegate == Some(readings)
      && power.ReportingState() == PM.Reporting(true, readings)
      && ReportingRuns.Tracks(old(power.ReportingState()), readings)
      && power.EnergyState() == PM.UpdateEnergy(old(power.EnergyState()), readings.powerMw, laterMs, putOk, fabricCount)
      && power.sent == old(power.sent) + PM.ReportsSent(old(power.ReportingState()), readings)
                       + PM.EnergySent(old(power.EnergyState()), readings.powerMw, laterMs, fabricCount)
    }

    /** PowerMeasurementUpdate with the current readings: they are scaled counts, so the cache follows exactly. */
    method HandOver(laterMs: int, putOk: bool, fabricCount: nat)
      requires Valid() && Synced()
      modifies power, power.kvs
      ensures Valid() && Synced() && power.haveDelegate == old(power.haveDelegate)
      ensures if power.haveDelegate then HandedOver(laterMs, putOk, fabricCount)
              else unchanged(power) && unchanged(power.kvs)
    {
      MeterTheorems.RunRefines(trace);
      ReportingRuns.MeterReadingsAreScaled(log.samples);
      ReportingRuns.ScaledReadingsAreTracked(power.ReportingState(), MeterTheorems.ReadingsOf(log.samples));
      power.PowerMeasurementUpdate(lastActivePowerMw, lastRmsVoltageMv, lastRmsCurrentMa, laterMs, putOk, fabricCount);
    }

    /** The rest of an accepted poll. */
    method AcceptSample(cfRate: uint32, cf1Rate: uint32, laterMs: int, putOk: bool, fabricCount: nat)
      requires Valid() && pc.TookBoth? && pc.sample.cfRate == cfRate && pc.sample.cf1Rate == cf1Rate
      requires app.Valid() && app.app.AppIdle? && Synced()
      modifies this, cfFilter, cf1Filter, cfFilter.samples, cf1Filter.samples
      modifies app, app.relay, app.relay.led, power, power.kvs
      ensures Valid() && pc.Idle? && app.Valid() && app.app.AppIdle? && Synced()
      ensures old(trace) <= trace && old(app.trace) <= app.trace
      ensures log.samples == old(log.samples) + [old(pc.sample)]
      ensures var fired := OverPower.CheckAfter(overPower, SamplePowers(log.samples)).fired;
              AppTask.Thread(app.trace, true)
              == AppTask.Thread(old(app.trace), true) + TripEvents(fired && old(app.relay.on))
      ensures if power.haveDelegate then HandedOver(laterMs, putOk, fabricCount)
              else unchanged(power) && unchanged(power.kvs)
    {
      ProcessRates(cfRate, cf1Rate);
      HandOver(laterMs, putOk, fabricCount);
      RecordPublication();
    }

    /** One poll. The interrupts may fire anywhere in it and the Matter thread may run anywhere in a trip; uptime at
        the hand-over, the outcome of a flash write and the fabric count come from the environment. */
    method MeterPoll(nowMs: int, laterMs: int, putOk: bool, fabricCount: nat)
      requires Valid() && pc.Idle? && app.Valid() && app.app.AppIdle? && Synced()
      modifies this, cfFilter, cf1Filter, cfFilter.samples, cf1Filter.samples
      modifies app, app.relay, app.relay.led, power, power.kvs
      ensures Valid() && pc.Idle? && app.Valid() && app.app.AppIdle? && Synced()
      ensures old(trace) <= trace && old(app.trace) <= app.trace
      ensures Readings(lastActivePowerMw, lastRmsVoltageMv, lastRmsCurrentMa) == MeterTheorems.ReadingsOf(log.samples)
      ensures old(log.samples) <= log.samples
      ensures var accepted := WindowMs(old(lastPollMs), nowMs) > 0;
              var fired := accepted && OverPower.CheckAfter(overPower, SamplePowers(log.samples)).fired;
              && |log.samples| == |old(log.samples)| + (if accepted then 1 else 0)
              && AppTask.Thread(app.trace, true)
                 == AppTask.Thread(old(app.trace), true)
                    + (if fired && old(app.relay.on)
                       then [OnOffBridge.OverPower, OnOffBridge.TripRelay, OnOffBridge.Post] else [])
              && if accepted && power.haveDelegate then HandedOver(laterMs, putOk, fabricCount)
                 else unchanged(power) && unchanged(power.kvs)
    {
      var accepted, cfRate, cf1Rate := TakeSample(nowMs);
      if accepted {
        AcceptSample(cfRate, cf1Rate, laterMs, putOk, fabricCount);
      }
      MeterTheorems.RunRefines(trace);
    }
  }
}
