/** What the interrupt-level runs of the meter keep. */
module MeterTheorems {
  import opened Shared
  import opened Units
  import opened Meter
  import MedianFilter

  /* ---- MeterPoll computes a function of the accepted samples ---- */

  /** Median of the CF (CF1) rates of the w-th complete triple of samples. */
  function CfMedian(samples: seq<Sample>, w: nat): uint32
    requires 3 * w + 3 <= |samples|
  {
    MedianFilter.Middle(samples[3 * w].cfRate, samples[3 * w + 1].cfRate, samples[3 * w + 2].cfRate)
  }

  function Cf1Median(samples: seq<Sample>, w: nat): uint32
    requires 3 * w + 3 <= |samples|
  {
    MedianFilter.Middle(samples[3 * w].cf1Rate, samples[3 * w + 1].cf1Rate, samples[3 * w + 2].cf1Rate)
  }

  /** The last complete even-numbered (voltage) and odd-numbered (current) window. */
  function VoltageWindow(k: nat): nat
    requires 3 <= k
  {
    (k / 3 - 1) / 2 * 2
  }

  function CurrentWindow(k: nat): nat
    requires 6 <= k
  {
    (k / 3 - 2) / 2 * 2 + 1
  }

  /** The readings after the given accepted samples, without running the program. */
  function ReadingsOf(samples: seq<Sample>): Readings {
    var k := |samples|;
    Readings(
      if k < 3 then 0 else ScalePower(CfMedian(samples, k / 3 - 1)),
      if k < 3 then 0 else ScaleVoltage(Cf1Median(samples, VoltageWindow(k))),
      if k < 6 then 0 else ScaleCurrent(Cf1Median(samples, CurrentWindow(k))))
  }

  /** The filters hold the samples of the unfinished window, and SEL follows the number of complete ones. */
  ghost predicate InStep(w: World) {
    var samples := w.log.samples;
    var k := |samples|;
    && |w.regs.cfPending| == |w.regs.cf1Pending| == k % 3
    && (forall i :: 0 <= i < k % 3 ==> w.regs.cfPending[i] == samples[k / 3 * 3 + i].cfRate)
    && (forall i :: 0 <= i < k % 3 ==> w.regs.cf1Pending[i] == samples[k / 3 * 3 + i].cf1Rate)
    && (w.regs.selIsVoltage <==> k / 3 % 2 == 0)
  }

  ghost predicate Refines(w: World) {
    InStep(w) && w.regs.readings == ReadingsOf(w.log.samples)
  }

  lemma MediansKeep(samples: seq<Sample>, s: Sample, w: nat)
    requires 3 * w + 3 <= |samples|
    ensures CfMedian(samples + [s], w) == CfMedian(samples, w)
    ensures Cf1Median(samples + [s], w) == Cf1Median(samples, w)
  {
    var after := samples + [s];
    assert after[3 * w] == samples[3 * w] && after[3 * w + 1] == samples[3 * w + 1];
    assert after[3 * w + 2] == samples[3 * w + 2];
  }

  /** Between two complete windows the readings do not move. */
  lemma ReadingsHold(samples: seq<Sample>, s: Sample)
    requires |samples| % 3 != 2
    ensures ReadingsOf(samples + [s]) == ReadingsOf(samples)
  {
    var k := |samples|;
    assert (k + 1) / 3 == k / 3;
    if 3 <= k {
      MediansKeep(samples, s, k / 3 - 1);
      MediansKeep(samples, s, VoltageWindow(k));
    }
    if 6 <= k {
      MediansKeep(samples, s, CurrentWindow(k));
    }
  }

  /** Completing window |samples| / 3 refreshes the power, and the voltage or the current by its parity. */
  lemma ReadingsRefresh(samples: seq<Sample>, s: Sample)
    requires |samples| % 3 == 2
    ensures var k, after := |samples|, samples + [s];
            && ReadingsOf(after).powerMw == ScalePower(CfMedian(after, k / 3))
            && ReadingsOf(after).voltageMv == (if k / 3 % 2 == 0 then ScaleVoltage(Cf1Median(after, k / 3))
                                               else ReadingsOf(samples).voltageMv)
            && ReadingsOf(after).currentMa == (if k / 3 % 2 == 0 then ReadingsOf(samples).currentMa
                                               else ScaleCurrent(Cf1Median(after, k / 3)))
  {
    var k := |samples|;
    assert (k + 1) / 3 == k / 3 + 1;
    if k / 3 % 2 == 0 {
      assert VoltageWindow(k + 1) == k / 3;
      if 6 <= k {
        assert CurrentWindow(k + 1) == CurrentWindow(k);
        MediansKeep(samples, s, CurrentWindow(k));
      }
    } else {
      assert VoltageWindow(k + 1) == VoltageWindow(k);
      assert CurrentWindow(k + 1) == k / 3;
      MediansKeep(samples, s, VoltageWindow(k));
    }
  }

  lemma NextPosition(k: nat)
    ensures if k % 3 == 2 then (k + 1) % 3 == 0 && (k + 1) / 3 == k / 3 + 1
            else (k + 1) % 3 == k % 3 + 1 && (k + 1) / 3 == k / 3
  {
  }

  lemma ProcessKeepsStep(w: World)
    requires InStep(w) && w.pc.TookBoth?
    ensures InStep(Step(w, Process))
  {
    NextPosition(|w.log.samples|);
  }

  lemma ProcessRefines(w: World)
    requires Refines(w) && w.pc.TookBoth?
    ensures NewReadings(w.regs, w.pc.sample) == ReadingsOf(w.log.samples + [w.pc.sample])
  {
    var samples, s := w.log.samples, w.pc.sample;
    var k, after := |samples|, samples + [s];
    if k % 3 == 2 {
      ReadingsRefresh(samples, s);
      assert after[3 * (k / 3)] == samples[k / 3 * 3 + 0];
      assert after[3 * (k / 3) + 1] == samples[k / 3 * 3 + 1];
      assert after[3 * (k / 3) + 2] == s;
    } else {
      ReadingsHold(samples, s);
    }
  }

  lemma StepKeepsStep(w: World, e: Event)
    requires InStep(w)
    ensures InStep(Step(w, e))
  {
    if e.Process? && w.pc.TookBoth? {
      ProcessKeepsStep(w);
    }
  }

  lemma StepRefines(w: World, e: Event)
    requires Refines(w)
    ensures Refines(Step(w, e))
  {
    StepKeepsStep(w, e);
    if e.Process? && w.pc.TookBoth? {
      ProcessRefines(w);
    }
  }

  /** At every point of every run, the filters, SEL and the readings are functions of the accepted samples. */
  lemma {:induction false} RunRefines(events: seq<Event>)
    ensures Refines(Run(events))
  {
    if events != [] {
      RunRefines(events[..|events| - 1]);
      StepRefines(Run(events[..|events| - 1]), events[|events| - 1]);
    }
  }

  /** Every set of readings handed on is the value of some number of accepted samples, in order: the
      j-th publication reports the first j + 1 samples. */
  ghost predicate PublishesPrefixes(w: World) {
    && |w.log.published| == |w.log.samples| - (if w.pc.SelDue? || w.pc.PublishDue? then 1 else 0)
    && forall j :: 0 <= j < |w.log.published| ==> w.log.published[j] == ReadingsOf(w.log.samples[..j + 1])
  }

  lemma {:induction false} RunPublishesPrefixes(events: seq<Event>)
    ensures PublishesPrefixes(Run(events))
  {
    if events != [] {
      var before, e := Run(events[..|events| - 1]), events[|events| - 1];
      var after := Run(events);
      RunPublishesPrefixes(events[..|events| - 1]);
      RunRefines(events);
      forall j | 0 <= j < |after.log.published|
        ensures after.log.published[j] == ReadingsOf(after.log.samples[..j + 1])
      {
        if j < |before.log.published| {
          assert after.log.samples[..j + 1] == before.log.samples[..j + 1];
        } else {
          assert after.log.samples[..j + 1] == after.log.samples;
        }
      }
    }
  }

  /* ---- The median rescues the sample that straddles a SEL flip ---- */

  /** Whether the pulses counted from now on can still belong to the previous level of SEL. */
  predicate MayStraddle(w: World) {
    |w.log.samples| % 3 == 0 && !w.pc.TookBoth?
  }

  ghost predicate Separates(w: World) {
    var k := |w.log.samples|;
    && (w.regs.selPin <==> w.regs.selIsVoltage != w.pc.SelDue?)
    && (w.pc.SelDue? ==> k % 3 == 0)
    && WindowsArePure(w.log.samples)
    && (w.pc.TookBoth? && k % 3 != 0 ==> w.pc.sample.Pure(w.regs.selIsVoltage))
    && (!MayStraddle(w) ==> if w.regs.selIsVoltage then w.log.heldLow == 0 else w.log.heldHigh == 0)
  }

  lemma StepSeparates(w: World, e: Event)
    requires InStep(w) && Separates(w)
    ensures Separates(Step(w, e))
  {
    if e.Process? && w.pc.TookBoth? {
      NextPosition(|w.log.samples|);
    }
  }

  /** Of the three samples of a window only the first can hold pulses of the other level. */
  lemma {:induction false} RunSeparates(events: seq<Event>)
    ensures Separates(Run(events))
  {
    if events != [] {
      RunSeparates(events[..|events| - 1]);
      RunRefines(events[..|events| - 1]);
      StepSeparates(Run(events[..|events| - 1]), events[|events| - 1]);
    }
  }

  /** A value between two others, in either order. */
  predicate Between(v: int, a: int, b: int) {
    Min(a, b) <= v <= Max(a, b)
  }

  /** Scaling keeps the median between its two trustworthy neighbours. */
  lemma ScaledMedianIsBetween(first: uint32, a: uint32, b: uint32)
    ensures var m := MedianFilter.Middle(first, a, b);
            && Between(ScaleVoltage(m), ScaleVoltage(a), ScaleVoltage(b))
            && Between(ScaleCurrent(m), ScaleCurrent(a), ScaleCurrent(b))
  {
    MedianFilter.OutlierIsDiscarded(first, a, b);
  }

  /** Every sample but the first of its window is free of the other level. */
  ghost predicate WindowsArePure(samples: seq<Sample>) {
    forall i :: 0 <= i < |samples| && i % 3 != 0 ==> samples[i].Pure(i / 3 % 2 == 0)
  }

  lemma WindowIsPure(samples: seq<Sample>, window: nat)
    requires WindowsArePure(samples) && 3 * window + 3 <= |samples|
    ensures samples[3 * window + 1].Pure(window % 2 == 0)
    ensures samples[3 * window + 2].Pure(window % 2 == 0)
  {
    assert (3 * window + 1) % 3 == 1 && (3 * window + 1) / 3 == window;
    assert (3 * window + 2) % 3 == 2 && (3 * window + 2) / 3 == window;
  }

  /** Samples i and i + 1 hold pulses of one SEL level only and bracket the reading. */
  predicate Brackets(samples: seq<Sample>, i: nat, readings: Readings, selHigh: bool)
    requires i + 1 < |samples|
  {
    && samples[i].Pure(selHigh) && samples[i + 1].Pure(selHigh)
    && var a, b := samples[i].cf1Rate, samples[i + 1].cf1Rate;
       if selHigh then Between(readings.voltageMv, ScaleVoltage(a), ScaleVoltage(b))
       else Between(readings.currentMa, ScaleCurrent(a), ScaleCurrent(b))
  }

  /** The window behind a reading is one of the two most recent complete ones, and of the right parity. */
  lemma RecentWindows(k: nat)
    ensures 3 <= k ==> 3 * VoltageWindow(k) + 3 <= k <= 3 * VoltageWindow(k) + 8 && VoltageWindow(k) % 2 == 0
    ensures 6 <= k ==> 3 * CurrentWindow(k) + 3 <= k <= 3 * CurrentWindow(k) + 8 && CurrentWindow(k) % 2 == 1
  {
  }

  lemma WindowBrackets(samples: seq<Sample>, readings: Readings, window: nat)
    requires WindowsArePure(samples) && 3 * window + 3 <= |samples|
    requires if window % 2 == 0 then readings.voltageMv == ScaleVoltage(Cf1Median(samples, window))
             else readings.currentMa == ScaleCurrent(Cf1Median(samples, window))
    ensures Brackets(samples, 3 * window + 1, readings, window % 2 == 0)
  {
    WindowIsPure(samples, window);
    var first, a, b := samples[3 * window], samples[3 * window + 1], samples[3 * window + 2];
    ScaledMedianIsBetween(first.cf1Rate, a.cf1Rate, b.cf1Rate);
  }

  /** From the first complete window of its kind on, the voltage lies between what two all-high samples of the
      last seven scale to, and the current between what two all-low ones scale to. */
  ghost predicate Rescued(samples: seq<Sample>, readings: Readings) {
    var k := |samples|;
    && (3 <= k ==> exists i: nat :: i + 1 < k <= i + 7 && Brackets(samples, i, readings, true))
    && (6 <= k ==> exists i: nat :: i + 1 < k <= i + 7 && Brackets(samples, i, readings, false))
  }

  lemma PureWindowsRescue(samples: seq<Sample>)
    requires WindowsArePure(samples)
    ensures Rescued(samples, ReadingsOf(samples))
  {
    var k, readings := |samples|, ReadingsOf(samples);
    RecentWindows(k);
    if 3 <= k {
      WindowBrackets(samples, readings, VoltageWindow(k));
      assert Brackets(samples, 3 * VoltageWindow(k) + 1, readings, true);
    }
    if 6 <= k {
      WindowBrackets(samples, readings, CurrentWindow(k));
      assert Brackets(samples, 3 * CurrentWindow(k) + 1, readings, false);
    }
  }

  /** Whatever the interrupts do, the median rescues the live readings and every set of published ones. */
  lemma MedianRescuesReadings(events: seq<Event>)
    ensures Rescued(Run(events).log.samples, Run(events).regs.readings)
    ensures var log := Run(events).log;
            && |log.published| <= |log.samples|
            && forall j :: 0 <= j < |log.published| ==> Rescued(log.samples[..j + 1], log.published[j])
  {
    var log := Run(events).log;
    RunRefines(events);
    RunSeparates(events);
    PureWindowsRescue(log.samples);
    RunPublishesPrefixes(events);
    forall j | 0 <= j < |log.published|
      ensures Rescued(log.samples[..j + 1], log.published[j])
    {
      PureWindowsRescue(log.samples[..j + 1]);
    }
  }

  /** The CF1 swap of a window's last sample is done and SEL is not written yet. */
  predicate BeforeSelWrite(w: World) {
    w.pc.SelDue? || (w.pc.TookBoth? && Completes(w.regs.cf1Pending))
  }

  /** The CF1 pulses since the last CF1 swap that landed in such a place. */
  ghost function Late(events: seq<Event>): nat {
    if events == [] then 0
    else
      var before, e := events[..|events| - 1], events[|events| - 1];
      if e.TakeCf1? && Run(before).pc.TookCf? then 0
      else if e.Cf1Pulse? && BeforeSelWrite(Run(before)) then Late(before) + 1
      else Late(before)
  }

  /** The held pulses of the level SEL will not have when they are taken. */
  function HeldForeign(w: World): nat {
    if w.regs.selIsVoltage != (w.pc.TookBoth? && Completes(w.regs.cf1Pending)) then w.log.heldLow
    else w.log.heldHigh
  }

  lemma StepHoldsLate(events: seq<Event>, e: Event)
    requires InStep(Run(events)) && Separates(Run(events)) && HeldForeign(Run(events)) == Late(events)
    ensures HeldForeign(Step(Run(events), e)) == Late(events + [e])
  {
    assert (events + [e])[..|events|] == events;
  }

  lemma {:induction false} RunHoldsLate(events: seq<Event>)
    ensures HeldForeign(Run(events)) == Late(events)
  {
    if events != [] {
      var before, e := events[..|events| - 1], events[|events| - 1];
      RunHoldsLate(before);
      RunRefines(before);
      RunSeparates(before);
      assert before + [e] == events;
      StepHoldsLate(before, e);
    }
  }

  /** Exactly the late pulses make a sample impure: in every run the sample taken next holds as many pulses of
      the other level as landed before the last SEL write came due and was done. For the later samples of a
      window there are none. */
  lemma SampleIsPureIff(events: seq<Event>)
    requires Run(events).pc.TookCf? && 0 < Run(events).pc.windowMs
    ensures var w, after := Run(events), Step(Run(events), TakeCf1);
            && after.pc.TookBoth?
            && (if w.regs.selIsVoltage then after.pc.sample.low else after.pc.sample.high) == Late(events)
            && (after.pc.sample.Pure(w.regs.selIsVoltage) <==> Late(events) == 0)
            && (|w.log.samples| % 3 != 0 ==> Late(events) == 0)
  {
    RunHoldsLate(events);
    RunRefines(events);
    RunSeparates(events);
  }

  /** Between two polls of a run whose clock is started. */
  ghost predicate Ready(w: World) {
    w.pc.Idle? && w.regs.lastPollMs > 0 && w.regs.selPin == w.regs.selIsVoltage
  }

  /** The sample of a poll at nowMs. */
  function TakenSample(w: World, nowMs: int): Sample
    requires w.regs.lastPollMs < nowMs
  {
    var windowMs := nowMs - w.regs.lastPollMs;
    Sample(windowMs, w.regs.cfPulses, w.regs.cf1Pulses, CountsPerSec(w.regs.cfPulses, windowMs),
           CountsPerSec(w.regs.cf1Pulses, windowMs), w.log.heldHigh, w.log.heldLow)
  }

  /** The first half of a poll, up to the CF1 swap. */
  ghost predicate Taken(w: World, v: World, nowMs: int) {
    && 0 < w.regs.lastPollMs < nowMs && v.pc == TookBoth(TakenSample(w, nowMs))
    && v.regs == w.regs.(lastPollMs := nowMs, cfPulses := 0, cf1Pulses := 0)
    && v.log == w.log.(heldHigh := 0, heldLow := 0, polls := v.log.polls)
  }

  /** The effect of a whole accepted poll; with straddle, a CF1 pulse lands while the SEL write is due. */
  ghost predicate Accepted(w: World, v: World, nowMs: int, straddle: bool) {
    && w.regs.lastPollMs < nowMs
    && Ready(v) && v.regs.lastPollMs == nowMs
    && v.log.samples == w.log.samples + [TakenSample(w, nowMs)]
    && v.regs.cf1Pending == Pushed(w.regs.cf1Pending, TakenSample(w, nowMs).cf1Rate)
    && v.regs.selIsVoltage == (w.regs.selIsVoltage != Completes(w.regs.cf1Pending))
    && v.regs.cfPulses == 0 && v.regs.cf1Pulses == (if straddle then 1 else 0)
    && v.log.heldHigh == (if straddle && w.regs.selPin then 1 else 0)
  }

  lemma TakeSteps(w: World, nowMs: int)
    requires Ready(w) && w.regs.lastPollMs < nowMs
    ensures Taken(w, Step(Step(Step(w, ReadClock(nowMs)), TakeCf), TakeCf1), nowMs)
  {
  }

  lemma RunExtendsThrice(events: seq<Event>, a: Event, b: Event, c: Event)
    ensures Run(events + [a] + [b] + [c]) == Step(Step(Step(Run(events), a), b), c)
  {
    RunExtends(events, a);
    RunExtends(events + [a], b);
    RunExtends(events + [a] + [b], c);
  }

  lemma FinishPoll(events: seq<Event>, w: World, nowMs: int, straddle: bool) returns (longer: seq<Event>)
    requires Ready(w) && Taken(w, Run(events), nowMs) && (straddle ==> Completes(w.regs.cf1Pending))
    ensures Accepted(w, Run(longer), nowMs, straddle)
  {
    RunExtends(events, Process);
    longer := events + [Process];
    if straddle {
      RunExtends(longer, Cf1Pulse);
      longer := longer + [Cf1Pulse];
    }
    RunExtends(longer, WriteSel);
    longer := longer + [WriteSel];
    RunExtends(longer, Publish);
    longer := longer + [Publish];
  }

  /** The run with the events of one more poll at nowMs. */
  lemma AcceptPoll(events: seq<Event>, nowMs: int, straddle: bool) returns (longer: seq<Event>)
    requires Ready(Run(events)) && Run(events).regs.lastPollMs < nowMs
    requires straddle ==> Completes(Run(events).regs.cf1Pending)
    ensures Accepted(Run(events), Run(longer), nowMs, straddle)
  {
    TakeSteps(Run(events), nowMs);
    RunExtendsThrice(events, ReadClock(nowMs), TakeCf, TakeCf1);
    longer := FinishPoll(events + [ReadClock(nowMs)] + [TakeCf] + [TakeCf1], Run(events), nowMs, straddle);
  }

  lemma StartsClock() returns (events: seq<Event>)
    ensures var w := Run(events);
            && Ready(w) && w.regs.lastPollMs == 1 && w.log.samples == [] && w.regs.cf1Pending == []
            && w.regs.selIsVoltage && w.regs.cfPulses == w.regs.cf1Pulses == 0
            && w.log.heldHigh == w.log.heldLow == 0
  {
    RunExtendsThrice([], ReadClock(1), TakeCf, TakeCf1);
    events := [] + [ReadClock(1)] + [TakeCf] + [TakeCf1];
  }

  /** The first sample of a window really can hold a pulse of the other level: here the fourth sample, the
      first of a current window, holds one that arrived while SEL still selected the voltage. */
  lemma FirstSampleCanStraddle() returns (events: seq<Event>)
    ensures |Run(events).log.samples| == 4
    ensures !Run(events).log.samples[3].Pure(3 / 3 % 2 == 0)
  {
    events := StartsClock();
    events := AcceptPoll(events, 1001, false);
    events := AcceptPoll(events, 2001, false);
    events := AcceptPoll(events, 3001, true);
    events := AcceptPoll(events, 4001, false);
  }

  /* ---- Every sequence of rates occurs ---- */

  /** Nothing but the counters and what the observer holds has changed. */
  ghost predicate Counted(w: World, v: World, cf: uint32, cf1: uint32) {
    v.pc == w.pc && v.regs == w.regs.(cfPulses := cf, cf1Pulses := cf1) && v.log.samples == w.log.samples
  }

  lemma {:induction false} PulsesArrive(events: seq<Event>, cf: uint32, cf1: uint32) returns (longer: seq<Event>)
    requires Run(events).regs.cfPulses == Run(events).regs.cf1Pulses == 0
    ensures Counted(Run(events), Run(longer), cf, cf1)
    decreases cf + cf1
  {
    if cf > 0 {
      longer := PulsesArrive(events, cf - 1, cf1);
      RunExtends(longer, CfPulse);
      longer := longer + [CfPulse];
    } else if cf1 > 0 {
      longer := PulsesArrive(events, cf, cf1 - 1);
      RunExtends(longer, Cf1Pulse);
      longer := longer + [Cf1Pulse];
    } else {
      longer := events;
    }
  }

  lemma AcceptRates(events: seq<Event>, cf: uint32, cf1: uint32) returns (longer: seq<Event>)
    requires var w := Run(events); Ready(w) && w.regs.cfPulses == w.regs.cf1Pulses == 0
    ensures var w, v := Run(events), Run(longer);
            && Ready(v) && v.regs.cfPulses == v.regs.cf1Pulses == 0
            && |v.log.samples| == |w.log.samples| + 1 && v.log.samples[..|w.log.samples|] == w.log.samples
            && v.log.samples[|w.log.samples|].cfRate == cf && v.log.samples[|w.log.samples|].cf1Rate == cf1
  {
    var nowMs := Run(events).regs.lastPollMs + 1000;
    longer := PulsesArrive(events, cf, cf1);
    longer := AcceptPoll(longer, nowMs, false);
    assert CountsPerSec(cf, 1000) == cf && CountsPerSec(cf1, 1000) == cf1;
  }

  /** Any rates on the two channels are those of some run: ReadingsOf has no unreachable cases. */
  lemma {:induction false} RatesAreReachable(cf: seq<uint32>, cf1: seq<uint32>) returns (events: seq<Event>)
    requires |cf| == |cf1|
    ensures var w := Run(events);
            && Ready(w) && w.regs.cfPulses == w.regs.cf1Pulses == 0 && |w.log.samples| == |cf|
            && forall i :: 0 <= i < |cf| ==> w.log.samples[i].cfRate == cf[i] && w.log.samples[i].cf1Rate == cf1[i]
  {
    if cf == [] {
      events := StartsClock();
    } else {
      var k := |cf| - 1;
      var before := RatesAreReachable(cf[..k], cf1[..k]);
      events := AcceptRates(before, cf[k], cf1[k]);
      var was, now := Run(before).log.samples, Run(events).log.samples;
      forall i | 0 <= i < |cf| ensures now[i].cfRate == cf[i] && now[i].cf1Rate == cf1[i] {
        if i < k {
          assert now[i] == was[i];
        }
      }
    }
  }

  /* ---- Pulse conservation ---- */

  function SumCf(samples: seq<Sample>): nat {
    if samples == [] then 0 else SumCf(samples[..|samples| - 1]) + samples[|samples| - 1].cf
  }

  function SumCf1(samples: seq<Sample>): nat {
    if samples == [] then 0 else SumCf1(samples[..|samples| - 1]) + samples[|samples| - 1].cf1
  }

  /** Pulses already swapped out by the poll in progress. */
  function CfInFlight(pc: Pc): nat {
    match pc
    case TookCf(_, cf) => cf
    case TookBoth(s) => s.cf
    case _ => 0
  }

  function Cf1InFlight(pc: Pc): nat {
    if pc.TookBoth? then pc.sample.cf1 else 0
  }

  predicate CfConserved(w: World) {
    w.log.cfRaised == SumCf(w.log.samples) + w.log.cfDropped + CfInFlight(w.pc) + w.regs.cfPulses
                      + 0x1_0000_0000 * w.log.cfWraps
  }

  predicate Cf1Conserved(w: World) {
    w.log.cf1Raised == SumCf1(w.log.samples) + w.log.cf1Dropped + Cf1InFlight(w.pc) + w.regs.cf1Pulses
                       + 0x1_0000_0000 * w.log.cf1Wraps
  }

  lemma PulseConserves(w: World, e: Event)
    requires e.CfPulse? || e.Cf1Pulse?
    requires CfConserved(w) && Cf1Conserved(w)
    ensures CfConserved(Step(w, e)) && Cf1Conserved(Step(w, e))
  {
  }

  lemma SwapConserves(w: World, e: Event)
    requires e.TakeCf? || e.TakeCf1?
    requires CfConserved(w) && Cf1Conserved(w)
    ensures CfConserved(Step(w, e)) && Cf1Conserved(Step(w, e))
  {
  }

  lemma SumsExtend(samples: seq<Sample>, s: Sample)
    ensures SumCf(samples + [s]) == SumCf(samples) + s.cf
    ensures SumCf1(samples + [s]) == SumCf1(samples) + s.cf1
  {
    assert (samples + [s])[..|samples|] == samples;
  }

  /** Processing moves the sample in flight to the accepted ones and leaves the counters alone. */
  ghost predicate Moves(w: World, after: World)
    requires w.pc.TookBoth?
  {
    && after.log == w.log.(samples := w.log.samples + [w.pc.sample])
    && after.regs.cfPulses == w.regs.cfPulses && after.regs.cf1Pulses == w.regs.cf1Pulses
    && (after.pc.SelDue? || after.pc.PublishDue?)
  }

  lemma ProcessMoves(w: World)
    requires w.pc.TookBoth?
    ensures Moves(w, Step(w, Process))
  {
  }

  lemma MovingConserves(w: World, after: World)
    requires w.pc.TookBoth? && Moves(w, after) && CfConserved(w) && Cf1Conserved(w)
    ensures CfConserved(after) && Cf1Conserved(after)
  {
    var s := w.pc.sample;
    SumsExtend(w.log.samples, s);
    assert SumCf(after.log.samples) == SumCf(w.log.samples) + s.cf;
    assert SumCf1(after.log.samples) == SumCf1(w.log.samples) + s.cf1;
    assert CfInFlight(w.pc) == s.cf && Cf1InFlight(w.pc) == s.cf1;
    assert CfInFlight(after.pc) == Cf1InFlight(after.pc) == 0;
  }

  lemma OtherStepsConserve(w: World, e: Event)
    requires e.ReadClock? || e.WriteSel? || e.Publish?
    requires CfConserved(w) && Cf1Conserved(w)
    ensures CfConserved(Step(w, e)) && Cf1Conserved(Step(w, e))
  {
  }

  /** Every pulse raised is in an accepted sample, was dropped with a window of no length, is in flight or
      still counted; a counter loses pulses only by rolling over, 2^32 at a time. */
  lemma {:induction false} RunConserves(events: seq<Event>)
    ensures CfConserved(Run(events)) && Cf1Conserved(Run(events))
  {
    if events != [] {
      var before, e := events[..|events| - 1], events[|events| - 1];
      RunConserves(before);
      match e
      case CfPulse => PulseConserves(Run(before), e);
      case Cf1Pulse => PulseConserves(Run(before), e);
      case TakeCf => SwapConserves(Run(before), e);
      case TakeCf1 => SwapConserves(Run(before), e);
      case Process =>
        if Run(before).pc.TookBoth? {
          ProcessMoves(Run(before));
          MovingConserves(Run(before), Run(events));
        }
      case _ => OtherStepsConserve(Run(before), e);
    }
  }

  /** The samples' fields mean what their names say. */
  ghost predicate Honest(s: Sample) {
    && 0 < s.windowMs
    && s.cfRate == CountsPerSec(s.cf, s.windowMs) && s.cf1Rate == CountsPerSec(s.cf1, s.windowMs)
    && s.cf1 == ToUint32(s.high + s.low)
  }

  ghost predicate TagsAreHonest(w: World) {
    && w.regs.cf1Pulses == ToUint32(w.log.heldHigh + w.log.heldLow)
    && (w.pc.TookBoth? ==> Honest(w.pc.sample))
    && (forall s <- w.log.samples :: Honest(s))
  }

  lemma PulseTagsHonestly(w: World)
    requires TagsAreHonest(w)
    ensures TagsAreHonest(Step(w, CfPulse)) && TagsAreHonest(Step(w, Cf1Pulse))
  {
  }

  lemma PollTagsHonestly(w: World, e: Event)
    requires TagsAreHonest(w) && !e.CfPulse? && !e.Cf1Pulse?
    ensures TagsAreHonest(Step(w, e))
  {
  }

  /** The pulses tagged high and low are the CF1 pulses of the sample, and its rates are counts per second. */
  lemma {:induction false} RunTagsHonestly(events: seq<Event>)
    ensures TagsAreHonest(Run(events))
  {
    if events != [] {
      var before, e := events[..|events| - 1], events[|events| - 1];
      RunTagsHonestly(before);
      if e.CfPulse? || e.Cf1Pulse? {
        PulseTagsHonestly(Run(before));
      } else {
        PollTagsHonestly(Run(before), e);
      }
    }
  }

  /* ---- Normalising to counts per second ---- */

  /** The cast to 32 bits in CountsPerSec loses nothing. */
  predicate CastIsExact(pulses: uint32, windowMs: int)
    requires 0 < windowMs
  {
    pulses * 1000 / windowMs < UINT32_SPAN
  }

  /** Up to 4'294'967 pulses the cast is exact for every window; one more can wrap. */
  lemma CastExactRange(pulses: uint32, windowMs: int)
    requires 0 < windowMs
    ensures pulses <= 4_294_967 ==>
              CastIsExact(pulses, windowMs) && CountsPerSec(pulses, windowMs) == pulses * 1000 / windowMs
    ensures !CastIsExact(4_294_968, 1) && CountsPerSec(4_294_968, 1) == 704
  {
    var q := pulses * 1000 / windowMs;
    assert q * windowMs + pulses * 1000 % windowMs == pulses * 1000;
    if q > pulses * 1000 {
      MulKeepsOrder(1, windowMs, q);
    }
  }

  /** The scaling products and the readings fit 64 bits for every count a 32-bit rate can take. */
  lemma ScalingFits(rate: uint32)
    ensures FitsInt64(rate * 1_000_000)
    ensures 0 <= ScalePower(rate) <= 5_541_893_284_025 && 0 <= ScaleVoltage(rate) && 0 <= ScaleCurrent(rate)
    ensures FitsInt64(ScalePower(rate)) && FitsInt64(ScaleVoltage(rate)) && FitsInt64(ScaleCurrent(rate))
  {
  }

  /** What a count is worth: 1 / 0.775 W, 1 / 8.077 V and 1 / 91.636 A, rounded down to the unit. */
  lemma ScalesAreCalibrated(rate: uint32)
    ensures 0 <= rate * 1_000_000 - 775 * ScalePower(rate) < 775
    ensures 0 <= rate * 1_000_000 - 8_077 * ScaleVoltage(rate) < 8_077
    ensures 0 <= rate * 1_000_000 - 91_636 * ScaleCurrent(rate) < 91_636
  {
  }

  /** The counts (times 1000) recovered from the rates of one channel, rounded down and up. */
  function RatedCounts(samples: seq<Sample>, cf: bool, up: nat): int {
    if samples == [] then 0
    else
      var last := samples[|samples| - 1];
      RatedCounts(samples[..|samples| - 1], cf, up) + ((if cf then last.cfRate else last.cf1Rate) + up) * last.windowMs
  }

  lemma QuotientBrackets(n: nat, d: nat)
    requires 0 < d
    ensures n / d * d <= n < (n / d + 1) * d
  {
    assert n == n / d * d + n % d;
    assert (n / d + 1) * d == n / d * d + d;
  }

  lemma RateBracketsCount(pulses: uint32, windowMs: int, rate: uint32)
    requires 0 < windowMs && rate == CountsPerSec(pulses, windowMs) && CastIsExact(pulses, windowMs)
    ensures rate * windowMs <= 1000 * pulses < (rate + 1) * windowMs
  {
    QuotientBrackets(pulses * 1000, windowMs);
    assert rate == pulses * 1000 / windowMs;
  }

  /** No rate of these samples was cut to 32 bits. */
  ghost predicate CastsAreExact(samples: seq<Sample>) {
    forall s <- samples :: Honest(s) && CastIsExact(s.cf, s.windowMs) && CastIsExact(s.cf1, s.windowMs)
  }

  /** The rates times the windows fall short of so many counts by less than one count per second and sample. */
  ghost predicate AccountsFor(samples: seq<Sample>, cf: bool, pulses: int) {
    && RatedCounts(samples, cf, 0) <= 1000 * pulses
    && if samples == [] then pulses == 0 else 1000 * pulses < RatedCounts(samples, cf, 1)
  }

  /** Normalising by the window loses less than one count per second and sample, on both channels. */
  lemma {:induction false} RatesBracketPulses(samples: seq<Sample>)
    requires CastsAreExact(samples)
    ensures AccountsFor(samples, true, SumCf(samples)) && AccountsFor(samples, false, SumCf1(samples))
  {
    if samples != [] {
      var s := samples[|samples| - 1];
      assert s in samples;
      RatesBracketPulses(samples[..|samples| - 1]);
      RateBracketsCount(s.cf, s.windowMs, s.cfRate);
      RateBracketsCount(s.cf1, s.windowMs, s.cf1Rate);
    }
  }

  /** The same of the pulses raised: over any run in which no counter rolled over and no cast wrapped, the rates
      account for every pulse that was not dropped with an empty window and is not under way. */
  lemma RatesBracketRaised(events: seq<Event>)
    requires var log := Run(events).log; log.cfWraps == 0 && log.cf1Wraps == 0
    requires forall s <- Run(events).log.samples :: 0 < s.windowMs &&
               CastIsExact(s.cf, s.windowMs) && CastIsExact(s.cf1, s.windowMs)
    ensures var w := Run(events);
            && AccountsFor(w.log.samples, true,
                            w.log.cfRaised - w.log.cfDropped - CfInFlight(w.pc) - w.regs.cfPulses)
            && AccountsFor(w.log.samples, false,
                            w.log.cf1Raised - w.log.cf1Dropped - Cf1InFlight(w.pc) - w.regs.cf1Pulses)
  {
    RunConserves(events);
    RunTagsHonestly(events);
    RatesBracketPulses(Run(events).log.samples);
  }

  /* ---- Windows ---- */

  function SumWindows(samples: seq<Sample>): int {
    if samples == [] then 0 else SumWindows(samples[..|samples| - 1]) + samples[|samples| - 1].windowMs
  }

  /** The window of the poll in progress. */
  function WindowInFlight(pc: Pc): int {
    match pc
    case Clocked(windowMs) => windowMs
    case TookCf(windowMs, _) => windowMs
    case TookBoth(s) => s.windowMs
    case _ => 0
  }

  /** Uptime as the polls read it: positive and never running backwards. */
  predicate Uptime(polls: seq<int>) {
    && (polls != [] ==> 0 < polls[0])
    && forall i :: 0 < i < |polls| ==> polls[i - 1] <= polls[i]
  }

  ghost predicate Tiles(w: World) {
    var polls := w.log.polls;
    && w.regs.lastPollMs == (if polls == [] then 0 else polls[|polls| - 1])
    && 0 <= WindowInFlight(w.pc)
    && SumWindows(w.log.samples) + WindowInFlight(w.pc) == (if polls == [] then 0 else polls[|polls| - 1] - polls[0])
    && (polls == [] ==> w.pc == Idle)
    && (forall i :: 0 <= i < |polls| ==> 0 < polls[i])
  }

  lemma ClockTiles(w: World, nowMs: int)
    requires Tiles(w) && w.pc.Idle? && Uptime(w.log.polls + [nowMs])
    ensures Tiles(Step(w, ReadClock(nowMs)))
  {
    var polls := w.log.polls + [nowMs];
    if w.log.polls != [] {
      assert polls[|polls| - 2] <= polls[|polls| - 1];
    }
  }

  lemma SampleTiles(w: World)
    requires Tiles(w) && w.pc.TookBoth?
    ensures Tiles(Step(w, Process))
  {
    var extended := w.log.samples + [w.pc.sample];
    assert extended[..|extended| - 1] == w.log.samples;
    assert Step(w, Process).log == w.log.(samples := extended);
  }

  lemma RestTiles(w: World, e: Event)
    requires Tiles(w) && !e.ReadClock? && !e.Process?
    ensures Tiles(Step(w, e))
  {
  }

  /** The windows of the accepted samples tile the time from the first poll to the last: no time is counted
      twice and none is left out, whichever polls are dropped. */
  lemma {:induction false} WindowsTileTime(events: seq<Event>)
    requires Uptime(Run(events).log.polls)
    ensures Tiles(Run(events))
  {
    if events != [] {
      var before, e := events[..|events| - 1], events[|events| - 1];
      UptimePrefix(before, e);
      WindowsTileTime(before);
      match e
      case ReadClock(nowMs) => if Run(before).pc.Idle? { ClockTiles(Run(before), nowMs); }
      case Process => if Run(before).pc.TookBoth? { SampleTiles(Run(before)); }
      case _ => RestTiles(Run(before), e);
    }
  }

  lemma UptimePrefix(events: seq<Event>, e: Event)
    requires Uptime(Step(Run(events), e).log.polls)
    ensures Uptime(Run(events).log.polls)
  {
    var polls, longer := Run(events).log.polls, Step(Run(events), e).log.polls;
    assert longer == polls || (e.ReadClock? && longer == polls + [e.nowMs]);
    assert forall i :: 0 <= i < |polls| ==> longer[i] == polls[i];
  }

  /* ---- Settling ---- */

  /** Once every CF sample from the m-th on reads c, four polls later the power is that of c. */
  lemma PowerSettles(events: seq<Event>, m: nat, c: uint32)
    requires forall j :: m <= j < |Run(events).log.samples| ==> Run(events).log.samples[j].cfRate == c
    requires m + 4 <= |Run(events).log.samples|
    ensures Run(events).regs.readings.powerMw == ScalePower(c)
  {
    RunRefines(events);
    var samples := Run(events).log.samples;
    var window := |samples| / 3 - 1;
    assert samples[3 * window + 1].cfRate == c && samples[3 * window + 2].cfRate == c;
  }

  /** From the m-th sample on, the last two samples of each voltage (current) window read c. The first one,
      which may hold pulses of the other level, is arbitrary. */
  ghost predicate Steady(samples: seq<Sample>, m: nat, c: uint32, selHigh: bool) {
    forall j :: m <= j < |samples| && j % 3 != 0 && (j / 3 % 2 == 0) == selHigh ==> samples[j].cf1Rate == c
  }

  /** Voltage and current settle within seven polls although every window starts with an arbitrary sample. */
  lemma VoltageSettles(events: seq<Event>, m: nat, c: uint32)
    requires m + 7 <= |Run(events).log.samples| && Steady(Run(events).log.samples, m, c, true)
    ensures Run(events).regs.readings.voltageMv == ScaleVoltage(c)
  {
    RunRefines(events);
    RecentWindows(|Run(events).log.samples|);
    SteadyWindow(Run(events).log.samples, m, c, true, VoltageWindow(|Run(events).log.samples|));
  }

  lemma CurrentSettles(events: seq<Event>, m: nat, c: uint32)
    requires Steady(Run(events).log.samples, m, c, false) && m + 7 <= |Run(events).log.samples|
    ensures Run(events).regs.readings.currentMa == ScaleCurrent(c)
  {
    RunRefines(events);
    RecentWindows(|Run(events).log.samples|);
    SteadyWindow(Run(events).log.samples, m, c, false, CurrentWindow(|Run(events).log.samples|));
  }

  /** A settled run reads what its counts are worth. */
  lemma SettledReadingsAreCalibrated(events: seq<Event>, m: nat, p: uint32, v: uint32, c: uint32)
    requires var samples := Run(events).log.samples;
             && m + 7 <= |samples| && (forall j :: m <= j < |samples| ==> samples[j].cfRate == p)
             && Steady(samples, m, v, true) && Steady(samples, m, c, false)
    ensures var r := Run(events).regs.readings;
            && 0 <= p * 1_000_000 - 775 * r.powerMw < 775
            && 0 <= v * 1_000_000 - 8_077 * r.voltageMv < 8_077
            && 0 <= c * 1_000_000 - 91_636 * r.currentMa < 91_636
  {
    PowerSettles(events, m, p);
    VoltageSettles(events, m, v);
    CurrentSettles(events, m, c);
    ScalesAreCalibrated(p);
    ScalesAreCalibrated(v);
    ScalesAreCalibrated(c);
  }

  lemma SteadyWindow(samples: seq<Sample>, m: nat, c: uint32, selHigh: bool, window: nat)
    requires Steady(samples, m, c, selHigh) && m <= 3 * window + 1
    requires 3 * window + 3 <= |samples| && (window % 2 == 0) == selHigh
    ensures Cf1Median(samples, window) == c
  {
    assert (3 * window + 1) % 3 == 1 && (3 * window + 1) / 3 == window;
    assert (3 * window + 2) % 3 == 2 && (3 * window + 2) / 3 == window;
  }

  /** A run whose rates are zero for so many samples and then one. */
  lemma StepUp(zeros: nat, ones: nat) returns (events: seq<Event>)
    ensures var w := Run(events);
            && |w.log.samples| == zeros + ones && w.regs.readings == ReadingsOf(w.log.samples)
            && forall i :: 0 <= i < zeros + ones ==>
                 w.log.samples[i].cfRate == w.log.samples[i].cf1Rate == if i < zeros then 0 else 1
  {
    var rates: seq<uint32> := seq(zeros + ones, i => if i < zeros then 0 else 1);
    events := RatesAreReachable(rates, rates);
    RunRefines(events);
  }

  /** The settling bounds cannot be lowered: there are runs in which all samples demanded so far read one, and
      after one poll fewer than the bound the reading still is the old one. */
  lemma PowerBoundIsTight() returns (events: seq<Event>)
    ensures var samples := Run(events).log.samples;
            && |samples| == 2 + 3 && (forall j :: 2 <= j < |samples| ==> samples[j].cfRate == 1)
            && Run(events).regs.readings.powerMw == ScalePower(0) != ScalePower(1)
  {
    events := StepUp(2, 3);
  }

  lemma VoltageBoundIsTight() returns (events: seq<Event>)
    ensures var samples := Run(events).log.samples;
            && |samples| == 2 + 6 && Steady(samples, 2, 1, true)
            && Run(events).regs.readings.voltageMv == ScaleVoltage(0) != ScaleVoltage(1)
  {
    events := StepUp(2, 6);
    assert VoltageWindow(8) == 0;
  }

  lemma CurrentBoundIsTight() returns (events: seq<Event>)
    ensures var samples := Run(events).log.samples;
            && |samples| == 5 + 6 && Steady(samples, 5, 1, false)
            && Run(events).regs.readings.currentMa == ScaleCurrent(0) != ScaleCurrent(1)
  {
    events := StepUp(5, 6);
    assert CurrentWindow(11) == 1;
  }
}
