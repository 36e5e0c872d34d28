/**
 The ranges the clusters declare for their attributes (src/power_measurement.cpp), against what the meter can
 read and the energy integrator make of it.
 */
module DeclaredRanges {
  import opened Shared
  import opened Units
  import Meter
  import MeterTheorems
  import MedianFilter
  import EnergyLife

  const POWER_MAX_MW: nat := 3_680_000
  const VOLTAGE_MAX_MV: nat := 300_000
  const CURRENT_MAX_MA: nat := 16_000

  predicate Declared(r: Readings) {
    0 <= r.powerMw <= POWER_MAX_MW && 0 <= r.voltageMv <= VOLTAGE_MAX_MV && 0 <= r.currentMa <= CURRENT_MAX_MA
  }

  /** The rates at which each reading leaves its declared range. */
  lemma RangesInCounts(rate: uint32)
    ensures Meter.ScalePower(rate) <= POWER_MAX_MW <==> rate <= 2852
    ensures Meter.ScaleVoltage(rate) <= VOLTAGE_MAX_MV <==> rate <= 2423
    ensures Meter.ScaleCurrent(rate) <= CURRENT_MAX_MA <==> rate <= 1466
  {
  }

  /** A load within the rating, as the meter samples it. The first CF1 sample of a window, which may hold pulses
      of the other level, is arbitrary. */
  ghost predicate RatedLoad(samples: seq<Meter.Sample>) {
    && (forall s <- samples :: s.cfRate <= 2852)
    && forall i :: 0 <= i < |samples| && i % 3 != 0 ==> samples[i].cf1Rate <= if i / 3 % 2 == 0 then 2423 else 1466
  }

  lemma RatedMedian(samples: seq<Meter.Sample>, window: nat)
    requires RatedLoad(samples) && 3 * window + 3 <= |samples|
    ensures MeterTheorems.CfMedian(samples, window) <= 2852
    ensures MeterTheorems.Cf1Median(samples, window) <= if window % 2 == 0 then 2423 else 1466
  {
    var first, a, b := samples[3 * window], samples[3 * window + 1], samples[3 * window + 2];
    assert (3 * window + 1) % 3 == 1 && (3 * window + 1) / 3 == window;
    assert (3 * window + 2) % 3 == 2 && (3 * window + 2) / 3 == window;
    MedianFilter.OutlierIsDiscarded(first.cfRate, a.cfRate, b.cfRate);
    MedianFilter.OutlierIsDiscarded(first.cf1Rate, a.cf1Rate, b.cf1Rate);
  }

  lemma RatedReadings(samples: seq<Meter.Sample>)
    requires RatedLoad(samples)
    ensures Declared(MeterTheorems.ReadingsOf(samples))
  {
    var k := |samples|;
    MeterTheorems.RecentWindows(k);
    if 3 <= k {
      var power, voltage := k / 3 - 1, MeterTheorems.VoltageWindow(k);
      RatedMedian(samples, power);
      RatedMedian(samples, voltage);
      RangesInCounts(MeterTheorems.CfMedian(samples, power));
      RangesInCounts(MeterTheorems.Cf1Median(samples, voltage));
    }
    if 6 <= k {
      RatedMedian(samples, MeterTheorems.CurrentWindow(k));
      RangesInCounts(MeterTheorems.Cf1Median(samples, MeterTheorems.CurrentWindow(k)));
    }
  }

  /** Under a rated load every run of the meter reads and publishes values in the declared ranges only. */
  lemma RatedLoadIsDeclared(run: seq<Meter.Event>)
    requires RatedLoad(Meter.Run(run).log.samples)
    ensures Declared(Meter.Run(run).regs.readings)
    ensures forall r <- Meter.Run(run).log.published :: Declared(r)
  {
    var log := Meter.Run(run).log;
    MeterTheorems.RunRefines(run);
    RatedReadings(log.samples);
    MeterTheorems.RunPublishesPrefixes(run);
    forall j | 0 <= j < |log.published| ensures Declared(log.published[j]) {
      assert forall i :: 0 <= i <= j ==> log.samples[..j + 1][i] == log.samples[i];
      RatedReadings(log.samples[..j + 1]);
    }
  }

  /** A power that some run of the meter publishes under a rated load. */
  ghost predicate Metered(powerMw: int) {
    exists run: seq<Meter.Event>, r <- Meter.Run(run).log.published ::
      RatedLoad(Meter.Run(run).log.samples) && r.powerMw == powerMw
  }

  /** From the pulses to the total: a plug that integrates what its meter publishes under a rated load, whatever
      the runs of its boots, keeps its total in the declared range for ten years of powered time. */
  lemma MeteredTotalIsDeclared(stored: Option<int>, events: seq<EnergyLife.Event>, pastMs: nat)
    requires forall e <- events :: e.Update? ==> Metered(e.powerMw)
    requires 3_600_000 * EnergyLife.Born(stored).energy.totalMwh <= POWER_MAX_MW * pastMs
    requires pastMs + EnergyLife.Run(stored, events).clockMs <= 10 * 365 * 24 * 3_600_000
    ensures 0 <= EnergyLife.Run(stored, events).energy.totalMwh <= 322_368_000_000
  {
    forall e | e in events && e.Update? ensures e.powerMw <= POWER_MAX_MW {
      var run: seq<Meter.Event>, r :| r in Meter.Run(run).log.published
                                     && RatedLoad(Meter.Run(run).log.samples) && r.powerMw == e.powerMw;
      RatedLoadIsDeclared(run);
    }
    EnergyLife.TenYearsStayInRange(stored, events, pastMs);
  }
}
