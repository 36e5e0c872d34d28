/**
 src/power_measurement.cpp: deadband reporting of the readings, trapezoidal energy
 integration with truncating divisions, the flash-write policy and the event limiter.
 */
module PowerMeasurement {
  import opened Shared
  import opened Units

  const MWH_DIVISOR: int := 3_600_000
  const ENERGY_REPORT_INTERVAL_MS: int := 60_000
  const ENERGY_PERSIST_THRESHOLD_MWH: int := 100_000
  const ENERGY_PERSIST_MIN_INTERVAL_MS: int := 600_000
  const ENERGY_PERSIST_MAX_INTERVAL_MS: int := 21_600_000
  const ACTIVE_POWER_DEADBAND_MW: int := 50
  const RMS_VOLTAGE_DEADBAND_MV: int := 100
  const RMS_CURRENT_DEADBAND_MA: int := 3

  datatype Attribute = ActivePower | RmsVoltage | RmsCurrent | CumulativeEnergyImported

  /** What the Matter stack is told. */
  datatype Notification = Dirty(attribute: Attribute) | EnergyEvent(energyMwh: int)

  /* ---- Reporting ---- */

  /** The last value reported for an attribute and whether this call marked it dirty. */
  datatype Report = Report(reported: int, marked: bool)

  function ReportIfMoved(haveReported: bool, reported: int, value: int, deadband: int): Report {
    if haveReported && Abs(value - reported) < deadband then Report(reported, false) else Report(value, true)
  }

  datatype Reporting = Reporting(haveReported: bool, reported: Readings)

  function UpdateReporting(r: Reporting, value: Readings): Reporting {
    Reporting(true, Readings(
      ReportIfMoved(r.haveReported, r.reported.powerMw, value.powerMw, ACTIVE_POWER_DEADBAND_MW).reported,
      ReportIfMoved(r.haveReported, r.reported.voltageMv, value.voltageMv, RMS_VOLTAGE_DEADBAND_MV).reported,
      ReportIfMoved(r.haveReported, r.reported.currentMa, value.currentMa, RMS_CURRENT_DEADBAND_MA).reported))
  }

  function Marks(marked: bool, attribute: Attribute): seq<Notification> {
    if marked then [Dirty(attribute)] else []
  }

  function ReportsSent(r: Reporting, value: Readings): seq<Notification> {
    Marks(ReportIfMoved(r.haveReported, r.reported.powerMw, value.powerMw, ACTIVE_POWER_DEADBAND_MW).marked,
        ActivePower)
    + Marks(ReportIfMoved(r.haveReported, r.reported.voltageMv, value.voltageMv, RMS_VOLTAGE_DEADBAND_MV).marked,
        RmsVoltage)
    + Marks(ReportIfMoved(r.haveReported, r.reported.currentMa, value.currentMa, RMS_CURRENT_DEADBAND_MA).marked,
        RmsCurrent)
  }

  /* ---- Energy ---- */

  /** The energy statics, with the value held by the key-value store. */
  datatype Energy = Energy(
    haveLastSample: bool, lastPowerMw: int, totalMwh: int, lastSampleMs: int, lastReportMs: int,
    persistedMwh: int, lastPersistMs: int, stored: Option<int>)

  /** What LoadCumulativeEnergy makes of the store: a missing, zero or negative value counts as nothing. */
  function Restored(stored: Option<int>): nat {
    if stored.Some? && stored.value > 0 then stored.value else 0
  }

  /** The statics after a boot. */
  function Booted(stored: Option<int>): Energy {
    Energy(false, 0, Restored(stored), 0, 0, Restored(stored), 0, stored)
  }

  /** mWh of one gap: the truncated mean power times the gap, truncated again. */
  function GapEnergy(lastPowerMw: int, powerMw: int, elapsedMs: int): int {
    TruncDiv(TruncDiv(lastPowerMw + powerMw, 2) * elapsedMs, MWH_DIVISOR)
  }

  function Integrate(e: Energy, powerMw: int, nowMs: int): Energy {
    e.(totalMwh := e.totalMwh + GapEnergy(e.lastPowerMw, powerMw, nowMs - e.lastSampleMs))
  }

  predicate PersistDue(e: Energy, nowMs: int) {
    var deltaMwh, sincePersistMs := e.totalMwh - e.persistedMwh, nowMs - e.lastPersistMs;
    && 0 < deltaMwh
    && (|| (deltaMwh >= ENERGY_PERSIST_THRESHOLD_MWH && sincePersistMs >= ENERGY_PERSIST_MIN_INTERVAL_MS)
        || sincePersistMs >= ENERGY_PERSIST_MAX_INTERVAL_MS)
  }

  function Persist(e: Energy, nowMs: int, putOk: bool): Energy {
    if PersistDue(e, nowMs) && putOk
    then e.(persistedMwh := e.totalMwh, lastPersistMs := nowMs, stored := Some(e.totalMwh))
    else e
  }

  predicate EventDue(e: Energy, nowMs: int, fabricCount: nat) {
    fabricCount > 0 && nowMs - e.lastReportMs >= ENERGY_REPORT_INTERVAL_MS
  }

  function UpdateEnergy(e: Energy, powerMw: int, nowMs: int, putOk: bool, fabricCount: nat): Energy {
    var integrated :=
      if !e.haveLastSample then e
      else
        var persisted := Persist(Integrate(e, powerMw, nowMs), nowMs, putOk);
        if EventDue(persisted, nowMs, fabricCount) then persisted.(lastReportMs := nowMs) else persisted;
    integrated.(lastPowerMw := powerMw, lastSampleMs := nowMs, haveLastSample := true)
  }

  /** The energy event of an update carries the new total; the attribute is marked dirty with it. */
  function EnergySent(e: Energy, powerMw: int, nowMs: int, fabricCount: nat): seq<Notification> {
    if e.haveLastSample && EventDue(e, nowMs, fabricCount)
    then [EnergyEvent(Integrate(e, powerMw, nowMs).totalMwh), Dirty(CumulativeEnergyImported)]
    else []
  }

  /** The persistent store of the Matter stack: a failed Put leaves the old value. */
  class KeyValueStore {
    var value: Option<int>

    constructor (value: Option<int>)
      ensures this.value == value
    {
      this.value := value;
    }

    method Put(v: int, ok: bool)
      modifies this
      ensures value == if ok then Some(v) else old(value)
    {
      if ok {
        value := Some(v);
      }
    }
  }

  /** The file's static variables. A reboot is a new object over the same store. */
  class PowerMeasurement {
    const kvs: KeyValueStore
    var haveDelegate: bool
    var delegate: Option<Readings>
    var haveLastSample: bool
    var lastActivePowerMw: int
    var cumulativeEnergyMwh: int
    var lastSampleMs: int
    var lastReportMs: int
    var lastPersistedEnergyMwh: int
    var lastPersistMs: int
    var haveReported: bool
    var reportedActivePowerMw: int
    var reportedRmsVoltageMv: int
    var reportedRmsCurrentMa: int
    ghost var sent: seq<Notification>

    ghost function EnergyState(): Energy
      reads this, kvs
    {
      Energy(haveLastSample, lastActivePowerMw, cumulativeEnergyMwh, lastSampleMs, lastReportMs,
             lastPersistedEnergyMwh, lastPersistMs, kvs.value)
    }

    ghost function ReportingState(): Reporting
      reads this
    {
      Reporting(haveReported, Readings(reportedActivePowerMw, reportedRmsVoltageMv, reportedRmsCurrentMa))
    }

    /** Zeroed statics, before PowerMeasurementInit. */
    constructor (kvs: KeyValueStore)
      ensures this.kvs == kvs && !haveDelegate && delegate == None && sent == []
      ensures EnergyState() == Energy(false, 0, 0, 0, 0, 0, 0, kvs.value)
      ensures ReportingState() == Reporting(false, Readings(0, 0, 0))
    {
      this.kvs := kvs;
      haveDelegate, delegate := false, None;
      haveLastSample, lastActivePowerMw, cumulativeEnergyMwh := false, 0, 0;
      lastSampleMs, lastReportMs, lastPersistedEnergyMwh, lastPersistMs := 0, 0, 0, 0;
      haveReported, reportedActivePowerMw, reportedRmsVoltageMv, reportedRmsCurrentMa := false, 0, 0, 0;
      sent := [];
    }

    /** The successful path of PowerMeasurementInit. */
    method Init()
      requires EnergyState() == Energy(false, 0, 0, 0, 0, 0, 0, kvs.value)
      modifies this
      ensures haveDelegate && delegate == None && sent == old(sent)
      ensures EnergyState() == Booted(kvs.value) && ReportingState() == old(ReportingState())
    {
      haveDelegate, delegate := true, None;
      LoadCumulativeEnergy();
    }

    method LoadCumulativeEnergy()
      modifies this`cumulativeEnergyMwh, this`lastPersistedEnergyMwh
      ensures cumulativeEnergyMwh == (if kvs.value.Some? && kvs.value.value > 0 then kvs.value.value
                                      else old(cumulativeEnergyMwh))
      ensures lastPersistedEnergyMwh == cumulativeEnergyMwh
    {
      if kvs.value.Some? && kvs.value.value > 0 {
        cumulativeEnergyMwh := kvs.value.value;
      }
      lastPersistedEnergyMwh := cumulativeEnergyMwh;
    }

    method PersistCumulativeEnergyIfDue(nowMs: int, putOk: bool)
      modifies this`lastPersistedEnergyMwh, this`lastPersistMs, kvs
      ensures EnergyState() == Persist(old(EnergyState()), nowMs, putOk)
    {
      var deltaMwh := cumulativeEnergyMwh - lastPersistedEnergyMwh;
      if deltaMwh <= 0 {
        return;
      }
      var sincePersistMs := nowMs - lastPersistMs;
      var thresholdDue := deltaMwh >= ENERGY_PERSIST_THRESHOLD_MWH && sincePersistMs >= ENERGY_PERSIST_MIN_INTERVAL_MS;
      var maxIntervalDue := sincePersistMs >= ENERGY_PERSIST_MAX_INTERVAL_MS;
      if !thresholdDue && !maxIntervalDue {
        return;
      }
      kvs.Put(cumulativeEnergyMwh, putOk);
      if !putOk {
        return;
      }
      lastPersistedEnergyMwh := cumulativeEnergyMwh;
      lastPersistMs := nowMs;
    }

    /** ReportIfMoved; the caller stores the returned value, as the source does through a pointer. */
    method Report(value: int, reported: int, deadband: int, attribute: Attribute) returns (updated: int)
      modifies this`sent
      ensures var report := ReportIfMoved(haveReported, reported, value, deadband);
              updated == report.reported && sent == old(sent) + Marks(report.marked, attribute)
    {
      var delta := if value > reported then value - reported else reported - value;
      if haveReported && delta < deadband {
        return reported;
      }
      updated := value;
      sent := sent + [Dirty(attribute)];
    }

    /** The reporting half of PowerMeasurementUpdate. */
    method ReportReadings(activePowerMw: int, rmsVoltageMv: int, rmsCurrentMa: int)
      modifies this`reportedActivePowerMw, this`reportedRmsVoltageMv, this`reportedRmsCurrentMa,
               this`haveReported, this`sent
      ensures var value := Readings(activePowerMw, rmsVoltageMv, rmsCurrentMa);
              && ReportingState() == UpdateReporting(old(ReportingState()), value)
              && sent == old(sent) + ReportsSent(old(ReportingState()), value)
    {
      reportedActivePowerMw := Report(activePowerMw, reportedActivePowerMw, ACTIVE_POWER_DEADBAND_MW, ActivePower);
      reportedRmsVoltageMv := Report(rmsVoltageMv, reportedRmsVoltageMv, RMS_VOLTAGE_DEADBAND_MV, RmsVoltage);
      reportedRmsCurrentMa := Report(rmsCurrentMa, reportedRmsCurrentMa, RMS_CURRENT_DEADBAND_MA, RmsCurrent);
      haveReported := true;
    }

    /** The energy half of PowerMeasurementUpdate. */
    method AccumulateEnergy(activePowerMw: int, nowMs: int, putOk: bool, fabricCount: nat)
      modifies this`haveLastSample, this`lastActivePowerMw, this`cumulativeEnergyMwh, this`lastSampleMs,
               this`lastReportMs, this`lastPersistedEnergyMwh, this`lastPersistMs, this`sent, kvs
      ensures EnergyState() == UpdateEnergy(old(EnergyState()), activePowerMw, nowMs, putOk, fabricCount)
      ensures sent == old(sent) + EnergySent(old(EnergyState()), activePowerMw, nowMs, fabricCount)
    {
      if haveLastSample {
        var elapsedMs := nowMs - lastSampleMs;
        var avgPowerMw := TruncDiv(lastActivePowerMw + activePowerMw, 2);
        cumulativeEnergyMwh := cumulativeEnergyMwh + TruncDiv(avgPowerMw * elapsedMs, MWH_DIVISOR);
        assert EnergyState() == Integrate(old(EnergyState()), activePowerMw, nowMs);

        PersistCumulativeEnergyIfDue(nowMs, putOk);

        if fabricCount > 0 && nowMs - lastReportMs >= ENERGY_REPORT_INTERVAL_MS {
          sent := sent + [EnergyEvent(cumulativeEnergyMwh), Dirty(CumulativeEnergyImported)];
          lastReportMs := nowMs;
        }
      }

      lastActivePowerMw := activePowerMw;
      lastSampleMs := nowMs;
      haveLastSample := true;
    }

    /** Uptime, the outcome of a flash write and the fabric count come from the environment. */
    method PowerMeasurementUpdate(activePowerMw: int, rmsVoltageMv: int, rmsCurrentMa: int,
                                  nowMs: int, putOk: bool, fabricCount: nat)
      modifies this, kvs
      ensures haveDelegate == old(haveDelegate)
      ensures !haveDelegate ==> unchanged(this) && unchanged(kvs)
      ensures haveDelegate ==>
                var value := Readings(activePowerMw, rmsVoltageMv, rmsCurrentMa);
                && delegate == Some(value)
                && ReportingState() == UpdateReporting(old(ReportingState()), value)
                && EnergyState() == UpdateEnergy(old(EnergyState()), activePowerMw, nowMs, putOk, fabricCount)
                && sent == old(sent) + ReportsSent(old(ReportingState()), value)
                           + EnergySent(old(EnergyState()), activePowerMw, nowMs, fabricCount)
    {
      if !haveDelegate {
        return;
      }
      delegate := Some(Readings(activePowerMw, rmsVoltageMv, rmsCurrentMa));
      ReportReadings(activePowerMw, rmsVoltageMv, rmsCurrentMa);
      assert EnergyState() == old(EnergyState());
      AccumulateEnergy(activePowerMw, nowMs, putOk, fabricCount);
    }
  }
}
