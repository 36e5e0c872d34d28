/**
 The energy total over the whole life of a plug: updates at any times with any outcome
 of the flash writes, and power cuts between them.
 */
module EnergyLife {
  import opened Shared
  import opened Units
  import opened PowerMeasurement

  /** Time passes, then readings are pushed in or the mains goes away and comes back. */
  datatype Event =
    | Update(dtMs: nat, powerMw: nat, putOk: bool, fabricCount: nat)
    | PowerCut(dtMs: nat)

  /** Something that happened at a time of the lifetime clock. */
  datatype Stamp = Stamp(atMs: nat, mwh: int)

  /** The samples of this boot as an observer integrates them: twice the area under the power curve in
      mW*ms, the time it covers, the number of gaps, and the mWh a truncating integrator makes of it. */
  datatype Integral = Integral(last: Option<Stamp>, twiceArea: nat, elapsedMs: nat, gaps: nat, mwh: nat)

  const NoSamples: Integral := Integral(None, 0, 0, 0, 0)

  /** The same of several boots: area in mW*ms (twice), time and gaps. */
  datatype Area = Area(twiceArea: nat, elapsedMs: nat, gaps: nat)

  function AddBoot(a: Area, i: Integral): Area {
    Area(a.twiceArea + i.twiceArea, a.elapsedMs + i.elapsedMs, a.gaps + i.gaps)
  }

  /** An observer's record of a life: all energy ever integrated, what each power cut lost, what reached the
      store and the event log, and when; `past` is what was sampled in earlier boots. The last three fields are
      about this boot only. */
  datatype Log = Log(added: nat, losses: seq<int>, writes: seq<Stamp>, events: seq<Stamp>, past: Area,
                     bootEvents: seq<Stamp>, bootStartMwh: int, boot: Integral)

  /** The device, the uptime of this boot, and the lifetime clock: uptime summed over all boots. */
  datatype Life = Life(energy: Energy, uptimeMs: nat, clockMs: nat, log: Log)

  function Born(stored: Option<int>): Life {
    Life(Booted(stored), 0, 0, Log(0, [], [], [], Area(0, 0, 0), [], Restored(stored), NoSamples))
  }

  /** Energy of one gap: mean power in whole mW, times the gap, in whole mWh. */
  function Trapezoid(p: nat, q: nat, gapMs: nat): nat {
    (p + q) / 2 * gapMs / MWH_DIVISOR
  }

  function Sampled(i: Integral, nowMs: nat, powerMw: nat): Integral {
    if i.last == None then i.(last := Some(Stamp(nowMs, powerMw)))
    else
      var p := Max(0, i.last.value.mwh);
      var gapMs := Max(0, nowMs - i.last.value.atMs);
      Integral(Some(Stamp(nowMs, powerMw)), i.twiceArea + (p + powerMw) * gapMs, i.elapsedMs + gapMs, i.gaps + 1,
               i.mwh + Trapezoid(p, powerMw, gapMs))
  }

  function Step(l: Life, e: Event): Life {
    var clock := l.clockMs + e.dtMs;
    match e
    case Update(dt, powerMw, putOk, fabricCount) =>
      var now := l.uptimeMs + dt;
      var after := UpdateEnergy(l.energy, powerMw, now, putOk, fabricCount);
      var boot := Sampled(l.log.boot, now, powerMw);
      var written := if after.stored != l.energy.stored then [Stamp(clock, Restored(after.stored))] else [];
      var sent := EnergySent(l.energy, powerMw, now, fabricCount);
      var emitted := if sent != [] && sent[0].EnergyEvent? then [Stamp(clock, sent[0].energyMwh)] else [];
      Life(after, now, clock,
           l.log.(added := l.log.added + Max(0, boot.mwh - l.log.boot.mwh),
                  writes := l.log.writes + written,
                  events := l.log.events + emitted,
                  bootEvents := l.log.bootEvents + emitted,
                  boot := boot))
    case PowerCut(_) =>
      var after := Booted(l.energy.stored);
      Life(after, 0, clock,
           l.log.(losses := l.log.losses + [l.energy.totalMwh - after.totalMwh],
                  past := AddBoot(l.log.past, l.log.boot),
                  bootEvents := [], bootStartMwh := after.totalMwh, boot := NoSamples))
  }

  function Run(stored: Option<int>, events: seq<Event>): Life {
    if events == [] then Born(stored)
    else Step(Run(stored, events[..|events| - 1]), events[|events| - 1])
  }

  function Sum(values: seq<int>): int {
    if values == [] then 0 else Sum(values[..|values| - 1]) + values[|values| - 1]
  }

  lemma SumExtends(values: seq<int>, v: int)
    ensures Sum(values + [v]) == Sum(values) + v
  {
    assert (values + [v])[..|values|] == values;
  }

  /* ---- One gap ---- */

  lemma GapEnergyIsTrapezoid(p: nat, q: nat, gapMs: nat)
    ensures GapEnergy(p, q, gapMs) == Trapezoid(p, q, gapMs)
  {
    assert 0 <= (p + q) / 2 * gapMs;
  }

  /** The two truncating divisions lose at most this much of a gap, and never add anything. */
  lemma TrapezoidTruncates(p: nat, q: nat, gapMs: nat)
    ensures 0 <= (p + q) * gapMs - 2 * MWH_DIVISOR * Trapezoid(p, q, gapMs) <= gapMs + 2 * MWH_DIVISOR - 2
  {
    var mean, odd := (p + q) / 2, (p + q) % 2;
    var area := mean * gapMs;
    assert (p + q) * gapMs == 2 * area + odd * gapMs by {
      assert p + q == 2 * mean + odd;
      assert (2 * mean + odd) * gapMs == 2 * (mean * gapMs) + odd * gapMs;
    }
    assert area == MWH_DIVISOR * (area / MWH_DIVISOR) + area % MWH_DIVISOR;
    if odd == 1 {
      assert odd * gapMs == gapMs;
    }
  }

  lemma TrapezoidAtMost(p: nat, q: nat, gapMs: nat, pmax: nat)
    requires p <= pmax && q <= pmax
    ensures MWH_DIVISOR * Trapezoid(p, q, gapMs) <= pmax * gapMs
  {
    var mean := (p + q) / 2;
    MulKeepsOrder(mean, pmax, gapMs);
  }

  /** The int64 intermediates cannot overflow while samples are at most 1'600 s apart. */
  lemma GapFits(powerP: int, powerQ: int, elapsedMs: int)
    requires 0 <= powerP <= 5_541_893_284_025 && 0 <= powerQ <= 5_541_893_284_025
    requires 0 <= elapsedMs <= 1_600_000
    ensures FitsInt64(powerP + powerQ) && FitsInt64(TruncDiv(powerP + powerQ, 2) * elapsedMs)
  {
    var mean := TruncDiv(powerP + powerQ, 2);
    MulKeepsOrder(mean, 5_541_893_284_025, elapsedMs);
  }

  /* ---- What every step keeps ---- */

  /** The statics agree with the store, the clocks and the observer's record of this boot. */
  ghost predicate Sound(l: Life) {
    var e, boot := l.energy, l.log.boot;
    && e.persistedMwh == Restored(e.stored) && e.persistedMwh <= e.totalMwh
    && 0 <= e.lastPersistMs <= e.lastSampleMs <= l.uptimeMs <= l.clockMs
    && 0 <= e.lastReportMs <= e.lastSampleMs
    && 0 <= e.lastPowerMw
    && e.totalMwh == l.log.bootStartMwh + boot.mwh
    && boot.last == (if e.haveLastSample then Some(Stamp(e.lastSampleMs, e.lastPowerMw)) else None)
    && (if e.haveLastSample then e.lastSampleMs == l.uptimeMs
        else e == Booted(e.stored) && boot == NoSamples && l.log.bootEvents == [])
  }

  /** The effect of an update that closes a gap of mwh, as later proofs need it. */
  ghost predicate Gap(l: Life, u: Event, after: Life, mwh: nat)
    requires u.Update?
  {
    var e, f, i := l.energy, after.energy, l.log.boot;
    var wrote := PersistDue(e.(totalMwh := e.totalMwh + mwh), after.uptimeMs) && u.putOk;
    var emits := EventDue(e, after.uptimeMs, u.fabricCount);
    var stamp := [Stamp(after.clockMs, f.totalMwh)];
    && after.uptimeMs == l.uptimeMs + u.dtMs && after.clockMs == l.clockMs + u.dtMs
    && f.haveLastSample && f.lastPowerMw == u.powerMw && f.lastSampleMs == after.uptimeMs
    && f.totalMwh == e.totalMwh + mwh
    && f.stored == (if wrote then Some(f.totalMwh) else e.stored)
    && f.persistedMwh == (if wrote then f.totalMwh else e.persistedMwh)
    && f.lastPersistMs == (if wrote then after.uptimeMs else e.lastPersistMs)
    && f.lastReportMs == (if emits then after.uptimeMs else e.lastReportMs)
    && after.log.added == l.log.added + mwh
    && after.log.losses == l.log.losses && after.log.bootStartMwh == l.log.bootStartMwh
    && after.log.past == l.log.past
    && after.log.writes == (if wrote then l.log.writes + stamp else l.log.writes)
    && after.log.events == (if emits then l.log.events + stamp else l.log.events)
    && after.log.bootEvents == (if emits then l.log.bootEvents + stamp else l.log.bootEvents)
    && after.log.boot.last == Some(Stamp(after.uptimeMs, u.powerMw))
    && after.log.boot.twiceArea == i.twiceArea + (e.lastPowerMw + u.powerMw) * u.dtMs
    && after.log.boot.elapsedMs == i.elapsedMs + u.dtMs
    && after.log.boot.gaps == i.gaps + 1 && after.log.boot.mwh == i.mwh + mwh
  }

  /** An update with a previous sample adds the trapezoid between the two. */
  lemma Integrates(l: Life, u: Event)
    requires Sound(l) && u.Update? && l.energy.haveLastSample
    ensures Gap(l, u, Step(l, u), Trapezoid(l.energy.lastPowerMw, u.powerMw, u.dtMs))
  {
    GapEnergyIsTrapezoid(l.energy.lastPowerMw, u.powerMw, u.dtMs);
    assert l.uptimeMs + u.dtMs - l.energy.lastSampleMs == u.dtMs;
  }

  /** The effect of the first update of a boot. */
  ghost predicate Primed(l: Life, u: Event, after: Life)
    requires u.Update?
  {
    && after.uptimeMs == l.uptimeMs + u.dtMs && after.clockMs == l.clockMs + u.dtMs
    && after.energy == l.energy.(haveLastSample := true, lastPowerMw := u.powerMw, lastSampleMs := after.uptimeMs)
    && after.log == l.log.(boot := NoSamples.(last := Some(Stamp(after.uptimeMs, u.powerMw))))
  }

  /** The first update of a boot only primes the integrator. */
  lemma Primes(l: Life, u: Event)
    requires Sound(l) && u.Update? && !l.energy.haveLastSample
    ensures Primed(l, u, Step(l, u))
  {
    assert l.log.events + [] == l.log.events && l.log.bootEvents + [] == l.log.bootEvents;
    assert l.log.writes + [] == l.log.writes;
  }

  lemma StepKeepsSound(l: Life, e: Event)
    requires Sound(l)
    ensures Sound(Step(l, e))
  {
    if e.Update? {
      if l.energy.haveLastSample {
        Integrates(l, e);
      } else {
        Primes(l, e);
      }
    }
  }

  lemma {:induction false} RunIsSound(stored: Option<int>, events: seq<Event>)
    ensures Sound(Run(stored, events))
  {
    if events != [] {
      RunIsSound(stored, events[..|events| - 1]);
      StepKeepsSound(Run(stored, events[..|events| - 1]), events[|events| - 1]);
    }
  }

  ghost predicate Conserved(l: Life, stored: Option<int>) {
    && Restored(stored) + l.log.added == l.energy.totalMwh + Sum(l.log.losses)
    && forall loss <- l.log.losses :: 0 <= loss
  }

  lemma StepConserves(l: Life, e: Event, stored: Option<int>)
    requires Sound(l) && Conserved(l, stored)
    ensures Conserved(Step(l, e), stored)
  {
    if e.PowerCut? {
      SumExtends(l.log.losses, l.energy.totalMwh - Restored(l.energy.stored));
    } else if l.energy.haveLastSample {
      Integrates(l, e);
    } else {
      Primes(l, e);
    }
  }

  /** All energy ever integrated is in the total or was lost at a power cut, and no cut adds energy. */
  lemma {:induction false} EnergyIsConserved(stored: Option<int>, events: seq<Event>)
    ensures Conserved(Run(stored, events), stored)
  {
    if events != [] {
      EnergyIsConserved(stored, events[..|events| - 1]);
      RunIsSound(stored, events[..|events| - 1]);
      StepConserves(Run(stored, events[..|events| - 1]), events[|events| - 1], stored);
    }
  }

  /** The energy added since boot against the area under the power curve: it is never over-counted, and
      under-counted by at most one mWh per gap and half a milliwatt over the elapsed time. */
  ghost predicate TracksArea(l: Life) {
    var i, added := l.log.boot, l.energy.totalMwh - l.log.bootStartMwh;
    0 <= i.twiceArea - 2 * MWH_DIVISOR * added <= i.elapsedMs + (2 * MWH_DIVISOR - 2) * i.gaps
  }

  lemma GapTracksArea(l: Life, u: Event, after: Life, mwh: nat)
    requires u.Update? && Gap(l, u, after, mwh) && TracksArea(l)
    requires 0 <= (l.energy.lastPowerMw + u.powerMw) * u.dtMs - 2 * MWH_DIVISOR * mwh <= u.dtMs + 2 * MWH_DIVISOR - 2
    ensures TracksArea(after)
  {
  }

  lemma StepTracksArea(l: Life, e: Event)
    requires Sound(l) && TracksArea(l)
    ensures TracksArea(Step(l, e))
  {
    if e.Update? && l.energy.haveLastSample {
      var p, after := l.energy.lastPowerMw, Step(l, e);
      Integrates(l, e);
      TrapezoidTruncates(p, e.powerMw, e.dtMs);
      GapTracksArea(l, e, after, Trapezoid(p, e.powerMw, e.dtMs));
    } else if e.Update? {
      Primes(l, e);
    }
  }

  lemma {:induction false} TruncationIsBounded(stored: Option<int>, events: seq<Event>)
    ensures TracksArea(Run(stored, events))
  {
    if events != [] {
      TruncationIsBounded(stored, events[..|events| - 1]);
      RunIsSound(stored, events[..|events| - 1]);
      StepTracksArea(Run(stored, events[..|events| - 1]), events[|events| - 1]);
    }
  }

  /** The area under the power curve over all boots. */
  function LifeArea(l: Life): Area {
    AddBoot(l.log.past, l.log.boot)
  }

  /** All energy ever integrated against that area, with the boots that are over apart. */
  ghost predicate TracksPast(l: Life) {
    var past, addedBefore := l.log.past, l.log.added - l.log.boot.mwh;
    && 0 <= past.twiceArea - 2 * MWH_DIVISOR * addedBefore <= past.elapsedMs + (2 * MWH_DIVISOR - 2) * past.gaps
    && past.elapsedMs <= l.clockMs - l.uptimeMs && l.log.boot.elapsedMs <= l.uptimeMs
  }

  lemma StepTracksPast(l: Life, e: Event)
    requires Sound(l) && TracksArea(l) && TracksPast(l)
    ensures TracksPast(Step(l, e))
  {
    if e.Update? {
      if l.energy.haveLastSample {
        Integrates(l, e);
      } else {
        Primes(l, e);
      }
    }
  }

  lemma {:induction false} PastIsTracked(stored: Option<int>, events: seq<Event>)
    ensures TracksPast(Run(stored, events))
  {
    if events != [] {
      PastIsTracked(stored, events[..|events| - 1]);
      TruncationIsBounded(stored, events[..|events| - 1]);
      RunIsSound(stored, events[..|events| - 1]);
      StepTracksPast(Run(stored, events[..|events| - 1]), events[|events| - 1]);
    }
  }

  /** The per-sample loss is real: a load that stays below 3'600 mW, sampled at least once a second, is never
      counted at all, however long it draws. */
  lemma {:induction false} TrickleIsNeverCounted(stored: Option<int>, events: seq<Event>)
    requires forall e <- events :: e.Update? && e.powerMw < 3600 && e.dtMs <= 1000
    ensures Run(stored, events).energy.totalMwh == Restored(stored)
    ensures Run(stored, events).energy.haveLastSample ==> Run(stored, events).energy.lastPowerMw < 3600
  {
    if events != [] {
      var before, e := Run(stored, events[..|events| - 1]), events[|events| - 1];
      TrickleIsNeverCounted(stored, events[..|events| - 1]);
      RunIsSound(stored, events[..|events| - 1]);
      if before.energy.haveLastSample {
        Integrates(before, e);
        var mean := (before.energy.lastPowerMw + e.powerMw) / 2;
        MulKeepsOrder(mean, 3599, e.dtMs);
        assert Trapezoid(before.energy.lastPowerMw, e.powerMw, e.dtMs) == 0;
      } else {
        Primes(before, e);
      }
    }
  }

  /* ---- What a power cut can lose ---- */

  /** Every reading is at most pmax. */
  predicate AtMost(events: seq<Event>, pmax: nat) {
    forall e <- events :: e.Update? ==> e.powerMw <= pmax
  }

  /** Every flash write that is attempted succeeds. */
  predicate WritesSucceed(events: seq<Event>) {
    forall e <- events :: e.Update? ==> e.putOk
  }

  /** The energy not yet in the store is at most what pmax draws in the time since the last write. */
  ghost predicate Stale(l: Life, pmax: nat) {
    && l.energy.lastPowerMw <= pmax
    && MWH_DIVISOR * (l.energy.totalMwh - l.energy.persistedMwh)
        <= pmax * (l.energy.lastSampleMs - l.energy.lastPersistMs)
  }

  lemma ProductGrows(p: nat, t: nat, dt: nat)
    ensures p * (t + dt) == p * t + p * dt
    ensures 0 <= p * t && 0 <= p * dt
  {
  }

  lemma GapKeepsStale(l: Life, u: Event, after: Life, mwh: nat, pmax: nat)
    requires u.Update? && Gap(l, u, after, mwh) && Sound(l) && l.energy.haveLastSample && Stale(l, pmax)
    requires u.powerMw <= pmax && MWH_DIVISOR * mwh <= pmax * u.dtMs
    ensures Stale(after, pmax)
  {
    ProductGrows(pmax, l.energy.lastSampleMs - l.energy.lastPersistMs, u.dtMs);
  }

  lemma {:induction false} StalenessIsBounded(stored: Option<int>, events: seq<Event>, pmax: nat)
    requires AtMost(events, pmax)
    ensures Stale(Run(stored, events), pmax)
  {
    if events != [] {
      var before, e := Run(stored, events[..|events| - 1]), events[|events| - 1];
      StalenessIsBounded(stored, events[..|events| - 1], pmax);
      RunIsSound(stored, events[..|events| - 1]);
      if e.Update? && before.energy.haveLastSample {
        Integrates(before, e);
        TrapezoidAtMost(before.energy.lastPowerMw, e.powerMw, e.dtMs, pmax);
        GapKeepsStale(before, e, Run(stored, events), Trapezoid(before.energy.lastPowerMw, e.powerMw, e.dtMs), pmax);
      } else if e.Update? {
        Primes(before, e);
        var since := e.dtMs + before.uptimeMs;
        assert 0 <= pmax * since;
      }
    }
  }

  /** Nothing is overdue: either all energy is stored, or the last write is under six hours old and, once
      100 Wh have gathered, under ten minutes old. */
  ghost predicate Fresh(e: Energy) {
    var deltaMwh, since := e.totalMwh - e.persistedMwh, e.lastSampleMs - e.lastPersistMs;
    && (deltaMwh == 0 || since < ENERGY_PERSIST_MAX_INTERVAL_MS)
    && (deltaMwh < ENERGY_PERSIST_THRESHOLD_MWH || since < ENERGY_PERSIST_MIN_INTERVAL_MS)
  }

  /** After any update at which a due write succeeds, whatever happened before, nothing is overdue. */
  lemma UpdateLeavesFresh(stored: Option<int>, events: seq<Event>, u: Event)
    requires u.Update? && u.putOk
    ensures Fresh(Step(Run(stored, events), u).energy)
  {
    RunIsSound(stored, events);
    var l := Run(stored, events);
    StepKeepsSound(l, u);
    if l.energy.haveLastSample {
      Integrates(l, u);
    } else {
      Primes(l, u);
    }
  }

  /** Less than 100 Wh, or no more than what pmax draws in ten minutes. */
  predicate SmallLoss(mwh: int, pmax: nat) {
    mwh < ENERGY_PERSIST_THRESHOLD_MWH || MWH_DIVISOR * mwh <= pmax * ENERGY_PERSIST_MIN_INTERVAL_MS
  }

  /** With readings of at most pmax and successful writes, no power cut ever loses more than the larger of
      100 Wh and ten minutes at pmax. */
  lemma {:induction false} LossesAreBounded(stored: Option<int>, events: seq<Event>, pmax: nat)
    requires AtMost(events, pmax) && WritesSucceed(events)
    ensures Fresh(Run(stored, events).energy)
    ensures forall loss <- Run(stored, events).log.losses ::
              && SmallLoss(loss, pmax)
              && loss <= MaxLoss(pmax)
  {
    if events != [] {
      var before, e := Run(stored, events[..|events| - 1]), events[|events| - 1];
      LossesAreBounded(stored, events[..|events| - 1], pmax);
      if e.Update? {
        UpdateLeavesFresh(stored, events[..|events| - 1], e);
      } else {
        RunIsSound(stored, events[..|events| - 1]);
        StalenessIsBounded(stored, events[..|events| - 1], pmax);
        FreshLossIsSmall(before, pmax);
      }
    }
  }

  lemma FreshLossIsSmall(l: Life, pmax: nat)
    requires Sound(l) && Stale(l, pmax) && Fresh(l.energy)
    ensures var loss := l.energy.totalMwh - Restored(l.energy.stored);
            && SmallLoss(loss, pmax)
            && loss <= MaxLoss(pmax)
  {
    var since := l.energy.lastSampleMs - l.energy.lastPersistMs;
    if since < ENERGY_PERSIST_MIN_INTERVAL_MS {
      MulKeepsOrder(since, ENERGY_PERSIST_MIN_INTERVAL_MS, pmax);
    }
  }

  /** The most a power cut can lose. */
  function MaxLoss(pmax: nat): nat {
    Max(ENERGY_PERSIST_THRESHOLD_MWH, pmax * ENERGY_PERSIST_MIN_INTERVAL_MS / MWH_DIVISOR)
  }

  lemma {:induction false} SumAtMost(values: seq<int>, most: nat)
    requires forall v <- values :: v <= most
    ensures Sum(values) <= |values| * most
  {
    if values != [] {
      var before := values[..|values| - 1];
      assert forall i :: 0 <= i < |before| ==> before[i] in values;
      assert values[|values| - 1] in values;
      SumAtMost(before, most);
      assert |values| * most == |before| * most + most;
    }
  }

  lemma LossesAddUp(losses: seq<int>, pmax: nat)
    requires forall loss <- losses :: 0 <= loss <= MaxLoss(pmax)
    ensures 0 <= Sum(losses) <= |losses| * MaxLoss(pmax)
  {
    SumIsNonnegative(losses);
    SumAtMost(losses, MaxLoss(pmax));
  }

  /** How far the total can be off, if the power cuts lost so much: never above what was stored first plus the area
      under the power curve of all boots, and below it by at most one mWh per gap, half a milliwatt over the time
      and what was lost. */
  ghost predicate Accurate(l: Life, stored: Option<int>, lost: int) {
    var area, countedMwh := LifeArea(l), l.energy.totalMwh - Restored(stored);
    && 2 * MWH_DIVISOR * countedMwh <= area.twiceArea
    && area.twiceArea <= 2 * MWH_DIVISOR * (countedMwh + lost) + area.elapsedMs + (2 * MWH_DIVISOR - 2) * area.gaps
    && area.elapsedMs <= l.clockMs
  }

  lemma AccuracyAddsUp(l: Life, stored: Option<int>, lost: int)
    requires Sound(l) && TracksArea(l) && TracksPast(l) && Conserved(l, stored)
    requires 0 <= Sum(l.log.losses) <= lost
    ensures Accurate(l, stored, lost)
  {
    var area, past, boot := LifeArea(l), l.log.past, l.log.boot;
    var addedBefore := l.log.added - boot.mwh;
    assert area.twiceArea == past.twiceArea + boot.twiceArea && area.gaps == past.gaps + boot.gaps;
    assert l.energy.totalMwh - l.log.bootStartMwh == boot.mwh;
    assert l.log.added == l.energy.totalMwh - Restored(stored) + Sum(l.log.losses);
  }

  /** Over any life the loss is at most MaxLoss per power cut. */
  lemma LifetimeAccuracy(stored: Option<int>, events: seq<Event>, pmax: nat)
    requires AtMost(events, pmax) && WritesSucceed(events)
    ensures Accurate(Run(stored, events), stored, |Run(stored, events).log.losses| * MaxLoss(pmax))
  {
    TruncationIsBounded(stored, events);
    PastIsTracked(stored, events);
    RunIsSound(stored, events);
    EnergyIsConserved(stored, events);
    LossesAreBounded(stored, events, pmax);
    LossesAddUp(Run(stored, events).log.losses, pmax);
    AccuracyAddsUp(Run(stored, events), stored, |Run(stored, events).log.losses| * MaxLoss(pmax));
  }

  /* ---- Range ---- */

  /** Readings of at most pmax keep the lifetime total below pmax over the whole powered time. */
  lemma {:induction false} LifetimeRange(stored: Option<int>, events: seq<Event>, pmax: nat)
    requires AtMost(events, pmax)
    ensures MWH_DIVISOR * Run(stored, events).log.added <= pmax * Run(stored, events).clockMs
    ensures Run(stored, events).energy.lastPowerMw <= pmax
  {
    if events != [] {
      var before, e := Run(stored, events[..|events| - 1]), events[|events| - 1];
      LifetimeRange(stored, events[..|events| - 1], pmax);
      RunIsSound(stored, events[..|events| - 1]);
      ProductGrows(pmax, before.clockMs, e.dtMs);
      if e.Update? && before.energy.haveLastSample {
        Integrates(before, e);
        TrapezoidAtMost(before.energy.lastPowerMw, e.powerMw, e.dtMs, pmax);
      } else if e.Update? {
        Primes(before, e);
      }
    }
  }

  /** 3'680 W for ten years of powered time stays within the declared 322'368'000'000 mWh, whatever part of them
      is already in the store. */
  lemma TenYearsStayInRange(stored: Option<int>, events: seq<Event>, pastMs: nat)
    requires AtMost(events, 3_680_000) && MWH_DIVISOR * Restored(stored) <= 3_680_000 * pastMs
    requires pastMs + Run(stored, events).clockMs <= 10 * 365 * 24 * 3_600_000
    ensures 0 <= Run(stored, events).energy.totalMwh <= 322_368_000_000
  {
    LifetimeRange(stored, events, 3_680_000);
    EnergyIsConserved(stored, events);
    RunIsSound(stored, events);
    SumIsNonnegative(Run(stored, events).log.losses);
  }

  lemma {:induction false} SumIsNonnegative(values: seq<int>)
    requires forall v <- values :: 0 <= v
    ensures 0 <= Sum(values)
  {
    if values != [] {
      var before := values[..|values| - 1];
      assert forall i :: 0 <= i < |before| ==> before[i] in values;
      assert values[|values| - 1] in values;
      SumIsNonnegative(before);
    }
  }

  /* ---- Wear and event rates ---- */

  /** Entries of the log are at least this far apart, and the first is this long after the start. */
  predicate Spaced(log: seq<Stamp>, intervalMs: nat) {
    && (log != [] ==> intervalMs <= log[0].atMs)
    && forall i :: 0 < i < |log| ==> log[i - 1].atMs + intervalMs <= log[i].atMs
  }

  /** A spaced log grows no faster than one entry per interval, over any stretch of it. */
  lemma {:induction false} SpacingBoundsRate(log: seq<Stamp>, intervalMs: nat, i: nat, j: nat)
    requires Spaced(log, intervalMs) && i <= j < |log|
    ensures (j - i) * intervalMs <= log[j].atMs - log[i].atMs
    ensures (j + 1) * intervalMs <= log[j].atMs
    decreases j
  {
    if i < j {
      SpacingBoundsRate(log, intervalMs, i, j - 1);
      assert (j - i) * intervalMs == (j - 1 - i) * intervalMs + intervalMs;
      assert (j + 1) * intervalMs == j * intervalMs + intervalMs;
    } else if 0 < j {
      SpacingBoundsRate(log, intervalMs, j - 1, j - 1);
      assert (j + 1) * intervalMs == j * intervalMs + intervalMs;
    }
  }

  /** A spaced log whose last entry is not later than lastMs. */
  predicate SpacedUntil(log: seq<Stamp>, intervalMs: nat, lastMs: int) {
    Spaced(log, intervalMs) && (if log == [] then 0 else log[|log| - 1].atMs) <= lastMs
  }

  lemma SpacedExtends(log: seq<Stamp>, s: Stamp, intervalMs: nat, lastMs: int)
    requires SpacedUntil(log, intervalMs, lastMs) && lastMs + intervalMs <= s.atMs
    ensures SpacedUntil(log + [s], intervalMs, s.atMs)
  {
  }

  /** Uptime restarts at a power cut, but so do the times of the last write and the last event, so neither
      interval is ever cut short: what is due has waited since the boot at least. */
  ghost predicate RateLimited(l: Life) {
    var bootMs := l.clockMs - l.uptimeMs;
    && SpacedUntil(l.log.writes, ENERGY_PERSIST_MIN_INTERVAL_MS, bootMs + l.energy.lastPersistMs)
    && SpacedUntil(l.log.events, ENERGY_REPORT_INTERVAL_MS, bootMs + l.energy.lastReportMs)
  }

  lemma GapKeepsRates(l: Life, u: Event, after: Life, mwh: nat)
    requires u.Update? && Gap(l, u, after, mwh) && RateLimited(l)
    ensures RateLimited(after)
  {
    var bootMs, stamp := l.clockMs - l.uptimeMs, Stamp(after.clockMs, after.energy.totalMwh);
    if PersistDue(l.energy.(totalMwh := l.energy.totalMwh + mwh), after.uptimeMs) && u.putOk {
      SpacedExtends(l.log.writes, stamp, ENERGY_PERSIST_MIN_INTERVAL_MS, bootMs + l.energy.lastPersistMs);
    }
    if EventDue(l.energy, after.uptimeMs, u.fabricCount) {
      SpacedExtends(l.log.events, stamp, ENERGY_REPORT_INTERVAL_MS, bootMs + l.energy.lastReportMs);
    }
  }

  lemma {:induction false} RunIsRateLimited(stored: Option<int>, events: seq<Event>)
    ensures RateLimited(Run(stored, events))
  {
    if events != [] {
      var before, e := Run(stored, events[..|events| - 1]), events[|events| - 1];
      RunIsRateLimited(stored, events[..|events| - 1]);
      RunIsSound(stored, events[..|events| - 1]);
      if e.Update? && before.energy.haveLastSample {
        Integrates(before, e);
        GapKeepsRates(before, e, Run(stored, events), Trapezoid(before.energy.lastPowerMw, e.powerMw, e.dtMs));
      } else if e.Update? {
        Primes(before, e);
      }
    }
  }

  /** Over a whole life, power cuts included, at most one flash write per ten minutes of powered time and one
      energy event per minute of it; and over any stretch between two of them. */
  lemma WearIsBounded(stored: Option<int>, events: seq<Event>)
    ensures var l := Run(stored, events);
            && |l.log.writes| * ENERGY_PERSIST_MIN_INTERVAL_MS <= l.clockMs
            && |l.log.events| * ENERGY_REPORT_INTERVAL_MS <= l.clockMs
            && (forall i, j :: 0 <= i <= j < |l.log.writes| ==>
                  (j - i) * ENERGY_PERSIST_MIN_INTERVAL_MS <= l.log.writes[j].atMs - l.log.writes[i].atMs)
            && (forall i, j :: 0 <= i <= j < |l.log.events| ==>
                  (j - i) * ENERGY_REPORT_INTERVAL_MS <= l.log.events[j].atMs - l.log.events[i].atMs)
  {
    RunIsRateLimited(stored, events);
    RunIsSound(stored, events);
    var log := Run(stored, events).log;
    forall i, j | 0 <= i <= j < |log.writes|
      ensures (j - i) * ENERGY_PERSIST_MIN_INTERVAL_MS <= log.writes[j].atMs - log.writes[i].atMs
      ensures (j + 1) * ENERGY_PERSIST_MIN_INTERVAL_MS <= log.writes[j].atMs
    {
      SpacingBoundsRate(log.writes, ENERGY_PERSIST_MIN_INTERVAL_MS, i, j);
    }
    forall i, j | 0 <= i <= j < |log.events|
      ensures (j - i) * ENERGY_REPORT_INTERVAL_MS <= log.events[j].atMs - log.events[i].atMs
      ensures (j + 1) * ENERGY_REPORT_INTERVAL_MS <= log.events[j].atMs
    {
      SpacingBoundsRate(log.events, ENERGY_REPORT_INTERVAL_MS, i, j);
    }
  }

  /** This update would write, and so calls Put. */
  predicate Attempts(l: Life, u: Event)
    requires u.Update?
  {
    l.energy.haveLastSample
    && PersistDue(Integrate(l.energy, u.powerMw, l.uptimeMs + u.dtMs), l.uptimeMs + u.dtMs)
  }

  lemma AttemptsIff(l: Life, u: Event)
    requires Sound(l) && u.Update? && l.energy.haveLastSample
    ensures var e, mwh := l.energy, Trapezoid(l.energy.lastPowerMw, u.powerMw, u.dtMs);
            Attempts(l, u) <==> PersistDue(e.(totalMwh := e.totalMwh + mwh), l.uptimeMs + u.dtMs)
  {
    GapEnergyIsTrapezoid(l.energy.lastPowerMw, u.powerMw, u.dtMs);
    assert l.uptimeMs + u.dtMs - l.energy.lastSampleMs == u.dtMs;
  }

  lemma GapRetries(l: Life, u: Event, after: Life, mwh: nat, v: Event, more: nat)
    requires u.Update? && v.Update? && Gap(l, u, after, mwh)
    requires PersistDue(l.energy.(totalMwh := l.energy.totalMwh + mwh), after.uptimeMs)
    ensures !u.putOk || v.dtMs < ENERGY_PERSIST_MIN_INTERVAL_MS ==>
              (PersistDue(after.energy.(totalMwh := after.energy.totalMwh + more), after.uptimeMs + v.dtMs)
          <==> !u.putOk)
  {
  }

  /** Only successful writes are rate limited: a failed attempt is followed by another one at the next update,
      and within ten minutes only a failed one is. */
  lemma FailedWriteIsRetried(stored: Option<int>, events: seq<Event>, u: Event, v: Event)
    requires u.Update? && v.Update? && Attempts(Run(stored, events), u)
    ensures !u.putOk || v.dtMs < ENERGY_PERSIST_MIN_INTERVAL_MS ==>
              (Attempts(Run(stored, events + [u]), v) <==> !u.putOk)
  {
    var l, after := Run(stored, events), Run(stored, events + [u]);
    RunIsSound(stored, events);
    RunIsSound(stored, events + [u]);
    RunExtends(stored, events, u);
    AttemptsIff(l, u);
    Integrates(l, u);
    AttemptsIff(after, v);
    GapRetries(l, u, after, Trapezoid(l.energy.lastPowerMw, u.powerMw, u.dtMs), v,
               Trapezoid(after.energy.lastPowerMw, v.powerMw, v.dtMs));
  }

  /** So while Put fails there is no bound: from the first attempt, after `base`, every further update is one. */
  lemma {:induction false} FailingWritesHaveNoBound(stored: Option<int>, base: seq<Event>, events: seq<Event>)
    requires base < events && forall i :: |base| <= i < |events| ==> events[i].Update? && !events[i].putOk
    requires Attempts(Run(stored, base), events[|base|])
    ensures Attempts(Run(stored, events[..|events| - 1]), events[|events| - 1])
  {
    var before, v := events[..|events| - 1], events[|events| - 1];
    if before == base {
      assert v == events[|base|];
    } else {
      FailingWritesHaveNoBound(stored, base, before);
      RetriedNext(stored, before, v);
    }
  }

  lemma RetriedNext(stored: Option<int>, events: seq<Event>, v: Event)
    requires events != [] && events[|events| - 1].Update? && !events[|events| - 1].putOk && v.Update?
    requires Attempts(Run(stored, events[..|events| - 1]), events[|events| - 1])
    ensures Attempts(Run(stored, events), v)
  {
    assert events[..|events| - 1] + [events[|events| - 1]] == events;
    FailedWriteIsRetried(stored, events[..|events| - 1], events[|events| - 1], v);
  }

  /* ---- A steady load ---- */

  /** A load of powerMw since boot, polled at 1 Hz from uptime startMs on with every write succeeding. */
  predicate SteadyLoad(events: seq<Event>, powerMw: nat, startMs: nat) {
    && events != [] && (forall e <- events :: e.Update? && e.powerMw == powerMw && e.putOk)
    && forall i :: 0 <= i < |events| ==> events[i].dtMs == if i == 0 then startMs else 1000
  }

  /** What the integrator makes of one second of it. */
  function PerSecond(powerMw: nat): nat {
    powerMw * 1000 / MWH_DIVISOR
  }

  /** The seconds in which so many mWh gather, rounded up. */
  function SecondsFor(mwh: nat, perSecond: nat): nat
    requires 0 < perSecond
  {
    (mwh + perSecond - 1) / perSecond
  }

  /** Seconds between two writes: 100 Wh, but not before ten minutes, and in any case after six hours. */
  function Period(perSecond: nat): (seconds: nat)
    requires 0 < perSecond
    ensures 600 <= seconds <= 21_600
  {
    Min(21_600, Max(600, SecondsFor(100_000, perSecond)))
  }

  /** Polls until so many ms have passed, when startMs already have. */
  function PollsUntil(ms: nat, startMs: nat): nat {
    if ms <= startMs then 0 else (ms - startMs + 999) / 1000
  }

  /** Polls until the first write: the same limits, but the clock is startMs ahead of the integrator. */
  function FirstWrite(perSecond: nat, startMs: nat): (n: nat)
    requires 0 < perSecond
    ensures 1 <= n <= Period(perSecond)
  {
    Max(1, Min(PollsUntil(21_600_000, startMs), Max(PollsUntil(600_000, startMs), SecondsFor(100_000, perSecond))))
  }

  /** What decides the next write: writes so far, time since the last one, energy not yet stored. */
  datatype Unsaved = Unsaved(writes: int, sinceMs: int, mwh: int)

  ghost function UnsavedOf(l: Life): Unsaved {
    Unsaved(|l.log.writes|, l.uptimeMs - l.energy.lastPersistMs, l.energy.totalMwh - l.energy.persistedMwh)
  }

  /** So many writes into the load, and some seconds after the last. */
  ghost predicate OnSchedule(u: Unsaved, writes: int, seconds: int, perSecond: nat) {
    u == Unsaved(writes, 1000 * seconds, perSecond * seconds)
  }

  lemma SecondsForIff(mwh: nat, perSecond: nat, seconds: nat)
    requires 0 < perSecond
    ensures mwh <= perSecond * seconds <==> SecondsFor(mwh, perSecond) <= seconds
  {
    var n := SecondsFor(mwh, perSecond);
    assert n * perSecond + (mwh + perSecond - 1) % perSecond == mwh + perSecond - 1;
    if n <= seconds {
      MulKeepsOrder(n, seconds, perSecond);
    } else {
      MulKeepsOrder(seconds + 1, n, perSecond);
    }
  }

  /** What one more second does to it. */
  function NextSecond(u: Unsaved, perSecond: nat): Unsaved {
    var mwh, sinceMs := u.mwh + perSecond, u.sinceMs + 1000;
    if && 0 < mwh
       && (|| (mwh >= ENERGY_PERSIST_THRESHOLD_MWH && sinceMs >= ENERGY_PERSIST_MIN_INTERVAL_MS)
           || sinceMs >= ENERGY_PERSIST_MAX_INTERVAL_MS)
    then Unsaved(u.writes + 1, 0, 0)
    else Unsaved(u.writes, sinceMs, mwh)
  }

  function AfterSeconds(perSecond: nat, startMs: nat, n: nat): Unsaved {
    if n == 0 then Unsaved(0, startMs, 0) else NextSecond(AfterSeconds(perSecond, startMs, n - 1), perSecond)
  }

  /** The next write falls due in the last second of the period. */
  lemma ScheduleContinues(u: Unsaved, writes: int, seconds: nat, perSecond: nat)
    requires OnSchedule(u, writes, seconds, perSecond)
    requires 0 < perSecond ==> seconds < Period(perSecond)
    ensures var v := NextSecond(u, perSecond);
            if 0 < perSecond && seconds + 1 == Period(perSecond) then OnSchedule(v, writes + 1, 0, perSecond)
            else OnSchedule(v, writes, seconds + 1, perSecond)
  {
    assert perSecond * (seconds + 1) == perSecond * seconds + perSecond;
    if 0 < perSecond {
      SecondsForIff(100_000, perSecond, seconds + 1);
    }
  }

  lemma PerSecondIsGap(powerMw: nat)
    ensures Trapezoid(powerMw, powerMw, 1000) == PerSecond(powerMw)
  {
    assert (powerMw + powerMw) / 2 == powerMw;
  }

  lemma GapContinues(l: Life, u: Event, after: Life, mwh: nat)
    requires u.Update? && u.dtMs == 1000 && u.putOk && Gap(l, u, after, mwh)
    ensures UnsavedOf(after) == NextSecond(UnsavedOf(l), mwh)
  {
  }

  /** Writes in the first n seconds of the load. */
  function WritesIn(perSecond: nat, startMs: nat, n: nat): int {
    if perSecond == 0 || n < FirstWrite(perSecond, startMs) then 0
    else 1 + (n - FirstWrite(perSecond, startMs)) / Period(perSecond)
  }

  /** Where the load stands after n seconds: waiting for the first write, or on schedule since it. */
  ghost predicate Scheduled(u: Unsaved, perSecond: nat, startMs: nat, n: nat) {
    if perSecond == 0 || n < FirstWrite(perSecond, startMs) then u == Unsaved(0, startMs + 1000 * n, perSecond * n)
    else
      var since := n - FirstWrite(perSecond, startMs);
      OnSchedule(u, 1 + since / Period(perSecond), since % Period(perSecond), perSecond)
  }

  /** What the source asks of the first write, n seconds after the first poll. */
  predicate FirstDue(perSecond: nat, startMs: nat, n: nat) {
    || (perSecond * n >= ENERGY_PERSIST_THRESHOLD_MWH && startMs + 1000 * n >= ENERGY_PERSIST_MIN_INTERVAL_MS)
    || startMs + 1000 * n >= ENERGY_PERSIST_MAX_INTERVAL_MS
  }

  /** FirstWrite is the first poll that integrates something and meets it. */
  lemma FirstWriteIff(perSecond: nat, startMs: nat, n: nat)
    requires 0 < perSecond && 0 < n
    ensures FirstWrite(perSecond, startMs) <= n <==> FirstDue(perSecond, startMs, n)
  {
    SecondsForIff(100_000, perSecond, n);
  }

  lemma WaitsForFirstWrite(u: Unsaved, perSecond: nat, startMs: nat, n: nat, first: nat)
    requires u == Unsaved(0, startMs + 1000 * n, perSecond * n)
    requires 0 < perSecond ==> n < first && (first <= n + 1 <==> FirstDue(perSecond, startMs, n + 1))
    ensures NextSecond(u, perSecond) == if 0 < perSecond && n + 1 == first then Unsaved(1, 0, 0)
                                        else Unsaved(0, startMs + 1000 * (n + 1), perSecond * (n + 1))
  {
    assert perSecond * (n + 1) == perSecond * n + perSecond;
  }

  lemma ScheduleMovesOn(u: Unsaved, perSecond: nat, startMs: nat, n: nat)
    requires Scheduled(u, perSecond, startMs, n)
    ensures Scheduled(NextSecond(u, perSecond), perSecond, startMs, n + 1)
  {
    if perSecond == 0 || n < FirstWrite(perSecond, startMs) {
      if 0 < perSecond {
        FirstWriteIff(perSecond, startMs, n + 1);
      }
      WaitsForFirstWrite(u, perSecond, startMs, n, if perSecond == 0 then 0 else FirstWrite(perSecond, startMs));
      if 0 < perSecond {
        QuotientIs(0, Period(perSecond), 0, 0);
      }
    } else {
      var since, period := n - FirstWrite(perSecond, startMs), Period(perSecond);
      NextPlace(since, period, since / period, since % period);
      ScheduleContinues(u, 1 + since / period, since % period, perSecond);
    }
  }

  lemma {:induction false} ScheduleIsKept(perSecond: nat, startMs: nat, n: nat)
    ensures Scheduled(AfterSeconds(perSecond, startMs, n), perSecond, startMs, n)
  {
    if n > 0 {
      ScheduleIsKept(perSecond, startMs, n - 1);
      ScheduleMovesOn(AfterSeconds(perSecond, startMs, n - 1), perSecond, startMs, n - 1);
    }
  }

  /** The load moves the unsaved energy on, second by second. */
  lemma {:induction false} LoadLasts(stored: Option<int>, events: seq<Event>, powerMw: nat, startMs: nat)
    requires SteadyLoad(events, powerMw, startMs)
    ensures var l := Run(stored, events);
            && l.energy.haveLastSample && l.energy.lastPowerMw == powerMw
            && UnsavedOf(l) == AfterSeconds(PerSecond(powerMw), startMs, |events| - 1)
  {
    var before, e := events[..|events| - 1], events[|events| - 1];
    RunIsSound(stored, before);
    if before == [] {
      Primes(Born(stored), e);
    } else {
      assert forall i :: 0 <= i < |before| ==> before[i] == events[i];
      LoadLasts(stored, before, powerMw, startMs);
      LoadContinues(Run(stored, before), e, Run(stored, events));
    }
  }

  lemma LoadContinues(l: Life, u: Event, after: Life)
    requires Sound(l) && u.Update? && u.dtMs == 1000 && u.putOk && after == Step(l, u)
    requires l.energy.haveLastSample && l.energy.lastPowerMw == u.powerMw
    ensures after.energy.haveLastSample && after.energy.lastPowerMw == u.powerMw
    ensures UnsavedOf(after) == NextSecond(UnsavedOf(l), PerSecond(u.powerMw))
  {
    PerSecondIsGap(u.powerMw);
    Integrates(l, u);
    GapContinues(l, u, after, PerSecond(u.powerMw));
  }

  /** The writes of any steady load: none if a second of it truncates to nothing, otherwise the first as soon as
      it is due and from then on one per period. */
  lemma SteadyLoadWrites(stored: Option<int>, events: seq<Event>, powerMw: nat, startMs: nat)
    requires SteadyLoad(events, powerMw, startMs)
    ensures |Run(stored, events).log.writes| == WritesIn(PerSecond(powerMw), startMs, |events| - 1)
  {
    LoadLasts(stored, events, powerMw, startMs);
    ScheduleIsKept(PerSecond(powerMw), startMs, |events| - 1);
    ScheduleCounts(UnsavedOf(Run(stored, events)), PerSecond(powerMw), startMs, |events| - 1);
  }

  lemma ScheduleCounts(u: Unsaved, perSecond: nat, startMs: nat, n: nat)
    requires Scheduled(u, perSecond, startMs, n)
    ensures u.writes == WritesIn(perSecond, startMs, n)
  {
  }

  /** So many hours of a steady load, counted from the first poll. */
  predicate Hours(events: seq<Event>, powerMw: nat, startMs: nat, hours: nat) {
    SteadyLoad(events, powerMw, startMs) && |events| == 3600 * hours + 1
  }

  lemma SomeHours(powerMw: nat, startMs: nat, hours: nat) returns (events: seq<Event>)
    ensures Hours(events, powerMw, startMs, hours)
  {
    events := seq(3600 * hours + 1, (i: nat) => Update(if i == 0 then startMs else 1000, powerMw, true, 0));
  }

  lemma PeriodAtLeast(perSecond: nat, seconds: nat)
    requires 0 < perSecond && 600 < seconds <= 21_600
    ensures seconds <= Period(perSecond) <==> perSecond * (seconds - 1) < 100_000
  {
    SecondsForIff(100_000, perSecond, seconds - 1);
  }

  /** At most two writes an hour, the cap the source's comment gives, holds exactly for steady loads under
      201.6 W, whenever the polls start: every other exceeds it within 64 hours. */
  lemma AtMostTwiceAnHourIff(stored: Option<int>, powerMw: nat, startMs: nat)
    ensures (forall events, hours: nat | Hours(events, powerMw, startMs, hours) ::
               |Run(stored, events).log.writes| <= 2 * hours)
       <==> powerMw < 201_600
    ensures forall events | Hours(events, powerMw, startMs, 64) && powerMw >= 201_600 ::
              |Run(stored, events).log.writes| > 2 * 64
  {
    forall events, hours: nat | Hours(events, powerMw, startMs, hours)
      ensures powerMw < 201_600 ==> |Run(stored, events).log.writes| <= 2 * hours
      ensures powerMw >= 201_600 && hours == 64 ==> |Run(stored, events).log.writes| > 2 * 64
    {
      SteadyLoadWrites(stored, events, powerMw, startMs);
      TwiceAnHourIff(powerMw, startMs, hours);
    }
    var events := SomeHours(powerMw, startMs, 64);
  }

  lemma TwiceAnHourIff(powerMw: nat, startMs: nat, hours: nat)
    ensures powerMw < 201_600 ==> WritesIn(PerSecond(powerMw), startMs, 3600 * hours) <= 2 * hours
    ensures powerMw >= 201_600 ==> WritesIn(PerSecond(powerMw), startMs, 3600 * 64) > 2 * 64
  {
    var perSecond := PerSecond(powerMw);
    if 0 < perSecond && powerMw < 201_600 && FirstWrite(perSecond, startMs) <= 3600 * hours {
      PeriodAtLeast(perSecond, 1800);
      QuotientAtMost(3600 * hours - FirstWrite(perSecond, startMs), 1800, Period(perSecond));
    }
    if 201_600 <= powerMw {
      MulKeepsOrder(56, perSecond, 1786);
      PeriodAtLeast(perSecond, 1787);
      QuotientAtMost(3600 * 64 - FirstWrite(perSecond, startMs), Period(perSecond), 1786);
    }
  }

  lemma QuotientAtMost(n: nat, d: nat, e: nat)
    requires 0 < d <= e
    ensures n / e <= n / d
  {
    var p, q := n / d, n / e;
    assert n == d * p + n % d && n == e * q + n % e;
    if q > p {
      MulKeepsOrder(p + 1, q, d);
      MulKeepsOrder(d, e, q);
    }
  }

  /** Six writes in every hour exactly from 601.2 W on, the full rating of 3'680 W included, whenever the polls
      start; if they start in the first ten minutes, no smaller load writes as often in any number of hours. */
  lemma SixWritesPerHourIff(stored: Option<int>, powerMw: nat, startMs: nat)
    ensures (forall events, hours: nat | Hours(events, powerMw, startMs, hours) ::
               |Run(stored, events).log.writes| == 6 * hours)
       <==> 601_200 <= powerMw
    ensures startMs < 600_000 ==>
              forall events, hours: nat | Hours(events, powerMw, startMs, hours) && 0 < hours ::
                |Run(stored, events).log.writes| == 6 * hours <==> 601_200 <= powerMw
  {
    forall events, hours: nat | Hours(events, powerMw, startMs, hours)
      ensures 601_200 <= powerMw ==> |Run(stored, events).log.writes| == 6 * hours
      ensures powerMw < 601_200 && (hours == 64 || (startMs < 600_000 && 0 < hours)) ==>
                |Run(stored, events).log.writes| != 6 * hours
    {
      SteadyLoadWrites(stored, events, powerMw, startMs);
      if 601_200 <= powerMw {
        SixAnHour(powerMw, startMs, hours);
      } else {
        FewerThanSix(powerMw, startMs, hours);
      }
    }
    var events := SomeHours(powerMw, startMs, 64);
  }

  lemma SixAnHour(powerMw: nat, startMs: nat, hours: nat)
    requires 601_200 <= powerMw
    ensures WritesIn(PerSecond(powerMw), startMs, 3600 * hours) == 6 * hours
  {
    var perSecond := PerSecond(powerMw);
    SecondsForIff(100_000, perSecond, 600);
    assert Period(perSecond) == 600;
  }

  lemma FewerThanSix(powerMw: nat, startMs: nat, hours: nat)
    requires powerMw < 601_200
    ensures hours == 64 || (startMs < 600_000 && 0 < hours) ==>
              WritesIn(PerSecond(powerMw), startMs, 3600 * hours) < 6 * hours
  {
    var perSecond := PerSecond(powerMw);
    if 0 < perSecond && FirstWrite(perSecond, startMs) <= 3600 * hours {
      PeriodAtLeast(perSecond, 603);
      SecondsForIff(100_000, perSecond, 602);
      QuotientAtMost(3600 * hours - FirstWrite(perSecond, startMs), 603, Period(perSecond));
    }
  }

  /* ---- Monotonicity ---- */

  /** Every value exceeds all before it, and the base. */
  predicate Ascending(base: int, log: seq<Stamp>) {
    && (log != [] ==> base < log[0].mwh)
    && forall i, j :: 0 <= i < j < |log| ==> log[i].mwh < log[j].mwh
  }

  function LastMwh(base: int, log: seq<Stamp>): int {
    if log == [] then base else log[|log| - 1].mwh
  }

  lemma AscendingExtends(base: int, log: seq<Stamp>, s: Stamp)
    requires Ascending(base, log) && LastMwh(base, log) < s.mwh
    ensures Ascending(base, log + [s])
  {
  }

  /** What is stored is what was last written, and each write stores more than the one before: over the whole
      life, power cuts included. */
  ghost predicate WritesAscend(l: Life, stored: Option<int>) {
    && l.energy.stored == (if l.log.writes == [] then stored else Some(LastMwh(0, l.log.writes)))
    && Ascending(Restored(stored), l.log.writes)
    && l.energy.persistedMwh == LastMwh(Restored(stored), l.log.writes)
  }

  lemma GapKeepsWritesAscending(l: Life, u: Event, after: Life, mwh: nat, stored: Option<int>)
    requires u.Update? && Gap(l, u, after, mwh) && Sound(l) && WritesAscend(l, stored)
    ensures WritesAscend(after, stored)
  {
    var stamp := Stamp(after.clockMs, after.energy.totalMwh);
    if PersistDue(l.energy.(totalMwh := l.energy.totalMwh + mwh), after.uptimeMs) && u.putOk {
      AscendingExtends(Restored(stored), l.log.writes, stamp);
    }
  }

  lemma {:induction false} StoredValuesAscend(stored: Option<int>, events: seq<Event>)
    ensures WritesAscend(Run(stored, events), stored)
  {
    if events != [] {
      var before, e := Run(stored, events[..|events| - 1]), events[|events| - 1];
      StoredValuesAscend(stored, events[..|events| - 1]);
      RunIsSound(stored, events[..|events| - 1]);
      if e.Update? && before.energy.haveLastSample {
        Integrates(before, e);
        var mwh := Trapezoid(before.energy.lastPowerMw, e.powerMw, e.dtMs);
        GapKeepsWritesAscending(before, e, Run(stored, events), mwh, stored);
      } else if e.Update? {
        Primes(before, e);
      }
    }
  }

  /** Within a boot the published energies never decrease, and the total is never below them. */
  ghost predicate PublishedAscend(l: Life) {
    var published := l.log.bootEvents;
    && (forall i :: 0 < i < |published| ==> published[i - 1].mwh <= published[i].mwh)
    && (published != [] ==> published[|published| - 1].mwh <= l.energy.totalMwh)
  }

  lemma GapKeepsPublishedAscending(l: Life, u: Event, after: Life, mwh: nat)
    requires u.Update? && Gap(l, u, after, mwh) && Sound(l) && PublishedAscend(l)
    ensures PublishedAscend(after)
  {
  }

  lemma {:induction false} PublishedValuesAscend(stored: Option<int>, events: seq<Event>)
    ensures PublishedAscend(Run(stored, events))
  {
    if events != [] {
      var before, e := Run(stored, events[..|events| - 1]), events[|events| - 1];
      PublishedValuesAscend(stored, events[..|events| - 1]);
      RunIsSound(stored, events[..|events| - 1]);
      if e.Update? && before.energy.haveLastSample {
        Integrates(before, e);
        GapKeepsPublishedAscending(before, e, Run(stored, events), Trapezoid(before.energy.lastPowerMw, e.powerMw,
            e.dtMs));
      } else if e.Update? {
        Primes(before, e);
      }
    }
  }

  /** After a power cut the total is exactly what was last stored. It goes backwards exactly when something
      was unsaved. */
  lemma CutRestoresStored(stored: Option<int>, events: seq<Event>, dtMs: nat)
    ensures var l, after := Run(stored, events), Step(Run(stored, events), PowerCut(dtMs)).energy.totalMwh;
            && after == LastMwh(Restored(stored), l.log.writes)
            && (after < l.energy.totalMwh <==> l.energy.persistedMwh != l.energy.totalMwh)
  {
    RunIsSound(stored, events);
    StoredValuesAscend(stored, events);
  }

  /** On a fabric the published energy is never a minute old: after an update that integrates, the last event of
      this boot is under 60 s old, and one emitted at this update carries the new total. */
  lemma EventsAreTimely(stored: Option<int>, events: seq<Event>, u: Event)
    requires u.Update? && u.fabricCount > 0 && Run(stored, events).energy.haveLastSample
    ensures var l, after := Run(stored, events), Step(Run(stored, events), u);
            && after.energy.lastSampleMs - after.energy.lastReportMs < ENERGY_REPORT_INTERVAL_MS
            && (after.log.events == l.log.events
                || after.log.events == l.log.events + [Stamp(after.clockMs, after.energy.totalMwh)])
            && (after.energy.lastReportMs != l.energy.lastReportMs ==> after.log.events != l.log.events)
  {
    RunIsSound(stored, events);
    Integrates(Run(stored, events), u);
  }

  /** No energy event is emitted while no fabric is commissioned, whatever came before. */
  lemma NoFabricNoEvent(stored: Option<int>, events: seq<Event>, u: Event)
    requires u.Update? ==> u.fabricCount == 0
    ensures Step(Run(stored, events), u).log.events == Run(stored, events).log.events
  {
  }

  lemma {:induction false} NoFabricNoEvents(stored: Option<int>, events: seq<Event>, later: seq<Event>)
    requires forall e <- later :: e.Update? ==> e.fabricCount == 0
    ensures Run(stored, events + later).log.events == Run(stored, events).log.events
  {
    if later == [] {
      assert events + later == events;
    } else {
      var before, e := later[..|later| - 1], later[|later| - 1];
      assert events + later == events + before + [e];
      NoFabricNoEvents(stored, events, before);
      RunExtends(stored, events + before, e);
      NoFabricNoEvent(stored, events + before, e);
    }
  }

  lemma RunExtends(stored: Option<int>, events: seq<Event>, e: Event)
    ensures Run(stored, events + [e]) == Step(Run(stored, events), e)
  {
    assert (events + [e])[..|events|] == events;
  }

  /** Updates keep the energy this boot started from, so the total is that plus what was integrated since. */
  lemma {:induction false} CutIsRemembered(stored: Option<int>, events: seq<Event>, dtMs: nat, later: seq<Event>)
    requires forall e <- later :: e.Update?
    ensures var before, l := Run(stored, events), Run(stored, events + [PowerCut(dtMs)] + later);
            l.log.bootStartMwh == before.energy.persistedMwh
  {
    if later == [] {
      assert events + [PowerCut(dtMs)] + later == events + [PowerCut(dtMs)];
      RunExtends(stored, events, PowerCut(dtMs));
      RunIsSound(stored, events);
    } else {
      var longer, e := later[..|later| - 1], later[|later| - 1];
      assert events + [PowerCut(dtMs)] + later == events + [PowerCut(dtMs)] + longer + [e];
      assert e in later;
      CutIsRemembered(stored, events, dtMs, longer);
      RunExtends(stored, events + [PowerCut(dtMs)] + longer, e);
    }
  }

  /** What a step publishes, if anything, is that many mWh and what was integrated in this boot. */
  ghost predicate PublishesOnTop(l: Life, after: Life, mwh: int) {
    || after.log.events == l.log.events
    || after.log.events == l.log.events + [Stamp(after.clockMs, mwh + after.log.boot.mwh)]
  }

  lemma GapPublishes(l: Life, u: Event, after: Life, mwh: nat)
    requires Sound(l) && u.Update? && Gap(l, u, after, mwh)
    ensures PublishesOnTop(l, after, l.log.bootStartMwh)
  {
    assert after.energy.totalMwh == l.log.bootStartMwh + after.log.boot.mwh;
  }

  lemma EventCarriesBoot(l: Life, u: Event, after: Life)
    requires Sound(l) && u.Update? && after == Step(l, u)
    ensures PublishesOnTop(l, after, l.log.bootStartMwh)
  {
    if l.energy.haveLastSample {
      Integrates(l, u);
      GapPublishes(l, u, after, Trapezoid(l.energy.lastPowerMw, u.powerMw, u.dtMs));
    } else {
      Primes(l, u);
    }
  }

  /** An event after a cut publishes what was stored before it plus what was integrated since, whatever the
      updates in between were. */
  lemma PublishedAfterCut(stored: Option<int>, events: seq<Event>, dtMs: nat, later: seq<Event>, u: Event)
    requires (forall e <- later :: e.Update?) && u.Update?
    ensures var l := Run(stored, events + [PowerCut(dtMs)] + later);
            PublishesOnTop(l, Step(l, u), Run(stored, events).energy.persistedMwh)
  {
    var base := events + [PowerCut(dtMs)] + later;
    CutIsRemembered(stored, events, dtMs, later);
    RunIsSound(stored, base);
    EventCarriesBoot(Run(stored, base), u, Step(Run(stored, base), u));
  }

  /** An event leads from one life to the other, and it publishes less than was published last in `before`. */
  ghost predicate WentBack(before: Life, l: Life, after: Life) {
    && after.log.events != l.log.events
    && before.log.events != []
    && LastMwh(0, after.log.events) < LastMwh(0, before.log.events)
  }

  /** After this run and a power cut, these updates publish less than was published last before the cut. */
  ghost predicate GoesBack(stored: Option<int>, events: seq<Event>, dtMs: nat, later: seq<Event>, u: Event) {
    var l := Run(stored, events + [PowerCut(dtMs)] + later);
    (forall e <- later :: e.Update?) && u.Update? && WentBack(Run(stored, events), l, Step(l, u))
  }

  /** For any updates after a cut: one that publishes goes back exactly when the unstored part of what was
      published last before the cut exceeds what was integrated since. */
  lemma GoesBackIff(stored: Option<int>, events: seq<Event>, dtMs: nat, later: seq<Event>, u: Event)
    requires (forall e <- later :: e.Update?) && u.Update?
    requires Run(stored, events).log.events != []
    ensures var before, l := Run(stored, events), Run(stored, events + [PowerCut(dtMs)] + later);
            var after := Step(l, u);
            after.log.events != l.log.events ==>
              (GoesBack(stored, events, dtMs, later, u)
          <==> after.log.boot.mwh < LastMwh(0, before.log.events) - before.energy.persistedMwh)
  {
    PublishedAfterCut(stored, events, dtMs, later, u);
  }

  /** A life at the very start of a boot. */
  ghost predicate JustBooted(l: Life) {
    Sound(l) && l.energy == Booted(l.energy.stored) && l.uptimeMs == 0
  }

  function Poll(powerMw: nat, startMs: nat, i: nat): Event {
    Update(if i == 0 then startMs else 1000, powerMw, true, 1)
  }

  /** The first minute of a boot on a fabric: polls at 1 Hz from uptime startMs on until 60 s have passed. */
  function Minute(powerMw: nat, startMs: nat): (events: seq<Event>)
    ensures |events| == PollsUntil(60_000, startMs) + 1
  {
    seq(PollsUntil(60_000, startMs) + 1, (i: nat) => Poll(powerMw, startMs, i))
  }

  /** What the first polls of a boot change. */
  datatype Opening = Opening(energy: Energy, uptimeMs: int, clockMs: nat, events: seq<Stamp>)

  function OpeningOf(l: Life): Opening {
    Opening(l.energy, l.uptimeMs, l.clockMs, l.log.events)
  }

  function PrimingPoll(o: Opening, powerMw: nat, startMs: nat): Opening {
    var uptimeMs := o.uptimeMs + startMs;
    Opening(o.energy.(haveLastSample := true, lastPowerMw := powerMw, lastSampleMs := uptimeMs), uptimeMs,
            o.clockMs + startMs, o.events)
  }

  /** A poll one second later, before a write can be due. */
  function NextPoll(o: Opening, powerMw: nat): Opening {
    var uptimeMs, clockMs, totalMwh := o.uptimeMs + 1000, o.clockMs + 1000, o.energy.totalMwh + PerSecond(powerMw);
    var emits := uptimeMs - o.energy.lastReportMs >= ENERGY_REPORT_INTERVAL_MS;
    Opening(o.energy.(totalMwh := totalMwh, lastSampleMs := uptimeMs,
                      lastReportMs := if emits then uptimeMs else o.energy.lastReportMs),
            uptimeMs, clockMs, if emits then o.events + [Stamp(clockMs, totalMwh)] else o.events)
  }

  function AfterPolls(o: Opening, powerMw: nat, startMs: nat, n: nat): Opening {
    if n == 0 then PrimingPoll(o, powerMw, startMs) else NextPoll(AfterPolls(o, powerMw, startMs, n - 1), powerMw)
  }

  lemma {:induction false} PollsTakeTime(o: Opening, powerMw: nat, startMs: nat, n: nat)
    ensures var after := AfterPolls(o, powerMw, startMs, n);
            && after.uptimeMs == o.uptimeMs + startMs + 1000 * n && after.energy.lastPersistMs == o.energy.lastPersistMs
            && after.energy.haveLastSample && after.energy.lastPowerMw == powerMw
  {
    if n > 0 {
      PollsTakeTime(o, powerMw, startMs, n - 1);
    }
  }

  lemma PrimingPolls(stored: Option<int>, base: seq<Event>, u: Event, after: Life)
    requires JustBooted(Run(stored, base)) && u.Update? && after == Step(Run(stored, base), u)
    ensures OpeningOf(after) == PrimingPoll(OpeningOf(Run(stored, base)), u.powerMw, u.dtMs)
  {
    Primes(Run(stored, base), u);
  }

  lemma GapIsNextPoll(l: Life, u: Event, after: Life)
    requires u.Update? && u.dtMs == 1000 && u.putOk && u.fabricCount == 1 && l.energy.lastPowerMw == u.powerMw
    requires Gap(l, u, after, PerSecond(u.powerMw)) && l.energy.haveLastSample
    requires l.energy.lastPersistMs == 0 && l.uptimeMs + 1000 < ENERGY_PERSIST_MIN_INTERVAL_MS
    ensures after.log.events == NextPoll(OpeningOf(l), u.powerMw).events
    ensures after.energy == NextPoll(OpeningOf(l), u.powerMw).energy
  {
  }

  lemma PollContinues(stored: Option<int>, before: seq<Event>, u: Event, o: Opening, startMs: nat, n: nat)
    requires o.energy.lastPersistMs == o.uptimeMs == 0 && startMs + 1000 * n + 1000 < ENERGY_PERSIST_MIN_INTERVAL_MS
    requires u.Update? && u.dtMs == 1000 && u.putOk && u.fabricCount == 1
    requires OpeningOf(Run(stored, before)) == AfterPolls(o, u.powerMw, startMs, n)
    ensures OpeningOf(Step(Run(stored, before), u)) == AfterPolls(o, u.powerMw, startMs, n + 1)
  {
    var l := Run(stored, before);
    PollsTakeTime(o, u.powerMw, startMs, n);
    RunIsSound(stored, before);
    PerSecondIsGap(u.powerMw);
    Integrates(l, u);
    GapIsNextPoll(l, u, Step(l, u));
  }

  lemma {:induction false} PollsPass(stored: Option<int>, first: seq<Event>, events: seq<Event>, o: Opening,
                                     powerMw: nat, startMs: nat, n: nat)
    requires OpeningOf(Run(stored, first)) == AfterPolls(o, powerMw, startMs, 0)
    requires o.energy.lastPersistMs == o.uptimeMs == 0 && startMs + 1000 * n < ENERGY_PERSIST_MIN_INTERVAL_MS
    requires first <= events && n == |events| - |first|
    requires forall i :: |first| <= i < |events| ==> events[i] == Update(1000, powerMw, true, 1)
    ensures OpeningOf(Run(stored, events)) == AfterPolls(o, powerMw, startMs, n)
    decreases n
  {
    if n == 0 {
      assert events == first;
    } else {
      PollsPass(stored, first, events[..|events| - 1], o, powerMw, startMs, n - 1);
      PollContinues(stored, events[..|events| - 1], events[|events| - 1], o, startMs, n - 1);
    }
  }

  /** The polls of the first minute, after any run that ends in a boot. */
  lemma MinutePasses(stored: Option<int>, base: seq<Event>, events: seq<Event>, powerMw: nat, startMs: nat, n: nat)
    requires JustBooted(Run(stored, base)) && base < events && n == |events| - |base| - 1
    requires startMs + 1000 * n < ENERGY_PERSIST_MIN_INTERVAL_MS
    requires forall i :: |base| <= i < |events| ==> events[i] == Poll(powerMw, startMs, i - |base|)
    ensures OpeningOf(Run(stored, events)) == AfterPolls(OpeningOf(Run(stored, base)), powerMw, startMs, n)
  {
    var first := base + [events[|base|]];
    RunExtends(stored, base, events[|base|]);
    PrimingPolls(stored, base, events[|base|], Run(stored, first));
    PollsPass(stored, first, events, OpeningOf(Run(stored, base)), powerMw, startMs, n);
  }

  /** n seconds after the first poll: nothing is stored yet, and nothing published before the minute is over. */
  ghost predicate InMinute(booted: Opening, o: Opening, powerMw: nat, startMs: nat, n: nat) {
    var uptimeMs, totalMwh := startMs + 1000 * n, booted.energy.totalMwh + n * PerSecond(powerMw);
    var over := PollsUntil(60_000, startMs) <= n;
    && o.uptimeMs == uptimeMs && o.clockMs == booted.clockMs + uptimeMs
    && o.energy == booted.energy.(haveLastSample := true, lastPowerMw := powerMw, totalMwh := totalMwh,
                                  lastSampleMs := uptimeMs, lastReportMs := if over then uptimeMs else 0)
    && o.events == booted.events + if over then [Stamp(o.clockMs, totalMwh)] else []
  }

  lemma {:induction false} MinuteGathers(booted: Opening, powerMw: nat, startMs: nat, n: nat)
    requires booted.energy == Booted(booted.energy.stored) && booted.uptimeMs == 0 && startMs < 60_000
    requires n <= PollsUntil(60_000, startMs)
    ensures InMinute(booted, AfterPolls(booted, powerMw, startMs, n), powerMw, startMs, n)
  {
    if n > 0 {
      MinuteGathers(booted, powerMw, startMs, n - 1);
      assert n * PerSecond(powerMw) == (n - 1) * PerSecond(powerMw) + PerSecond(powerMw);
    }
  }

  lemma MinuteEnds(stored: Option<int>, l: Life, powerMw: nat, startMs: nat)
    requires InMinute(OpeningOf(Born(stored)), OpeningOf(l), powerMw, startMs, PollsUntil(60_000, startMs))
    ensures l.log.events == [Stamp(l.uptimeMs, Restored(stored) + PollsUntil(60_000, startMs) * PerSecond(powerMw))]
    ensures l.energy.persistedMwh == Restored(stored) && l.energy.stored == stored
  {
  }

  /** The first minute of a commissioned plug is published before anything of it is stored. */
  lemma FirstMinuteIsPublishedNotStored(stored: Option<int>, powerMw: nat, startMs: nat)
    requires startMs < 60_000
    ensures var l := Run(stored, Minute(powerMw, startMs));
            && l.log.events == [Stamp(l.uptimeMs, Restored(stored) + PollsUntil(60_000, startMs) * PerSecond(powerMw))]
            && l.energy.persistedMwh == Restored(stored) && l.energy.stored == stored
  {
    RunIsSound(stored, []);
    MinutePasses(stored, [], Minute(powerMw, startMs), powerMw, startMs, PollsUntil(60_000, startMs));
    MinuteGathers(OpeningOf(Born(stored)), powerMw, startMs, PollsUntil(60_000, startMs));
    MinuteEnds(stored, Run(stored, Minute(powerMw, startMs)), powerMw, startMs);
  }

  lemma CutBoots(stored: Option<int>, events: seq<Event>, dtMs: nat)
    ensures var l, booted := Run(stored, events), Run(stored, events + [PowerCut(dtMs)]);
            && JustBooted(booted) && booted.energy.stored == l.energy.stored
            && booted.energy.totalMwh == booted.energy.persistedMwh == l.energy.persistedMwh
            && booted.log.events == l.log.events
  {
    RunIsSound(stored, events);
    RunExtends(stored, events, PowerCut(dtMs));
    RunIsSound(stored, events + [PowerCut(dtMs)]);
  }

  /** Polls without load publish nothing before the minute is over, and then what there was at boot. */
  ghost predicate IdleEvents(booted: Life, l: Life, over: bool) {
    l.log.events == booted.log.events + if over then [Stamp(l.clockMs, booted.energy.totalMwh)] else []
  }

  lemma IdleGathers(booted: Opening, o: Opening, powerMw: nat, startMs: nat, n: nat)
    requires booted.energy == Booted(booted.energy.stored) && booted.uptimeMs == 0 && startMs < 60_000
    requires o == AfterPolls(booted, powerMw, startMs, n) && n <= PollsUntil(60_000, startMs) && powerMw == 0
    ensures o.events == booted.events
                        + if PollsUntil(60_000, startMs) <= n then [Stamp(o.clockMs, booted.energy.totalMwh)] else []
  {
    MinuteGathers(booted, powerMw, startMs, n);
    assert n * PerSecond(0) == 0;
  }

  lemma IdlePolls(stored: Option<int>, base: seq<Event>, polls: seq<Event>, booted: Life, l: Life, powerMw: nat,
                  startMs: nat, n: nat)
    requires booted == Run(stored, base) && l == Run(stored, base + polls) && JustBooted(booted) && startMs < 60_000
    requires polls <= Minute(powerMw, startMs) && |polls| == n + 1 && powerMw == 0
    ensures IdleEvents(booted, l, PollsUntil(60_000, startMs) <= n)
  {
    MinutePasses(stored, base, base + polls, powerMw, startMs, n);
    IdleGathers(OpeningOf(booted), OpeningOf(l), powerMw, startMs, n);
  }

  lemma IdleLastPoll(stored: Option<int>, base: seq<Event>, later: seq<Event>, u: Event, booted: Life, after: Life,
                     powerMw: nat, startMs: nat)
    requires booted == Run(stored, base) && JustBooted(booted) && startMs < 60_000
    requires after == Step(Run(stored, base + later), u)
    requires later + [u] == Minute(powerMw, startMs) && powerMw == 0
    ensures IdleEvents(booted, after, true)
  {
    RunExtends(stored, base + later, u);
    assert base + later + [u] == base + (later + [u]);
    IdlePolls(stored, base, later + [u], booted, after, powerMw, startMs, |later|);
  }

  /** More was published than is stored. */
  predicate OverPublished(l: Life) {
    l.log.events != [] && l.energy.persistedMwh < LastMwh(0, l.log.events)
  }

  lemma IdleIsLess(before: Life, booted: Life, l: Life, after: Life)
    requires OverPublished(before)
    requires booted.log.events == before.log.events && booted.energy.totalMwh == before.energy.persistedMwh
    requires IdleEvents(booted, l, false) && IdleEvents(booted, after, true)
    ensures WentBack(before, l, after)
  {
  }

  /** A minute without load after a cut publishes what was stored before it. */
  lemma IdleMinuteGoesBack(stored: Option<int>, events: seq<Event>, dtMs: nat, later: seq<Event>, u: Event,
                           powerMw: nat, startMs: nat)
    requires startMs < 60_000 && later + [u] == Minute(powerMw, startMs) && powerMw == 0
    requires OverPublished(Run(stored, events))
    ensures GoesBack(stored, events, dtMs, later, u)
  {
    var base := events + [PowerCut(dtMs)];
    var l := Run(stored, base + later);
    CutBoots(stored, events, dtMs);
    IdlePolls(stored, base, later, Run(stored, base), l, powerMw, startMs, |later| - 1);
    IdleLastPoll(stored, base, later, u, Run(stored, base), Step(l, u), powerMw, startMs);
    IdleIsLess(Run(stored, events), Run(stored, base), l, Step(l, u));
    assert forall i :: 0 <= i < |later| ==> later[i] == Minute(powerMw, startMs)[i];
    assert u == Minute(powerMw, startMs)[|later|];
  }

  /** The published energy is not monotone over the device's life, although the attribute is meant to be. After
      any run, a power cut can make it go back exactly when more was published than is stored; and then a minute
      of idle polls at 1 Hz is enough, whenever they start. */
  lemma PublishedEnergyCanGoBackIff(stored: Option<int>, events: seq<Event>)
    ensures (exists dtMs: nat, later, u :: GoesBack(stored, events, dtMs, later, u))
       <==> OverPublished(Run(stored, events))
    ensures (exists dtMs: nat, later, u :: GoesBack(stored, events, dtMs, later, u)) ==>
              forall dtMs: nat, startMs: nat, later, u | startMs < 60_000 && later + [u] == Minute(0, startMs) ::
                GoesBack(stored, events, dtMs, later, u)
  {
    if dtMs: nat, later, u :| GoesBack(stored, events, dtMs, later, u) {
      GoesBackIff(stored, events, dtMs, later, u);
    }
    if OverPublished(Run(stored, events)) {
      IdleMinutesGoBack(stored, events);
    }
  }

  lemma IdleMinutesGoBack(stored: Option<int>, events: seq<Event>)
    requires OverPublished(Run(stored, events))
    ensures exists dtMs: nat, later, u :: GoesBack(stored, events, dtMs, later, u)
    ensures forall dtMs: nat, startMs: nat, later, u | startMs < 60_000 && later + [u] == Minute(0, startMs) ::
              GoesBack(stored, events, dtMs, later, u)
  {
    forall dtMs: nat, startMs: nat, later, u | startMs < 60_000 && later + [u] == Minute(0, startMs)
      ensures GoesBack(stored, events, dtMs, later, u)
    {
      IdleMinuteGoesBack(stored, events, dtMs, later, u, 0, startMs);
    }
    var polls := Minute(0, 2000);
    assert polls[..|polls| - 1] + [polls[|polls| - 1]] == polls;
    assert GoesBack(stored, events, 0, polls[..|polls| - 1], polls[|polls| - 1]);
  }

  /** A minute at a steady load, a cut, a minute without load, polled at 1 Hz from any time on: two events, and the
      second is less than the first exactly if a second of the load is counted at all, that is from 3'600 mW on. */
  lemma PublishedEnergyGoesBack(stored: Option<int>, powerMw: nat, startMs: nat, dtMs: nat)
    requires startMs < 60_000
    ensures var published := Run(stored, Minute(powerMw, startMs) + [PowerCut(dtMs)] + Minute(0, startMs)).log.events;
            |published| == 2 && (published[1].mwh < published[0].mwh <==> 3600 <= powerMw)
  {
    var minute := Minute(powerMw, startMs);
    var base := minute + [PowerCut(dtMs)];
    var booted := Run(stored, base);
    FirstMinuteIsPublishedNotStored(stored, powerMw, startMs);
    CutBoots(stored, minute, dtMs);
    var after := Run(stored, base + Minute(0, startMs));
    IdlePolls(stored, base, Minute(0, startMs), booted, after, 0, startMs, PollsUntil(60_000, startMs));
    TwoMinutes(Run(stored, minute), after, Restored(stored), powerMw, startMs);
  }

  lemma TwoMinutes(l: Life, after: Life, storedMwh: int, powerMw: nat, startMs: nat)
    requires |l.log.events| == 1 && startMs < 60_000
    requires l.log.events[0].mwh == storedMwh + PollsUntil(60_000, startMs) * PerSecond(powerMw)
    requires after.log.events == l.log.events + [Stamp(after.clockMs, storedMwh)]
    ensures var published := after.log.events;
            |published| == 2 && (published[1].mwh < published[0].mwh <==> 3600 <= powerMw)
  {
    if 3600 <= powerMw {
      MulKeepsOrder(1, PerSecond(powerMw), PollsUntil(60_000, startMs));
    }
  }
}
