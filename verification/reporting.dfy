/**
 Deadband reporting of src/power_measurement.cpp over whole sequences of readings, and its
 composition with the meter's scaling.
 */
module ReportingRuns {
  import opened Shared
  import opened Units
  import opened PowerMeasurement
  import opened Meter
  import MeterTheorems

  /* ---- One attribute, arbitrary values ---- */

  datatype Channel = Channel(haveReported: bool, reported: int, reports: nat)

  /** The reporting state of one attribute after these values. */
  function Feed(deadband: int, values: seq<int>): Channel {
    if values == [] then Channel(false, 0, 0)
    else
      FeedOne(deadband, Feed(deadband, values[..|values| - 1]), values[|values| - 1])
  }

  function FeedOne(deadband: int, c: Channel, value: int): Channel {
    var report := ReportIfMoved(c.haveReported, c.reported, value, deadband);
    Channel(true, report.reported, c.reports + if report.marked then 1 else 0)
  }

  /** Sum of the distances between neighbouring values. */
  function TotalVariation(values: seq<int>): nat {
    if |values| < 2 then 0
    else TotalVariation(values[..|values| - 1]) + Abs(values[|values| - 1] - values[|values| - 2])
  }

  /** The last reported value stays within the deadband of the live one, and every report after the first is
      paid for by a deadband's worth of movement. */
  lemma {:induction false} DeadbandTraffic(deadband: int, values: seq<int>)
    requires 0 < deadband && values != []
    ensures var c := Feed(deadband, values);
            && c.haveReported && 1 <= c.reports
            && Abs(values[|values| - 1] - c.reported) < deadband
            && (c.reports - 1) * deadband + Abs(values[|values| - 1] - c.reported) <= TotalVariation(values)
  {
    if |values| > 1 {
      var before := values[..|values| - 1];
      DeadbandTraffic(deadband, before);
      PaidFor(deadband, Feed(deadband, before), before[|before| - 1], values[|values| - 1], TotalVariation(before));
    } else {
      assert values[..0] == [];
    }
  }

  lemma PaidFor(deadband: int, c: Channel, live: int, value: int, variation: nat)
    requires 0 < deadband && c.haveReported && 1 <= c.reports
    requires (c.reports - 1) * deadband + Abs(live - c.reported) <= variation
    ensures var report := ReportIfMoved(true, c.reported, value, deadband);
            var reports := c.reports + if report.marked then 1 else 0;
            (reports - 1) * deadband + Abs(value - report.reported) <= variation + Abs(value - live)
  {
    assert c.reports * deadband == (c.reports - 1) * deadband + deadband;
  }

  /* ---- The three attributes together ---- */

  datatype Outbox = Outbox(state: Reporting, sent: seq<Notification>)

  function FeedAll(values: seq<Readings>): Outbox {
    if values == [] then Outbox(Reporting(false, Readings(0, 0, 0)), [])
    else
      ReportAll(FeedAll(values[..|values| - 1]), values[|values| - 1])
  }

  function ReportAll(out: Outbox, value: Readings): Outbox {
    Outbox(UpdateReporting(out.state, value), out.sent + ReportsSent(out.state, value))
  }

  function Value(r: Readings, a: Attribute): int
    requires a != CumulativeEnergyImported
  {
    match a
    case ActivePower => r.powerMw
    case RmsVoltage => r.voltageMv
    case RmsCurrent => r.currentMa
  }

  function Values(readings: seq<Readings>, a: Attribute): (v: seq<int>)
    requires a != CumulativeEnergyImported
  {
    seq(|readings|, i requires 0 <= i < |readings| => Value(readings[i], a))
  }

  function Deadband(a: Attribute): int
    requires a != CumulativeEnergyImported
  {
    match a
    case ActivePower => ACTIVE_POWER_DEADBAND_MW
    case RmsVoltage => RMS_VOLTAGE_DEADBAND_MV
    case RmsCurrent => RMS_CURRENT_DEADBAND_MA
  }

  /** How often the attribute is marked dirty. */
  function Marked(sent: seq<Notification>, a: Attribute): nat {
    if sent == [] then 0
    else Marked(sent[..|sent| - 1], a) + if sent[|sent| - 1] == Dirty(a) then 1 else 0
  }

  lemma {:induction false} MarkedAdds(s: seq<Notification>, t: seq<Notification>, a: Attribute)
    ensures Marked(s + t, a) == Marked(s, a) + Marked(t, a)
  {
    if t == [] {
      assert s + t == s;
    } else {
      assert (s + t)[..|s + t| - 1] == s + t[..|t| - 1];
      MarkedAdds(s, t[..|t| - 1], a);
    }
  }

  lemma MarkedInMarks(marked: bool, b: Attribute, a: Attribute)
    ensures Marked(Marks(marked, b), a) == if marked && a == b then 1 else 0
  {
    if marked {
      assert Marks(marked, b)[..0] == [];
    }
  }

  function ReportOf(r: Reporting, value: Readings, a: Attribute): Report
    requires a != CumulativeEnergyImported
  {
    ReportIfMoved(r.haveReported, Value(r.reported, a), Value(value, a), Deadband(a))
  }

  /** One update treats each attribute as if it were alone. */
  lemma UpdateIsPerAttribute(r: Reporting, value: Readings, a: Attribute)
    requires a != CumulativeEnergyImported
    ensures Value(UpdateReporting(r, value).reported, a) == ReportOf(r, value, a).reported
    ensures Marked(ReportsSent(r, value), a) == if ReportOf(r, value, a).marked then 1 else 0
  {
    var p, v := ReportOf(r, value, ActivePower).marked, ReportOf(r, value, RmsVoltage).marked;
    var c := ReportOf(r, value, RmsCurrent).marked;
    assert ReportsSent(r, value) == Marks(p, ActivePower) + Marks(v, RmsVoltage) + Marks(c, RmsCurrent);
    MarkedAdds(Marks(p, ActivePower) + Marks(v, RmsVoltage), Marks(c, RmsCurrent), a);
    MarkedAdds(Marks(p, ActivePower), Marks(v, RmsVoltage), a);
    MarkedInMarks(p, ActivePower, a);
    MarkedInMarks(v, RmsVoltage, a);
    MarkedInMarks(c, RmsCurrent, a);
  }

  ghost predicate Follows(out: Outbox, c: Channel, a: Attribute)
    requires a != CumulativeEnergyImported
  {
    && out.state.haveReported == c.haveReported
    && Value(out.state.reported, a) == c.reported
    && Marked(out.sent, a) == c.reports
  }

  lemma UpdateFollows(out: Outbox, c: Channel, value: Readings, a: Attribute)
    requires a != CumulativeEnergyImported && Follows(out, c, a)
    ensures Follows(ReportAll(out, value), FeedOne(Deadband(a), c, Value(value, a)), a)
  {
    UpdateIsPerAttribute(out.state, value, a);
    MarkedAdds(out.sent, ReportsSent(out.state, value), a);
  }

  /** The shared have-reported flag does not couple the attributes: each behaves as if it were alone. */
  lemma {:induction false} AttributesAreIndependent(readings: seq<Readings>, a: Attribute)
    requires a != CumulativeEnergyImported
    ensures Follows(FeedAll(readings), Feed(Deadband(a), Values(readings, a)), a)
  {
    if readings != [] {
      var before, last := readings[..|readings| - 1], readings[|readings| - 1];
      AttributesAreIndependent(before, a);
      UpdateFollows(FeedAll(before), Feed(Deadband(a), Values(before, a)), last, a);
      FeedGoesOn(readings, a);
    }
  }

  lemma FeedGoesOn(readings: seq<Readings>, a: Attribute)
    requires a != CumulativeEnergyImported && readings != []
    ensures Feed(Deadband(a), Values(readings, a))
         == FeedOne(Deadband(a), Feed(Deadband(a), Values(readings[..|readings| - 1], a)),
                    Value(readings[|readings| - 1], a))
  {
    assert Values(readings, a)[..|readings| - 1] == Values(readings[..|readings| - 1], a);
  }

  ghost predicate Bounded(c: Channel, deadband: int, live: int, variation: nat) {
    Abs(live - c.reported) < deadband && (c.reports - 1) * deadband <= variation
  }

  lemma FeedIsBounded(deadband: int, values: seq<int>)
    requires 0 < deadband && values != []
    ensures Bounded(Feed(deadband, values), deadband, values[|values| - 1], TotalVariation(values))
  {
    DeadbandTraffic(deadband, values);
  }

  /** The last reported value is within the deadband of the live one, and the marks after the first are paid for
      by that much variation. */
  ghost predicate StaysClose(out: Outbox, a: Attribute, live: int, variation: nat)
    requires a != CumulativeEnergyImported
  {
    && Abs(live - Value(out.state.reported, a)) < Deadband(a)
    && (Marked(out.sent, a) - 1) * Deadband(a) <= variation
  }

  lemma BoundsCarryOver(out: Outbox, c: Channel, a: Attribute, live: int, variation: nat)
    requires a != CumulativeEnergyImported && Follows(out, c, a) && Bounded(c, Deadband(a), live, variation)
    ensures StaysClose(out, a, live, variation)
  {
  }

  /** For every attribute: bounded distance from the live reading, bounded traffic. */
  lemma ReportingIsBounded(readings: seq<Readings>, a: Attribute)
    requires readings != [] && a != CumulativeEnergyImported
    ensures StaysClose(FeedAll(readings), a, Value(readings[|readings| - 1], a), TotalVariation(Values(readings, a)))
  {
    var values := Values(readings, a);
    AttributesAreIndependent(readings, a);
    FeedIsBounded(Deadband(a), values);
    BoundsCarryOver(FeedAll(readings), Feed(Deadband(a), values), a, Value(readings[|readings| - 1], a),
                    TotalVariation(values));
  }

  /* ---- The deadbands and the composition with the meter ---- */

  /** After the first report an update marks power, voltage and current exactly if they moved by at least 50 mW,
      100 mV and 3 mA from what was last reported; the first marks all. */
  lemma MarkedIffMoved(r: Reporting, value: Readings)
    ensures Marked(ReportsSent(r, value), ActivePower)
         == if !r.haveReported || Abs(value.powerMw - r.reported.powerMw) >= 50 then 1 else 0
    ensures Marked(ReportsSent(r, value), RmsVoltage)
         == if !r.haveReported || Abs(value.voltageMv - r.reported.voltageMv) >= 100 then 1 else 0
    ensures Marked(ReportsSent(r, value), RmsCurrent)
         == if !r.haveReported || Abs(value.currentMa - r.reported.currentMa) >= 3 then 1 else 0
  {
    UpdateIsPerAttribute(r, value, ActivePower);
    UpdateIsPerAttribute(r, value, RmsVoltage);
    UpdateIsPerAttribute(r, value, RmsCurrent);
  }

  /** Readings that are three scaled counts, as the meter produces them. */
  ghost predicate Scaled(r: Readings) {
    && (exists p: uint32 :: r.powerMw == ScalePower(p))
    && (exists v: uint32 :: r.voltageMv == ScaleVoltage(v))
    && (exists c: uint32 :: r.currentMa == ScaleCurrent(c))
  }

  /** One count is worth more than the deadband, in every quantity. */
  lemma CountsOutweighDeadbands(a: uint32, b: uint32)
    requires a < b
    ensures ScalePower(b) - ScalePower(a) >= 1290 > ACTIVE_POWER_DEADBAND_MW
    ensures ScaleVoltage(b) - ScaleVoltage(a) >= 123 > RMS_VOLTAGE_DEADBAND_MV
    ensures ScaleCurrent(b) - ScaleCurrent(a) >= 10 > RMS_CURRENT_DEADBAND_MA
  {
    assert b * 1_000_000 >= a * 1_000_000 + 1_000_000;
  }

  lemma ScaledValuesAreEqualOrFar(r: Readings, s: Readings, a: Attribute)
    requires Scaled(r) && Scaled(s) && a != CumulativeEnergyImported
    ensures Value(r, a) == Value(s, a) || Abs(Value(r, a) - Value(s, a)) > Deadband(a)
  {
    match a
    case ActivePower =>
      var p: uint32, q: uint32 :| r.powerMw == ScalePower(p) && s.powerMw == ScalePower(q);
      if p < q { CountsOutweighDeadbands(p, q); } else if q < p { CountsOutweighDeadbands(q, p); }
    case RmsVoltage =>
      var p: uint32, q: uint32 :| r.voltageMv == ScaleVoltage(p) && s.voltageMv == ScaleVoltage(q);
      if p < q { CountsOutweighDeadbands(p, q); } else if q < p { CountsOutweighDeadbands(q, p); }
    case RmsCurrent =>
      var p: uint32, q: uint32 :| r.currentMa == ScaleCurrent(p) && s.currentMa == ScaleCurrent(q);
      if p < q { CountsOutweighDeadbands(p, q); } else if q < p { CountsOutweighDeadbands(q, p); }
  }

  /** Fed with scaled readings, an update reports exactly the live readings and marks exactly what changed. */
  predicate Tracks(r: Reporting, value: Readings) {
    && UpdateReporting(r, value).reported == value
    && forall a: Attribute | a != CumulativeEnergyImported ::
         Marked(ReportsSent(r, value), a) == if r.haveReported && Value(r.reported, a) == Value(value, a) then 0 else 1
  }

  lemma ScaledReadingsAreTracked(r: Reporting, value: Readings)
    requires Scaled(value) && (r.haveReported ==> Scaled(r.reported))
    ensures Tracks(r, value)
  {
    forall a: Attribute | a != CumulativeEnergyImported
      ensures Value(UpdateReporting(r, value).reported, a) == Value(value, a)
      ensures Marked(ReportsSent(r, value), a) == if r.haveReported && Value(r.reported, a) == Value(value, a)
          then 0 else 1
    {
      UpdateIsPerAttribute(r, value, a);
      if r.haveReported {
        ScaledValuesAreEqualOrFar(r.reported, value, a);
      }
    }
    var reported := UpdateReporting(r, value).reported;
    assert Value(reported, ActivePower) == Value(value, ActivePower);
    assert Value(reported, RmsVoltage) == Value(value, RmsVoltage);
    assert Value(reported, RmsCurrent) == Value(value, RmsCurrent);
  }

  lemma MeterReadingsAreScaled(samples: seq<Sample>)
    ensures Scaled(MeterTheorems.ReadingsOf(samples))
  {
    var k := |samples|;
    assert ScalePower(0) == 0 && ScaleVoltage(0) == 0 && ScaleCurrent(0) == 0;
    var r := MeterTheorems.ReadingsOf(samples);
    assert r.powerMw == ScalePower(if k < 3 then 0 else MeterTheorems.CfMedian(samples, k / 3 - 1));
    assert r.voltageMv == ScaleVoltage(if k < 3 then 0
        else MeterTheorems.Cf1Median(samples, MeterTheorems.VoltageWindow(k)));
    assert r.currentMa == ScaleCurrent(if k < 6 then 0
        else MeterTheorems.Cf1Median(samples, MeterTheorems.CurrentWindow(k)));
  }

  /** What the meter hands on is never negative, and so small that the energy arithmetic cannot overflow. */
  lemma MeterReadingsAreInRange(samples: seq<Sample>)
    ensures var r := MeterTheorems.ReadingsOf(samples);
            && 0 <= r.powerMw <= 5_541_893_284_025 && 0 <= r.voltageMv && 0 <= r.currentMa
            && FitsInt64(r.powerMw) && FitsInt64(r.voltageMv) && FitsInt64(r.currentMa)
  {
    MeterReadingsAreScaled(samples);
    var r := MeterTheorems.ReadingsOf(samples);
    var p: uint32, v: uint32, c: uint32 :|
      r.powerMw == ScalePower(p) && r.voltageMv == ScaleVoltage(v) && r.currentMa == ScaleCurrent(c);
    MeterTheorems.ScalingFits(p);
    MeterTheorems.ScalingFits(v);
    MeterTheorems.ScalingFits(c);
  }

  /** Readings published by a meter run, as seen by the clusters: after every publication the last reported
      values are the live readings exactly, and from the second one on an attribute is marked dirty exactly
      when its reading changed. */
  lemma {:induction false} ReportsEqualReadings(published: seq<Readings>)
    requires forall r <- published :: Scaled(r)
    ensures published != [] ==>
              && FeedAll(published).state == Reporting(true, published[|published| - 1])
              && Tracks(FeedAll(published[..|published| - 1]).state, published[|published| - 1])
  {
    if published != [] {
      var before := published[..|published| - 1];
      assert forall i :: 0 <= i < |before| ==> before[i] in published;
      ReportsEqualReadings(before);
      assert published[|published| - 1] in published;
      if before != [] {
        assert before[|before| - 1] in published;
      }
      ScaledReadingsAreTracked(FeedAll(before).state, published[|published| - 1]);
    }
  }

  /** End to end: for every run of pulses and polls, the cache of reported values is the live readings. */
  lemma EndToEnd(events: seq<Event>)
    ensures var published, samples := Run(events).log.published, Run(events).log.samples;
            published != [] ==>
              && |published| <= |samples|
              && published[|published| - 1] == MeterTheorems.ReadingsOf(samples[..|published|])
              && FeedAll(published).state == Reporting(true, published[|published| - 1])
              && Tracks(FeedAll(published[..|published| - 1]).state, published[|published| - 1])
  {
    MeterTheorems.RunPublishesPrefixes(events);
    var w := Run(events);
    forall r | r in w.log.published
      ensures Scaled(r)
    {
      var j :| 0 <= j < |w.log.published| && w.log.published[j] == r;
      MeterReadingsAreScaled(w.log.samples[..j + 1]);
    }
    ReportsEqualReadings(w.log.published);
  }

  /* ---- Everything a boot tells the Matter stack ---- */

  /** One call of PowerMeasurementUpdate with what it takes from its environment. */
  datatype Call = Call(value: Readings, nowMs: int, putOk: bool, fabricCount: nat)

  /** The statics, and all notifications since boot. */
  datatype Boot = Boot(state: Reporting, energy: Energy, sent: seq<Notification>)

  function UpdateSent(b: Boot, c: Call): seq<Notification> {
    ReportsSent(b.state, c.value) + EnergySent(b.energy, c.value.powerMw, c.nowMs, c.fabricCount)
  }

  function Update(b: Boot, c: Call): Boot {
    Boot(UpdateReporting(b.state, c.value),
         UpdateEnergy(b.energy, c.value.powerMw, c.nowMs, c.putOk, c.fabricCount),
         b.sent + UpdateSent(b, c))
  }

  function Updates(stored: Option<int>, calls: seq<Call>): Boot {
    if calls == [] then Boot(Reporting(false, Readings(0, 0, 0)), Booted(stored), [])
    else Update(Updates(stored, calls[..|calls| - 1]), calls[|calls| - 1])
  }

  function EnergyEvents(sent: seq<Notification>): nat {
    if sent == [] then 0
    else EnergyEvents(sent[..|sent| - 1]) + if sent[|sent| - 1].EnergyEvent? then 1 else 0
  }

  lemma {:induction false} EnergyEventsAdd(s: seq<Notification>, t: seq<Notification>)
    ensures EnergyEvents(s + t) == EnergyEvents(s) + EnergyEvents(t)
  {
    if t == [] {
      assert s + t == s;
    } else {
      assert (s + t)[..|s + t| - 1] == s + t[..|t| - 1];
      EnergyEventsAdd(s, t[..|t| - 1]);
    }
  }

  /** Each energy event is directly followed by a dirty mark of the energy attribute, and there is no other. */
  ghost predicate EventsAreMarked(sent: seq<Notification>) {
    && (forall i :: 0 <= i < |sent| && sent[i].EnergyEvent? ==>
          i + 1 < |sent| && sent[i + 1] == Dirty(CumulativeEnergyImported))
    && (forall i :: 0 <= i < |sent| && sent[i] == Dirty(CumulativeEnergyImported) ==>
          0 < i && sent[i - 1].EnergyEvent?)
    && Marked(sent, CumulativeEnergyImported) == EnergyEvents(sent)
  }

  lemma EventsStayMarked(s: seq<Notification>, t: seq<Notification>)
    requires EventsAreMarked(s) && EventsAreMarked(t)
    ensures EventsAreMarked(s + t)
  {
    MarkedAdds(s, t, CumulativeEnergyImported);
    EnergyEventsAdd(s, t);
  }

  /** The readings' own notifications are dirty marks of their attributes. */
  lemma ReportsLeaveEnergyAlone(r: Reporting, value: Readings)
    ensures EventsAreMarked(ReportsSent(r, value)) && EnergyEvents(ReportsSent(r, value)) == 0
  {
    MarksLeaveEnergyAlone(ReportOf(r, value, ActivePower).marked, ActivePower);
    MarksLeaveEnergyAlone(ReportOf(r, value, RmsVoltage).marked, RmsVoltage);
    MarksLeaveEnergyAlone(ReportOf(r, value, RmsCurrent).marked, RmsCurrent);
    var p := Marks(ReportOf(r, value, ActivePower).marked, ActivePower);
    var v := Marks(ReportOf(r, value, RmsVoltage).marked, RmsVoltage);
    var c := Marks(ReportOf(r, value, RmsCurrent).marked, RmsCurrent);
    assert ReportsSent(r, value) == p + v + c;
    EventsStayMarked(p, v);
    EventsStayMarked(p + v, c);
    EnergyEventsAdd(p, v);
    EnergyEventsAdd(p + v, c);
  }

  lemma MarksLeaveEnergyAlone(marked: bool, a: Attribute)
    requires a != CumulativeEnergyImported
    ensures EventsAreMarked(Marks(marked, a)) && EnergyEvents(Marks(marked, a)) == 0
  {
    MarkedInMarks(marked, a, CumulativeEnergyImported);
    if marked {
      assert Marks(marked, a)[..0] == [];
    }
  }

  /** An update with a previous sample that finds a fabric and 60 s since the last event sends one event and one
      mark, and any other none; neither is a mark of a reading. */
  lemma EnergyIsSentWithItsMark(e: Energy, powerMw: int, nowMs: int, fabricCount: nat)
    ensures var sent := EnergySent(e, powerMw, nowMs, fabricCount);
            && EventsAreMarked(sent)
            && EnergyEvents(sent)
               == (if e.haveLastSample && fabricCount > 0 && nowMs - e.lastReportMs >= 60_000 then 1 else 0)
            && forall a :: a != CumulativeEnergyImported ==> Marked(sent, a) == 0
  {
    var sent := EnergySent(e, powerMw, nowMs, fabricCount);
    if sent != [] {
      assert sent == [sent[0]] + [sent[1]];
      EnergyEventsAdd([sent[0]], [sent[1]]);
      SingleCounts(sent[0], CumulativeEnergyImported);
      SingleCounts(sent[1], CumulativeEnergyImported);
      MarkedAdds([sent[0]], [sent[1]], CumulativeEnergyImported);
      forall a: Attribute | a != CumulativeEnergyImported ensures Marked(sent, a) == 0 {
        SingleCounts(sent[0], a);
        SingleCounts(sent[1], a);
        MarkedAdds([sent[0]], [sent[1]], a);
      }
    }
  }

  lemma SingleCounts(n: Notification, a: Attribute)
    ensures EnergyEvents([n]) == if n.EnergyEvent? then 1 else 0
    ensures Marked([n], a) == if n == Dirty(a) then 1 else 0
  {
    assert [n][..0] == [];
  }

  /** In everything a boot sends, events and marks of the energy go together, at most one of each per update. */
  lemma {:induction false} EnergyMarksFollowEvents(stored: Option<int>, calls: seq<Call>)
    ensures EventsAreMarked(Updates(stored, calls).sent)
    ensures EnergyEvents(Updates(stored, calls).sent) <= |calls|
  {
    if calls != [] {
      var b, c := Updates(stored, calls[..|calls| - 1]), calls[|calls| - 1];
      EnergyMarksFollowEvents(stored, calls[..|calls| - 1]);
      UpdateSendsInPairs(b, c);
      EventsStayMarked(b.sent, UpdateSent(b, c));
      EnergyEventsAdd(b.sent, UpdateSent(b, c));
    }
  }

  /** The reporting state, and for every reading as many marks. */
  ghost predicate ReportsLike(b: Boot, out: Outbox) {
    && b.state == out.state
    && forall a :: a != CumulativeEnergyImported ==> Marked(b.sent, a) == Marked(out.sent, a)
  }

  /** The energy's notifications do not disturb those of the readings: what a boot sends of them is what the
      reporting theorems speak of. */
  lemma {:induction false} ReportsAreUndisturbed(stored: Option<int>, calls: seq<Call>)
    ensures ReportsLike(Updates(stored, calls), FeedAll(Fed(calls)))
  {
    if calls != [] {
      var before, c := calls[..|calls| - 1], calls[|calls| - 1];
      ReportsAreUndisturbed(stored, before);
      UpdateReportsLike(Updates(stored, before), FeedAll(Fed(before)), c);
      FeedingGoesOn(calls);
    }
  }

  lemma FeedingGoesOn(calls: seq<Call>)
    requires calls != []
    ensures FeedAll(Fed(calls)) == ReportAll(FeedAll(Fed(calls[..|calls| - 1])), calls[|calls| - 1].value)
  {
    assert Fed(calls)[..|calls| - 1] == Fed(calls[..|calls| - 1]);
  }

  lemma UpdateReportsLike(b: Boot, out: Outbox, c: Call)
    requires ReportsLike(b, out)
    ensures ReportsLike(Update(b, c), ReportAll(out, c.value))
  {
    forall a: Attribute | a != CumulativeEnergyImported
      ensures Marked(Update(b, c).sent, a) == Marked(ReportAll(out, c.value).sent, a)
    {
      MarksGoOn(b, out, c, a);
    }
  }

  lemma MarksGoOn(b: Boot, out: Outbox, c: Call, a: Attribute)
    requires a != CumulativeEnergyImported && b.state == out.state && Marked(b.sent, a) == Marked(out.sent, a)
    ensures Marked(b.sent + UpdateSent(b, c), a) == Marked(out.sent + ReportsSent(out.state, c.value), a)
  {
    UpdateSendsInPairs(b, c);
    MarkedAdds(b.sent, UpdateSent(b, c), a);
    MarkedAdds(out.sent, ReportsSent(out.state, c.value), a);
  }

  function Fed(calls: seq<Call>): (values: seq<Readings>)
    ensures |values| == |calls|
  {
    seq(|calls|, i requires 0 <= i < |calls| => calls[i].value)
  }

  lemma UpdateSendsInPairs(b: Boot, c: Call)
    ensures EventsAreMarked(UpdateSent(b, c)) && EnergyEvents(UpdateSent(b, c)) <= 1
    ensures forall a :: a != CumulativeEnergyImported ==>
              Marked(UpdateSent(b, c), a) == Marked(ReportsSent(b.state, c.value), a)
  {
    ReportsLeaveEnergyAlone(b.state, c.value);
    EnergyIsSentWithItsMark(b.energy, c.value.powerMw, c.nowMs, c.fabricCount);
    PairsJoin(ReportsSent(b.state, c.value), EnergySent(b.energy, c.value.powerMw, c.nowMs, c.fabricCount));
  }

  lemma PairsJoin(reports: seq<Notification>, energy: seq<Notification>)
    requires EventsAreMarked(reports) && EnergyEvents(reports) == 0
    requires EventsAreMarked(energy) && EnergyEvents(energy) <= 1
    requires forall a :: a != CumulativeEnergyImported ==> Marked(energy, a) == 0
    ensures EventsAreMarked(reports + energy) && EnergyEvents(reports + energy) <= 1
    ensures forall a :: a != CumulativeEnergyImported ==> Marked(reports + energy, a) == Marked(reports, a)
  {
    EventsStayMarked(reports, energy);
    EnergyEventsAdd(reports, energy);
    forall a: Attribute | a != CumulativeEnergyImported ensures Marked(reports + energy, a) == Marked(reports, a) {
      MarkedAdds(reports, energy, a);
    }
  }
}
