/**
 CheckOverPower of src/bl0937.cpp: a debounced over-power trip without a latch.
 The relay may be switched by anyone between two samples.
 */
module OverPower {
  import opened Units

  /** CONFIG_APP_OVERPOWER_THRESHOLD_MW and CONFIG_APP_OVERPOWER_SAMPLES. */
  datatype Config = Config(thresholdMw: int, samples: uint32) {
    /** Zero samples behave as one: the first breach already fires. */
    function Needed(): uint32 {
      Max(1, samples)
    }
  }

  datatype Check = Check(counter: uint32, fired: bool)

  /** One sample: the new debounce counter, and whether it ran out. */
  function CheckSample(cfg: Config, counter: uint32, powerMw: int): Check {
    if powerMw <= cfg.thresholdMw then Check(0, false)
    else
      var bumped := ToUint32(counter + 1);
      if bumped < cfg.samples then Check(bumped, false) else Check(0, true)
  }

  /** The outcome of the last of these samples, starting from a cleared counter. */
  function CheckAfter(cfg: Config, powers: seq<int>): Check {
    if powers == [] then Check(0, false)
    else CheckSample(cfg, CheckAfter(cfg, powers[..|powers| - 1]).counter, powers[|powers| - 1])
  }

  /** How many of the most recent samples were over the threshold without a break. */
  function TrailingRun(cfg: Config, powers: seq<int>): (n: nat)
    ensures n <= |powers|
  {
    if powers == [] then 0
    else if powers[|powers| - 1] > cfg.thresholdMw then TrailingRun(cfg, powers[..|powers| - 1]) + 1
    else 0
  }

  /** Adding d <= m samples to a run either stays inside the current length or wraps once. */
  lemma ModuloShift(n: nat, d: nat, m: nat)
    requires 0 < m && d <= m
    ensures (n + d) % m == if n % m + d < m then n % m + d else n % m + d - m
  {
    var q, r := n / m, n % m;
    assert n == m * q + r;
    if r + d < m {
      QuotientIs(n + d, m, q, r + d);
    } else {
      assert m * (q + 1) == m * q + m;
      QuotientIs(n + d, m, q + 1, r + d - m);
    }
  }

  lemma CheckCountsModulo(cfg: Config, counter: uint32, run: nat, powerMw: int)
    requires counter == run % cfg.Needed()
    ensures var check := CheckSample(cfg, counter, powerMw);
            var longer := if powerMw > cfg.thresholdMw then run + 1 else 0;
            && check.counter == longer % cfg.Needed()
            && (check.fired <==> longer > 0 && longer % cfg.Needed() == 0)
  {
    QuotientIs(0, cfg.Needed(), 0, 0);
    ModuloShift(run, 1, cfg.Needed());
  }

  /** The counter is the run of breaches modulo the configured length, and it fires at each full length. */
  lemma {:induction false} CounterIsRunModulo(cfg: Config, powers: seq<int>)
    ensures CheckAfter(cfg, powers).counter == TrailingRun(cfg, powers) % cfg.Needed()
    ensures CheckAfter(cfg, powers).fired
       <==> TrailingRun(cfg, powers) > 0 && TrailingRun(cfg, powers) % cfg.Needed() == 0
  {
    if powers != [] {
      var before := powers[..|powers| - 1];
      CounterIsRunModulo(cfg, before);
      CheckCountsModulo(cfg, CheckAfter(cfg, before).counter, TrailingRun(cfg, before), powers[|powers| - 1]);
    }
  }

  /** Sample k of the history ran the counter out. */
  predicate FiresAt(cfg: Config, powers: seq<int>, k: nat)
    requires k < |powers|
  {
    CheckAfter(cfg, powers[..k + 1]).fired
  }

  lemma {:induction false} RunGrows(cfg: Config, powers: seq<int>, i: nat, k: nat)
    requires i <= k <= |powers|
    requires forall j :: i <= j < k ==> powers[j] > cfg.thresholdMw
    ensures TrailingRun(cfg, powers[..k]) == TrailingRun(cfg, powers[..i]) + (k - i)
    decreases k - i
  {
    if i < k {
      RunGrows(cfg, powers, i, k - 1);
      assert powers[..k][..k - 1] == powers[..k - 1];
    }
  }

  /** Of the samples that follow a run of breaches, one fires if it completes a full length. */
  lemma FiresWithin(cfg: Config, powers: seq<int>, i: nat, j: nat)
    requires i <= j < |powers| && j + 1 - i <= cfg.Needed()
    requires forall l :: i <= l <= j ==> powers[l] > cfg.thresholdMw
    ensures FiresAt(cfg, powers, j)
       <==> j == i + (cfg.Needed() - 1 - TrailingRun(cfg, powers[..i]) % cfg.Needed())
  {
    RunGrows(cfg, powers, i, j + 1);
    CounterIsRunModulo(cfg, powers[..j + 1]);
    ModuloShift(TrailingRun(cfg, powers[..i]), j + 1 - i, cfg.Needed());
  }

  /** Any full length of consecutive breaches contains exactly one sample that fires. */
  lemma ExactlyOneFires(cfg: Config, powers: seq<int>, i: nat) returns (k: nat)
    requires i + cfg.Needed() <= |powers|
    requires forall j :: i <= j < i + cfg.Needed() ==> powers[j] > cfg.thresholdMw
    ensures i <= k < i + cfg.Needed() && FiresAt(cfg, powers, k)
    ensures forall j :: i <= j < i + cfg.Needed() && FiresAt(cfg, powers, j) ==> j == k
  {
    var n, r := cfg.Needed(), TrailingRun(cfg, powers[..i]) % cfg.Needed();
    assert 0 <= r < n;
    k := i + (n - 1 - r);
    forall j | i <= j < i + n
      ensures FiresAt(cfg, powers, j) <==> j == k
    {
      FiresWithin(cfg, powers, i, j);
    }
  }

  /** Samples at or below the threshold never count, however many. */
  lemma {:induction false} QuietSamplesDoNotCount(cfg: Config, powers: seq<int>)
    requires forall p <- powers :: p <= cfg.thresholdMw
    ensures CheckAfter(cfg, powers) == Check(0, false)
  {
    if powers != [] {
      var before := powers[..|powers| - 1];
      assert forall i :: 0 <= i < |before| ==> before[i] in powers;
      assert powers[|powers| - 1] in powers;
      QuietSamplesDoNotCount(cfg, before);
    }
  }

  /** A sample above the threshold lengthens the run of breaches by one, any other ends it. */
  lemma BreachLengthensRun(cfg: Config, powers: seq<int>, powerMw: int)
    ensures TrailingRun(cfg, powers + [powerMw])
         == if powerMw > cfg.thresholdMw then TrailingRun(cfg, powers) + 1 else 0
  {
    assert (powers + [powerMw])[..|powers|] == powers;
  }

  /** Of any configured number of consecutive samples above the threshold exactly one fires, and with a number of
      zero or one each does; a sample that is not above it never fires. */
  lemma SustainedBreachFiresOnce(cfg: Config, powers: seq<int>, i: nat) returns (k: nat)
    requires var n := if cfg.samples == 0 then 1 else cfg.samples;
             i + n <= |powers| && forall j :: i <= j < i + n ==> powers[j] > cfg.thresholdMw
    ensures var n := if cfg.samples == 0 then 1 else cfg.samples;
            && i <= k < i + n && FiresAt(cfg, powers, k)
            && forall j :: i <= j < i + n && FiresAt(cfg, powers, j) ==> j == k
    ensures forall j: nat :: j < |powers| && powers[j] <= cfg.thresholdMw ==> !FiresAt(cfg, powers, j)
  {
    k := ExactlyOneFires(cfg, powers, i);
  }

  /** What the relay sees: samples, and switching by the button or a controller in between. */
  datatype Event = Sampled(powerMw: int) | Switched(on: bool)

  datatype Guard = Guard(counter: uint32, relayOn: bool, trips: nat)

  function Step(cfg: Config, g: Guard, e: Event): Guard {
    match e
    case Switched(on) => g.(relayOn := on)
    case Sampled(powerMw) =>
      var check := CheckSample(cfg, g.counter, powerMw);
      if check.fired && g.relayOn then Guard(check.counter, false, g.trips + 1)
      else g.(counter := check.counter)
  }

  function Run(cfg: Config, events: seq<Event>): Guard {
    if events == [] then Guard(0, false, 0)
    else Step(cfg, Run(cfg, events[..|events| - 1]), events[|events| - 1])
  }

  function Powers(events: seq<Event>): seq<int> {
    if events == [] then []
    else
      var before := Powers(events[..|events| - 1]);
      match events[|events| - 1]
      case Sampled(powerMw) => before + [powerMw]
      case Switched(_) => before
  }

  /** However the relay is switched in between, the counter depends on the samples alone. */
  lemma {:induction false} SwitchingDoesNotDisturbTheCounter(cfg: Config, events: seq<Event>)
    ensures Run(cfg, events).counter == CheckAfter(cfg, Powers(events)).counter
  {
    if events != [] {
      SwitchingDoesNotDisturbTheCounter(cfg, events[..|events| - 1]);
      if events[|events| - 1].Sampled? {
        assert Powers(events)[..|Powers(events)| - 1] == Powers(events[..|events| - 1]);
      }
    }
  }

  /** A sample trips the relay exactly when the run of breaches has reached a multiple of the
      configured length and the relay was on; after such a sample the relay is off either way. */
  lemma {:induction false} TripsExactlyAtFullRuns(cfg: Config, events: seq<Event>, powerMw: int)
    ensures var before := Run(cfg, events);
            var after := Run(cfg, events + [Sampled(powerMw)]);
            var run := TrailingRun(cfg, Powers(events) + [powerMw]);
            var full := run > 0 && run % cfg.Needed() == 0;
            && (after.trips == before.trips + 1 <==> full && before.relayOn)
            && (after.trips == before.trips <==> !(full && before.relayOn))
            && (full ==> !after.relayOn)
            && (!full ==> after.relayOn == before.relayOn)
  {
    var extended := events + [Sampled(powerMw)];
    assert extended[..|extended| - 1] == events;
    var powers := Powers(events) + [powerMw];
    assert powers[..|powers| - 1] == Powers(events);
    SwitchingDoesNotDisturbTheCounter(cfg, events);
    CounterIsRunModulo(cfg, powers);
  }

  /** The samples still missing for a trip. */
  function Remaining(cfg: Config, g: Guard): int {
    cfg.Needed() - g.counter
  }

  /** The samples still missing number at least one and never more than the configured length. */
  lemma RemainingIsInRange(cfg: Config, events: seq<Event>)
    ensures 1 <= Remaining(cfg, Run(cfg, events)) <= cfg.Needed()
  {
    SwitchingDoesNotDisturbTheCounter(cfg, events);
    CounterIsRunModulo(cfg, Powers(events));
  }

  /** Having closed the relay, an unbroken overload keeps it closed for exactly the remaining samples. */
  predicate OverloadOutcome(cfg: Config, before: Guard, n: nat, after: Guard) {
    && (after.relayOn <==> n < Remaining(cfg, before))
    && after.trips == before.trips + (if after.relayOn then 0 else 1)
    && (after.relayOn ==> after.counter == before.counter + n)
  }

  lemma OverloadStep(cfg: Config, before: Guard, n: nat, after: Guard, powerMw: int)
    requires powerMw > cfg.thresholdMw && n < Remaining(cfg, before)
    requires OverloadOutcome(cfg, before, n, after)
    ensures OverloadOutcome(cfg, before, n + 1, Step(cfg, after, Sampled(powerMw)))
  {
  }

  /** After a manual re-enable the relay opens again when the missing samples have been seen: within the
      configured length, sooner when breaches were already being counted, and never before. */
  lemma {:induction false} ReenableTripsAgain(cfg: Config, events: seq<Event>, overload: seq<int>)
    requires forall p <- overload :: p > cfg.thresholdMw
    requires |overload| <= Remaining(cfg, Run(cfg, events))
    ensures OverloadOutcome(cfg, Run(cfg, events), |overload|,
                            Run(cfg, events + [Switched(true)] + Sampling(overload)))
  {
    RemainingIsInRange(cfg, events);
    var reenabled := events + [Switched(true)];
    if overload == [] {
      assert reenabled[..|reenabled| - 1] == events;
      assert reenabled + Sampling(overload) == reenabled;
    } else {
      var shorter, last := overload[..|overload| - 1], overload[|overload| - 1];
      assert forall j :: 0 <= j < |overload| ==> overload[j] in overload;
      ReenableTripsAgain(cfg, events, shorter);
      var all := reenabled + Sampling(overload);
      assert all[..|all| - 1] == reenabled + Sampling(shorter);
      OverloadStep(cfg, Run(cfg, events), |shorter|, Run(cfg, reenabled + Sampling(shorter)), last);
    }
  }

  function Sampling(powers: seq<int>): (events: seq<Event>)
    ensures |events| == |powers|
    ensures forall i :: 0 <= i < |powers| ==> events[i] == Sampled(powers[i])
  {
    seq(|powers|, i requires 0 <= i < |powers| => Sampled(powers[i]))
  }
}
