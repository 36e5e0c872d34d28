# Metering, energy and relay model of the Matter smart plug firmware

This project models the hand-written part of the plug firmware in Dafny and proves properties of it over whole
runs. `dafny verify dfyconfig.toml` checks everything.

Three components cooperate on the plug, and each is modelled twice: as a value step system over which the
theorems range, and as a class with the source's statics whose methods follow the source's code and are proved
to take exactly the steps of that system.

* **Metering** (`meter.dfy`, `meter_theorems.dfy`, `median_filter.dfy`, `over_power.dfy`, `bl0937.dfy`). Pulse
  interrupts may land between any two actions of a poll that they can observe: the CF swap, the CF1 swap and the
  SEL pin write. Every CF1 pulse is tagged with the level of SEL at its arrival. `Bl0937.MeterPoll` calls
  `Interrupts` (any number of pulses) at each of these points, and its `trace` is a run of the step system.
* **Energy and reporting** (`power_measurement.dfy`, `energy_life.dfy`, `reporting.dfy`). A life is any sequence of
  updates and power cuts. A cut zeroes the statics and the uptime; the key-value store survives. An observer
  integrates the same power samples independently, and keeps a clock that sums the uptime of all boots.
* **Relay, OnOff attribute and LEDs** (`relay.dfy`, `onoff_bridge.dfy`, `app_task.dfy`, `status_led.dfy`). The app
  task and the Matter thread interleave at every call; the handlers in `AppTask` are written as sequential code
  with interference of the other thread between their steps.

`reporting.dfy` composes the first two: one count of the meter is worth more than every deadband, so the cache of
last reported values equals the live readings. `declared_ranges.dfy` does so for the ranges: under a rated load
every reading, and so the total, stays in the range its cluster declares.

## Assumptions

* Uptime does not run backwards within a boot (only `EnergyLife` and `MeterTheorems.WindowsTileTime` need this, the
  latter also that the first poll comes after time 0) and powers handed to the energy
  integrator are not negative, which `ReportingRuns.MeterReadingsAreInRange` shows for the meter's readings.
* `Get` returns the value of the last successful `Put`; a failed `Put` keeps the old value. Any value may be
  stored at the start of a life, also a negative one.
* A counter swap is atomic and counters are 32 bits wide and roll over. A stopped timer does not tick.
* One call of `RelaySet`, `RelayIsOn` or `StatusLedSetRelayState`, and one attribute write, is one step. `OnOff::Set`
  and GPIO writes succeed in the bridge (`Relay.Set` itself models their failure). Whether writing an unchanged
  attribute value runs the attribute callback is left open.
* The over-power protection is configured in; threshold and sample count are parameters.

## Where the code differs from its comments

* `src/bl0937.cpp:263-265` says the SEL level is constant across the three samples of a window. That holds for the
  last two. The first is free of the other level exactly if no CF1 pulse lands between the counter swap of the
  window before and the SEL write (`SampleIsPureIff`; `FirstSampleCanStraddle` is a run in which one does). The
  median rescues the reading (`MedianRescuesReadings`).
* `src/power_measurement.cpp:181-182` gives the cap at full rating as a little over 2 writes per hour. It is 6
  (`WearIsBounded`, `SixWritesPerHourIff`). A steady load keeps to 2 exactly if it is under 201.6 W, whenever its
  polls start (`AtMostTwiceAnHourIff`). The cap is on successful writes: while they fail, every update tries again
  (`FailingWritesHaveNoBound`).
* `src/power_measurement.cpp:169-171` wants the energy to be monotonic across the device's life. The stored values
  are (`StoredValuesAscend`); the published ones are monotonic within a boot only. An event after a power cut is
  below the last one before it exactly when the unstored part of that exceeds what was integrated since
  (`GoesBackIff`), so a cut can take the published energy back exactly when more was published than is stored
  (`PublishedEnergyCanGoBackIff`). Polled at 1 Hz this is ordinary from 3'600 mW on: a minute at such a load, a cut
  and an idle minute (`PublishedEnergyGoesBack`).
* `src/bl0937.cpp:162-165` says relay, LED and attribute cannot disagree. Relay and attribute agree whenever both
  threads are idle. For the LED this needs the attribute callback to run for unchanged values too
  (`LedFollowsIfEager`); if it runs on changes only, the LED can stay wrong (`LedCanStayWrong`), and
  `LedEndsRightIff` gives the exact condition for it to end right, in every state of the two threads. After a trip
  it always does.
* The last command does not always win. `EndsAtIff` gives, for every state of the two threads, the exact condition
  for the relay to end at a value. A lambda or callback that holds an older value overwrites a switch, and only then
  (`SwitchSurvivesIff`). This includes the trip of the over-power protection (`TripSurvivesIff`, `TripCanBeLost`).
* `src/status_led.cpp:77-82` keeps the network LED in phase with the RGB, except for ticks at two places inside a
  switch between two blinking states: between resetting the phase and lighting the network LED, and between reading
  the phase and writing the RGB pin that shows it (`BlinkingSwitchIff`). The second place exists in a relay change
  too (`RelaySwitchIff`). The next tick heals either (`TickHeals`).

## Model

| member | source | states |
|---|---|---|
| MedianFilter.MedianFilter.Push | src/bl0937.cpp:94-116 | completes exactly every third call; the result is a middle element of the window, the window is emptied; otherwise the sample is appended |
| MedianFilter.MiddleIsUnique | src/bl0937.cpp:102-114 | the sorting network's result is the only middle value, whatever the order of the samples |
| MedianFilter.OutlierIsDiscarded | src/bl0937.cpp:71-76 | an arbitrary sample cannot push the median out of the interval of the other two |
| OverPower.CounterIsRunModulo | src/bl0937.cpp:142-153 | after any samples the counter is the trailing run of breaches modulo the configured length, and fires exactly at its positive multiples |
| OverPower.ExactlyOneFires | Kconfig:44-52 | any full length of consecutive breaches contains exactly one sample that fires |
| OverPower.QuietSamplesDoNotCount | src/bl0937.cpp:144-147 | samples at or below the threshold never count nor fire, however many |
| OverPower.BreachLengthensRun | src/bl0937.cpp:144-149 | a sample above the threshold lengthens the run by one, any other ends it |
| OverPower.SustainedBreachFiresOnce | Kconfig:44-52 | of the configured number of consecutive samples above the threshold exactly one fires (zero counts as one), and no sample at or below it does |
| Bl0937.SamplePowersAreCalibrated | src/bl0937.cpp:251-255 | the check sees the unfiltered CF rate of each sample at 1 / 0.775 W per count per second |
| Bl0937.SustainedOverloadTrips | src/bl0937.cpp:142-168 | the configured number of accepted polls above the threshold with the relay on contain exactly one in which the app task opens the relay and reports it, and it does nothing in the others nor in any poll at or below the threshold |
| OverPower.SwitchingDoesNotDisturbTheCounter | src/bl0937.cpp:135-141 | switching the relay by anyone in between never changes the counter |
| OverPower.TripsExactlyAtFullRuns | src/bl0937.cpp:142-168 | a sample trips exactly when the run is a positive multiple of the length and the relay is on; the relay is off after every such sample and untouched by every other |
| OverPower.RemainingIsInRange | src/bl0937.cpp:135-141 | the samples missing for the next trip number at least one and at most the configured length |
| OverPower.ReenableTripsAgain | src/bl0937.cpp:135-141 | after a manual re-enable a sustained overload keeps the relay on for exactly the missing samples and then opens it once |
| MeterTheorems.RunRefines | src/bl0937.cpp:235-278 | at every point of every interleaving the filters hold the unfinished window, SEL is voltage iff the number of windows is even, and power, voltage and current are the scaled medians of the last complete, last even and last odd window |
| MeterTheorems.RunPublishesPrefixes | src/bl0937.cpp:247-277 | the j-th published readings are those of the first j accepted samples; polls with an empty window publish nothing |
| MeterTheorems.RunSeparates | src/bl0937.cpp:263-275 | only the first sample of a window can hold pulses that arrived at the other SEL level |
| MeterTheorems.RunTagsHonestly | src/bl0937.cpp:171-196 | the tagged pulses are the sample's CF1 count modulo 2^32 and its rates are the normalised counts |
| MeterTheorems.MedianRescuesReadings | src/bl0937.cpp:71-76 | under every interleaving each live and each published voltage (current) lies between what two neighbouring samples, all of whose pulses arrived with SEL high (low), scale to |
| MeterTheorems.SampleIsPureIff | src/bl0937.cpp:263-275 | in every run the sample taken next holds exactly as many pulses of the other SEL level as landed between the CF1 swap that completed a window and its SEL write; so it is pure iff none did, and the later samples of a window always are |
| MeterTheorems.FirstSampleCanStraddle | src/bl0937.cpp:263-275 | a run whose fourth sample holds a pulse of the other level |
| MeterTheorems.RunConserves | src/bl0937.cpp:171-187 | pulses raised are accepted, dropped with an empty window, in flight or still counted, plus 2^32 for each roll-over, in every interleaving |
| MeterTheorems.WindowsTileTime | src/bl0937.cpp:237-252 | the windows of accepted samples, with the time still open, tile the time from the first poll to the last, uptime being monotone: nothing is counted twice or dropped |
| MeterTheorems.CastExactRange | src/bl0937.cpp:193-196 | the 32-bit cast is exact for up to 4'294'967 pulses at any window, and wraps for one more at 1 ms |
| MeterTheorems.ScalingFits | src/bl0937.cpp:251-271 | scaling products and readings fit 64 bits for every 32-bit rate |
| MeterTheorems.ScalesAreCalibrated | src/bl0937.cpp:67-69 | every rate reads as 1 / 0.775 W, 1 / 8.077 V and 1 / 91.636 A per count, rounded down to the unit |
| MeterTheorems.RatesBracketPulses | src/bl0937.cpp:189-196 | on both channels the rates times the windows are at most 1000 times the accepted pulses, and one count per sample more exceeds them |
| MeterTheorems.RatesBracketRaised | src/bl0937.cpp:171-196 | the same of the pulses raised less those dropped or under way, over any run without roll-over or wrapped cast |
| MeterTheorems.RatesAreReachable | src/bl0937.cpp:235-278 | every pair of rate sequences is that of some run, so the reference readings describe no impossible case |
| MeterTheorems.PowerSettles | src/bl0937.cpp:258-261 | once all CF samples read c, the power is that of c from the fourth poll on |
| MeterTheorems.VoltageSettles | src/bl0937.cpp:263-275 | voltage settles within seven polls with arbitrary first samples of windows |
| MeterTheorems.CurrentSettles | src/bl0937.cpp:263-275 | current settles within seven polls with arbitrary first samples of windows |
| MeterTheorems.SettledReadingsAreCalibrated | src/bl0937.cpp:258-275 | the live readings of a settled run are those values of its counts |
| MeterTheorems.PowerBoundIsTight | src/bl0937.cpp:258-261 | a run in which the power is still the old one after three polls |
| MeterTheorems.VoltageBoundIsTight | src/bl0937.cpp:263-275 | a run in which the voltage is still the old one after six polls |
| MeterTheorems.CurrentBoundIsTight | src/bl0937.cpp:263-275 | a run in which the current is still the old one after six polls |
| Bl0937.Bl0937.CfIsr | src/bl0937.cpp:171-174 | the interrupt is the CF pulse step |
| Bl0937.Bl0937.Cf1Isr | src/bl0937.cpp:176-179 | the interrupt is the CF1 pulse step |
| Bl0937.Bl0937.TakeCfPulses | src/bl0937.cpp:184-187 | returns what the counter held and is the CF swap step |
| Bl0937.Bl0937.TakeCf1Pulses | src/bl0937.cpp:242-249 | the CF1 swap step; a window without length ends the poll |
| Bl0937.Bl0937.CountOverPower | src/bl0937.cpp:142-153 | counter and outcome are those of the debounce specification |
| Bl0937.Bl0937.CheckOverPower | src/bl0937.cpp:142-168 | counts, and makes the app task take exactly the trip's three steps when the counter fires and the relay is on, and none otherwise |
| Bl0937.Bl0937.PushRates | src/bl0937.cpp:258-273 | both filters, the readings and the SEL variable change as specified; flipped iff a CF1 window completes |
| Bl0937.Bl0937.HandOver | src/bl0937.cpp:277 | the delegate and the reported cache equal the live readings, which are the reference function of the samples; the notifications sent are exactly the due ones |
| Bl0937.Bl0937.MeterPoll | src/bl0937.cpp:235-278 | with interrupts anywhere: accepts exactly windows of positive length, keeps all invariants, leaves the reference readings, makes the app task decide, open the relay and post exactly when due and do nothing otherwise, hands over exactly the readings and sends exactly the due notifications |
| PowerMeasurement.PowerMeasurement.Init | src/power_measurement.cpp:347 | after a boot the statics are those restored from the store |
| PowerMeasurement.PowerMeasurement.LoadCumulativeEnergy | src/power_measurement.cpp:195-207 | a positive stored value becomes the total, anything else leaves it; the total counts as persisted |
| PowerMeasurement.PowerMeasurement.PersistCumulativeEnergyIfDue | src/power_measurement.cpp:209-233 | writes exactly when due and the Put succeeds, otherwise changes nothing |
| PowerMeasurement.PowerMeasurement.Report | src/power_measurement.cpp:264-273 | reports and marks dirty exactly when nothing was reported yet or the deadband is reached |
| PowerMeasurement.PowerMeasurement.AccumulateEnergy | src/power_measurement.cpp:368-414 | the energy statics and the events sent are those of the update function the life theorems are about |
| PowerMeasurement.PowerMeasurement.PowerMeasurementUpdate | src/power_measurement.cpp:352-415 | nothing before initialisation; then delegate, reports, energy and notifications as specified, in the source's order |
| EnergyLife.TrapezoidTruncates | src/power_measurement.cpp:374-380 | a gap never over-counts and loses less than one mWh plus half a milliwatt over the gap |
| EnergyLife.GapFits | src/power_measurement.cpp:375-380 | the 64-bit intermediates cannot overflow for any meter reading and gaps up to 1'600 s |
| EnergyLife.EnergyIsConserved | src/power_measurement.cpp:195-233 | over any life, energy integrated plus energy first stored equals the total plus what the power cuts lost, and no cut adds energy |
| EnergyLife.TruncationIsBounded | src/power_measurement.cpp:374-380 | two-sided bound between the energy added since boot and the area under the power curve, over any run |
| EnergyLife.LifetimeAccuracy | src/power_measurement.cpp:195-233 | over any life with power cuts the total is never above what was stored first plus the area under the power curve of all boots, and below it by at most a mWh per gap, half a milliwatt over the time and the bounded loss per cut |
| EnergyLife.TrickleIsNeverCounted | src/power_measurement.cpp:374-380 | a load below 3'600 mW sampled at least once a second adds nothing, for ever |
| EnergyLife.StalenessIsBounded | src/power_measurement.cpp:188-193 | the unstored energy is at most what pmax draws since the last write, in every state, failed writes included |
| EnergyLife.UpdateLeavesFresh | src/power_measurement.cpp:209-233 | after an update whose due write succeeds, all is stored or the last write is under 6 h old, and under 10 min old once 100 Wh gathered |
| EnergyLife.LossesAreBounded | src/power_measurement.cpp:183-186 | each power cut loses at most the larger of 100 Wh and ten minutes at pmax |
| EnergyLife.LifetimeRange | src/power_measurement.cpp:374-380 | energy integrated in a life is at most pmax over the uptime summed over all boots |
| EnergyLife.TenYearsStayInRange | src/power_measurement.cpp:322-335 | ten years of powered time at the rated power, those already in the store included, stay within the declared range |
| DeclaredRanges.RangesInCounts | src/power_measurement.cpp:58-62 | the exact meter rates at which power, voltage and current leave their declared ranges |
| DeclaredRanges.RatedLoadIsDeclared | src/power_measurement.cpp:47-62 | every run of the meter with rates within these, arbitrary first samples of windows apart, reads and publishes declared values only |
| DeclaredRanges.MeteredTotalIsDeclared | src/power_measurement.cpp:322-335 | a plug that integrates what its meter publishes under such a load keeps its total in the declared range for ten years |
| EnergyLife.SpacingBoundsRate | src/power_measurement.cpp:175-182 | a log with a minimum spacing grows no faster than one entry per interval over any stretch |
| EnergyLife.WearIsBounded | src/power_measurement.cpp:167-190 | over a life with power cuts, writes are at least 600'000 ms and energy events at least 60'000 ms apart on the lifetime clock |
| EnergyLife.FailedWriteIsRetried | src/power_measurement.cpp:209-233 | a failed attempt is followed by another at the next update, and within ten minutes only a failed one is |
| EnergyLife.FailingWritesHaveNoBound | src/power_measurement.cpp:224-229 | from the first failed attempt on, every further update attempts a write while writes fail |
| EnergyLife.FirstWriteIff | src/power_measurement.cpp:209-222 | the first write of a steady load is at the first poll that meets one of the source's two conditions, whenever the polls start |
| EnergyLife.SteadyLoadWrites | src/power_measurement.cpp:209-233 | the exact number of writes of any steady load polled at 1 Hz from any uptime on: none if a second of it truncates to nothing, otherwise the first when it is due, and then one per period, which is the time 100 Wh take, but at least ten minutes and at most six hours |
| EnergyLife.AtMostTwiceAnHourIff | src/power_measurement.cpp:181-182 | a steady load keeps to two writes per hour iff it is under 201.6 W, whenever its polls start; any other exceeds that within 64 hours |
| EnergyLife.SixWritesPerHourIff | src/power_measurement.cpp:181-182 | six writes in every hour iff the steady load is at least 601.2 W, whenever its polls start; for polls from the first ten minutes on, in each number of hours |
| EnergyLife.StoredValuesAscend | src/power_measurement.cpp:169-171 | what is stored is what was last written, and every write of a life stores more than all before |
| EnergyLife.PublishedValuesAscend | src/power_measurement.cpp:392-409 | within a boot published energies never decrease nor exceed the total |
| EnergyLife.CutRestoresStored | src/power_measurement.cpp:195-207 | a cut restores the last written value; the total goes back exactly when something was unsaved |
| EnergyLife.PublishedAfterCut | src/power_measurement.cpp:195-207 | after any run, a cut and any updates, an event publishes what was stored before the cut plus what was integrated since |
| EnergyLife.GoesBackIff | src/power_measurement.cpp:169-171 | such an event is below the last one before the cut iff the unstored part of that exceeds what was integrated since |
| EnergyLife.PublishedEnergyCanGoBackIff | src/power_measurement.cpp:169-171 | after any run a cut can take the published energy back iff more was published than is stored; then an idle minute of 1 Hz polls does |
| EnergyLife.PublishedEnergyGoesBack | src/power_measurement.cpp:169-171 | a minute of 1 Hz polls at a steady load, a cut and an idle minute publish a decrease iff the load is at least 3'600 mW |
| EnergyLife.FirstMinuteIsPublishedNotStored | src/power_measurement.cpp:382-409 | a commissioned plug polled at 1 Hz publishes its first minute's energy before anything of it is stored |
| EnergyLife.EventsAreTimely | src/power_measurement.cpp:392-408 | on a fabric, after every integrating update the last event of the boot is under 60 s old, and one sent now carries the new total |
| EnergyLife.NoFabricNoEvent | src/power_measurement.cpp:392-393 | after any run, an update with fabric count 0 emits no event |
| EnergyLife.NoFabricNoEvents | src/power_measurement.cpp:392-393 | nor does any stretch of a life without a fabric, whatever came before |
| ReportingRuns.DeadbandTraffic | src/power_measurement.cpp:248-273 | for any values the last reported one is within the deadband and each further report is paid for by a deadband of variation |
| ReportingRuns.AttributesAreIndependent | src/power_measurement.cpp:256-273 | the shared have-reported flag does not couple the attributes |
| ReportingRuns.ReportingIsBounded | src/power_measurement.cpp:358-366 | the bounds for each of the three attributes of an update sequence |
| ReportingRuns.MarkedIffMoved | src/power_measurement.cpp:248-273 | an update marks power, voltage and current exactly if nothing was reported yet or they moved by at least 50 mW, 100 mV and 3 mA |
| ReportingRuns.EnergyIsSentWithItsMark | src/power_measurement.cpp:392-408 | an update sends an energy event exactly on a fabric, with a previous sample and 60 s after the last one, and the event is directly followed by the dirty mark of the energy attribute |
| ReportingRuns.EnergyMarksFollowEvents | src/power_measurement.cpp:398-408 | in everything a boot sends, each energy event is directly followed by its dirty mark, there is no other such mark, and an update sends at most one of each |
| ReportingRuns.ReportsAreUndisturbed | src/power_measurement.cpp:352-415 | the dirty marks of the readings among them are those the reporting theorems speak of |
| ReportingRuns.CountsOutweighDeadbands | src/power_measurement.cpp:248-254 | one count moves power, voltage and current by at least 1290 mW, 123 mV and 10 mA, above every deadband |
| ReportingRuns.ScaledReadingsAreTracked | src/power_measurement.cpp:248-251 | between scaled readings the cache follows exactly and an attribute is marked exactly when it changed |
| ReportingRuns.MeterReadingsAreInRange | src/bl0937.cpp:258-271 | readings are never negative and small enough for the energy arithmetic |
| ReportingRuns.ReportsEqualReadings | src/power_measurement.cpp:358-366 | over any sequence of scaled readings the cache is the last reading, and dirty marks are exactly the changes |
| ReportingRuns.EndToEnd | src/bl0937.cpp:277 | the same for every run of pulses and polls, with the readings given by the accepted samples |
| Relay.Relay.Init | src/relay.cpp:23-45 | succeeds exactly with a ready port and a configured pin, leaving the relay off; otherwise changes nothing |
| Relay.Relay.Set | src/relay.cpp:47-71 | refused before initialisation and on pin errors without any change; otherwise relay, pin and LED module follow |
| Relay.Relay.IsOn | src/relay.cpp:73-76 | returns the commanded value, which is the pin |
| OnOffBridge.RunAgrees | src/zcl_callbacks.cpp:26-40 | in every interleaving the relay differs from the attribute only while an update is pending, owed or being written, or a callback is owed; so quiescent states agree |
| OnOffBridge.NoPingPong | src/app_task.cpp:97-112 | without new input at most Work further steps happen, in any interleaving |
| OnOffBridge.StuckOnlyWhenQuiescent | src/app_task.cpp:97-112 | the system stops exactly in the quiescent states |
| OnOffBridge.EndsAtIff | src/zcl_callbacks.cpp:26-40 | for every state and both values: every way of settling ends with the relay at the value iff a condition on the state holds |
| OnOffBridge.SwitchSurvivesIff | src/app_task.cpp:79-88 | the relay's value survives every way of settling, at any point where the app task has no switch under way, iff the Matter thread does not hold the other value |
| OnOffBridge.TripSurvivesIff | src/bl0937.cpp:155-167 | a trip keeps the relay open iff the Matter thread does not hold the closing value at that moment |
| OnOffBridge.DecisionSurvivesIff | src/app_task.cpp:86 | a press or trip counted from its decision survives iff no other value is in hand and no pending lambda can read one before the switch |
| OnOffBridge.ControllerSurvivesIff | src/zcl_callbacks.cpp:32-40 | a controller's write survives iff the app task has not decided otherwise and the callback runs or the relay already is there |
| OnOffBridge.PressCanBeLost | src/app_task.cpp:79-88 | a run from boot in which a press is overwritten |
| OnOffBridge.TripCanBeLost | src/bl0937.cpp:155-167 | a run from boot in which a trip is overwritten and the relay ends closed |
| OnOffBridge.LedFollowsIfEager | src/bl0937.cpp:162-165 | if every lambda's write runs the callback, the LED shows the relay in every quiescent state |
| OnOffBridge.LedEndsRightIff | src/bl0937.cpp:162-165 | if callbacks run on changes only, every way of settling leaves the LED showing the relay iff a condition on the present state holds; once the app task has shown its state, all ways end alike |
| OnOffBridge.LedCanStayWrong | src/app_task.cpp:86-88 | if callbacks run on changes only, a run from boot ends quiescent with the LED disagreeing with the relay |
| AppTask.AppTask.ClusterInit | src/zcl_callbacks.cpp:42-55 | after boot relay and attribute agree iff the relay was initialised and the attribute read, or they agreed already; the LED module is told regardless |
| AppTask.AppTask.ButtonEventHandler | src/app_task.cpp:76-95 | with the Matter thread running in between, takes exactly the five app steps of a short press in order and leaves an update pending or written |
| AppTask.AppTask.Toggle | src/app_task.cpp:86 | the relay ends in the opposite of what the handler read, whatever the Matter thread did in between |
| AppTask.AppTask.UpdateClusterState | src/app_task.cpp:103-112 | schedules one lambda and touches neither relay nor attribute |
| AppTask.AppTask.TripIfOn | src/bl0937.cpp:155-167 | opens the relay and reports exactly when it was on |
| AppTask.AppTask.PostAttributeChange | src/zcl_callbacks.cpp:32-40 | the callback's two steps, with the app task running in between; posts nothing |
| AppTask.AppTask.RunLambda | src/app_task.cpp:105-111 | the attribute becomes what the relay was when the lambda started; the callback follows if due |
| AppTask.AppTask.RunControllerWrite | src/zcl_callbacks.cpp:32-40 | the attribute becomes the written value; the callback follows if due |
| AppTask.AppTask.QuiescentAgrees | src/zcl_callbacks.cpp:26-55 | with both threads idle and nothing scheduled, relay and attribute agree |
| StatusLed.StatusLed.Init | src/status_led.cpp:87-108 | succeeds iff every port is ready and every pin configurable, all pins dark; otherwise returns the first failure with only the LEDs before it dark |
| StatusLed.UninitialisedStaysDark | src/status_led.cpp:47-50 | after a failed initialisation no call touches a pin or starts the timer |
| StatusLed.StatusLed.BlinkTimerHandler | src/status_led.cpp:74-83 | one tick of the specification |
| StatusLed.StatusLed.SetNetwork | src/status_led.cpp:110-144 | the switch of the specification, with timer ticks at any of its statements |
| StatusLed.StatusLed.SetRelay | src/status_led.cpp:146-160 | the relay axis of the specification, with timer ticks inside the rendering |
| StatusLed.PinsFollowTable | src/status_led.cpp:47-70 | after any calls and ticks the four pins are the documented ones for the last network and relay state asked and the parity of ticks; the timer runs exactly while a blinking state is shown, at its pace |
| StatusLed.ColoursNameStates | src/status_led.cpp:47-70 | after any calls and ticks red is lit for errors only, blue for pairing only, green iff a paired plug's relay is on, and the network LED iff red or blue is |
| StatusLed.BlinksInTime | src/status_led.cpp:24-25 | t ms after a switch to Error (Pairing), whatever the relay does meanwhile, the LEDs of the state are lit iff t / 150 (t / 500) is even |
| StatusLed.SwitchSetsPace | src/status_led.cpp:123-134 | whatever ticks land in a switch to a blinking state, it leaves the timer at 150 ms for Error and 500 ms for Pairing |
| StatusLed.PairedStaysDark | src/status_led.cpp:137-142 | whatever ticks land in the switch to Paired, the network LED ends off and stays off until the next network change |
| StatusLed.BlinkingSwitchIff | src/status_led.cpp:123-134 | the exact numbers of ticks at each place of a switch to a blinking state that leave the pins in phase |
| StatusLed.RelaySwitchIff | src/status_led.cpp:54-63 | a relay change under a blinking state keeps the phase iff an even number of ticks lands inside its rendering, or nothing is rendered |
| StatusLed.TickHeals | src/status_led.cpp:74-83 | any tick restores the phase |

## Left out

- SDK internals: Matter stack, Zephyr kernel, key-value store, timers and GPIO are assumed operations as listed above.
- Generated cluster tables, delegate getters that return null and accuracy structures: no algorithm.
- PowerMeasurementInit's failing SDK calls: only its successful path and the unset delegate are modelled.
- AppTask::UpdateStatusLed and the timer callback that posts MeterPoll: they only choose an argument or enqueue a call.
- Factory reset, commissioning, ICD and Identify: implemented in SDK code.
- Races of the two tasks inside one call of RelaySet or StatusLedSetRelayState: a call is one step here, as the code uses no lock (timer ticks inside it are modelled).
- Overflow of the running energy total beyond 64 bits: the arithmetic is unbounded, `GapFits` covers the intermediates.
- BL0937 analogue settling and calibration against real loads.
