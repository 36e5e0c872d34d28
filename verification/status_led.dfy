/**
 src/status_led.cpp: the network LED and the RGB LED, driven by calls from the tasks and
 by a blink timer that ticks in interrupt context.
 */
module StatusLed {
  import opened Shared
  import opened Units

  const BLINK_INTERVAL_MS: nat := 500
  const FAST_BLINK_INTERVAL_MS: nat := 150

  datatype NetworkState = Pairing | Paired | Error

  /** Logical levels of the four pins the file drives. */
  datatype Pins = Pins(red: bool, green: bool, blue: bool, network: bool)

  datatype Timer = Stopped | Running(intervalMs: nat)

  datatype Led = Led(network: NetworkState, relayOn: bool, initialised: bool, blinkOn: bool, rendered: bool,
                     timer: Timer, pins: Pins)

  const Dark: Pins := Pins(false, false, false, false)

  /** Zeroed statics; the network state starts at Error. */
  const Reset: Led := Led(Error, false, false, false, false, Stopped, Dark)

  /** The documented table: pins for a network state, a relay state and a blink phase. */
  function Table(network: NetworkState, relayOn: bool, lit: bool): Pins {
    match network
    case Pairing => Pins(false, false, lit, lit)
    case Error => Pins(lit, false, false, lit)
    case Paired => Pins(false, relayOn, false, false)
  }

  /** The three pin writes of RenderRgb, for a blink phase. */
  function Paint(l: Led, lit: bool): Led {
    match l.network
    case Pairing => l.(pins := l.pins.(red := false, green := false, blue := lit))
    case Error => l.(pins := l.pins.(red := lit, green := false, blue := false))
    case Paired => l.(pins := l.pins.(red := false, green := l.relayOn, blue := false))
  }

  function SetNetworkLed(l: Led, on: bool): Led {
    l.(pins := l.pins.(network := on))
  }

  /** One timer tick, in interrupt context; a stopped timer does not tick. */
  function Tick(l: Led): Led {
    if l.timer.Stopped? then l
    else
      var flipped := SetNetworkLed(l.(blinkOn := !l.blinkOn), !l.blinkOn);
      if l.initialised then Paint(flipped, flipped.blinkOn) else flipped
  }

  function Ticks(l: Led, n: nat): Led {
    if n == 0 then l else Tick(Ticks(l, n - 1))
  }

  /** RenderRgb on a task: n ticks land between reading the phase and writing the pin that shows it. */
  function RenderRgb(l: Led, n: nat): Led {
    if l.initialised then Paint(Ticks(l, n), l.blinkOn) else l
  }

  function SetRelayState(l: Led, relayOn: bool, n: nat): Led {
    if relayOn == l.relayOn then l else RenderRgb(l.(relayOn := relayOn), n)
  }

  /** Ticks landing inside StatusLedSetNetworkState: after the state is stored, after the phase is reset,
      after the network LED is lit, after the RGB's phase is read, and after the RGB is rendered. */
  datatype Inside = Inside(stored: nat, phased: nat, lit: nat, read: nat, shown: nat)

  const NoTicks: Inside := Inside(0, 0, 0, 0, 0)

  function SetNetworkState(l: Led, state: NetworkState, t: Inside): Led {
    if l.rendered && state == l.network then l
    else
      var stored := Ticks(l.(rendered := true, network := state), t.stored);
      if !l.initialised then stored
      else
        match state
        case Paired => RenderRgb(SetNetworkLed(stored.(timer := Stopped), false), 0)
        case _ => StartTimer(Blinking(stored, t), state)
  }

  /** The part of a switch to a blinking state from the phase reset to the timer start. */
  function Blinking(l: Led, t: Inside): Led {
    var phased := Ticks(l.(blinkOn := true), t.phased);
    var lit := Ticks(SetNetworkLed(phased, true), t.lit);
    Ticks(RenderRgb(lit, t.read), t.shown)
  }

  function StartTimer(l: Led, state: NetworkState): Led {
    l.(timer := Running(if state == Error then FAST_BLINK_INTERVAL_MS else BLINK_INTERVAL_MS))
  }

  /* ---- Initialisation ---- */

  const NO_DEVICE: int := -19
  const LEDS: nat := 4

  /** Led i is the first whose port is not ready or whose pin cannot be configured. */
  predicate FailsFirst(ready: seq<bool>, errors: seq<int>, i: nat)
    requires |ready| == |errors| == LEDS && i < LEDS
  {
    (!ready[i] || errors[i] != 0) && forall j :: 0 <= j < i ==> ready[j] && errors[j] == 0
  }

  /** The first n pins, in the order red, green, blue, network, configured inactive. */
  function Darkened(p: Pins, n: nat): Pins {
    Pins(n <= 0 && p.red, n <= 1 && p.green, n <= 2 && p.blue, n <= 3 && p.network)
  }

  class StatusLed {
    var networkState: NetworkState
    var relayOn: bool
    var initialised: bool
    var blinkOn: bool
    var rendered: bool
    var timer: Timer
    var pins: Pins

    ghost function State(): Led
      reads this
    {
      Led(networkState, relayOn, initialised, blinkOn, rendered, timer, pins)
    }

    constructor ()
      ensures State() == Reset
    {
      networkState, relayOn, initialised, blinkOn, rendered := Error, false, false, false, false;
      timer, pins := Stopped, Dark;
    }

    /** StatusLedInit: all pins dark and the module initialised exactly if every port is ready and every pin can
        be configured; otherwise the first failure is returned and the LEDs before it are dark. */
    method Init(ready: seq<bool>, errors: seq<int>) returns (err: int)
      requires timer.Stopped? && |ready| == |errors| == LEDS
      modifies this
      ensures err == 0 <==> forall i :: 0 <= i < LEDS ==> ready[i] && errors[i] == 0
      ensures err == 0 ==> State() == old(State()).(initialised := true, pins := Dark)
      ensures forall i: nat :: i < LEDS && FailsFirst(ready, errors, i) ==>
                && err == (if ready[i] then errors[i] else -19)
                && State() == old(State()).(pins := Darkened(old(pins), i))
    {
      var n := ConfigureLeds(ready, errors);
      if n < LEDS {
        return if ready[n] then errors[n] else NO_DEVICE;
      }
      initialised := true;
      return 0;
    }

    /** Configures LEDs up to the first that fails. */
    method ConfigureLeds(ready: seq<bool>, errors: seq<int>) returns (n: nat)
      requires |ready| == |errors| == LEDS
      modifies this`pins
      ensures n <= LEDS && (forall j :: 0 <= j < n ==> ready[j] && errors[j] == 0)
      ensures n < LEDS ==> !ready[n] || errors[n] != 0
      ensures pins == Darkened(old(pins), n)
    {
      n := 0;
      while n < LEDS && ready[n] && errors[n] == 0
        invariant n <= LEDS && forall j :: 0 <= j < n ==> ready[j] && errors[j] == 0
        invariant pins == Darkened(old(pins), n)
      {
        Configure(n);
        n := n + 1;
      }
    }

    /** The pin of one LED becomes an inactive output. */
    method Configure(led: nat)
      requires led < LEDS
      modifies this`pins
      ensures pins == match led
                      case 0 => old(pins).(red := false)
                      case 1 => old(pins).(green := false)
                      case 2 => old(pins).(blue := false)
                      case _ => old(pins).(network := false)
    {
      match led
      case 0 => pins := pins.(red := false);
      case 1 => pins := pins.(green := false);
      case 2 => pins := pins.(blue := false);
      case _ => pins := pins.(network := false);
    }

    /** RenderRgb, with the timer firing ticks times after the phase was read. */
    method Render(ticks: nat)
      modifies this
      ensures State() == RenderRgb(old(State()), ticks)
      decreases ticks, 1
    {
      if !initialised {
        return;
      }
      TicksKeep(State(), ticks);
      match networkState
      case Pairing =>
        WriteRedGreen(false, false);
        TicksKeep(State(), ticks);
        var lit := blinkOn;
        Interrupts(ticks);
        pins := pins.(blue := lit);
      case Error =>
        var lit := blinkOn;
        Interrupts(ticks);
        WriteRedGreen(lit, false);
        pins := pins.(blue := false);
      case Paired =>
        var lit := relayOn;
        Interrupts(ticks);
        WriteRedGreen(false, lit);
        pins := pins.(blue := false);
    }

    method WriteRedGreen(red: bool, green: bool)
      modifies this`pins
      ensures pins == old(pins).(red := red, green := green)
    {
      pins := pins.(red := red);
      pins := pins.(green := green);
    }

    method BlinkTimerHandler()
      requires timer.Running?
      modifies this
      ensures State() == Tick(old(State()))
      decreases 0, 2
    {
      blinkOn := !blinkOn;
      pins := pins.(network := blinkOn);
      Render(0);
    }

    /** The timer fires n times, if it runs. */
    method Interrupts(n: nat)
      modifies this
      ensures State() == Ticks(old(State()), n)
      decreases n, 0
    {
      for i := 0 to n
        invariant State() == Ticks(old(State()), i)
      {
        if timer.Running? {
          BlinkTimerHandler();
        }
      }
    }

    /** StatusLedSetNetworkState with timer ticks at any of its statements. */
    method SetNetwork(state: NetworkState, t: Inside)
      modifies this
      ensures State() == SetNetworkState(old(State()), state, t)
    {
      if rendered && state == networkState {
        return;
      }
      rendered := true;
      networkState := state;
      TicksKeep(State(), t.stored);
      Interrupts(t.stored);
      if !initialised {
        return;
      }
      match state
      case Paired =>
        timer := Stopped;
        pins := pins.(network := false);
        Render(0);
      case _ =>
        Blink(t);
        timer := Running(if state == Error then FAST_BLINK_INTERVAL_MS else BLINK_INTERVAL_MS);
    }

    method Blink(t: Inside)
      modifies this
      ensures State() == Blinking(old(State()), t)
    {
      ResetPhase(t.phased);
      LightNetwork(t.lit);
      Render(t.read);
      Interrupts(t.shown);
    }

    method ResetPhase(ticks: nat)
      modifies this
      ensures State() == Ticks(old(State()).(blinkOn := true), ticks)
    {
      blinkOn := true;
      Interrupts(ticks);
    }

    method LightNetwork(ticks: nat)
      modifies this
      ensures State() == Ticks(SetNetworkLed(old(State()), true), ticks)
    {
      pins := pins.(network := true);
      Interrupts(ticks);
    }

    method SetRelay(on: bool, ticks: nat)
      modifies this
      ensures State() == SetRelayState(old(State()), on, ticks) && relayOn == on
    {
      if on == relayOn {
        return;
      }
      relayOn := on;
      TicksKeep(State(), ticks);
      Render(ticks);
    }
  }

  /* ---- Calls and ticks as atomic steps ---- */

  datatype Event = Network(state: NetworkState) | Relay(on: bool) | Blink

  function Step(l: Led, e: Event): Led {
    match e
    case Network(state) => SetNetworkState(l, state, NoTicks)
    case Relay(on) => SetRelayState(l, on, 0)
    case Blink => Tick(l)
  }

  /** The LED after StatusLedInit and these events. */
  function Run(events: seq<Event>): Led {
    if events == [] then Reset.(initialised := true)
    else Step(Run(events[..|events| - 1]), events[|events| - 1])
  }

  /** What was asked for: the last network state, the last relay state, and how often the timer ticked since
      the network state last changed to a blinking one. */
  datatype Asked = Asked(network: Option<NetworkState>, relayOn: bool, ticks: nat)

  function AskedFor(events: seq<Event>): Asked {
    if events == [] then Asked(None, false, 0)
    else
      var before := AskedFor(events[..|events| - 1]);
      match events[|events| - 1]
      case Network(state) => if before.network == Some(state) then before else Asked(Some(state), before.relayOn, 0)
      case Relay(on) => before.(relayOn := on)
      case Blink => before.(ticks := before.ticks + 1)
  }

  /** At every moment the four pins are the documented ones for what was asked, blinking in step with the
      timer, which runs exactly while a blinking state is shown, at that state's pace. */
  ghost predicate ShowsWhatWasAsked(l: Led, a: Asked) {
    && l.initialised && (l.rendered <==> a.network.Some?)
    && l.network == (if a.network.Some? then a.network.value else Error)
    && l.relayOn == a.relayOn
    && l.timer == (match a.network
                   case None => Stopped
                   case Some(Paired) => Stopped
                   case Some(Pairing) => Running(BLINK_INTERVAL_MS)
                   case Some(Error) => Running(FAST_BLINK_INTERVAL_MS))
    && l.pins == Table(l.network, a.relayOn, a.network.Some? && a.ticks % 2 == 0)
    && (a.network != Some(Paired) ==> l.blinkOn == (a.network.Some? && a.ticks % 2 == 0))
  }

  lemma SwitchShows(l: Led, a: Asked, state: NetworkState)
    requires ShowsWhatWasAsked(l, a)
    ensures ShowsWhatWasAsked(SetNetworkState(l, state, NoTicks),
                              if a.network == Some(state) then a else Asked(Some(state), a.relayOn, 0))
  {
  }

  lemma RelayShows(l: Led, a: Asked, on: bool)
    requires ShowsWhatWasAsked(l, a)
    ensures ShowsWhatWasAsked(SetRelayState(l, on, 0), a.(relayOn := on))
  {
  }

  lemma TickShows(l: Led, a: Asked)
    requires ShowsWhatWasAsked(l, a)
    ensures ShowsWhatWasAsked(Tick(l), a.(ticks := a.ticks + 1))
  {
  }

  lemma {:induction false} PinsFollowTable(events: seq<Event>)
    ensures ShowsWhatWasAsked(Run(events), AskedFor(events))
  {
    if events != [] {
      var l, a := Run(events[..|events| - 1]), AskedFor(events[..|events| - 1]);
      PinsFollowTable(events[..|events| - 1]);
      match events[|events| - 1]
      case Network(state) => SwitchShows(l, a, state);
      case Relay(on) => RelayShows(l, a, on);
      case Blink => TickShows(l, a);
    }
  }

  /** What each pin means, after any calls and ticks: red shows errors, blue pairing, green the relay of a paired
      plug, and the network LED mirrors red and blue. Red and blue are lit at even numbers of ticks. */
  lemma ColoursNameStates(events: seq<Event>)
    ensures var pins, asked := Run(events).pins, AskedFor(events);
            && (pins.red <==> asked.network == Some(Error) && asked.ticks % 2 == 0)
            && (pins.blue <==> asked.network == Some(Pairing) && asked.ticks % 2 == 0)
            && (pins.green <==> asked.network == Some(Paired) && asked.relayOn)
            && (pins.network <==> pins.red || pins.blue)
  {
    PinsFollowTable(events);
  }

  /* ---- Time ---- */

  /** t ms after the timer was started, with a tick at every multiple of its period, whatever the relay does
      meanwhile. */
  function AfterMs(l: Led, relay: nat -> bool, t: nat): Led {
    if t == 0 then l
    else
      var before := SetRelayState(AfterMs(l, relay, t - 1), relay(t), 0);
      if before.timer.Running? && 0 < before.timer.intervalMs && t % before.timer.intervalMs == 0 then Tick(before)
      else before
  }

  /** The phase of a blinking state, with its literal period. */
  ghost predicate BlinksAt(l: Led, state: NetworkState, lit: bool) {
    && l.initialised && l.network == state && state != Paired && l.blinkOn == lit
    && l.timer == Running(if state == Error then 150 else 500)
    && l.pins == Pins(state == Error && lit, false, state == Pairing && lit, lit)
  }

  lemma TickBlinks(l: Led, state: NetworkState, lit: bool)
    requires BlinksAt(l, state, lit)
    ensures BlinksAt(Tick(l), state, !lit)
  {
  }

  lemma RelayKeepsBlinking(l: Led, state: NetworkState, lit: bool, relayOn: bool)
    requires BlinksAt(l, state, lit)
    ensures BlinksAt(SetRelayState(l, relayOn, 0), state, lit)
  {
  }

  lemma PhaseFlips(t: nat, period: nat)
    requires 0 < period
    ensures ((t + 1) / period % 2 == 0) == ((t / period % 2 == 0) == ((t + 1) % period != 0))
  {
    NextPlace(t, period, t / period, t % period);
  }

  lemma {:induction false} KeepsBlinking(l: Led, state: NetworkState, relay: nat -> bool, t: nat, period: nat)
    requires BlinksAt(l, state, true) && period == (if state == Error then 150 else 500)
    ensures BlinksAt(AfterMs(l, relay, t), state, t / period % 2 == 0)
  {
    if t > 0 {
      KeepsBlinking(l, state, relay, t - 1, period);
      var last, lit := AfterMs(l, relay, t - 1), (t - 1) / period % 2 == 0;
      PhaseFlips(t - 1, period);
      RelayKeepsBlinking(last, state, lit, relay(t));
      TickBlinks(SetRelayState(last, relay(t), 0), state, lit);
    }
  }

  /** An error blinks red every 150 ms and pairing blinks blue every 500 ms, the network LED with them, lit first:
      t ms after a switch to the state they are lit exactly in every other period. */
  lemma BlinksInTime(l: Led, state: NetworkState, relay: nat -> bool, t: nat)
    requires l.initialised && state != Paired && !(l.rendered && state == l.network)
    ensures var m := AfterMs(SetNetworkState(l, state, NoTicks), relay, t);
            BlinksAt(m, state, t / (if state == Error then 150 else 500) % 2 == 0)
  {
    KeepsBlinking(SetNetworkState(l, state, NoTicks), state, relay, t, if state == Error then 150 else 500);
  }

  /* ---- Ticks inside a switch ---- */

  /** Ticks move the phase and the pins only, and leave a running timer consistent. */
  ghost predicate Ticked(l: Led, n: nat, m: Led) {
    && m == l.(blinkOn := m.blinkOn, pins := m.pins)
    && (l.timer.Stopped? || n == 0 ==> m == l)
    && (l.timer.Running? ==> m.blinkOn == (l.blinkOn == (n % 2 == 0)))
    && (l.timer.Running? && n > 0 && l.initialised ==>
          m.pins == Table(l.network, l.relayOn, m.blinkOn).(network := m.blinkOn))
  }

  lemma TickOnce(l: Led, n: nat, m: Led)
    requires Ticked(l, n, m)
    ensures Ticked(l, n + 1, Tick(m))
  {
    assert (n + 1) % 2 == 0 <==> n % 2 != 0;
  }

  lemma {:induction false} TicksKeep(l: Led, n: nat)
    ensures Ticked(l, n, Ticks(l, n))
  {
    if n > 0 {
      TicksKeep(l, n - 1);
      TickOnce(l, n - 1, Ticks(l, n - 1));
    }
  }

  /** Whatever ticks land inside a switch to Paired, the network LED and the blinking colours end off, the
      green follows the relay and the timer is stopped; so they stay until the network state changes. */
  lemma {:induction false} PairedStaysDark(l: Led, t: Inside, later: seq<Event>)
    requires l.initialised && !(l.rendered && l.network == Paired)
    requires forall e <- later :: !e.Network?
    ensures var m := After(SetNetworkState(l, Paired, t), later);
            m.initialised && m.network == Paired && m.timer == Stopped && m.pins == Table(Paired, m.relayOn, m.blinkOn)
  {
    TicksKeep(l.(rendered := true, network := Paired), t.stored);
    if later != [] {
      PairedStaysDark(l, t, later[..|later| - 1]);
      assert later[|later| - 1] in later;
    }
  }

  function After(l: Led, events: seq<Event>): Led {
    if events == [] then l else Step(After(l, events[..|events| - 1]), events[|events| - 1])
  }

  /** The pins are those of the table for the current phase. */
  predicate Consistent(l: Led) {
    l.pins == Table(l.network, l.relayOn, l.blinkOn)
  }

  /** Whatever ticks land inside a switch to a blinking state, it leaves the timer at that state's pace. */
  lemma SwitchSetsPace(l: Led, state: NetworkState, t: Inside)
    requires l.initialised && state != Paired && !(l.rendered && state == l.network)
    ensures SetNetworkState(l, state, t).timer == Running(if state == Error then 150 else 500)
  {
  }

  /** Rendering restores the table exactly unless an odd number of ticks moves the phase after it was read. */
  lemma RenderIsConsistentIff(l: Led, n: nat)
    requires l.initialised && l.network != Paired
    ensures var m := RenderRgb(l, n);
            && m == l.(blinkOn := m.blinkOn, pins := m.pins)
            && (Consistent(m) <==> if l.timer.Stopped? || n == 0 then l.pins.network == l.blinkOn else n % 2 == 0)
  {
    TicksKeep(l, n);
  }

  lemma LaterTicksHeal(l: Led, n: nat)
    requires l.initialised && l.network != Paired
    ensures Consistent(Ticks(l, n)) <==> Consistent(l) || (l.timer.Running? && n > 0)
  {
    TicksKeep(l, n);
  }

  /** The network LED is lit while the phase is on, unless an odd number of ticks landed just before. */
  lemma LitInPhaseIff(l: Led, phasedTicks: nat, litTicks: nat)
    requires l.initialised && l.network != Paired
    ensures var m := Ticks(SetNetworkLed(Ticks(l.(blinkOn := true), phasedTicks), true), litTicks);
            && m == l.(blinkOn := m.blinkOn, pins := m.pins)
            && (m.pins.network == m.blinkOn <==> l.timer.Stopped? || phasedTicks % 2 == 0 || litTicks > 0)
  {
    TicksKeep(l.(blinkOn := true), phasedTicks);
    TicksKeep(SetNetworkLed(Ticks(l.(blinkOn := true), phasedTicks), true), litTicks);
  }

  /** A switch to a blinking state leaves the pins in phase exactly if the timer was stopped, a tick lands after
      the rendering, or, of the ticks before, the last ones that matter are even in number: those between reading
      the RGB's phase and writing it, or if there are none, those between resetting the phase and lighting the
      network LED, unless one lands in between. */
  lemma BlinkingSwitchIff(l: Led, state: NetworkState, t: Inside)
    requires l.initialised && state != Paired && !(l.rendered && state == l.network)
    ensures Consistent(SetNetworkState(l, state, t))
       <==> || l.timer.Stopped? || t.shown > 0
            || (if t.read > 0 then t.read % 2 == 0 else t.lit > 0 || t.phased % 2 == 0)
  {
    var entered := l.(rendered := true, network := state);
    var stored := Ticks(entered, t.stored);
    var lit := Ticks(SetNetworkLed(Ticks(stored.(blinkOn := true), t.phased), true), t.lit);
    TicksKeep(entered, t.stored);
    LitInPhaseIff(stored, t.phased, t.lit);
    RenderIsConsistentIff(lit, t.read);
    LaterTicksHeal(RenderRgb(lit, t.read), t.shown);
  }

  /** A change of the relay under a blinking state keeps the pins in phase exactly unless an odd number of ticks
      lands between reading the phase and writing it. */
  lemma RelaySwitchIff(l: Led, on: bool, n: nat)
    requires l.initialised && l.network != Paired && Consistent(l)
    ensures Consistent(SetRelayState(l, on, n)) <==> on == l.relayOn || l.timer.Stopped? || n % 2 == 0
  {
    if on != l.relayOn {
      RenderIsConsistentIff(l.(relayOn := on), n);
    }
  }

  /** After a failed initialisation nothing is ever lit: no calls touch the pins or start the timer. */
  lemma {:induction false} UninitialisedStaysDark(l: Led, events: seq<Event>)
    requires !l.initialised && l.timer.Stopped?
    ensures var m := After(l, events); !m.initialised && m.timer.Stopped? && m.pins == l.pins
  {
    if events != [] {
      UninitialisedStaysDark(l, events[..|events| - 1]);
    }
  }

  /** The next tick puts the pins in phase again. */
  lemma TickHeals(l: Led)
    requires l.initialised && l.timer.Running? && l.network != Paired
    ensures Consistent(Tick(l))
  {
  }
}
