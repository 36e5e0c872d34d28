/**
 The code of the two threads around the OnOff bridge: the button handler, the over-power trip and the posting
 of updates on the app task (src/app_task.cpp, src/bl0937.cpp), attribute writes and their callback on the
 Matter thread and the restore at boot (src/zcl_callbacks.cpp). Between any two steps of one thread the other
 may take any number of its own.
 */
module AppTask {
  import opened OnOffBridge
  import Relay

  predicate OfApp(e: Event) {
    e.Press? || e.SwitchRelay? || e.ReadRelay? || e.ShowRelay? || e.Post? || e.OverPower? || e.TripRelay?
  }

  /** The events of one thread, in order. */
  function Thread(events: seq<Event>, app: bool): seq<Event> {
    if events == [] then []
    else
      var before := Thread(events[..|events| - 1], app);
      if OfApp(events[|events| - 1]) == app then before + [events[|events| - 1]] else before
  }

  lemma ThreadExtends(events: seq<Event>, e: Event, app: bool)
    ensures Thread(events + [e], app) == if OfApp(e) == app then Thread(events, app) + [e] else Thread(events, app)
  {
    assert (events + [e])[..|events|] == events;
  }

  class AppTask {
    const relay: Relay.Relay
    var onOff: bool
    var pending: nat
    var app: AppPc
    var matter: MatterPc
    ghost const stored: bool
    ghost var trace: seq<Event>

    ghost function State(): Bridge
      reads this, relay, relay.led
    {
      Bridge(relay.on, relay.led.relayOn, onOff, pending, app, matter)
    }

    /** The object is in the state that its trace leads to. */
    ghost predicate Valid()
      reads this, relay, relay.led
    {
      relay.Valid() && relay.initialised && State() == Run(Booted(stored), trace)
    }

    /** The endpoint with its persisted attribute, before the restore. */
    constructor (relay: Relay.Relay, attribute: bool)
      ensures this.relay == relay && onOff == attribute == stored
      ensures pending == 0 && app == AppIdle && matter == MatterIdle && trace == []
    {
      this.relay := relay;
      onOff, stored, pending, trace := attribute, attribute, 0, [];
      app, matter := AppIdle, MatterIdle;
    }

    /** emberAfOnOffClusterInitCallback. The relay comes up as stored exactly when it was initialised before and
        the attribute can be read, or happens to be in that state; the LED module is told regardless. */
    method ClusterInit(getOk: bool)
      requires relay.Valid() && pending == 0 && app == AppIdle && matter == MatterIdle && trace == []
      requires onOff == stored
      modifies relay, relay.led
      ensures relay.Valid() && relay.initialised == old(relay.initialised)
      ensures relay.on == onOff <==> (getOk && relay.initialised) || old(relay.on) == onOff
      ensures getOk ==> relay.led.relayOn == onOff
      ensures getOk && relay.initialised ==> Valid()
    {
      if getOk {
        var ticks := BlinkTicks();
        var err := relay.Set(onOff, true, ticks);
        relay.led.SetRelay(onOff, ticks);
      }
    }

    /* ---- Single steps ---- */

    /** How often the blink timer fires inside a call: any number of times. */
    method BlinkTicks() returns (n: nat) {
      n := *;
    }

    ghost method Record(e: Event)
      modifies this`trace
      ensures trace == old(trace) + [e]
      ensures Run(Booted(stored), trace) == Step(Run(Booted(stored), old(trace)), e)
      ensures forall a: bool :: Thread(trace, a)
                == if OfApp(e) == a then Thread(old(trace), a) + [e] else Thread(old(trace), a)
    {
      RunExtends(Booted(stored), trace, e);
      ThreadExtends(trace, e, true);
      ThreadExtends(trace, e, false);
      trace := trace + [e];
    }

    twostate predicate Took(e: Event)
      reads this, relay, relay.led
    {
      && Valid() && trace == old(trace) + [e] && State() == Step(old(State()), e)
      && Thread(trace, OfApp(e)) == Thread(old(trace), OfApp(e)) + [e]
      && Thread(trace, !OfApp(e)) == Thread(old(trace), !OfApp(e))
    }

    /** The button handler reads the relay and decides. */
    method ReadButton()
      requires Valid() && app.AppIdle?
      modifies this
      ensures Took(Press)
    {
      var on := relay.IsOn();
      app := Pressed(!on);
      Record(Press);
    }

    method SwitchFromButton()
      requires Valid() && app.Pressed?
      modifies this, relay, relay.led
      ensures Took(SwitchRelay)
    {
      var ticks := BlinkTicks();
      var err := relay.Set(app.target, true, ticks);
      app := Switched;
      Record(SwitchRelay);
    }

    method ReadBackRelay()
      requires Valid() && app.Switched?
      modifies this
      ensures Took(ReadRelay)
    {
      var on := relay.IsOn();
      app := ReadBack(on);
      Record(ReadRelay);
    }

    method ShowReadBack()
      requires Valid() && app.ReadBack?
      modifies this, relay.led
      ensures Took(ShowRelay)
    {
      var ticks := BlinkTicks();
      relay.led.SetRelay(app.shown, ticks);
      app := Unposted;
      Record(ShowRelay);
    }

    /** UpdateClusterState: schedules the lambda. */
    method UpdateClusterState()
      requires Valid() && app.Unposted?
      modifies this
      ensures Took(Post)
    {
      pending := pending + 1;
      app := AppIdle;
      Record(Post);
    }

    method SeeOverPower()
      requires Valid() && app.AppIdle? && relay.on
      modifies this
      ensures Took(OverPower)
    {
      app := Tripping;
      Record(OverPower);
    }

    method OpenRelay()
      requires Valid() && app.Tripping?
      modifies this, relay, relay.led
      ensures Took(TripRelay)
    {
      var ticks := BlinkTicks();
      var err := relay.Set(false, true, ticks);
      app := Unposted;
      Record(TripRelay);
    }

    /** A scheduled lambda starts and reads the relay. */
    method TakeLambda()
      requires Valid() && matter.MatterIdle? && pending > 0
      modifies this
      ensures Took(StartLambda)
    {
      var on := relay.IsOn();
      pending := pending - 1;
      matter := LambdaRead(on);
      Record(StartLambda);
    }

    /** OnOff::Set inside the lambda. */
    method SetAttribute(called: bool)
      requires Valid() && matter.LambdaRead? && (onOff != matter.value ==> called)
      modifies this
      ensures Took(WriteAttribute(called))
    {
      onOff := matter.value;
      matter := if called then CallbackDue(onOff) else MatterIdle;
      Record(WriteAttribute(called));
    }

    method WriteFromController(value: bool, called: bool)
      requires Valid() && matter.MatterIdle? && (onOff != value ==> called)
      modifies this
      ensures Took(ControllerWrite(value, called))
    {
      ghost var after := StepEnabled(State(), ControllerWrite(value, called));
      onOff := value;
      matter := if called then CallbackDue(value) else MatterIdle;
      assert State() == after;
      Record(ControllerWrite(value, called));
    }

    method ApplyRelay()
      requires Valid() && matter.CallbackDue?
      modifies this, relay, relay.led
      ensures Took(Callback)
    {
      var ticks := BlinkTicks();
      var err := relay.Set(matter.value, true, ticks);
      matter := LedDue(matter.value);
      Record(Callback);
    }

    method ApplyLed()
      requires Valid() && matter.LedDue?
      modifies this, relay.led
      ensures Took(CallbackLed)
    {
      var ticks := BlinkTicks();
      relay.led.SetRelay(matter.value, ticks);
      matter := MatterIdle;
      Record(CallbackLed);
    }

    /* ---- Interference ---- */

    /** One thread went on while the other kept its place: `app` names the thread that kept it. */
    twostate predicate Interfered(app: bool)
      reads this, relay, relay.led
    {
      && Valid() && old(trace) <= trace && Thread(trace, app) == Thread(old(trace), app)
      && (if app then this.app == old(this.app)
          else matter == old(matter) && onOff == old(onOff) && pending >= old(pending))
    }

    method MatterStarts()
      requires Valid() && matter.MatterIdle?
      modifies this, relay, relay.led
      ensures Interfered(true)
    {
      if {
        case pending > 0 => TakeLambda();
        case true => var value: bool :| true; WriteFromController(value, true);
        case true => WriteFromController(onOff, false);
      }
    }

    method MatterContinues()
      requires Valid() && !matter.MatterIdle?
      modifies this, relay, relay.led
      ensures Interfered(true)
    {
      if {
        case matter.LambdaRead? => SetAttribute(true);
        case matter.LambdaRead? && onOff == matter.value => SetAttribute(false);
        case matter.CallbackDue? => ApplyRelay();
        case matter.LedDue? => ApplyLed();
      }
    }

    /** Any number of steps of the Matter thread, taken while the app task is between two of its own. */
    method MatterThread()
      requires Valid()
      modifies this, relay, relay.led
      ensures Interfered(true)
    {
      var steps: nat :| true;
      while steps > 0
        invariant Interfered(true)
      {
        if matter.MatterIdle? {
          MatterStarts();
        } else {
          MatterContinues();
        }
        steps := steps - 1;
      }
    }

    method AppStarts()
      requires Valid() && app.AppIdle?
      modifies this, relay, relay.led
      ensures Interfered(false)
    {
      if {
        case true => ReadButton();
        case relay.on => SeeOverPower();
      }
    }

    method AppContinues()
      requires Valid() && !app.AppIdle?
      modifies this, relay, relay.led
      ensures Interfered(false)
    {
      match app
      case Pressed(_) => SwitchFromButton();
      case Switched => ReadBackRelay();
      case ReadBack(_) => ShowReadBack();
      case Tripping => OpenRelay();
      case Unposted => UpdateClusterState();
    }

    /** Any number of steps of the app task, taken while the Matter thread is between two of its own. */
    method AppThread()
      requires Valid()
      modifies this, relay, relay.led
      ensures Interfered(false)
    {
      var steps: nat :| true;
      while steps > 0
        invariant Interfered(false)
      {
        if app.AppIdle? {
          AppStarts();
        } else {
          AppContinues();
        }
        steps := steps - 1;
      }
    }

    /* ---- The handlers ---- */

    /** The first half of a short press: decide and switch. */
    method Toggle()
      requires Valid() && app.AppIdle?
      modifies this, relay, relay.led
      ensures Valid() && app.Switched? && old(trace) <= trace
      ensures relay.on == !old(relay.on)
      ensures Thread(trace, true) == Thread(old(trace), true) + [Press, SwitchRelay]
    {
      ReadButton();
      MatterThread();
      SwitchFromButton();
    }

    /** The second half: show the relay as read back, and report it. */
    method ShowAndReport()
      requires Valid() && app.Switched?
      modifies this, relay, relay.led
      ensures Valid() && app.AppIdle? && old(trace) <= trace && pending > 0
      ensures Thread(trace, true) == Thread(old(trace), true) + [ReadRelay, ShowRelay, Post]
    {
      ReadBackRelay();
      MatterThread();
      ShowReadBack();
      MatterThread();
      UpdateClusterState();
    }

    /** A short press: toggle the relay, show it, report it. */
    method ButtonEventHandler()
      requires Valid() && app.AppIdle?
      modifies this, relay, relay.led
      ensures Valid() && app.AppIdle? && old(trace) <= trace && pending > 0
      ensures Thread(trace, true) == Thread(old(trace), true) + [Press, SwitchRelay, ReadRelay, ShowRelay, Post]
    {
      Toggle();
      MatterThread();
      ShowAndReport();
    }

    method OpenAndReport()
      requires Valid() && app.Tripping?
      modifies this, relay, relay.led
      ensures Valid() && app.AppIdle? && old(trace) <= trace && pending > 0
      ensures Thread(trace, true) == Thread(old(trace), true) + [TripRelay, Post]
    {
      OpenRelay();
      MatterThread();
      UpdateClusterState();
    }

    /** The end of CheckOverPower: opens the relay if it is on, and reports it. */
    method TripIfOn()
      requires Valid() && app.AppIdle?
      modifies this, relay, relay.led
      ensures Valid() && app.AppIdle? && old(trace) <= trace
      ensures Thread(trace, true)
              == Thread(old(trace), true) + (if old(relay.on) then [OverPower, TripRelay, Post] else [])
    {
      var on := relay.IsOn();
      if !on {
        return;
      }
      SeeOverPower();
      MatterThread();
      OpenAndReport();
    }

    /** MatterPostAttributeChangeCallback for the OnOff attribute. */
    method PostAttributeChange()
      requires Valid() && matter.CallbackDue?
      modifies this, relay, relay.led
      ensures Valid() && matter.MatterIdle? && old(trace) <= trace && onOff == old(onOff)
      ensures Thread(trace, false) == Thread(old(trace), false) + [Callback, CallbackLed]
    {
      ApplyRelay();
      AppThread();
      ApplyLed();
    }

    /** The attribute write of a lambda and what follows from it. */
    method FinishLambda(called: bool)
      requires Valid() && matter.LambdaRead? && (onOff != matter.value ==> called)
      modifies this, relay, relay.led
      ensures Valid() && matter.MatterIdle? && old(trace) <= trace && onOff == old(matter).value
      ensures Thread(trace, false) == Thread(old(trace), false) + [WriteAttribute(called)]
                                      + (if called then [Callback, CallbackLed] else [])
    {
      SetAttribute(called);
      AppThread();
      if called {
        PostAttributeChange();
      }
    }

    /** One scheduled lambda runs to its end on the Matter thread. */
    method RunLambda(called: bool)
      requires Valid() && matter.MatterIdle? && pending > 0
      modifies this, relay, relay.led
      ensures Valid() && matter.MatterIdle? && old(trace) <= trace && onOff == old(relay.on)
      ensures var through := called || old(onOff) != onOff;
              Thread(trace, false) == Thread(old(trace), false) + [StartLambda, WriteAttribute(through)]
                                      + (if through then [Callback, CallbackLed] else [])
    {
      TakeLambda();
      AppThread();
      FinishLambda(called || onOff != matter.value);
    }

    /** A controller writes the attribute. */
    method RunControllerWrite(value: bool, called: bool)
      requires Valid() && matter.MatterIdle?
      modifies this, relay, relay.led
      ensures Valid() && matter.MatterIdle? && old(trace) <= trace && onOff == value
      ensures var through := called || old(onOff) != value;
              Thread(trace, false) == Thread(old(trace), false) + [ControllerWrite(value, through)]
                                      + (if through then [Callback, CallbackLed] else [])
    {
      var through := called || onOff != value;
      WriteFromController(value, through);
      AppThread();
      if through {
        PostAttributeChange();
      }
    }

    /** With both threads idle and nothing scheduled, relay and attribute agree. */
    lemma QuiescentAgrees()
      requires Valid() && app.AppIdle? && matter.MatterIdle? && pending == 0
      ensures relay.on == onOff
    {
      RunAgrees(stored, trace);
    }
  }
}
