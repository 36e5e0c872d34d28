/**
 The relay, the OnOff attribute and the relay LED shared by the app task and the Matter
 thread (src/app_task.cpp, src/zcl_callbacks.cpp, the trip in src/bl0937.cpp), as a
 two-thread step system. A step is one call of RelayIsOn, RelaySet, StatusLedSetRelayState,
 an attribute write, or one enqueuing or dequeuing of a lambda.
 */
module OnOffBridge {
  /** The app task: idle; the button handler or the trip has decided; the relay is switched; the state to show
      was read back; the cluster update is still to be posted. */
  datatype AppPc =
    | AppIdle
    | Pressed(target: bool)
    | Tripping
    | Switched
    | ReadBack(shown: bool)
    | Unposted

  /** The Matter thread: idle; a lambda has read the relay; a written attribute owes its callback; the callback
      has set the relay and owes the LED. */
  datatype MatterPc =
    | MatterIdle
    | LambdaRead(value: bool)
    | CallbackDue(value: bool)
    | LedDue(value: bool)

  /** What the threads share, and where they are. `led` is the relay state the LED module knows. */
  datatype Bridge = Bridge(relay: bool, led: bool, onOff: bool, pending: nat, app: AppPc, matter: MatterPc)

  /** `called` tells whether writing an unchanged value still runs the attribute callback: left open. */
  datatype Event =
    | Press
    | SwitchRelay
    | ReadRelay
    | ShowRelay
    | Post
    | OverPower
    | TripRelay
    | StartLambda
    | WriteAttribute(called: bool)
    | ControllerWrite(value: bool, called: bool)
    | Callback
    | CallbackLed

  predicate Enabled(b: Bridge, e: Event) {
    match e
    case Press => b.app.AppIdle?
    case SwitchRelay => b.app.Pressed?
    case ReadRelay => b.app.Switched?
    case ShowRelay => b.app.ReadBack?
    case Post => b.app.Unposted?
    case OverPower => b.app.AppIdle? && b.relay
    case TripRelay => b.app.Tripping?
    case StartLambda => b.matter.MatterIdle? && b.pending > 0
    case WriteAttribute(called) => b.matter.LambdaRead? && (b.onOff != b.matter.value ==> called)
    case ControllerWrite(value, called) => b.matter.MatterIdle? && (b.onOff != value ==> called)
    case Callback => b.matter.CallbackDue?
    case CallbackLed => b.matter.LedDue?
  }

  function StepEnabled(b: Bridge, e: Event): Bridge
    requires Enabled(b, e)
  {
    match e
    case Press => b.(app := Pressed(!b.relay))
    case SwitchRelay => b.(relay := b.app.target, led := b.app.target, app := Switched)
    case ReadRelay => b.(app := ReadBack(b.relay))
    case ShowRelay => b.(led := b.app.shown, app := Unposted)
    case Post => b.(pending := b.pending + 1, app := AppIdle)
    case OverPower => b.(app := Tripping)
    case TripRelay => b.(relay := false, led := false, app := Unposted)
    case StartLambda => b.(pending := b.pending - 1, matter := LambdaRead(b.relay))
    case WriteAttribute(called) =>
      b.(onOff := b.matter.value, matter := if called then CallbackDue(b.matter.value) else MatterIdle)
    case ControllerWrite(value, called) =>
      b.(onOff := value, matter := if called then CallbackDue(value) else MatterIdle)
    case Callback => b.(relay := b.matter.value, led := b.matter.value, matter := LedDue(b.matter.value))
    case CallbackLed => b.(led := b.matter.value, matter := MatterIdle)
  }

  function Step(b: Bridge, e: Event): Bridge {
    if Enabled(b, e) then StepEnabled(b, e) else b
  }

  /** After boot restore: relay, LED and attribute agree on the stored value. */
  function Booted(stored: bool): Bridge {
    Bridge(stored, stored, stored, 0, AppIdle, MatterIdle)
  }

  function Run(b: Bridge, events: seq<Event>): Bridge {
    if events == [] then b else Step(Run(b, events[..|events| - 1]), events[|events| - 1])
  }

  lemma RunExtends(b: Bridge, events: seq<Event>, e: Event)
    ensures Run(b, events + [e]) == Step(Run(b, events), e)
  {
    assert (events + [e])[..|events|] == events;
  }

  /** Steps the environment cannot take by itself: everything except a press, a trip or a controller write. */
  predicate Internal(e: Event) {
    !e.Press? && !e.OverPower? && !e.ControllerWrite?
  }

  /** Nothing is under way. */
  predicate Quiescent(b: Bridge) {
    b.app.AppIdle? && b.matter.MatterIdle? && b.pending == 0
  }

  /** The app task has switched the relay and not posted the update yet. */
  predicate OwesPost(app: AppPc) {
    app.Switched? || app.ReadBack? || app.Unposted?
  }

  /* ---- Agreement ---- */

  /** If the relay differs from the attribute, an update is pending, about to be posted or being written, or
      the attribute owes its callback. A lambda whose reading is out of date has a successor. */
  predicate Agrees(b: Bridge) {
    && (b.relay != b.onOff ==>
          b.pending > 0 || OwesPost(b.app) || b.matter.LambdaRead? || b.matter == CallbackDue(b.onOff))
    && (b.matter.LambdaRead? && b.matter.value != b.relay ==> b.pending > 0 || OwesPost(b.app))
    && (b.matter.CallbackDue? || b.matter.LedDue? ==> b.matter.value == b.onOff)
  }

  lemma StepKeepsAgreement(b: Bridge, e: Event)
    requires Agrees(b)
    ensures Agrees(Step(b, e))
  {
  }

  /** In every reachable state the relay and the attribute agree up to work under way. */
  lemma {:induction false} RunAgrees(stored: bool, events: seq<Event>)
    ensures Agrees(Run(Booted(stored), events))
    ensures var b := Run(Booted(stored), events); Quiescent(b) ==> b.relay == b.onOff
  {
    if events != [] {
      RunAgrees(stored, events[..|events| - 1]);
      StepKeepsAgreement(Run(Booted(stored), events[..|events| - 1]), events[|events| - 1]);
    }
  }

  /* ---- No ping-pong ---- */

  function AppWork(app: AppPc): nat {
    match app
    case AppIdle => 0
    case Unposted => 5
    case ReadBack(_) => 6
    case Switched => 7
    case Tripping => 8
    case Pressed(_) => 8
  }

  function MatterWork(matter: MatterPc): nat {
    match matter
    case MatterIdle => 0
    case LedDue(_) => 1
    case CallbackDue(_) => 2
    case LambdaRead(_) => 3
  }

  function Work(b: Bridge): nat {
    4 * b.pending + AppWork(b.app) + MatterWork(b.matter)
  }

  /** A run of enabled internal steps only. */
  ghost predicate Settling(b: Bridge, events: seq<Event>) {
    forall i :: 0 <= i < |events| ==> Internal(events[i]) && Enabled(Run(b, events[..i]), events[i])
  }

  /** A settling run is a settling run and one more enabled internal step. */
  lemma SettlingPrefix(b: Bridge, events: seq<Event>)
    requires Settling(b, events) && events != []
    ensures Settling(b, events[..|events| - 1])
    ensures Internal(events[|events| - 1]) && Enabled(Run(b, events[..|events| - 1]), events[|events| - 1])
  {
    var before := events[..|events| - 1];
    forall i | 0 <= i < |before|
      ensures Internal(before[i]) && Enabled(Run(b, before[..i]), before[i])
    {
      assert before[..i] == events[..i];
    }
  }

  lemma InternalStepWorks(b: Bridge, e: Event)
    requires Internal(e) && Enabled(b, e)
    ensures Work(Step(b, e)) < Work(b)
  {
  }

  /** Without new input the threads stop after at most Work steps: the callback drives the relay but never
      posts another update. */
  lemma {:induction false} NoPingPong(b: Bridge, events: seq<Event>)
    requires Settling(b, events)
    ensures Work(Run(b, events)) + |events| <= Work(b)
  {
    if events != [] {
      SettlingPrefix(b, events);
      NoPingPong(b, events[..|events| - 1]);
      InternalStepWorks(Run(b, events[..|events| - 1]), events[|events| - 1]);
    }
  }

  /** They stop only when nothing is under way: some internal step is enabled in every other state. */
  lemma StuckOnlyWhenQuiescent(b: Bridge)
    ensures Quiescent(b) <==> forall e: Event | Internal(e) :: !Enabled(b, e)
  {
    if !Quiescent(b) {
      assert Internal(SwitchRelay) && Internal(ReadRelay) && Internal(ShowRelay) && Internal(Post)
             && Internal(TripRelay) && Internal(StartLambda) && Internal(WriteAttribute(true))
             && Internal(Callback) && Internal(CallbackLed);
      match b.app
      case Pressed(_) => assert Enabled(b, SwitchRelay);
      case Tripping => assert Enabled(b, TripRelay);
      case Switched => assert Enabled(b, ReadRelay);
      case ReadBack(_) => assert Enabled(b, ShowRelay);
      case Unposted => assert Enabled(b, Post);
      case AppIdle =>
        match b.matter
        case MatterIdle => assert Enabled(b, StartLambda);
        case LambdaRead(_) => assert Enabled(b, WriteAttribute(true));
        case CallbackDue(_) => assert Enabled(b, Callback);
        case LedDue(_) => assert Enabled(b, CallbackLed);
    }
  }

  /* ---- Which command survives ---- */

  /** The Matter thread has a different value in hand that it may still put on the relay. */
  predicate HoldsOther(b: Bridge, x: bool) {
    (b.matter.LambdaRead? || b.matter.CallbackDue?) && b.matter.value != x
  }

  /** The Matter thread has this value in hand and cannot but put it on the relay. */
  predicate HoldsFirmly(b: Bridge, x: bool) {
    b.matter == CallbackDue(x) || (b.matter == LambdaRead(x) && b.onOff != x)
  }

  /** The app task has decided on a value for the relay and not switched it yet. */
  predicate Decided(b: Bridge) {
    b.app.Pressed? || b.app.Tripping?
  }

  function Decision(b: Bridge): bool
    requires Decided(b)
  {
    b.app.Pressed? && b.app.target
  }

  /** The exact condition for the relay to end at x. Once decided, nothing else may be in hand, and a pending
      lambda may not read another value before the switch; after the switch it is the relay, unless the Matter
      thread changes it. */
  predicate WillEndAt(b: Bridge, x: bool) {
    && !HoldsOther(b, x)
    && if Decided(b) then Decision(b) == x && (b.pending == 0 || b.relay == x || HoldsFirmly(b, x))
       else b.relay == x || HoldsFirmly(b, x)
  }

  lemma StepKeepsEnd(b: Bridge, x: bool, e: Event)
    requires WillEndAt(b, x) && Internal(e)
    ensures WillEndAt(Step(b, e), x)
  {
  }

  lemma {:induction false} EndIsKept(b: Bridge, x: bool, events: seq<Event>)
    requires WillEndAt(b, x) && Settling(b, events)
    ensures WillEndAt(Run(b, events), x)
  {
    if events != [] {
      SettlingPrefix(b, events);
      EndIsKept(b, x, events[..|events| - 1]);
      StepKeepsEnd(Run(b, events[..|events| - 1]), x, events[|events| - 1]);
    }
  }

  function AppStep(app: AppPc): Event
    requires !app.AppIdle?
  {
    match app
    case Pressed(_) => SwitchRelay
    case Tripping => TripRelay
    case Switched => ReadRelay
    case ReadBack(_) => ShowRelay
    case Unposted => Post
  }

  /** A step of a schedule that takes the relay away from x: the app task switches it while the Matter thread
      holds the other value, and otherwise goes last. */
  function Against(b: Bridge, x: bool): Event
    requires !Quiescent(b)
  {
    if Decided(b) && HoldsOther(b, x) then AppStep(b.app)
    else
      match b.matter
      case LambdaRead(value) => WriteAttribute(value != x || b.onOff != x)
      case CallbackDue(_) => Callback
      case LedDue(_) => CallbackLed
      case MatterIdle => if b.pending > 0 then StartLambda else AppStep(b.app)
  }

  lemma AgainstIsPossible(b: Bridge, x: bool)
    requires !Quiescent(b)
    ensures Internal(Against(b, x)) && Enabled(b, Against(b, x))
  {
  }

  lemma AgainstStaysAway(b: Bridge, x: bool)
    requires !Quiescent(b) && !WillEndAt(b, x)
    ensures !WillEndAt(Step(b, Against(b, x)), x)
  {
  }

  lemma Then(b: Bridge, events: seq<Event>, e: Event) returns (longer: seq<Event>)
    ensures longer == events + [e] && Run(b, longer) == Step(Run(b, events), e)
  {
    longer := events + [e];
    RunExtends(b, events, e);
  }

  lemma Extend(b: Bridge, events: seq<Event>, e: Event) returns (longer: seq<Event>)
    requires Settling(b, events) && Internal(e) && Enabled(Run(b, events), e)
    ensures longer == events + [e] && Settling(b, longer) && Run(b, longer) == Step(Run(b, events), e)
  {
    longer := events + [e];
    RunExtends(b, events, e);
    forall i | 0 <= i < |longer|
      ensures Internal(longer[i]) && Enabled(Run(b, longer[..i]), longer[i])
    {
      assert longer[..i] == events[..i];
    }
  }

  /** From any state the system can settle; and it can settle away from x unless the condition holds. */
  lemma SettleAgainst(b: Bridge, events: seq<Event>, x: bool) returns (longer: seq<Event>)
    requires Settling(b, events)
    ensures Settling(b, longer) && Quiescent(Run(b, longer))
    ensures !WillEndAt(Run(b, events), x) ==> Run(b, longer).relay != x
    decreases Work(Run(b, events))
  {
    var now := Run(b, events);
    if Quiescent(now) {
      longer := events;
    } else {
      AgainstIsPossible(now, x);
      InternalStepWorks(now, Against(now, x));
      longer := Extend(b, events, Against(now, x));
      if !WillEndAt(now, x) {
        AgainstStaysAway(now, x);
      }
      longer := SettleAgainst(b, longer, x);
    }
  }

  /** However the system settles, the relay ends at x. */
  ghost predicate AlwaysEndsAt(b: Bridge, x: bool) {
    forall events | Settling(b, events) && Quiescent(Run(b, events)) :: Run(b, events).relay == x
  }

  /** In every state, for both values of the relay. */
  lemma EndsAtIff(b: Bridge, x: bool)
    ensures AlwaysEndsAt(b, x) <==> WillEndAt(b, x)
  {
    if WillEndAt(b, x) {
      forall events | Settling(b, events) && Quiescent(Run(b, events))
        ensures Run(b, events).relay == x
      {
        EndIsKept(b, x, events);
      }
    } else {
      var events := SettleAgainst(b, [], x);
    }
  }

  /** The relay's value survives, at any point where the app task has no switch under way, exactly when the Matter
      thread does not hold the other value. The last command does not always win. */
  lemma SwitchSurvivesIff(b: Bridge)
    requires !Decided(b)
    ensures AlwaysEndsAt(b, b.relay) <==> !HoldsOther(b, b.relay)
  {
    EndsAtIff(b, b.relay);
  }

  /** A trip keeps the relay open, once no input follows, exactly when the Matter thread does not hold a value
      that closes it at the moment of the trip. */
  lemma TripSurvivesIff(b: Bridge)
    requires b.app.Tripping?
    ensures AlwaysEndsAt(Step(b, TripRelay), false) <==> !HoldsOther(b, false)
  {
    EndsAtIff(Step(b, TripRelay), false);
  }

  /** The app task's command counted from its decision, a press or a trip: what can be lost before the switch
      comes in addition. Pending lambdas are harmless only if they will read the commanded value. */
  lemma DecisionSurvivesIff(b: Bridge)
    requires Decided(b)
    ensures AlwaysEndsAt(b, Decision(b))
       <==> && !HoldsOther(b, Decision(b))
            && (b.pending == 0 || b.relay == Decision(b) || HoldsFirmly(b, Decision(b)))
  {
    EndsAtIff(b, Decision(b));
  }

  /** A controller's command counted from its write. If the write runs the callback, only a contrary decision of
      the app task takes it back; if not, the write does nothing for the relay. */
  lemma ControllerSurvivesIff(b: Bridge, value: bool, called: bool)
    requires Enabled(b, ControllerWrite(value, called))
    ensures AlwaysEndsAt(Step(b, ControllerWrite(value, called)), value)
       <==> if Decided(b) then Decision(b) == value && (called || b.pending == 0 || b.relay == value)
            else called || b.relay == value
  {
    EndsAtIff(Step(b, ControllerWrite(value, called)), value);
  }

  /** Both commands of the app task can be lost from boot: a press, when a lambda has read the relay just before
      it is switched back. */
  lemma PressCanBeLost() returns (events: seq<Event>, settling: seq<Event>)
    ensures var b := Run(Booted(false), events);
            && b.app.Switched? && !b.relay && Settling(b, settling)
            && Quiescent(Run(b, settling)) && Run(b, settling).relay
  {
    var b := Booted(false);
    events := Then(b, [], Press);
    events := Then(b, events, SwitchRelay);
    events := Then(b, events, ReadRelay);
    events := Then(b, events, ShowRelay);
    events := Then(b, events, Post);
    events := Then(b, events, Press);
    events := Then(b, events, StartLambda);
    events := Then(b, events, SwitchRelay);
    settling := SettleAgainst(Run(b, events), [], false);
  }

  /** And a trip, when a controller writes `on` again just before: the relay ends closed. */
  lemma TripCanBeLost() returns (events: seq<Event>, settling: seq<Event>)
    ensures var b := Run(Booted(true), events);
            && b.app.Unposted? && !b.relay && Settling(b, settling)
            && Quiescent(Run(b, settling)) && Run(b, settling).relay
  {
    var b := Booted(true);
    events := Then(b, [], ControllerWrite(true, true));
    events := Then(b, events, OverPower);
    events := Then(b, events, TripRelay);
    settling := SettleAgainst(Run(b, events), [], false);
  }

  /* ---- The relay LED ---- */

  /** Every write of a lambda runs the callback, also when the attribute already had the value. */
  predicate Eager(events: seq<Event>) {
    forall e <- events :: e.WriteAttribute? ==> e.called
  }

  predicate LedAgrees(b: Bridge) {
    b.led != b.relay ==>
      || b.pending > 0 || OwesPost(b.app) || b.matter.LambdaRead? || b.matter.CallbackDue?
      || b.matter == LedDue(b.relay)
  }

  lemma StepKeepsLed(b: Bridge, e: Event)
    requires Agrees(b) && LedAgrees(b) && (e.WriteAttribute? ==> e.called)
    ensures LedAgrees(Step(b, e))
  {
  }

  /** If lambdas always trigger the callback, the LED shows the relay in every quiescent state. */
  lemma {:induction false} LedFollowsIfEager(stored: bool, events: seq<Event>)
    requires Eager(events)
    ensures LedAgrees(Run(Booted(stored), events))
    ensures var b := Run(Booted(stored), events); Quiescent(b) ==> b.led == b.relay
  {
    if events != [] {
      var before := events[..|events| - 1];
      assert forall i :: 0 <= i < |before| ==> before[i] in events;
      assert events[|events| - 1] in events;
      LedFollowsIfEager(stored, before);
      RunAgrees(stored, before);
      StepKeepsLed(Run(Booted(stored), before), events[|events| - 1]);
    }
  }

  /** The callback runs exactly when a write changes the attribute. */
  predicate OnChangeOnly(b: Bridge, e: Event) {
    match e
    case WriteAttribute(called) => b.matter.LambdaRead? && called == (b.onOff != b.matter.value)
    case ControllerWrite(value, called) => called == (b.onOff != value)
    case _ => true
  }

  ghost predicate CallsOnChange(b: Bridge, events: seq<Event>) {
    forall i :: 0 <= i < |events| ==> OnChangeOnly(Run(b, events[..i]), events[i])
  }

  /** If callbacks run on changes only: the Matter thread will run one for the value in hand, and so put it on
      the relay and the LED. */
  predicate WillCallBack(b: Bridge) {
    b.matter.CallbackDue? || (b.matter.LambdaRead? && b.matter.value != b.onOff)
  }

  /** The exact condition for the LED to end right under callbacks on change, by what the app task is at. */
  predicate LedWillBeRight(b: Bridge) {
    match b.app
    case Pressed(target) =>
      if WillCallBack(b) then b.matter.value == target
      else b.pending > 0 && b.relay != b.onOff ==> b.relay == target
    case Switched => WillCallBack(b) ==> b.matter.value == b.relay
    case ReadBack(shown) =>
      if WillCallBack(b) then b.matter.value == shown
      else shown == b.relay || (b.pending == 0 && b.relay != b.onOff)
    case Tripping => true
    case _ =>
      WillCallBack(b) || b.relay != b.onOff || (if b.matter.LedDue? then b.matter.value else b.led) == b.relay
  }

  lemma StepKeepsLedRight(b: Bridge, e: Event)
    requires Agrees(b) && Internal(e) && Enabled(b, e) && OnChangeOnly(b, e)
    ensures LedWillBeRight(b) ==> LedWillBeRight(Step(b, e))
    ensures (b.app.AppIdle? || b.app.Unposted?) && LedWillBeRight(Step(b, e)) ==> LedWillBeRight(b)
  {
  }

  /** A step towards quiescence that does not mend the LED. */
  function NextStep(b: Bridge): Event
    requires !Quiescent(b)
  {
    if b.app.Switched? then ReadRelay
    else if b.app.Pressed? && (WillCallBack(b) || (b.matter.MatterIdle? && b.pending == 0)) then SwitchRelay
    else
      match b.matter
      case LambdaRead(value) => WriteAttribute(value != b.onOff)
      case CallbackDue(_) => Callback
      case LedDue(_) => CallbackLed
      case MatterIdle =>
        if b.pending > 0 then StartLambda
        else match b.app
             case ReadBack(_) => ShowRelay
             case Tripping => TripRelay
             case Pressed(_) => SwitchRelay
             case _ => Post
  }

  lemma NextStepLeavesLedWrong(b: Bridge)
    requires Agrees(b) && !Quiescent(b)
    ensures var e := NextStep(b);
            && Internal(e) && Enabled(b, e) && OnChangeOnly(b, e)
            && (!LedWillBeRight(b) ==> !LedWillBeRight(Step(b, e)))
  {
  }

  /** A settling run under callbacks on change. */
  ghost predicate SettlesOnChange(b: Bridge, events: seq<Event>) {
    Settling(b, events) && CallsOnChange(b, events)
  }

  lemma OnChangePrefix(b: Bridge, events: seq<Event>)
    requires SettlesOnChange(b, events) && events != []
    ensures var before, e := events[..|events| - 1], events[|events| - 1];
            && SettlesOnChange(b, before)
            && Internal(e) && Enabled(Run(b, before), e) && OnChangeOnly(Run(b, before), e)
  {
    SettlingPrefix(b, events);
    var before := events[..|events| - 1];
    forall i | 0 <= i < |before| ensures OnChangeOnly(Run(b, before[..i]), before[i]) {
      assert before[..i] == events[..i];
    }
  }

  lemma {:induction false} LedRightIsKept(b: Bridge, events: seq<Event>)
    requires Agrees(b) && SettlesOnChange(b, events)
    ensures Agrees(Run(b, events))
    ensures LedWillBeRight(b) ==> LedWillBeRight(Run(b, events))
    ensures b.app.AppIdle? || b.app.Unposted? ==>
              && (Run(b, events).app.AppIdle? || Run(b, events).app.Unposted?)
              && (LedWillBeRight(Run(b, events)) ==> LedWillBeRight(b))
  {
    if events != [] {
      OnChangePrefix(b, events);
      var before, e := events[..|events| - 1], events[|events| - 1];
      LedRightIsKept(b, before);
      StepKeepsAgreement(Run(b, before), e);
      StepKeepsLedRight(Run(b, before), e);
    }
  }

  /** Every state can settle under callbacks on change, and if the condition fails it can settle with the LED
      wrong. */
  lemma SettleOnChange(b: Bridge, events: seq<Event>) returns (longer: seq<Event>)
    requires Agrees(b) && SettlesOnChange(b, events)
    ensures SettlesOnChange(b, longer) && Quiescent(Run(b, longer))
    ensures !LedWillBeRight(Run(b, events)) ==> Run(b, longer).led != Run(b, longer).relay
    decreases Work(Run(b, events))
  {
    var now := Run(b, events);
    LedRightIsKept(b, events);
    if Quiescent(now) {
      longer := events;
    } else {
      NextStepLeavesLedWrong(now);
      InternalStepWorks(now, NextStep(now));
      longer := Extend(b, events, NextStep(now));
      longer := ExtendOnChange(b, events, NextStep(now));
      longer := SettleOnChange(b, longer);
    }
  }

  /** If callbacks run on changes only, every way to settle leaves the LED showing the relay exactly if the
      condition holds. Once the app task has shown its state, no schedule matters any more. */
  lemma LedEndsRightIff(b: Bridge)
    requires Agrees(b)
    ensures (forall events | SettlesOnChange(b, events) && Quiescent(Run(b, events)) ::
               Run(b, events).led == Run(b, events).relay)
       <==> LedWillBeRight(b)
    ensures b.app.AppIdle? || b.app.Unposted? ==>
              forall events | SettlesOnChange(b, events) && Quiescent(Run(b, events)) ::
                Run(b, events).led == Run(b, events).relay <==> LedWillBeRight(b)
  {
    forall events | SettlesOnChange(b, events) && Quiescent(Run(b, events))
      ensures LedWillBeRight(b) ==> Run(b, events).led == Run(b, events).relay
      ensures (b.app.AppIdle? || b.app.Unposted?) && Run(b, events).led == Run(b, events).relay ==> LedWillBeRight(b)
    {
      LedRightIsKept(b, events);
    }
    var events := SettleOnChange(b, []);
  }

  lemma ExtendOnChange(b: Bridge, events: seq<Event>, e: Event) returns (longer: seq<Event>)
    requires CallsOnChange(b, events)
    requires Enabled(Run(b, events), e) && OnChangeOnly(Run(b, events), e)
    ensures longer == events + [e] && Run(b, longer) == Step(Run(b, events), e)
    ensures CallsOnChange(b, longer)
  {
    longer := events + [e];
    RunExtends(b, events, e);
    forall i | 0 <= i < |longer|
      ensures OnChangeOnly(Run(b, longer[..i]), longer[i])
    {
      assert longer[..i] == events[..i];
    }
  }

  /** A controller write that changes the attribute, with its callback, while the app task waits. */
  lemma ControllerSwitches(b: Bridge, events: seq<Event>, before: Bridge) returns (longer: seq<Event>)
    requires CallsOnChange(b, events) && Run(b, events) == before && before.matter == MatterIdle
    ensures CallsOnChange(b, longer)
    ensures Run(b, longer) == before.(relay := !before.onOff, led := !before.onOff, onOff := !before.onOff)
  {
    longer := ExtendOnChange(b, events, ControllerWrite(!before.onOff, true));
    longer := ExtendOnChange(b, longer, Callback);
    longer := ExtendOnChange(b, longer, CallbackLed);
  }

  lemma ButtonReads(b: Bridge) returns (events: seq<Event>)
    requires b.app == AppIdle
    ensures CallsOnChange(b, events)
    ensures Run(b, events) == b.(relay := !b.relay, led := !b.relay, app := ReadBack(!b.relay))
  {
    events := ExtendOnChange(b, [], Press);
    events := ExtendOnChange(b, events, SwitchRelay);
    events := ExtendOnChange(b, events, ReadRelay);
  }

  /** If it runs on changes only, the LED can stay wrong for good: two controller writes between the button
      handler's reading of the relay and its call to the LED module make that reading stale, and the lambda it
      posts finds nothing to change. */
  lemma LedCanStayWrong(stored: bool) returns (events: seq<Event>)
    ensures CallsOnChange(Booted(stored), events)
    ensures Quiescent(Run(Booted(stored), events))
    ensures Run(Booted(stored), events).led != Run(Booted(stored), events).relay
  {
    var b := Booted(stored);
    events := ButtonReads(b);
    var pressed := b.(relay := !stored, led := !stored, app := ReadBack(!stored));
    events := ControllerSwitches(b, events, pressed);
    events := ControllerSwitches(b, events, pressed.(onOff := !stored));
    events := ExtendOnChange(b, events, ShowRelay);
    events := ExtendOnChange(b, events, Post);
    events := ExtendOnChange(b, events, StartLambda);
    events := ExtendOnChange(b, events, WriteAttribute(false));
  }
}
