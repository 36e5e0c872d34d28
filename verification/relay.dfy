/** src/relay.cpp: the relay pin, refused before initialisation. */
module Relay {
  import StatusLed

  /** Return codes: success, the port is not ready, or the driver's own error. */
  datatype Errno = Ok | NoDevice | Driver

  class Relay {
    const led: StatusLed.StatusLed
    var initialised: bool
    var on: bool
    var pin: bool

    /** The pin carries what was last commanded, and is off before initialisation. */
    ghost predicate Valid()
      reads this
    {
      on == pin && (!initialised ==> !on)
    }

    /** Zeroed statics. */
    constructor (led: StatusLed.StatusLed)
      ensures Valid() && this.led == led && !initialised && !on
    {
      this.led := led;
      initialised, on, pin := false, false, false;
    }

    /** RelayInit. */
    method Init(portReady: bool, configureOk: bool) returns (err: Errno)
      requires Valid()
      modifies this
      ensures Valid()
      ensures err == if !portReady then NoDevice else if !configureOk then Driver else Ok
      ensures if err == Ok then initialised && !on else unchanged(this)
    {
      if !portReady {
        return NoDevice;
      }
      if !configureOk {
        return Driver;
      }
      pin := false;
      initialised := true;
      on := false;
      return Ok;
    }

    /** RelaySet: nothing changes on an error; on success the relay and the LED module follow. Ticks of the blink
        timer may land inside. */
    method Set(value: bool, gpioOk: bool, ticks: nat) returns (err: Errno)
      requires Valid()
      modifies this, led
      ensures Valid() && initialised == old(initialised)
      ensures err == if !initialised then NoDevice else if !gpioOk then Driver else Ok
      ensures err == Ok ==> on == led.relayOn == value
      ensures err == Ok ==> led.State() == StatusLed.SetRelayState(old(led.State()), value, ticks)
      ensures err != Ok ==> unchanged(this) && unchanged(led)
    {
      if !initialised {
        return NoDevice;
      }
      if !gpioOk {
        return Driver;
      }
      pin := value;
      on := value;
      led.SetRelay(value, ticks);
      return Ok;
    }

    method IsOn() returns (r: bool)
      requires Valid()
      ensures r == on == pin
    {
      r := on;
    }
  }
}
