/**
 * The simulator's virtual devices: a device sees every GPIO write and may
 * answer GPIO reads of the pins it owns. The default device ignores writes and
 * owns no pin; the HC-SR04 ultrasonic sensor remembers when its trigger pin was
 * last driven high and answers reads of its echo pin with a pulse whose width
 * encodes the simulated distance.
 */
module Devices {
  import opened Wrappers

  /**
   * What an input handler may answer: nothing (the device does not own the
   * pin), or the level 0 or 1.
   */
  predicate InputAnswer(r: Option<int>) {
    r.None? || r.value == 0 || r.value == 1
  }

  /** The default device: no state, no effect, owns no pin. */
  class VirtualDevice {

    constructor ()
    {
    }

    /** A GPIO write: the default device ignores it. */
    method HandleOutput(pin: int, value: int, currentTime: real)
      ensures unchanged(this)
    {
    }

    /** A GPIO read: the default device owns no pin, so it never answers. */
    function HandleInput(pin: int, currentTime: real): (r: Option<int>)
      ensures r.None? && InputAnswer(r)
    {
      None
    }

    /** A PWM change: the default device ignores it. */
    method HandlePwm(pin: int, value: int, currentTime: real)
      ensures unchanged(this)
    {
    }
  }

  /** Delay between the trigger and the start of the echo pulse, in seconds. */
  const StartDelay: real := 0.0001

  /** Width in seconds of the echo pulse for `distance` centimetres: the round trip at 34300 cm/s. */
  function PulseWidth(distance: real): real {
    distance / 17150.0
  }

  /**
   * The level of the echo pin `elapsed` seconds after the last trigger: low
   * during the start delay, high for one pulse width, then low again.
   */
  function Echo(elapsed: real, distance: real): (level: int)
    ensures level == 0 || level == 1
    ensures level == 1 <==> StartDelay <= elapsed < StartDelay + PulseWidth(distance)
  {
    if elapsed < StartDelay then 0
    else if elapsed < StartDelay + PulseWidth(distance) then 1
    else 0
  }

  /** Reading the pulse back with the sensor's formula, distance = width * 34300 / 2, gives the distance. */
  lemma PulseGivesDistance(distance: real)
    ensures PulseWidth(distance) * 34300.0 / 2.0 == distance
  {
  }

  /** A farther object keeps the echo high for at least as long: the pulse never shrinks with distance. */
  lemma {:induction false} EchoLongerWhenFarther(elapsed: real, near: real, far: real)
    requires near <= far
    ensures Echo(elapsed, near) <= Echo(elapsed, far)
  {
    assert PulseWidth(near) <= PulseWidth(far);
  }

  /** The simulated HC-SR04 ultrasonic distance sensor. */
  class HCSR04 {
    const trigPin: int
    const echoPin: int
    /** Distance to the simulated object, in centimetres. */
    const distance: real
    /** Simulation time of the last rising write on the trigger pin. */
    var lastTrigTime: real

    /** A sensor on the given pins that has never been triggered; the object is 50 cm away unless said otherwise. */
    constructor (trigPin: int, echoPin: int, distance: real := 50.0)
      ensures this.trigPin == trigPin && this.echoPin == echoPin && this.distance == distance
      ensures lastTrigTime == 0.0
    {
      this.trigPin := trigPin;
      this.echoPin := echoPin;
      this.distance := distance;
      lastTrigTime := 0.0;
    }

    /** A GPIO write: driving the trigger pin to 1 records the time; any other write changes nothing. */
    method HandleOutput(pin: int, value: int, currentTime: real)
      modifies this
      ensures lastTrigTime == if pin == trigPin && value == 1 then currentTime else old(lastTrigTime)
    {
      if pin == trigPin && value == 1 {
        lastTrigTime := currentTime;
      }
    }

    /**
     * A GPIO read: the sensor answers only for its echo pin, with the echo
     * level at the time elapsed since the last trigger; reading changes nothing.
     */
    function HandleInput(pin: int, currentTime: real): (r: Option<int>)
      reads this
      ensures r.None? <==> pin != echoPin
      ensures InputAnswer(r)
      ensures r == Some(1) <==> pin == echoPin && StartDelay <= currentTime - lastTrigTime < StartDelay + PulseWidth(distance)
    {
      if pin == echoPin then Some(Echo(currentTime - lastTrigTime, distance)) else None
    }

    /** A PWM change: the sensor ignores it. */
    method HandlePwm(pin: int, value: int, currentTime: real)
      ensures unchanged(this)
    {
    }
  }
}
