/**
 * The value types of the pin controller library that the subscription
 * multiplexer consumes (System.Device.Gpio), plus the error outcome that the
 * library's exceptions are modelled by.
 */
module Gpio {

  /** Electrical configuration of a pin. */
  datatype PinMode = Input | Output | InputPullDown | InputPullUp

  /**
   * The edge kinds a pin wait can observe. The library type is a flags
   * enumeration with two defined bits; the four constructors are its four
   * combinations.
   */
  datatype PinEventTypes = None | Rising | Falling | RisingOrFalling

  /** What one pin wait (or the clock's delay) reports when it completes. */
  datatype WaitForEventResult = WaitForEventResult(eventTypes: PinEventTypes, timedOut: bool)

  /** Number of TimeSpan ticks in one millisecond. */
  const TicksPerMillisecond: int := 10000

  /**
   * The exceptions the subscription library throws, one constructor per
   * throw site.
   */
  datatype Error =
    | PinNumberOutOfRange(pinNumber: int)       // ArgumentOutOfRangeException on pinNumber
    | OutputNotSupported                        // ArgumentOutOfRangeException on pinMode
    | AlreadyExists(pinNumber: int, eventType: PinEventTypes)
    | ConflictingPinModes(pinNumber: int)
    | NotFound(pinNumber: int, eventType: PinEventTypes)
    | NullSubscriptions                         // ArgumentNullException
    | EmptyWaitPool                             // Task.WhenAny over no tasks
    | DelayOutOfRange(ticks: int)               // Task.Delay's ArgumentOutOfRangeException

  /** A value or the exception that replaced it. */
  datatype Result<+T> = Success(value: T) | Failure(error: Error)
}
