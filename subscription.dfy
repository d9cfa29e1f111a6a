/**
 * One (pin, mode, edge type) registration, as the validating constructor of
 * Subscription builds it, and the mutable list object that holds them.
 */
module Subscriptions {
  import opened Gpio

  /** The three get-only properties of a subscription. */
  datatype Subscription = Subscription(pinNumber: int, pinMode: PinMode, eventType: PinEventTypes)
  {
    /** What the constructor's two guard clauses establish. */
    predicate Valid() {
      pinNumber >= 0 && pinMode != Output
    }
  }

  /**
   * The constructor: the pin number is checked first, the mode second, and
   * the event type is stored without any check.
   */
  function NewSubscription(pinNumber: int, pinMode: PinMode, eventType: PinEventTypes): (r: Result<Subscription>)
    ensures r.Success? <==> pinNumber >= 0 && pinMode != Output
    ensures pinNumber < 0 ==> r == Failure(PinNumberOutOfRange(pinNumber))
    ensures pinNumber >= 0 && pinMode == Output ==> r == Failure(OutputNotSupported)
    ensures r.Success? ==> r.value.Valid()
    ensures r.Success? ==>
      r.value.pinNumber == pinNumber && r.value.pinMode == pinMode && r.value.eventType == eventType
  {
    if pinNumber < 0 then
      Failure(PinNumberOutOfRange(pinNumber))
    else if pinMode == Output then
      Failure(OutputNotSupported)
    else
      Success(Subscription(pinNumber, pinMode, eventType))
  }

  /**
   * The list object (a List<Subscription>) that a subscription collection
   * owns and mutates, and that a service built from it keeps a reference to.
   */
  class SubscriptionList {
    var items: seq<Subscription>

    constructor ()
      ensures items == []
    {
      items := [];
    }
  }
}

/** The value a running service yields for each completed wait. */
module Events {
  import opened Gpio
  import opened Subscriptions

  /** The pin number that tags clock events. */
  const ClockPin: int := -1

  /** Get-only pin number, wait result and tick delta. */
  datatype SubscriptionEvent = SubscriptionEvent(pinNumber: int, result: WaitForEventResult, delta: int)
  {
    /** A clock event is recognised by the sentinel pin number alone. */
    predicate IsClock() {
      pinNumber == ClockPin
    }
  }

  /**
   * The constructor stores its three arguments unchanged and validates none
   * of them; whether the event is a clock event follows from the pin number.
   */
  lemma NewEventStoresArguments(pinNumber: int, result: WaitForEventResult, delta: int)
    ensures var e := SubscriptionEvent(pinNumber, result, delta);
      e.pinNumber == pinNumber && e.result == result && e.delta == delta &&
      (e.IsClock() <==> pinNumber == -1)
  {
  }

  /** No pin a valid subscription can name produces a clock event. */
  lemma SubscribedPinIsNotClock(s: Subscription, result: WaitForEventResult, delta: int)
    requires s.Valid()
    ensures !SubscriptionEvent(s.pinNumber, result, delta).IsClock()
  {
  }
}
