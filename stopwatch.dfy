/**
 * The stopwatch example program: how it builds its service from the button
 * configuration, and the event loop that keeps the elapsed clock, the pause
 * flag and the stop exit.
 */
module Stopwatch {
  import opened Gpio
  import opened Subscriptions
  import opened Events
  import Registry
  import Service

  /** The configured button pins; a button whose pin is not above -1 is not used. */
  datatype Buttons = Buttons(resetPin: int, pausePin: int, stopPin: int)

  predicate Enabled(pinNumber: int) {
    pinNumber > -1
  }

  // ---------------------------------------------------------------------
  // BuildSubscriptions
  // ---------------------------------------------------------------------

  /** The pins BuildSubscriptions subscribes, in its order: reset, pause, stop. */
  function EnabledPins(b: Buttons): (pins: seq<int>)
  {
    ButtonPins(b.resetPin) + ButtonPins(b.pausePin) + ButtonPins(b.stopPin)
  }

  /** The chain of Subscribe calls, each on a rising edge with the shared mode; the first failure ends it. */
  function SubscribeAll(subs: seq<Subscription>, pins: seq<int>, pinMode: PinMode): (r: Result<seq<Subscription>>)
    ensures r.Success? ==> |r.value| == |subs| + |pins| && r.value[..|subs|] == subs
    ensures r.Success? ==> forall i :: 0 <= i < |pins| ==> r.value[|subs| + i] == Subscription(pins[i], pinMode, Rising)
    decreases pins
  {
    if pins == [] then Success(subs)
    else
      match Registry.AfterSubscribe(subs, pins[0], pinMode, Rising)
      case Failure(e) => Failure(e)
      case Success(next) => SubscribeAll(next, pins[1..], pinMode)
  }

  function ButtonSubscriptions(pins: seq<int>, pinMode: PinMode): (subs: seq<Subscription>)
  {
    seq(|pins|, i requires 0 <= i < |pins| => Subscription(pins[i], pinMode, Rising))
  }

  ghost predicate Distinct(pins: seq<int>) {
    forall i, j :: 0 <= i < j < |pins| ==> pins[i] != pins[j]
  }

  /** No pin repeats, and none is already subscribed. */
  ghost predicate FreshAndDistinct(subs: seq<Subscription>, pins: seq<int>) {
    Distinct(pins) && forall i, k :: 0 <= i < |pins| && 0 <= k < |subs| ==> pins[i] != subs[k].pinNumber
  }

  /** Moving a pin that is fresh against the entries onto them keeps the rest's freshness the same. */
  lemma FreshAndDistinctShift(subs: seq<Subscription>, pins: seq<int>, pinMode: PinMode)
    requires pins != []
    requires forall k :: 0 <= k < |subs| ==> subs[k].pinNumber != pins[0]
    ensures FreshAndDistinct(subs, pins) <==>
      FreshAndDistinct(subs + [Subscription(pins[0], pinMode, Rising)], pins[1..])
  {
    var next := subs + [Subscription(pins[0], pinMode, Rising)];
    var rest := pins[1..];
    if FreshAndDistinct(subs, pins) {
      forall i, k | 0 <= i < |rest| && 0 <= k < |next| ensures rest[i] != next[k].pinNumber {
        assert rest[i] == pins[i + 1];
        if k < |subs| { assert next[k] == subs[k]; } else { assert next[k].pinNumber == pins[0]; }
      }
      forall i, j | 0 <= i < j < |rest| ensures rest[i] != rest[j] {
        assert rest[i] == pins[i + 1] && rest[j] == pins[j + 1];
      }
    }
    if FreshAndDistinct(next, rest) {
      forall i, j | 0 <= i < j < |pins| ensures pins[i] != pins[j] {
        if i == 0 {
          assert next[|subs|].pinNumber == pins[0] && pins[j] == rest[j - 1];
        } else {
          assert pins[i] == rest[i - 1] && pins[j] == rest[j - 1];
        }
      }
      forall i, k | 0 <= i < |pins| && 0 <= k < |subs| ensures pins[i] != subs[k].pinNumber {
        if i > 0 { assert pins[i] == rest[i - 1] && next[k] == subs[k]; }
      }
    }
  }

  /**
   * The first link of the chain: a pin already subscribed on a rising edge
   * fails as a duplicate (and is not fresh); any other pin is appended.
   */
  lemma SubscribeAllFirst(subs: seq<Subscription>, pins: seq<int>, pinMode: PinMode)
    requires pinMode != Output && pins != [] && pins[0] >= 0
    requires forall k :: 0 <= k < |subs| ==> subs[k].pinMode == pinMode && subs[k].eventType == Rising
    ensures Registry.HasPair(subs, pins[0], Rising) ==>
      SubscribeAll(subs, pins, pinMode) == Failure(AlreadyExists(pins[0], Rising)) && !FreshAndDistinct(subs, pins)
    ensures !Registry.HasPair(subs, pins[0], Rising) ==>
      && SubscribeAll(subs, pins, pinMode) == SubscribeAll(subs + [Subscription(pins[0], pinMode, Rising)], pins[1..], pinMode)
      && forall k :: 0 <= k < |subs| ==> subs[k].pinNumber != pins[0]
  {
    assert !Registry.HasConflict(subs, pins[0], pinMode);
    if Registry.HasPair(subs, pins[0], Rising) {
      var k :| 0 <= k < |subs| && subs[k].pinNumber == pins[0] && subs[k].eventType == Rising;
      assert pins[0] == subs[k].pinNumber;
    }
  }

  /**
   * Subscribing rising-edge buttons with a non-Output mode onto rising-edge
   * entries of that mode succeeds exactly when no pin repeats, either among
   * the buttons or against the entries already there; otherwise it fails as
   * a duplicate.
   */
  lemma {:induction false} SubscribeAllOutcome(subs: seq<Subscription>, pins: seq<int>, pinMode: PinMode)
    requires pinMode != Output
    requires forall i :: 0 <= i < |pins| ==> pins[i] >= 0
    requires forall k :: 0 <= k < |subs| ==> subs[k].pinMode == pinMode && subs[k].eventType == Rising
    ensures var r := SubscribeAll(subs, pins, pinMode);
      && (r.Success? <==> FreshAndDistinct(subs, pins))
      && (r.Success? ==> r.value == subs + ButtonSubscriptions(pins, pinMode))
      && (r.Failure? ==> r.error.AlreadyExists? && r.error.eventType == Rising)
    decreases pins
  {
    if pins != [] {
      SubscribeAllFirst(subs, pins, pinMode);
      if !Registry.HasPair(subs, pins[0], Rising) {
        var next := subs + [Subscription(pins[0], pinMode, Rising)];
        var rest := pins[1..];
        SubscribeAllOutcome(next, rest, pinMode);
        assert ButtonSubscriptions(pins, pinMode) == [Subscription(pins[0], pinMode, Rising)] + ButtonSubscriptions(rest, pinMode);
        assert next + ButtonSubscriptions(rest, pinMode) == subs + ButtonSubscriptions(pins, pinMode);
        FreshAndDistinctShift(subs, pins, pinMode);
      }
    }
  }

  /**
   * BuildSubscriptions' subscriptions: with a mode other than Output (or no
   * button enabled) it succeeds exactly when the enabled buttons use distinct
   * pins, giving one rising-edge entry per enabled button in order; two
   * enabled buttons on one pin fail as a duplicate. With the Output mode the
   * first enabled button fails.
   */
  lemma ButtonsOutcome(b: Buttons, pinMode: PinMode)
    ensures var pins := EnabledPins(b);
      var r := SubscribeAll([], pins, pinMode);
      && (pinMode == Output && pins != [] ==> r == Failure(OutputNotSupported))
      && (pinMode != Output || pins == [] ==>
            && (r.Success? <==> Distinct(pins))
            && (r.Success? ==> r.value == ButtonSubscriptions(pins, pinMode))
            && (r.Failure? ==> r.error.AlreadyExists? && r.error.eventType == Rising))
  {
    var pins := EnabledPins(b);
    if pinMode != Output {
      SubscribeAllOutcome([], pins, pinMode);
    }
  }

  /** The pin list of one button: its pin when it is enabled, nothing otherwise. */
  function ButtonPins(pinNumber: int): seq<int>
  {
    if Enabled(pinNumber) then [pinNumber] else []
  }

  /**
   * One link of the chain, as BuildSubscriptions writes it: a disabled button
   * is skipped; an enabled one either ends the chain with Subscribe's error
   * or continues it from the list Subscribe returns.
   */
  lemma SubscribeAllButton(subs: seq<Subscription>, pinNumber: int, pinMode: PinMode, later: seq<int>)
    ensures !Enabled(pinNumber) ==>
      SubscribeAll(subs, ButtonPins(pinNumber) + later, pinMode) == SubscribeAll(subs, later, pinMode)
    ensures Enabled(pinNumber) ==>
      var after := Registry.AfterSubscribe(subs, pinNumber, pinMode, Rising);
      && (after.Failure? ==> SubscribeAll(subs, ButtonPins(pinNumber) + later, pinMode) == Failure(after.error))
      && (after.Success? ==> SubscribeAll(subs, ButtonPins(pinNumber) + later, pinMode) == SubscribeAll(after.value, later, pinMode))
  {
    if Enabled(pinNumber) {
      assert (ButtonPins(pinNumber) + later)[1..] == later;
    } else {
      assert ButtonPins(pinNumber) + later == later;
    }
  }

  /** One of BuildSubscriptions' three blocks: subscribe the button on a rising edge when it is enabled, and leave the list alone when it is not. */
  method SubscribeButton(collection: Registry.SubscriptionCollection, pinNumber: int, btnPinMode: PinMode)
    returns (r: Result<Registry.SubscriptionCollection>)
    requires collection.Valid()
    modifies collection.list
    ensures collection.Valid()
    ensures !Enabled(pinNumber) ==> r == Success(collection) && collection.list.items == old(collection.list.items)
    ensures Enabled(pinNumber) ==>
      var after := Registry.AfterSubscribe(old(collection.list.items), pinNumber, btnPinMode, Rising);
      && (after.Success? ==> r == Success(collection) && collection.list.items == after.value)
      && (after.Failure? ==> r == Failure(after.error) && collection.list.items == old(collection.list.items))
  {
    r := Success(collection);
    if Enabled(pinNumber) {
      r := collection.Subscribe(pinNumber, btnPinMode, Rising);
    }
  }

  /** BuildSubscriptions' three blocks in order (reset, pause, stop): the chain of Subscribe calls on the enabled buttons. */
  method SubscribeButtons(collection: Registry.SubscriptionCollection, b: Buttons, btnPinMode: PinMode)
    returns (r: Result<Registry.SubscriptionCollection>)
    requires collection.Valid()
    modifies collection.list
    ensures collection.Valid()
    ensures var expected := SubscribeAll(old(collection.list.items), EnabledPins(b), btnPinMode);
      && (r.Success? <==> expected.Success?)
      && (r.Failure? ==> r.error == expected.error)
      && (r.Success? ==> collection.list.items == expected.value)
  {
    ghost var expected := SubscribeAll(collection.list.items, EnabledPins(b), btnPinMode);
    assert EnabledPins(b) == ButtonPins(b.resetPin) + (ButtonPins(b.pausePin) + ButtonPins(b.stopPin));
    SubscribeAllButton(collection.list.items, b.resetPin, btnPinMode, ButtonPins(b.pausePin) + ButtonPins(b.stopPin));
    r := SubscribeButton(collection, b.resetPin, btnPinMode);
    if r.Failure? {
      return;
    }
    assert expected == SubscribeAll(collection.list.items, ButtonPins(b.pausePin) + ButtonPins(b.stopPin), btnPinMode);
    SubscribeAllButton(collection.list.items, b.pausePin, btnPinMode, ButtonPins(b.stopPin));
    r := SubscribeButton(collection, b.pausePin, btnPinMode);
    if r.Failure? {
      return;
    }
    assert expected == SubscribeAll(collection.list.items, ButtonPins(b.stopPin), btnPinMode);
    assert ButtonPins(b.stopPin) + [] == ButtonPins(b.stopPin);
    SubscribeAllButton(collection.list.items, b.stopPin, btnPinMode, []);
    r := SubscribeButton(collection, b.stopPin, btnPinMode);
  }

  /** The service the example runs: the clock enabled at the configured rate, and the enabled buttons. */
  method BuildSubscriptions(b: Buttons, btnPinMode: PinMode, clockRate: int) returns (r: Result<Service.SubscriptionService>)
    ensures var expected := SubscribeAll([], EnabledPins(b), btnPinMode);
      && (r.Success? <==> expected.Success?)
      && (r.Failure? ==> r.error == expected.error)
      && (r.Success? ==> r.value.subscriptions.items == expected.value)
      && (r.Success? ==> r.value.clockEnabled && r.value.clockRate == clockRate)
  {
    var collection := new Registry.SubscriptionCollection();
    collection.clockEnabled := true;
    collection.clockRate := clockRate;
    var s := SubscribeButtons(collection, b, btnPinMode);
    if s.Failure? {
      return Failure(s.error);
    }
    var service := collection.Build();
    return Success(service);
  }

  // ---------------------------------------------------------------------
  // The event loop
  // ---------------------------------------------------------------------

  /** The loop's locals clock (in ticks) and paused, and whether it has exited. */
  datatype Watch = Watch(clock: int, paused: bool, stopped: bool)

  /** The state before the first event. */
  const Initial: Watch := Watch(0, false, false)

  /**
   * The loop body for one event: accumulate, then reset, then pause, then
   * stop. A clock event adds its delta unless paused; the reset is applied
   * after the same event's accumulation, so it wins; the pause button flips
   * the pause flag; the stop button exits.
   */
  function Handle(w: Watch, e: SubscriptionEvent, b: Buttons): (r: Watch)
    ensures e.pinNumber != b.resetPin ==>
      r.clock == if e.IsClock() && !w.paused then w.clock + e.delta else w.clock
    ensures e.pinNumber == b.resetPin ==> r.clock == 0
    ensures r.paused == (w.paused != (e.pinNumber == b.pausePin))
    ensures r.stopped <==> e.pinNumber == b.stopPin
  {
    var clock := if e.IsClock() && !w.paused then w.clock + e.delta else w.clock;
    var clock := if e.pinNumber == b.resetPin then 0 else clock;
    var paused := if e.pinNumber == b.pausePin then !w.paused else w.paused;
    Watch(clock, paused, e.pinNumber == b.stopPin)
  }

  /**
   * The state after the loop has been offered the events; nothing changes
   * once it has exited, which happens exactly when some event is the stop
   * button's.
   */
  function Loop(events: seq<SubscriptionEvent>, b: Buttons): (w: Watch)
    ensures w.stopped <==> exists i :: 0 <= i < |events| && events[i].pinNumber == b.stopPin
  {
    if events == [] then Initial
    else
      var w := Loop(events[..|events| - 1], b);
      if w.stopped then w else Handle(w, events[|events| - 1], b)
  }

  /** Two pause-button events restore the pause flag. */
  lemma PauseTwiceRestores(w: Watch, e1: SubscriptionEvent, e2: SubscriptionEvent, b: Buttons)
    requires e1.pinNumber == b.pausePin && e2.pinNumber == b.pausePin
    ensures Handle(Handle(w, e1, b), e2, b).paused == w.paused
  {
  }

  /** Once the loop has exited, later events change nothing. */
  lemma {:induction false} StopIsFinal(events: seq<SubscriptionEvent>, more: seq<SubscriptionEvent>, b: Buttons)
    requires Loop(events, b).stopped
    ensures Loop(events + more, b) == Loop(events, b)
  {
    if more != [] {
      var shorter := more[..|more| - 1];
      StopIsFinal(events, shorter, b);
      assert (events + more)[..|events + more| - 1] == events + shorter;
      assert Loop(events + more, b) == Loop(events + shorter, b);
    } else {
      assert events + more == events;
    }
  }

  /** Sum of the deltas of the clock events. */
  function ClockTicks(events: seq<SubscriptionEvent>): int
  {
    if events == [] then 0
    else
      var e := events[|events| - 1];
      ClockTicks(events[..|events| - 1]) + (if e.IsClock() then e.delta else 0)
  }

  /** Without button events, the clock is the sum of the clock events' deltas. */
  lemma {:induction false} ClockSumsDeltas(events: seq<SubscriptionEvent>, b: Buttons)
    requires forall i :: 0 <= i < |events| ==>
      events[i].pinNumber != b.resetPin && events[i].pinNumber != b.pausePin && events[i].pinNumber != b.stopPin
    ensures Loop(events, b) == Watch(ClockTicks(events), false, false)
  {
    if events != [] {
      ClockSumsDeltas(events[..|events| - 1], b);
    }
  }

  /**
   * A stop button configured as -1 (not used) matches the clock sentinel:
   * the loop exits at the first clock event, and the events after it change
   * nothing.
   */
  lemma StopAtMinusOneExitsOnFirstTick(events: seq<SubscriptionEvent>, b: Buttons, i: nat)
    requires b.stopPin == -1 && i < |events| && events[i].IsClock()
    ensures Loop(events[..i + 1], b).stopped
    ensures Loop(events, b) == Loop(events[..i + 1], b)
  {
    assert events[..i + 1][..i] == events[..i];
    StopIsFinal(events[..i + 1], events[i + 1..], b);
    assert events[..i + 1] + events[i + 1..] == events;
  }

  /** A reset button configured as -1 (not used) zeroes the clock on every clock event, so it stays 0. */
  lemma {:induction false} ResetAtMinusOneKeepsClockZero(events: seq<SubscriptionEvent>, b: Buttons)
    requires b.resetPin == -1
    ensures Loop(events, b).clock == 0
  {
    if events != [] {
      ResetAtMinusOneKeepsClockZero(events[..|events| - 1], b);
    }
  }

  /**
   * The await-foreach loop over the events the service yields: it pulls
   * events until the stop button's event, which it consumes and then breaks.
   */
  method RunLoop(events: seq<SubscriptionEvent>, b: Buttons) returns (w: Watch, consumed: nat)
    ensures consumed <= |events|
    ensures w == Loop(events[..consumed], b) && w == Loop(events, b)
    ensures consumed < |events| ==> w.stopped
    ensures w.stopped <==> consumed > 0 && events[consumed - 1].pinNumber == b.stopPin
    ensures forall j :: 0 <= j < consumed - 1 ==> events[j].pinNumber != b.stopPin
  {
    var clock := 0;
    var paused := false;
    var i := 0;
    while i < |events|
      invariant 0 <= i <= |events|
      invariant Loop(events[..i], b) == Watch(clock, paused, false)
      invariant forall j :: 0 <= j < i ==> events[j].pinNumber != b.stopPin
    {
      var e := events[i];
      assert events[..i + 1][..i] == events[..i];
      if e.IsClock() && !paused {
        clock := clock + e.delta;
      }
      if e.pinNumber == b.resetPin {
        clock := 0;
      }
      if e.pinNumber == b.pausePin {
        paused := !paused;
      }
      i := i + 1;
      if e.pinNumber == b.stopPin {
        w, consumed := Watch(clock, paused, true), i;
        StopIsFinal(events[..i], events[i..], b);
        assert events[..i] + events[i..] == events;
        return;
      }
    }
    assert events[..i] == events;
    w, consumed := Watch(clock, paused, false), i;
  }
}
