/**
 * The subscription service: the pin-opening setup, the wait pool and the
 * per-iteration re-arm and delta bookkeeping of Run. The concurrent waits
 * themselves are not modelled: which pool entry completes, the clock reading
 * and the pin wait's result are inputs of each step.
 */
module Service {
  import opened Gpio
  import opened Subscriptions
  import opened Events

  // ---------------------------------------------------------------------
  // Pin-opening setup: one OpenPin per distinct pin, in order of first
  // appearance, with the mode of that pin's first subscription.
  // ---------------------------------------------------------------------

  /** One OpenPin call made on the controller. */
  datatype OpenedPin = OpenedPin(pinNumber: int, pinMode: PinMode)

  predicate IsOpened(log: seq<OpenedPin>, pinNumber: int) {
    exists i :: 0 <= i < |log| && log[i].pinNumber == pinNumber
  }

  predicate HasPin(subs: seq<Subscription>, pinNumber: int) {
    exists i :: 0 <= i < |subs| && subs[i].pinNumber == pinNumber
  }

  /** Index of the first subscription on the pin, or |subs| when there is none. */
  function FirstPinIndex(subs: seq<Subscription>, pinNumber: int): (f: nat)
    ensures f <= |subs|
    ensures f < |subs| ==> subs[f].pinNumber == pinNumber
    ensures forall g :: 0 <= g < f ==> subs[g].pinNumber != pinNumber
  {
    if subs == [] then 0
    else
      var f := FirstPinIndex(subs[..|subs| - 1], pinNumber);
      if f < |subs| - 1 then f
      else if subs[|subs| - 1].pinNumber == pinNumber then |subs| - 1
      else |subs|
  }

  /** The OpenPin calls of the setup, grouped by pin number. */
  function PinsToOpen(subs: seq<Subscription>): (log: seq<OpenedPin>)
    ensures |log| <= |subs|
    ensures subs != [] ==> log != [] && log[0] == OpenedPin(subs[0].pinNumber, subs[0].pinMode)
  {
    if subs == [] then []
    else
      var pinLog := PinsToOpen(subs[..|subs| - 1]);
      var s := subs[|subs| - 1];
      if IsOpened(pinLog, s.pinNumber) then pinLog
      else pinLog + [OpenedPin(s.pinNumber, s.pinMode)]
  }

  /** The setup's OpenPin calls name no pin twice. */
  ghost predicate OpensEachPinOnce(log: seq<OpenedPin>) {
    forall i, j :: 0 <= i < j < |log| ==> log[i].pinNumber != log[j].pinNumber
  }

  /** Appending a subscription adds its pin to the pins that have subscriptions. */
  lemma HasPinSnoc(subs: seq<Subscription>, p: int)
    requires subs != []
    ensures HasPin(subs, p) <==> HasPin(subs[..|subs| - 1], p) || subs[|subs| - 1].pinNumber == p
  {
    var prefix := subs[..|subs| - 1];
    if HasPin(subs, p) {
      var i :| 0 <= i < |subs| && subs[i].pinNumber == p;
      if i < |prefix| { assert prefix[i] == subs[i]; }
    }
    if HasPin(prefix, p) {
      var i :| 0 <= i < |prefix| && prefix[i].pinNumber == p;
      assert subs[i] == prefix[i];
    }
  }

  /** Appending an OpenPin call adds its pin to the opened pins. */
  lemma IsOpenedSnoc(log: seq<OpenedPin>, o: OpenedPin, p: int)
    ensures IsOpened(log + [o], p) <==> IsOpened(log, p) || o.pinNumber == p
  {
    var after := log + [o];
    if IsOpened(after, p) {
      var i :| 0 <= i < |after| && after[i].pinNumber == p;
      if i < |log| { assert log[i] == after[i]; }
    }
    if IsOpened(log, p) {
      var i :| 0 <= i < |log| && log[i].pinNumber == p;
      assert after[i] == log[i];
    }
    assert after[|log|] == o;
  }

  /** The setup opens exactly the pins that have subscriptions, and none twice. */
  lemma {:induction false} PinsToOpenCoversEachPinOnce(subs: seq<Subscription>)
    ensures OpensEachPinOnce(PinsToOpen(subs))
    ensures forall p :: IsOpened(PinsToOpen(subs), p) <==> HasPin(subs, p)
  {
    if subs != [] {
      var prefix := subs[..|subs| - 1];
      var s := subs[|subs| - 1];
      var before := PinsToOpen(prefix);
      PinsToOpenCoversEachPinOnce(prefix);
      forall p ensures HasPin(subs, p) <==> HasPin(prefix, p) || p == s.pinNumber {
        HasPinSnoc(subs, p);
      }
      if !IsOpened(before, s.pinNumber) {
        var o := OpenedPin(s.pinNumber, s.pinMode);
        forall p ensures IsOpened(before + [o], p) <==> IsOpened(before, p) || p == s.pinNumber {
          IsOpenedSnoc(before, o, p);
        }
      }
    }
  }

  /**
   * The setup opens the pins in the order their first subscriptions appear,
   * each with the mode of its first subscription.
   */
  lemma {:induction false} PinsToOpenUsesFirstSubscription(subs: seq<Subscription>)
    ensures forall i :: 0 <= i < |PinsToOpen(subs)| ==>
      var o := PinsToOpen(subs)[i];
      FirstPinIndex(subs, o.pinNumber) < |subs| && subs[FirstPinIndex(subs, o.pinNumber)].pinMode == o.pinMode
    ensures forall i, j :: 0 <= i < j < |PinsToOpen(subs)| ==>
      FirstPinIndex(subs, PinsToOpen(subs)[i].pinNumber) < FirstPinIndex(subs, PinsToOpen(subs)[j].pinNumber)
  {
    if subs != [] {
      var n := |subs|;
      var prefix := subs[..n - 1];
      var s := subs[n - 1];
      var before := PinsToOpen(prefix);
      PinsToOpenUsesFirstSubscription(prefix);
      // A pin opened for the prefix keeps its first index when s is appended.
      forall i | 0 <= i < |before|
        ensures FirstPinIndex(subs, before[i].pinNumber) == FirstPinIndex(prefix, before[i].pinNumber) < n - 1
      {
      }
      if !IsOpened(before, s.pinNumber) {
        PinsToOpenCoversEachPinOnce(prefix);
        assert !HasPin(prefix, s.pinNumber);
        assert FirstPinIndex(prefix, s.pinNumber) == n - 1;
        assert FirstPinIndex(subs, s.pinNumber) == n - 1;
      }
    }
  }

  // ---------------------------------------------------------------------
  // The wait pool.
  // ---------------------------------------------------------------------

  /** What re-issues a pool entry's wait: a pin wait or the clock's delay. */
  datatype Builder = PinWait(pinNumber: int, eventType: PinEventTypes) | ClockDelay(rate: int)

  /**
   * One pool entry: the in-flight operation that keys it, and the tag (pin
   * number, or -1 for the clock) and builder stored under that key.
   */
  datatype Slot = Slot(op: nat, tag: int, builder: Builder)

  /** The result a clock wait completes with. */
  const ClockTaskResult: WaitForEventResult := WaitForEventResult(None, true)

  /** The longest delay Task.Delay accepts, in milliseconds (UInt32.MaxValue - 1). */
  const MaxDelayMilliseconds: int := 0xFFFF_FFFE

  /**
   * The delays, in ticks, that Task.Delay accepts: -1 ms (wait forever), or
   * from zero up to MaxDelayMilliseconds. Any other delay makes the clock's
   * task fault with an out-of-range error.
   */
  predicate DelayAccepted(ticks: int) {
    ticks == -TicksPerMillisecond || 0 <= ticks <= MaxDelayMilliseconds * TicksPerMillisecond
  }

  /** The pool entries for the subscriptions, one per subscription, in list order. */
  function PinSlots(subs: seq<Subscription>, firstOp: nat): (pool: seq<Slot>)
  {
    seq(|subs|, i requires 0 <= i < |subs| =>
      Slot(firstOp + i, subs[i].pinNumber, PinWait(subs[i].pinNumber, subs[i].eventType)))
  }

  /** The pool BuildWaitPool returns: the subscriptions' entries, then the clock's if enabled. */
  function InitialPool(subs: seq<Subscription>, clockEnabled: bool, clockRate: int): (pool: seq<Slot>)
    ensures |pool| == |subs| + (if clockEnabled then 1 else 0)
    ensures forall i :: 0 <= i < |subs| ==>
      pool[i].tag == subs[i].pinNumber && pool[i].builder == PinWait(subs[i].pinNumber, subs[i].eventType)
    ensures clockEnabled ==> pool[|subs|].tag == ClockPin && pool[|subs|].builder == ClockDelay(clockRate)
  {
    PinSlots(subs, 0) + if clockEnabled then [Slot(|subs|, ClockPin, ClockDelay(clockRate))] else []
  }

  function Tags(pool: seq<Slot>): (tags: seq<int>)
  {
    seq(|pool|, i requires 0 <= i < |pool| => pool[i].tag)
  }

  function PinNumbers(subs: seq<Subscription>): (pins: seq<int>)
  {
    seq(|subs|, i requires 0 <= i < |subs| => subs[i].pinNumber)
  }

  /** What each pool entry waits for. */
  function Builders(pool: seq<Slot>): (builders: seq<Builder>)
  {
    seq(|pool|, i requires 0 <= i < |pool| => pool[i].builder)
  }

  /** The waits the subscriptions ask for: each one's pin on its edge. */
  function PinWaits(subs: seq<Subscription>): (waits: seq<Builder>)
  {
    seq(|subs|, i requires 0 <= i < |subs| => PinWait(subs[i].pinNumber, subs[i].eventType))
  }

  /**
   * The pool's keys are distinct operations, all issued before nextOp, and
   * each entry's tag names what its builder waits for.
   */
  ghost predicate PoolWellFormed(pool: seq<Slot>, nextOp: nat) {
    && (forall i :: 0 <= i < |pool| ==> pool[i].op < nextOp)
    && (forall i, j :: 0 <= i < j < |pool| ==> pool[i].op != pool[j].op)
    && (forall i :: 0 <= i < |pool| ==>
          match pool[i].builder
          case PinWait(p, _) => pool[i].tag == p
          case ClockDelay(_) => pool[i].tag == ClockPin)
  }

  /**
   * The initial pool has one entry per subscription tagged with its pin and
   * one entry tagged -1 exactly when the clock is enabled; it waits for each
   * subscription's pin on its edge, and for the clock's delay when enabled;
   * its keys are the distinct operations 0 .. |pool| - 1.
   */
  lemma InitialPoolShape(subs: seq<Subscription>, clockEnabled: bool, clockRate: int)
    requires forall i :: 0 <= i < |subs| ==> subs[i].Valid()
    ensures var pool := InitialPool(subs, clockEnabled, clockRate);
      && |pool| == |subs| + (if clockEnabled then 1 else 0)
      && multiset(Tags(pool)) == multiset(PinNumbers(subs)) + (if clockEnabled then multiset{ClockPin} else multiset{})
      && multiset(Tags(pool))[ClockPin] == (if clockEnabled then 1 else 0)
      && multiset(Builders(pool)) == multiset(PinWaits(subs)) + (if clockEnabled then multiset{ClockDelay(clockRate)} else multiset{})
      && PoolWellFormed(pool, |pool|)
  {
    var pool := InitialPool(subs, clockEnabled, clockRate);
    var extra := if clockEnabled then [Slot(|subs|, ClockPin, ClockDelay(clockRate))] else [];
    assert Tags(pool) == PinNumbers(subs) + Tags(extra);
    assert Builders(pool) == PinWaits(subs) + Builders(extra);
    assert ClockPin !in PinNumbers(subs);
  }

  /** The sequence without its entry at k; the others keep their order. */
  function RemoveAt<T>(s: seq<T>, k: nat): (r: seq<T>)
    requires k < |s|
    ensures |r| == |s| - 1
    ensures forall j :: 0 <= j < k ==> r[j] == s[j]
    ensures forall j :: k <= j < |r| ==> r[j] == s[j + 1]
    ensures multiset(r) + multiset{s[k]} == multiset(s)
  {
    assert s == s[..k] + [s[k]] + s[k + 1..];
    s[..k] + s[k + 1..]
  }

  // ---------------------------------------------------------------------
  // One iteration of Run's loop.
  // ---------------------------------------------------------------------

  /** The controller log and the loop variables of one Run invocation. */
  datatype RunState = RunState(pinLog: seq<OpenedPin>, pool: seq<Slot>, timestamp: int, nextOp: nat, finished: bool)

  /**
   * The environment of one iteration: the clock reading taken at the top of
   * the loop, the index of the pool entry whose operation completed first,
   * what a pin wait completed with, and whether cancellation was requested.
   */
  datatype StepInput = StepInput(completed: nat, now: int, pinResult: WaitForEventResult, cancelled: bool)

  /** What one pull on the event sequence gives. */
  datatype StepOutcome = Emitted(event: SubscriptionEvent) | Ended | Faulted(error: Error)

  /** The state right after setup: pins pinLog, timestamp sampled, pool built. */
  function InitialState(subs: seq<Subscription>, clockEnabled: bool, clockRate: int, startTicks: int): RunState
  {
    var pool := InitialPool(subs, clockEnabled, clockRate);
    RunState(PinsToOpen(subs), pool, startTicks, |pool|, false)
  }

  /** A step input is admissible when it names an entry of the pool, if any. */
  predicate Admissible(st: RunState, input: StepInput) {
    input.completed < |st.pool| || |st.pool| == 0
  }

  /**
   * One iteration: the cancellation test, the clock reading, the choice of
   * the completed entry (Task.WhenAny, which throws on an empty pool), the
   * re-arm under a fresh operation with the same tag and builder, the delta
   * and the timestamp update, and the event.
   */
  function Step(st: RunState, input: StepInput): (r: (RunState, StepOutcome))
    requires Admissible(st, input)
    ensures r.0.pinLog == st.pinLog && |r.0.pool| == |st.pool|
    ensures r.1.Emitted? <==> !r.0.finished
    ensures r.1.Emitted? ==> |st.pool| > 0 && r.1.event.pinNumber == st.pool[input.completed].tag
    ensures !st.finished && !input.cancelled && |st.pool| == 0 ==> r.1 == Faulted(EmptyWaitPool) && r.0.finished
  {
    if st.finished then (st, Ended)
    else if input.cancelled then (st.(finished := true), Ended)
    else if |st.pool| == 0 then (st.(finished := true), Faulted(EmptyWaitPool))
    else
      var slot := st.pool[input.completed];
      var pool := RemoveAt(st.pool, input.completed) + [Slot(st.nextOp, slot.tag, slot.builder)];
      var delta := if slot.tag >= 0 then 0 else input.now - st.timestamp;
      var timestamp := if slot.tag >= 0 then st.timestamp else input.now;
      var next := RunState(st.pinLog, pool, timestamp, st.nextOp + 1, false);
      if slot.builder.ClockDelay? && !DelayAccepted(slot.builder.rate) then
        // Awaiting the completed clock task rethrows Task.Delay's error.
        (next.(finished := true), Faulted(DelayOutOfRange(slot.builder.rate)))
      else
        var result := if slot.builder.ClockDelay? then ClockTaskResult else input.pinResult;
        (next, Emitted(SubscriptionEvent(slot.tag, result, delta)))
  }

  lemma TagsAppend(a: seq<Slot>, b: seq<Slot>)
    ensures Tags(a + b) == Tags(a) + Tags(b)
  {
  }

  /** Re-arming an entry keeps the multiset of tags. */
  lemma RearmKeepsTags(p: seq<Slot>, k: nat, rearmed: Slot)
    requires k < |p| && rearmed.tag == p[k].tag
    ensures multiset(Tags(RemoveAt(p, k) + [rearmed])) == multiset(Tags(p))
  {
    assert p == p[..k] + [p[k]] + p[k + 1..];
    TagsAppend(p[..k] + [p[k]], p[k + 1..]);
    TagsAppend(p[..k], [p[k]]);
    TagsAppend(p[..k], p[k + 1..]);
    TagsAppend(RemoveAt(p, k), [rearmed]);
  }

  lemma BuildersAppend(a: seq<Slot>, b: seq<Slot>)
    ensures Builders(a + b) == Builders(a) + Builders(b)
  {
  }

  /** Re-arming an entry with its own builder keeps the multiset of waits. */
  lemma RearmKeepsBuilders(p: seq<Slot>, k: nat, rearmed: Slot)
    requires k < |p| && rearmed.builder == p[k].builder
    ensures multiset(Builders(RemoveAt(p, k) + [rearmed])) == multiset(Builders(p))
  {
    assert p == p[..k] + [p[k]] + p[k + 1..];
    BuildersAppend(p[..k] + [p[k]], p[k + 1..]);
    BuildersAppend(p[..k], [p[k]]);
    BuildersAppend(p[..k], p[k + 1..]);
    BuildersAppend(RemoveAt(p, k), [rearmed]);
  }

  /** Re-arming an entry under a fresh operation keeps the pool well formed. */
  lemma RearmKeepsWellFormed(p: seq<Slot>, k: nat, nextOp: nat)
    requires k < |p| && PoolWellFormed(p, nextOp)
    ensures PoolWellFormed(RemoveAt(p, k) + [Slot(nextOp, p[k].tag, p[k].builder)], nextOp + 1)
  {
    var q := RemoveAt(p, k) + [Slot(nextOp, p[k].tag, p[k].builder)];
    assert forall i :: 0 <= i < |q| - 1 ==> q[i] == p[if i < k then i else i + 1];
  }

  /**
   * Re-arming keeps the pool's size, its multisets of tags and of waits
   * (the completed entry is re-armed with its own pin and edge, or its own
   * delay) and its well-formedness: no entry is lost or duplicated.
   */
  lemma StepKeepsPool(st: RunState, input: StepInput)
    requires Admissible(st, input)
    requires PoolWellFormed(st.pool, st.nextOp)
    ensures var next := Step(st, input).0;
      && |next.pool| == |st.pool|
      && multiset(Tags(next.pool)) == multiset(Tags(st.pool))
      && multiset(Builders(next.pool)) == multiset(Builders(st.pool))
      && PoolWellFormed(next.pool, next.nextOp)
      && next.pinLog == st.pinLog
  {
    if !st.finished && !input.cancelled && |st.pool| > 0 {
      var k := input.completed;
      var slot := st.pool[k];
      RearmKeepsTags(st.pool, k, Slot(st.nextOp, slot.tag, slot.builder));
      RearmKeepsBuilders(st.pool, k, Slot(st.nextOp, slot.tag, slot.builder));
      RearmKeepsWellFormed(st.pool, k, st.nextOp);
    }
  }

  /**
   * A pin completion (tag >= 0) yields delta 0 and keeps the timestamp; a
   * clock completion yields the ticks since the timestamp, measured at the
   * reading taken before the wait, and moves the timestamp to that reading.
   * The event carries the entry's tag and its operation's result; a clock
   * operation's result reports no edge and a time-out. A clock entry whose
   * delay Task.Delay rejects ends the sequence with that error instead,
   * after the re-arm and the timestamp update.
   */
  lemma StepEvent(st: RunState, input: StepInput)
    requires Admissible(st, input)
    requires !st.finished && !input.cancelled && |st.pool| > 0
    ensures var (next, outcome) := Step(st, input);
      var slot := st.pool[input.completed];
      var rejected := slot.builder.ClockDelay? && !DelayAccepted(slot.builder.rate);
      && next.nextOp == st.nextOp + 1
      && next.timestamp == (if slot.tag >= 0 then st.timestamp else input.now)
      && (rejected ==> outcome == Faulted(DelayOutOfRange(slot.builder.rate)) && next.finished)
      && (!rejected ==> outcome.Emitted? && outcome.event.pinNumber == slot.tag)
      && (!rejected && slot.tag >= 0 ==> outcome.event.delta == 0)
      && (!rejected && slot.tag < 0 ==> outcome.event.delta == input.now - st.timestamp)
      && (!rejected && slot.builder.ClockDelay? ==> outcome.event.result == WaitForEventResult(None, true))
      && (!rejected && slot.builder.PinWait? ==> outcome.event.result == input.pinResult)
  {
  }

  /**
   * The loop tests for cancellation only at its top: a step begun after
   * cancellation was requested, or after the sequence ended, emits nothing
   * and changes nothing but the end flag.
   */
  lemma CancelledStepEmitsNothing(st: RunState, input: StepInput)
    requires Admissible(st, input)
    requires st.finished || input.cancelled
    ensures Step(st, input).1 == Ended
    ensures Step(st, input).0 == st.(finished := true)
  {
  }

  // ---------------------------------------------------------------------
  // A whole run: the steps of one Run invocation in order.
  // ---------------------------------------------------------------------

  predicate AllAdmissible(poolSize: nat, inputs: seq<StepInput>) {
    forall i :: 0 <= i < |inputs| ==> inputs[i].completed < poolSize || poolSize == 0
  }

  /**
   * The state after the given iterations and what each of them gave: one
   * outcome per iteration, a pool of unchanged size, and no pin opened.
   */
  function Trace(st: RunState, inputs: seq<StepInput>): (r: (RunState, seq<StepOutcome>))
    requires AllAdmissible(|st.pool|, inputs)
    ensures |r.0.pool| == |st.pool|
    ensures |r.1| == |inputs|
    ensures r.0.pinLog == st.pinLog
  {
    if inputs == [] then (st, [])
    else
      var (mid, outcomes) := Trace(st, inputs[..|inputs| - 1]);
      var (next, outcome) := Step(mid, inputs[|inputs| - 1]);
      (next, outcomes + [outcome])
  }

  /**
   * However many iterations run, the pool keeps its multisets of tags and
   * of waits (no subscription's wait and no clock entry is lost or
   * duplicated) and stays well formed.
   */
  lemma {:induction false} TraceKeepsPool(st: RunState, inputs: seq<StepInput>)
    requires PoolWellFormed(st.pool, st.nextOp)
    requires AllAdmissible(|st.pool|, inputs)
    ensures var end := Trace(st, inputs).0;
      && multiset(Tags(end.pool)) == multiset(Tags(st.pool))
      && multiset(Builders(end.pool)) == multiset(Builders(st.pool))
      && PoolWellFormed(end.pool, end.nextOp)
  {
    if inputs != [] {
      var prefix := inputs[..|inputs| - 1];
      assert AllAdmissible(|st.pool|, prefix);
      TraceKeepsPool(st, prefix);
      StepKeepsPool(Trace(st, prefix).0, inputs[|inputs| - 1]);
    }
  }

  /**
   * From setup on, however many iterations run, the pool holds one entry
   * per subscription tagged with its pin and waiting for that pin on that
   * subscription's edge, and exactly one clock entry, waiting for the
   * configured delay, when the clock is enabled: no subscription is dropped
   * and none is waited on twice.
   */
  lemma RunKeepsSubscriptions(subs: seq<Subscription>, clockEnabled: bool, clockRate: int, startTicks: int,
                              inputs: seq<StepInput>)
    requires forall i :: 0 <= i < |subs| ==> subs[i].Valid()
    requires AllAdmissible(|subs| + (if clockEnabled then 1 else 0), inputs)
    ensures var pool := Trace(InitialState(subs, clockEnabled, clockRate, startTicks), inputs).0.pool;
      && multiset(Tags(pool)) == multiset(PinNumbers(subs)) + (if clockEnabled then multiset{ClockPin} else multiset{})
      && multiset(Tags(pool))[ClockPin] == (if clockEnabled then 1 else 0)
      && multiset(Builders(pool)) == multiset(PinWaits(subs)) + (if clockEnabled then multiset{ClockDelay(clockRate)} else multiset{})
  {
    InitialPoolShape(subs, clockEnabled, clockRate);
    TraceKeepsPool(InitialState(subs, clockEnabled, clockRate, startTicks), inputs);
  }

  /** A trace one input longer is the shorter trace followed by one step. */
  lemma TraceSnoc(st: RunState, inputs: seq<StepInput>, i: nat)
    requires AllAdmissible(|st.pool|, inputs)
    requires i < |inputs|
    ensures AllAdmissible(|st.pool|, inputs[..i]) && AllAdmissible(|st.pool|, inputs[..i + 1])
    ensures var mid := Trace(st, inputs[..i]).0;
      Admissible(mid, inputs[i]) &&
      Trace(st, inputs[..i + 1]) == (Step(mid, inputs[i]).0, Trace(st, inputs[..i]).1 + [Step(mid, inputs[i]).1])
  {
    assert inputs[..i + 1][..i] == inputs[..i];
  }

  /**
   * One iteration read no earlier than the timestamp moves the timestamp at
   * most up to the reading, and a clock event's delta is non-negative.
   */
  lemma StepTiming(st: RunState, input: StepInput)
    requires Admissible(st, input)
    requires st.timestamp <= input.now
    ensures var (next, outcome) := Step(st, input);
      && st.timestamp <= next.timestamp <= input.now
      && (outcome.Emitted? && outcome.event.IsClock() ==> outcome.event.delta >= 0)
  {
    if !st.finished && !input.cancelled && |st.pool| > 0 {
      StepEvent(st, input);
    }
  }

  /**
   * If the clock readings never go backwards and start no earlier than the
   * timestamp, the timestamp never decreases and every clock event's delta
   * is non-negative; the timestamp is always the start value or one of the
   * readings.
   */
  lemma {:induction false} TraceTiming(st: RunState, inputs: seq<StepInput>)
    requires AllAdmissible(|st.pool|, inputs)
    requires forall i :: 0 <= i < |inputs| ==> st.timestamp <= inputs[i].now
    requires forall i, j :: 0 <= i < j < |inputs| ==> inputs[i].now <= inputs[j].now
    ensures st.timestamp <= Trace(st, inputs).0.timestamp
    ensures inputs != [] ==> Trace(st, inputs).0.timestamp <= inputs[|inputs| - 1].now
    ensures forall i :: 0 <= i < |inputs| && Trace(st, inputs).1[i].Emitted? && Trace(st, inputs).1[i].event.IsClock() ==>
      Trace(st, inputs).1[i].event.delta >= 0
  {
    if inputs != [] {
      var n := |inputs|;
      var prefix := inputs[..n - 1];
      TraceTiming(st, prefix);
      TraceSnoc(st, inputs, n - 1);
      assert inputs[..n] == inputs;
      var mid := Trace(st, prefix).0;
      var input := inputs[n - 1];
      assert mid.timestamp <= input.now by {
        if prefix != [] {
          assert prefix[|prefix| - 1] == inputs[n - 2];
        }
      }
      StepTiming(mid, input);
    }
  }

  /** The last step of a trace ends the sequence once the one before it has, or cancellation is requested. */
  lemma {:induction false} LastStepEnds(st: RunState, inputs: seq<StepInput>)
    requires AllAdmissible(|st.pool|, inputs)
    requires inputs != []
    requires AllAdmissible(|st.pool|, inputs[..|inputs| - 1])
    requires Trace(st, inputs[..|inputs| - 1]).0.finished || inputs[|inputs| - 1].cancelled
    ensures Trace(st, inputs).0.finished
    ensures Trace(st, inputs).1 == Trace(st, inputs[..|inputs| - 1]).1 + [Ended]
  {
    var prefix := inputs[..|inputs| - 1];
    CancelledStepEmitsNothing(Trace(st, prefix).0, inputs[|inputs| - 1]);
  }

  /** Once a step ends the sequence, every later step gives Ended. */
  lemma {:induction false} EndedIsFinal(st: RunState, inputs: seq<StepInput>, c: nat)
    requires AllAdmissible(|st.pool|, inputs)
    requires c < |inputs| && inputs[c].cancelled
    ensures forall i :: c <= i < |inputs| ==> Trace(st, inputs).1[i] == Ended
    ensures Trace(st, inputs).0.finished
  {
    var prefix := inputs[..|inputs| - 1];
    assert AllAdmissible(|st.pool|, prefix);
    if c < |inputs| - 1 {
      EndedIsFinal(st, prefix, c);
    }
    LastStepEnds(st, inputs);
  }

  /**
   * The clock reading for a clock event is taken before the wait, so the
   * first clock event of a clock-only service measures the time from setup
   * to the top of the first iteration, not the clock rate: read immediately,
   * its delta is 0 whatever the rate.
   */
  lemma FirstClockDeltaIsTakenBeforeWait(clockRate: int, startTicks: int)
    requires DelayAccepted(clockRate)
    ensures var st := InitialState([], true, clockRate, startTicks);
      var input := StepInput(0, startTicks, WaitForEventResult(None, false), false);
      Admissible(st, input) &&
      Step(st, input).1 == Emitted(SubscriptionEvent(ClockPin, WaitForEventResult(None, true), 0))
  {
    var st := InitialState([], true, clockRate, startTicks);
    assert st.pool == [Slot(0, ClockPin, ClockDelay(clockRate))];
  }

  /**
   * The clock rate is not checked when it is set: a rate Task.Delay rejects
   * ends the sequence with that error at the first clock completion, and
   * every later pull ends it.
   */
  lemma RejectedClockRateFaults(subs: seq<Subscription>, clockRate: int, startTicks: int, input: StepInput, later: StepInput)
    requires !DelayAccepted(clockRate)
    requires input.completed == |subs| && !input.cancelled
    ensures var st := InitialState(subs, true, clockRate, startTicks);
      var (next, outcome) := Step(st, input);
      && Admissible(st, input)
      && outcome == Faulted(DelayOutOfRange(clockRate))
      && next.finished
      && (Admissible(next, later) ==> Step(next, later).1 == Ended)
  {
    var st := InitialState(subs, true, clockRate, startTicks);
    assert st.pool[|subs|].builder == ClockDelay(clockRate);
  }

  // ---------------------------------------------------------------------
  // The service object and its Run enumerator.
  // ---------------------------------------------------------------------

  class SubscriptionService {
    /** The list it was given; a collection's Build passes its own live list. */
    const subscriptions: SubscriptionList
    const clockRate: int
    const clockEnabled: bool

    constructor (subscriptions: SubscriptionList, clockRate: int, clockEnabled: bool)
      ensures this.subscriptions == subscriptions
      ensures this.clockRate == clockRate && this.clockEnabled == clockEnabled
    {
      this.subscriptions := subscriptions;
      this.clockRate := clockRate;
      this.clockEnabled := clockEnabled;
    }

    /** The public constructor, which rejects a null list and keeps any other by reference. */
    static method New(subscriptions: SubscriptionList?, clockRate: int, clockEnabled: bool)
      returns (r: Result<SubscriptionService>)
      ensures r.Failure? <==> subscriptions == null
      ensures r.Failure? ==> r.error == NullSubscriptions
      ensures r.Success? ==> fresh(r.value) && r.value.subscriptions == subscriptions
      ensures r.Success? ==> r.value.clockRate == clockRate && r.value.clockEnabled == clockEnabled
    {
      if subscriptions == null {
        return Failure(NullSubscriptions);
      }
      var service := new SubscriptionService(subscriptions, clockRate, clockEnabled);
      return Success(service);
    }

    /**
     * The pulls a consumer makes on Run's sequence. Run is an async iterator,
     * so nothing runs until the first pull: that pull performs the setup,
     * reading the list as it is then, and each input drives one iteration.
     */
    method Run(startTicks: int, inputs: seq<StepInput>) returns (pinLog: seq<OpenedPin>, outcomes: seq<StepOutcome>)
      requires AllAdmissible(|subscriptions.items| + (if clockEnabled then 1 else 0), inputs)
      ensures var init := InitialState(subscriptions.items, clockEnabled, clockRate, startTicks);
        AllAdmissible(|init.pool|, inputs) &&
        pinLog == (if inputs == [] then [] else PinsToOpen(subscriptions.items)) &&
        outcomes == Trace(init, inputs).1
    {
      if inputs == [] {
        return [], [];
      }
      var run := new RunEnumerator(this);
      run.Start(startTicks);
      ghost var init := InitialState(subscriptions.items, clockEnabled, clockRate, startTicks);
      outcomes := [];
      var i := 0;
      while i < |inputs|
        invariant 0 <= i <= |inputs|
        invariant run.service == this
        invariant run.State() == Trace(init, inputs[..i]).0
        invariant outcomes == Trace(init, inputs[..i]).1
      {
        TraceSnoc(init, inputs, i);
        var outcome := run.MoveNext(inputs[i]);
        outcomes := outcomes + [outcome];
        i := i + 1;
      }
      assert inputs[..i] == inputs;
      pinLog := run.pinLog;
    }
  }

  /** The state of one Run invocation: the controller log and the loop variables. */
  class RunEnumerator {
    const service: SubscriptionService
    var pinLog: seq<OpenedPin>
    var pool: seq<Slot>
    var timestamp: int
    var nextOp: nat
    var finished: bool

    function State(): RunState
      reads this
    {
      RunState(pinLog, pool, timestamp, nextOp, finished)
    }

    constructor (service: SubscriptionService)
      ensures this.service == service
      ensures State() == RunState([], [], 0, 0, false)
    {
      this.service := service;
      pinLog, pool, timestamp, nextOp, finished := [], [], 0, 0, false;
    }

    /** Setup: open each distinct pin, sample the timestamp, build the pool. */
    method Start(startTicks: int)
      modifies this
      ensures State() == InitialState(service.subscriptions.items, service.clockEnabled, service.clockRate, startTicks)
    {
      var subs := service.subscriptions.items;
      pinLog := [];
      var i := 0;
      while i < |subs|
        invariant 0 <= i <= |subs|
        invariant pinLog == PinsToOpen(subs[..i])
      {
        assert subs[..i + 1][..i] == subs[..i];
        if !IsOpened(pinLog, subs[i].pinNumber) {
          pinLog := pinLog + [OpenedPin(subs[i].pinNumber, subs[i].pinMode)];
        }
        i := i + 1;
      }
      assert subs[..i] == subs;
      timestamp := startTicks;
      BuildWaitPool();
    }

    /** One entry per subscription in list order, then the clock's entry if enabled. */
    method BuildWaitPool()
      modifies this
      ensures pool == InitialPool(service.subscriptions.items, service.clockEnabled, service.clockRate)
      ensures nextOp == |pool|
      ensures pinLog == old(pinLog) && timestamp == old(timestamp) && finished == false
    {
      var subs := service.subscriptions.items;
      pool := [];
      var i := 0;
      while i < |subs|
        invariant 0 <= i <= |subs|
        invariant pool == PinSlots(subs[..i], 0)
        invariant pinLog == old(pinLog) && timestamp == old(timestamp)
      {
        var s := subs[i];
        pool := pool + [Slot(i, s.pinNumber, PinWait(s.pinNumber, s.eventType))];
        i := i + 1;
      }
      assert subs[..i] == subs;
      nextOp := |subs|;
      finished := false;
      if service.clockEnabled {
        pool := pool + [Slot(nextOp, ClockPin, ClockDelay(service.clockRate))];
        nextOp := nextOp + 1;
      }
    }

    /** One pull on the event sequence. */
    method MoveNext(input: StepInput) returns (outcome: StepOutcome)
      requires Admissible(State(), input)
      modifies this
      ensures (State(), outcome) == Step(old(State()), input)
    {
      if finished {
        return Ended;
      }
      if input.cancelled {
        finished := true;
        return Ended;
      }
      var now := input.now;
      var delta := now - timestamp;
      if |pool| == 0 {
        finished := true;
        return Faulted(EmptyWaitPool);
      }
      var slot := pool[input.completed];
      pool := RemoveAt(pool, input.completed);
      pool := pool + [Slot(nextOp, slot.tag, slot.builder)];
      nextOp := nextOp + 1;
      if slot.tag >= 0 {
        delta := 0;
      } else {
        timestamp := now;
      }
      if slot.builder.ClockDelay? && !DelayAccepted(slot.builder.rate) {
        finished := true;
        return Faulted(DelayOutOfRange(slot.builder.rate));
      }
      var result := if slot.builder.ClockDelay? then ClockTaskResult else input.pinResult;
      outcome := Emitted(SubscriptionEvent(slot.tag, result, delta));
    }
  }
}
