/**
 * The subscription collection: a mutable list of subscriptions guarded by
 * Subscribe and Unsubscribe, two settable clock properties, and Build, which
 * hands the live list to a new service.
 */
module Registry {
  import opened Gpio
  import opened Subscriptions
  import Service

  /** The initial ClockRate: 500 milliseconds, in ticks. */
  const DefaultClockRate: int := 500 * TicksPerMillisecond

  predicate HasPair(subs: seq<Subscription>, pinNumber: int, eventType: PinEventTypes) {
    exists i :: 0 <= i < |subs| && subs[i].pinNumber == pinNumber && subs[i].eventType == eventType
  }

  predicate HasConflict(subs: seq<Subscription>, pinNumber: int, pinMode: PinMode) {
    exists i :: 0 <= i < |subs| && subs[i].pinNumber == pinNumber && subs[i].pinMode != pinMode
  }

  /** Every entry passed the Subscription constructor's guards: no Output mode, no negative pin. */
  ghost predicate AllValid(subs: seq<Subscription>) {
    forall i :: 0 <= i < |subs| ==> subs[i].Valid()
  }

  /** No two entries share a (pin, event type) pair. */
  ghost predicate PairsUnique(subs: seq<Subscription>) {
    forall i, j :: 0 <= i < j < |subs| ==>
      subs[i].pinNumber != subs[j].pinNumber || subs[i].eventType != subs[j].eventType
  }

  /** All entries on one pin use one mode. */
  ghost predicate OneModePerPin(subs: seq<Subscription>) {
    forall i, j :: 0 <= i < |subs| && 0 <= j < |subs| && subs[i].pinNumber == subs[j].pinNumber ==>
      subs[i].pinMode == subs[j].pinMode
  }

  /** The collection's invariant. */
  ghost predicate Invariant(subs: seq<Subscription>) {
    AllValid(subs) && PairsUnique(subs) && OneModePerPin(subs)
  }

  /**
   * What Subscribe does to the list: the mode check, the duplicate check,
   * the conflict check and the Subscription constructor, in that order; on
   * success the new entry is appended.
   */
  function AfterSubscribe(subs: seq<Subscription>, pinNumber: int, pinMode: PinMode, eventType: PinEventTypes)
    : (r: Result<seq<Subscription>>)
    ensures pinMode == Output ==> r == Failure(OutputNotSupported)
    ensures pinMode != Output && HasPair(subs, pinNumber, eventType) ==>
      r == Failure(AlreadyExists(pinNumber, eventType))
    ensures pinMode != Output && !HasPair(subs, pinNumber, eventType) && HasConflict(subs, pinNumber, pinMode) ==>
      r == Failure(ConflictingPinModes(pinNumber))
    ensures (pinMode != Output && !HasPair(subs, pinNumber, eventType) && !HasConflict(subs, pinNumber, pinMode)
      && pinNumber < 0) ==> r == Failure(PinNumberOutOfRange(pinNumber))
    ensures r.Success? ==> r.value == subs + [Subscription(pinNumber, pinMode, eventType)]
  {
    if pinMode == Output then Failure(OutputNotSupported)
    else if HasPair(subs, pinNumber, eventType) then Failure(AlreadyExists(pinNumber, eventType))
    else if HasConflict(subs, pinNumber, pinMode) then Failure(ConflictingPinModes(pinNumber))
    else
      match NewSubscription(pinNumber, pinMode, eventType)
      case Failure(e) => Failure(e)
      case Success(s) => Success(subs + [s])
  }

  /**
   * On a list that satisfies the invariant, Subscribe succeeds exactly when
   * appending the entry keeps the invariant: its guards reject precisely the
   * entries that would break it.
   */
  lemma SubscribeSucceedsIffInvariantKept(subs: seq<Subscription>, pinNumber: int, pinMode: PinMode, eventType: PinEventTypes)
    requires Invariant(subs)
    ensures AfterSubscribe(subs, pinNumber, pinMode, eventType).Success? <==>
      Invariant(subs + [Subscription(pinNumber, pinMode, eventType)])
  {
    var s := Subscription(pinNumber, pinMode, eventType);
    var t := subs + [s];
    var n := |subs|;
    assert t[n] == s;
    assert forall i :: 0 <= i < n ==> t[i] == subs[i];
    if HasPair(subs, pinNumber, eventType) {
      var i :| 0 <= i < n && subs[i].pinNumber == pinNumber && subs[i].eventType == eventType;
      assert !PairsUnique(t) by { assert t[i].pinNumber == t[n].pinNumber && t[i].eventType == t[n].eventType; }
    }
    if HasConflict(subs, pinNumber, pinMode) {
      var i :| 0 <= i < n && subs[i].pinNumber == pinNumber && subs[i].pinMode != pinMode;
      assert !OneModePerPin(t) by { assert t[i].pinNumber == t[n].pinNumber && t[i].pinMode != t[n].pinMode; }
    }
    if !s.Valid() {
      assert !AllValid(t);
    }
  }

  /** Subscribe keeps the invariant whether it succeeds or fails. */
  lemma SubscribePreservesInvariant(subs: seq<Subscription>, pinNumber: int, pinMode: PinMode, eventType: PinEventTypes)
    requires Invariant(subs)
    ensures AfterSubscribe(subs, pinNumber, pinMode, eventType).Success? ==>
      Invariant(AfterSubscribe(subs, pinNumber, pinMode, eventType).value)
  {
    SubscribeSucceedsIffInvariantKept(subs, pinNumber, pinMode, eventType);
  }

  /**
   * A subscription on a pair that exists under another mode is reported as a
   * duplicate: the duplicate check runs before the conflict check.
   */
  lemma DuplicateReportedBeforeConflict(subs: seq<Subscription>, k: nat, pinMode: PinMode)
    requires k < |subs| && pinMode != Output && subs[k].pinMode != pinMode
    ensures AfterSubscribe(subs, subs[k].pinNumber, pinMode, subs[k].eventType) ==
      Failure(AlreadyExists(subs[k].pinNumber, subs[k].eventType))
  {
  }

  /** Index of the first entry on the pair (FirstOrDefault), or |subs| when there is none. */
  function FirstMatch(subs: seq<Subscription>, pinNumber: int, eventType: PinEventTypes): (i: nat)
    ensures i <= |subs|
    ensures i < |subs| ==> subs[i].pinNumber == pinNumber && subs[i].eventType == eventType
    ensures forall j :: 0 <= j < i ==> subs[j].pinNumber != pinNumber || subs[j].eventType != eventType
  {
    if subs == [] then 0
    else if subs[0].pinNumber == pinNumber && subs[0].eventType == eventType then 0
    else 1 + FirstMatch(subs[1..], pinNumber, eventType)
  }

  /** What Unsubscribe does to the list: remove the first entry on the pair, or fail when there is none. */
  function AfterUnsubscribe(subs: seq<Subscription>, pinNumber: int, eventType: PinEventTypes)
    : (r: Result<seq<Subscription>>)
    ensures r.Failure? ==> r.error == NotFound(pinNumber, eventType)
    ensures r.Success? ==> |r.value| == |subs| - 1 && multiset(r.value) <= multiset(subs)
  {
    var i := FirstMatch(subs, pinNumber, eventType);
    if i == |subs| then Failure(NotFound(pinNumber, eventType))
    else Success(Service.RemoveAt(subs, i))
  }

  /**
   * Unsubscribe fails exactly when no entry has the pair. Otherwise it removes
   * one entry with that pair, keeps the others in order, and, on a list that
   * satisfies the invariant, leaves no entry with that pair.
   */
  lemma UnsubscribeOutcome(subs: seq<Subscription>, pinNumber: int, eventType: PinEventTypes)
    ensures var r := AfterUnsubscribe(subs, pinNumber, eventType);
      && (r.Failure? <==> !HasPair(subs, pinNumber, eventType))
      && (r.Failure? ==> r.error == NotFound(pinNumber, eventType))
      && (r.Success? ==>
            exists i :: (0 <= i < |subs| && subs[i].pinNumber == pinNumber && subs[i].eventType == eventType &&
                         r.value == Service.RemoveAt(subs, i)))
      && (r.Success? && PairsUnique(subs) ==> !HasPair(r.value, pinNumber, eventType))
  {
    var i := FirstMatch(subs, pinNumber, eventType);
    var r := AfterUnsubscribe(subs, pinNumber, eventType);
    if i < |subs| {
      assert HasPair(subs, pinNumber, eventType);
    }
  }

  /** Unsubscribe keeps the invariant. */
  lemma UnsubscribePreservesInvariant(subs: seq<Subscription>, pinNumber: int, eventType: PinEventTypes)
    requires Invariant(subs)
    ensures AfterUnsubscribe(subs, pinNumber, eventType).Success? ==>
      Invariant(AfterUnsubscribe(subs, pinNumber, eventType).value)
  {
    var i := FirstMatch(subs, pinNumber, eventType);
    if i < |subs| {
      RemoveKeepsInvariant(subs, i);
    }
  }

  /** Removing any one entry keeps the invariant. */
  lemma RemoveKeepsInvariant(subs: seq<Subscription>, i: nat)
    requires Invariant(subs) && i < |subs|
    ensures Invariant(Service.RemoveAt(subs, i))
  {
    var t := Service.RemoveAt(subs, i);
    assert forall j :: 0 <= j < |t| ==> t[j] == subs[if j < i then j else j + 1];
  }

  /** The first match in a list extended by one entry is the extension when nothing earlier matches. */
  lemma {:induction false} FirstMatchOfAppended(subs: seq<Subscription>, s: Subscription)
    requires !HasPair(subs, s.pinNumber, s.eventType)
    ensures FirstMatch(subs + [s], s.pinNumber, s.eventType) == |subs|
  {
    if subs != [] {
      assert (subs + [s])[1..] == subs[1..] + [s];
      FirstMatchOfAppended(subs[1..], s);
    }
  }

  /**
   * What the Subscriptions view reads back after a successful Subscribe: the
   * new entry exactly once, every earlier entry as often as before.
   */
  lemma SubscribedTripleReadOnce(subs: seq<Subscription>, pinNumber: int, pinMode: PinMode, eventType: PinEventTypes)
    requires AfterSubscribe(subs, pinNumber, pinMode, eventType).Success?
    ensures var view := AfterSubscribe(subs, pinNumber, pinMode, eventType).value;
      && multiset(view)[Subscription(pinNumber, pinMode, eventType)] == 1
      && forall t :: t != Subscription(pinNumber, pinMode, eventType) ==> multiset(view)[t] == multiset(subs)[t]
  {
  }

  /** A successful Subscribe followed by Unsubscribe of the same pair restores the list. */
  lemma SubscribeThenUnsubscribe(subs: seq<Subscription>, pinNumber: int, pinMode: PinMode, eventType: PinEventTypes)
    requires AfterSubscribe(subs, pinNumber, pinMode, eventType).Success?
    ensures AfterUnsubscribe(AfterSubscribe(subs, pinNumber, pinMode, eventType).value, pinNumber, eventType) == Success(subs)
  {
    var s := Subscription(pinNumber, pinMode, eventType);
    var t := subs + [s];
    assert AfterSubscribe(subs, pinNumber, pinMode, eventType).value == t;
    assert !HasPair(subs, pinNumber, eventType);
    FirstMatchOfAppended(subs, s);
    assert FirstMatch(t, pinNumber, eventType) == |subs|;
    assert t[..|subs|] + t[|subs| + 1..] == subs;
    assert AfterUnsubscribe(t, pinNumber, eventType) == Success(t[..|subs|] + t[|subs| + 1..]);
  }

  class SubscriptionCollection {
    var clockEnabled: bool
    var clockRate: int
    /** The private list; Build gives it away by reference. */
    const list: SubscriptionList

    ghost predicate Valid()
      reads this, list
    {
      Invariant(list.items)
    }

    constructor ()
      ensures Valid() && fresh(list)
      ensures list.items == []
      ensures !clockEnabled && clockRate == DefaultClockRate
    {
      clockEnabled := false;
      clockRate := DefaultClockRate;
      list := new SubscriptionList();
    }

    /**
     * The read-only view of the list: its current entries, which under the
     * collection's invariant are valid, with unique pairs and one mode per pin.
     */
    function Subscriptions(): (view: seq<Subscription>)
      reads this, list
      ensures view == list.items
      ensures Valid() ==> Invariant(view)
    {
      list.items
    }

    method Subscribe(pinNumber: int, pinMode: PinMode, eventType: PinEventTypes) returns (r: Result<SubscriptionCollection>)
      requires Valid()
      modifies list
      ensures Valid()
      ensures var after := AfterSubscribe(old(list.items), pinNumber, pinMode, eventType);
        && (after.Success? ==> r == Success(this) && list.items == after.value)
        && (after.Failure? ==> r == Failure(after.error) && list.items == old(list.items))
    {
      SubscribePreservesInvariant(list.items, pinNumber, pinMode, eventType);
      if pinMode == Output {
        return Failure(OutputNotSupported);
      }
      if HasPair(Subscriptions(), pinNumber, eventType) {
        return Failure(AlreadyExists(pinNumber, eventType));
      }
      if HasConflict(Subscriptions(), pinNumber, pinMode) {
        return Failure(ConflictingPinModes(pinNumber));
      }
      var created := NewSubscription(pinNumber, pinMode, eventType);
      if created.Failure? {
        return Failure(created.error);
      }
      list.items := list.items + [created.value];
      return Success(this);
    }

    method Unsubscribe(pinNumber: int, eventType: PinEventTypes) returns (r: Result<SubscriptionCollection>)
      requires Valid()
      modifies list
      ensures Valid()
      ensures var after := AfterUnsubscribe(old(list.items), pinNumber, eventType);
        && (after.Success? ==> r == Success(this) && list.items == after.value)
        && (after.Failure? ==> r == Failure(after.error) && list.items == old(list.items))
    {
      UnsubscribePreservesInvariant(list.items, pinNumber, eventType);
      var i := FirstMatch(list.items, pinNumber, eventType);
      if i == |list.items| {
        return Failure(NotFound(pinNumber, eventType));
      }
      list.items := Service.RemoveAt(list.items, i);
      return Success(this);
    }

    /** A service over the current clock settings and this collection's own list object. */
    method Build() returns (service: Service.SubscriptionService)
      ensures fresh(service)
      ensures service.subscriptions == list
      ensures service.clockRate == clockRate && service.clockEnabled == clockEnabled
    {
      var r := Service.SubscriptionService.New(list, clockRate, clockEnabled);
      service := r.value;
    }
  }

  /**
   * The service shares the collection's list: a Subscribe made after Build
   * is seen by the service that Build returned.
   */
  method SubscribeAfterBuild(c: SubscriptionCollection, pinNumber: int, pinMode: PinMode, eventType: PinEventTypes)
    returns (service: Service.SubscriptionService, r: Result<SubscriptionCollection>)
    requires c.Valid()
    modifies c.list
    ensures service.subscriptions == c.list
    ensures r.Success? ==> service.subscriptions.items == old(c.list.items) + [Subscription(pinNumber, pinMode, eventType)]
  {
    service := c.Build();
    r := c.Subscribe(pinNumber, pinMode, eventType);
  }
}
