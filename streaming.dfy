/**
 * Change notification to connected clients: the broadcaster keeps the list of subscribed hubs and fans
 * each ObjectChanged event out to them; each hub tracks whether it has subscribed. The two classes refer
 * to each other, so they share this module.
 */
module Streaming {
  import opened Wrappers
  import opened Numerics
  import opened MapObjects
  import opened Events
  import opened Contracts
  import opened ObjectLayer

  /** A message handed to a hub. */
  datatype Message =
    | AddedMessage(added: ObjectAddedEvent)
    | UpdatedMessage(updated: ObjectUpdatedEvent)
    | DeletedMessage(deleted: ObjectDeletedEvent)

  /**
   * The conversion of OnObjectEvent: Created and Updated carry the object's DTO, Removed only its id; all
   * three carry the event's timestamp.
   */
  function MessageOf(e: MapObjectEventArgs): (m: Message)
    ensures e.eventType == Created ==> m == AddedMessage(ObjectAddedEvent(ToObjectDto(e.obj), e.timestamp))
    ensures e.eventType == Updated ==> m == UpdatedMessage(ObjectUpdatedEvent(ToObjectDto(e.obj), e.timestamp))
    ensures e.eventType == Removed ==> m == DeletedMessage(ObjectDeletedEvent(e.obj.id, e.timestamp))
  {
    match e.eventType
    case Created => AddedMessage(ObjectAddedEvent(ToObjectDto(e.obj), e.timestamp))
    case Updated => UpdatedMessage(ObjectUpdatedEvent(ToObjectDto(e.obj), e.timestamp))
    case Removed => DeletedMessage(ObjectDeletedEvent(e.obj.id, e.timestamp))
  }

  /** One call of a hub's Broadcast method; `failed` records that the call threw and the throw was swallowed. */
  datatype Delivery = Delivery(hub: MapStreamingHub, message: Message, failed: bool)

  /** `if (!_subscribers.Contains(hub)) _subscribers.Add(hub)`. */
  function SubscribeList<T(==)>(s: seq<T>, h: T): (t: seq<T>)
    ensures h in t && s <= t && |t| <= |s| + 1
  {
    if h in s then s else s + [h]
  }

  /** `List.Remove`: drops the first occurrence, if any. */
  function RemoveFirst<T(==)>(s: seq<T>, h: T): (t: seq<T>)
    ensures |t| == if h in s then |s| - 1 else |s|
    ensures forall i :: 0 <= i < |t| ==> t[i] in s
  {
    if s == [] then []
    else if s[0] == h then s[1..]
    else [s[0]] + RemoveFirst(s[1..], h)
  }

  /** Subscribing keeps the list free of duplicates; subscribing twice is subscribing once. */
  lemma SubscribeProperties<T>(s: seq<T>, h: T)
    requires NoDuplicates(s)
    ensures NoDuplicates(SubscribeList(s, h))
    ensures SubscribeList(SubscribeList(s, h), h) == SubscribeList(s, h)
    ensures h !in s ==> SubscribeList(s, h) == s + [h]
  {
  }

  /** Removing an absent hub changes nothing. */
  lemma {:induction false} RemoveAbsent<T>(s: seq<T>, h: T)
    requires h !in s
    ensures RemoveFirst(s, h) == s
  {
    if s != [] {
      RemoveAbsent(s[1..], h);
    }
  }

  /** The position of the first occurrence. */
  function FirstIndex<T(==)>(s: seq<T>, h: T): (i: nat)
    requires h in s
    ensures i < |s| && s[i] == h && h !in s[..i]
  {
    if s[0] == h then 0
    else
      var j := FirstIndex(s[1..], h);
      assert s[..j + 1] == [s[0]] + s[1..][..j];
      j + 1
  }

  /** Removal deletes the first occurrence and keeps the order of the rest. */
  lemma {:induction false} RemoveFirstDeletesOne<T>(s: seq<T>, h: T)
    requires h in s
    ensures RemoveFirst(s, h) == s[..FirstIndex(s, h)] + s[FirstIndex(s, h) + 1..]
  {
    if s[0] != h {
      RemoveFirstDeletesOne(s[1..], h);
      var j := FirstIndex(s[1..], h);
      assert s[..j + 1] == [s[0]] + s[1..][..j];
      assert s[j + 2..] == s[1..][j + 1..];
    }
  }

  /** In a list without duplicates, removal takes the hub out entirely and keeps every other hub. */
  lemma {:induction false} RemoveFirstNoDuplicates<T>(s: seq<T>, h: T)
    requires NoDuplicates(s)
    ensures NoDuplicates(RemoveFirst(s, h))
    ensures h !in RemoveFirst(s, h)
    ensures forall x :: x != h ==> (x in RemoveFirst(s, h) <==> x in s)
  {
    if s != [] {
      assert NoDuplicates(s[1..]) by {
        forall i, j | 0 <= i < j < |s[1..]| ensures s[1..][i] != s[1..][j] {
          assert s[1..][i] == s[i + 1] && s[1..][j] == s[j + 1];
        }
      }
      RemoveFirstNoDuplicates(s[1..], h);
      if s[0] != h {
        var t := RemoveFirst(s, h);
        assert t == [s[0]] + RemoveFirst(s[1..], h);
        assert s[0] !in s[1..] by {
          forall k | 0 <= k < |s[1..]| ensures s[1..][k] != s[0] {
            assert s[1..][k] == s[k + 1];
          }
        }
        forall i, j | 0 <= i < j < |t| ensures t[i] != t[j] {
          if i == 0 {
            assert t[j] in RemoveFirst(s[1..], h);
          } else {
            assert t[i] == RemoveFirst(s[1..], h)[i - 1] && t[j] == RemoveFirst(s[1..], h)[j - 1];
          }
        }
      } else {
        assert h !in s[1..] by {
          forall k | 0 <= k < |s[1..]| ensures s[1..][k] != h {
            assert s[1..][k] == s[k + 1];
          }
        }
        RemoveAbsent(s[1..], h);
      }
    }
  }

  /** Unsubscribing a hub that was just subscribed anew restores the list. */
  lemma {:induction false} SubscribeThenRemove<T>(s: seq<T>, h: T)
    requires h !in s
    ensures RemoveFirst(SubscribeList(s, h), h) == s
  {
    if s != [] {
      assert h !in s[1..];
      SubscribeThenRemove(s[1..], h);
      assert (s + [h])[1..] == s[1..] + [h];
      assert s == [s[0]] + s[1..];
    }
  }

  /** One delivery per hub of the snapshot, in list order, all of the same message. */
  function Fanout(subs: seq<MapStreamingHub>, m: Message, fails: set<MapStreamingHub>): (ds: seq<Delivery>)
    ensures |ds| == |subs|
    ensures forall i :: 0 <= i < |subs| ==> ds[i] == Delivery(subs[i], m, subs[i] in fails)
  {
    seq(|subs|, i requires 0 <= i < |subs| => Delivery(subs[i], m, subs[i] in fails))
  }

  /** Without duplicates in the list, each subscriber receives the message exactly once, failures or not. */
  lemma FanoutExactlyOnce(subs: seq<MapStreamingHub>, m: Message, fails: set<MapStreamingHub>, i: int, j: int)
    requires NoDuplicates(subs)
    requires 0 <= i < |subs| && 0 <= j < |subs|
    requires Fanout(subs, m, fails)[i].hub == Fanout(subs, m, fails)[j].hub
    ensures i == j
  {
  }

  /**
   * What the handler attached to ObjectChanged delivers for a log of raises, while the list is `subs`: one
   * fan-out per ObjectChanged invocation, in order. No handler of the broadcaster listens to the specific events.
   */
  function Dispatch(subs: seq<MapStreamingHub>, log: seq<Raised>, fails: set<MapStreamingHub>): seq<Delivery>
    decreases |log|
  {
    if log == [] then []
    else
      var head := if log[0].channel == ObjectChanged then Fanout(subs, MessageOf(log[0].args), fails) else [];
      head + Dispatch(subs, log[1..], fails)
  }

  /** One change of the layer (a Pair of raises) reaches the subscribers as exactly one fan-out. */
  lemma {:induction false} DispatchAppendPair(subs: seq<MapStreamingHub>, log: seq<Raised>, e: MapObjectEventArgs, fails: set<MapStreamingHub>)
    ensures Dispatch(subs, log + Pair(e), fails) == Dispatch(subs, log, fails) + Fanout(subs, MessageOf(e), fails)
    decreases |log|
  {
    if log == [] {
      assert log + Pair(e) == Pair(e);
      assert Pair(e)[1..] == [Raised(ObjectChanged, e)];
      assert [Raised(ObjectChanged, e)][1..] == [];
    } else {
      DispatchAppendPair(subs, log[1..], e, fails);
      assert (log + Pair(e))[1..] == log[1..] + Pair(e);
    }
  }

  /** Over a paired log, each subscriber receives one delivery per change, not one per raise. */
  lemma {:induction false} DispatchOncePerChange(subs: seq<MapStreamingHub>, log: seq<Raised>, fails: set<MapStreamingHub>)
    requires Paired(log)
    ensures |Dispatch(subs, log, fails)| == |subs| * (|log| / 2)
    decreases |log|
  {
    if log != [] {
      var n := (|log| - 2) / 2;
      DispatchOncePerChange(subs, log[2..], fails);
      assert log[1..][1..] == log[2..];
      assert log[0].channel != ObjectChanged && log[1].channel == ObjectChanged;
      assert Dispatch(subs, log, fails) == Dispatch(subs, log[1..], fails);
      assert Dispatch(subs, log[1..], fails) == Fanout(subs, MessageOf(log[1].args), fails) + Dispatch(subs, log[2..], fails);
      assert |log| / 2 == n + 1;
      assert |subs| * (n + 1) == |subs| + |subs| * n;
    }
  }

  class MapEventBroadcaster {
    const objectLayer: MapObjectLayer
    /** `_subscribers`. */
    var subscribers: seq<MapStreamingHub>
    /** Every Broadcast call made so far, oldest first. */
    var deliveries: seq<Delivery>

    /** The list never holds a hub twice. */
    ghost predicate Valid()
      reads this
    {
      NoDuplicates(subscribers)
    }

    constructor (objectLayer: MapObjectLayer)
      ensures Valid()
      ensures this.objectLayer == objectLayer && subscribers == [] && deliveries == []
    {
      this.objectLayer := objectLayer;
      subscribers := [];
      deliveries := [];
    }

    /** `new MapEventBroadcaster(objectLayer)`: ArgumentNullException for a missing layer. */
    static method Create(objectLayer: MapObjectLayer?) returns (r: Result<MapEventBroadcaster>)
      ensures r.Failure? <==> objectLayer == null
      ensures r.Failure? ==> r.error == ArgumentNull
      ensures r.Success? ==> fresh(r.value) && r.value.objectLayer == objectLayer && r.value.Valid()
      ensures r.Success? ==> r.value.subscribers == [] && r.value.deliveries == []
    {
      if objectLayer == null {
        return Failure(ArgumentNull);
      }
      var b := new MapEventBroadcaster(objectLayer);
      return Success(b);
    }

    /** `SubscribeAsync`: appends the hub unless it is already listed. */
    method Subscribe(hub: MapStreamingHub)
      requires Valid()
      modifies this
      ensures Valid()
      ensures subscribers == SubscribeList(old(subscribers), hub)
      ensures deliveries == old(deliveries)
    {
      SubscribeProperties(subscribers, hub);
      if hub !in subscribers {
        subscribers := subscribers + [hub];
      }
    }

    /** `UnsubscribeAsync`: removes the first occurrence; an unknown hub is a no-op. */
    method Unsubscribe(hub: MapStreamingHub)
      requires Valid()
      modifies this
      ensures Valid()
      ensures subscribers == RemoveFirst(old(subscribers), hub)
      ensures deliveries == old(deliveries)
    {
      RemoveFirstNoDuplicates(subscribers, hub);
      subscribers := RemoveFirst(subscribers, hub);
    }

    /**
     * `OnObjectEvent`, the handler on the layer's ObjectChanged: convert the event once, then hand it to
     * every hub of a snapshot of the list, in order. A throwing hub (one in `fails`) is skipped over and the
     * handler goes on; the list itself is never changed.
     */
    method OnObjectEvent(evt: MapObjectEventArgs, fails: set<MapStreamingHub>)
      modifies this
      ensures subscribers == old(subscribers)
      ensures deliveries == old(deliveries) + Fanout(old(subscribers), MessageOf(evt), fails)
    {
      var snapshot := subscribers;
      var message := MessageOf(evt);
      for i := 0 to |snapshot|
        invariant subscribers == snapshot
        invariant deliveries == old(deliveries) + Fanout(snapshot[..i], message, fails)
      {
        var sub := snapshot[i];
        match message {
          case AddedMessage(e) => sub.BroadcastObjectAdded(e);
          case UpdatedMessage(e) => sub.BroadcastObjectUpdated(e);
          case DeletedMessage(e) => sub.BroadcastObjectDeleted(e);
        }
        deliveries := deliveries + [Delivery(sub, message, sub in fails)];
        assert Fanout(snapshot[..i + 1], message, fails) == Fanout(snapshot[..i], message, fails) + [Delivery(sub, message, sub in fails)];
      }
      assert snapshot[..|snapshot|] == snapshot;
    }
  }

  class MapStreamingHub {
    const objectLayer: MapObjectLayer
    const broadcaster: MapEventBroadcaster
    /** `_isSubscribed`. */
    var isSubscribed: bool

    constructor (objectLayer: MapObjectLayer, broadcaster: MapEventBroadcaster)
      ensures this.objectLayer == objectLayer && this.broadcaster == broadcaster && !isSubscribed
    {
      this.objectLayer := objectLayer;
      this.broadcaster := broadcaster;
      isSubscribed := false;
    }

    /** `new MapStreamingHub(objectLayer, broadcaster)`: ArgumentNullException for a missing layer or broadcaster. */
    static method Create(objectLayer: MapObjectLayer?, broadcaster: MapEventBroadcaster?) returns (r: Result<MapStreamingHub>)
      ensures r.Failure? <==> objectLayer == null || broadcaster == null
      ensures r.Failure? ==> r.error == ArgumentNull
      ensures r.Success? ==> fresh(r.value) && r.value.objectLayer == objectLayer && r.value.broadcaster == broadcaster
      ensures r.Success? ==> !r.value.isSubscribed
    {
      if objectLayer == null || broadcaster == null {
        return Failure(ArgumentNull);
      }
      var hub := new MapStreamingHub(objectLayer, broadcaster);
      return Success(hub);
    }

    /** The flag says whether the hub is in the broadcaster's list, and the list has no duplicates. */
    ghost predicate Registered()
      reads this, broadcaster
    {
      broadcaster.Valid() && (isSubscribed <==> this in broadcaster.subscribers)
    }

    /** `SubscribeToMapUpdatesAsync`: nothing when already subscribed; else set the flag and register once. */
    method SubscribeToMapUpdates()
      requires broadcaster.Valid()
      modifies this, broadcaster
      ensures broadcaster.Valid()
      ensures isSubscribed
      ensures old(isSubscribed) ==> broadcaster.subscribers == old(broadcaster.subscribers)
      ensures !old(isSubscribed) ==> broadcaster.subscribers == SubscribeList(old(broadcaster.subscribers), this)
      ensures broadcaster.deliveries == old(broadcaster.deliveries)
      ensures old(Registered()) ==> Registered()
      ensures forall h: MapStreamingHub :: h != this ==> (h in broadcaster.subscribers <==> h in old(broadcaster.subscribers))
      ensures forall h: MapStreamingHub :: h != this && h.broadcaster == broadcaster && old(allocated(h)) && old(h.Registered()) ==> h.Registered()
    {
      if isSubscribed {
        return;
      }
      isSubscribed := true;
      broadcaster.Subscribe(this);
    }

    /** `UnsubscribeFromMapUpdatesAsync`: nothing when not subscribed; else clear the flag and unregister. */
    method UnsubscribeFromMapUpdates()
      requires broadcaster.Valid()
      modifies this, broadcaster
      ensures broadcaster.Valid()
      ensures !isSubscribed
      ensures !old(isSubscribed) ==> broadcaster.subscribers == old(broadcaster.subscribers)
      ensures old(isSubscribed) ==> broadcaster.subscribers == RemoveFirst(old(broadcaster.subscribers), this)
      ensures broadcaster.deliveries == old(broadcaster.deliveries)
      ensures old(Registered()) ==> Registered()
      ensures forall h: MapStreamingHub :: h != this ==> (h in broadcaster.subscribers <==> h in old(broadcaster.subscribers))
      ensures forall h: MapStreamingHub :: h != this && h.broadcaster == broadcaster && old(allocated(h)) && old(h.Registered()) ==> h.Registered()
    {
      if !isSubscribed {
        return;
      }
      ghost var before := broadcaster.subscribers;
      isSubscribed := false;
      broadcaster.Unsubscribe(this);
      RemoveFirstNoDuplicates(before, this);
    }

    /** `OnDisconnected`: unregisters a subscribed hub but leaves the flag as it was. */
    method OnDisconnected()
      requires broadcaster.Valid()
      modifies broadcaster
      ensures broadcaster.Valid()
      ensures old(isSubscribed) ==> broadcaster.subscribers == RemoveFirst(old(broadcaster.subscribers), this)
      ensures !old(isSubscribed) ==> broadcaster.subscribers == old(broadcaster.subscribers)
      ensures broadcaster.deliveries == old(broadcaster.deliveries)
      ensures old(Registered()) && isSubscribed ==> this !in broadcaster.subscribers
    {
      if isSubscribed {
        ghost var before := broadcaster.subscribers;
        broadcaster.Unsubscribe(this);
        RemoveFirstNoDuplicates(before, this);
      }
    }

    /** `BroadcastObjectAdded`: a placeholder that changes nothing. */
    method BroadcastObjectAdded(evt: ObjectAddedEvent)
      ensures unchanged(this)
    {
    }

    /** `BroadcastObjectUpdated`: a placeholder that changes nothing. */
    method BroadcastObjectUpdated(evt: ObjectUpdatedEvent)
      ensures unchanged(this)
    {
    }

    /** `BroadcastObjectDeleted`: a placeholder that changes nothing. */
    method BroadcastObjectDeleted(evt: ObjectDeletedEvent)
      ensures unchanged(this)
    {
    }
  }
}
