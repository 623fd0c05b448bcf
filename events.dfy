/** The change events the object layer raises. */
module Events {
  import opened Wrappers
  import opened MapObjects

  datatype MapObjectEventType = Created | Updated | Removed

  /**
   * An event: its kind, the object, the state before an update, and the time it was raised. The time
   * stands for the clock reading taken at construction and is only copied along.
   */
  datatype MapObjectEventArgs = MapObjectEventArgs(
    eventType: MapObjectEventType,
    obj: MapObject,
    previousState: Option<MapObject>,
    timestamp: int)

  /** The constructor: ArgumentNullException for a missing object; the clock reading becomes the timestamp. */
  function NewEventArgs(eventType: MapObjectEventType, obj: Option<MapObject>, previousState: Option<MapObject>, now: int)
    : (r: Result<MapObjectEventArgs>)
    ensures r.Failure? <==> obj.None?
    ensures r.Failure? ==> r.error == ArgumentNull
    ensures r.Success? ==> r.value.eventType == eventType && r.value.obj == obj.value
    ensures r.Success? ==> r.value.previousState == previousState && r.value.timestamp == now
  {
    if obj.None? then Failure(ArgumentNull) else Success(MapObjectEventArgs(eventType, obj.value, previousState, now))
  }

  /** `MapObjectEventArgs.Created`: a Created event for the object, with no previous state. */
  function CreatedArgs(obj: Option<MapObject>, now: int): (r: Result<MapObjectEventArgs>)
    ensures r.Failure? <==> obj.None?
    ensures r.Success? ==> r.value == MapObjectEventArgs(Created, obj.value, None, now)
  {
    NewEventArgs(Created, obj, None, now)
  }

  /** `MapObjectEventArgs.Updated`: an Updated event for the object, carrying the previous state given. */
  function UpdatedArgs(obj: Option<MapObject>, previousState: Option<MapObject>, now: int): (r: Result<MapObjectEventArgs>)
    ensures r.Failure? <==> obj.None?
    ensures r.Success? ==> r.value == MapObjectEventArgs(Updated, obj.value, previousState, now)
  {
    NewEventArgs(Updated, obj, previousState, now)
  }

  /** `MapObjectEventArgs.Removed`: a Removed event for the object, with no previous state. */
  function RemovedArgs(obj: Option<MapObject>, now: int): (r: Result<MapObjectEventArgs>)
    ensures r.Failure? <==> obj.None?
    ensures r.Success? ==> r.value == MapObjectEventArgs(Removed, obj.value, None, now)
  {
    NewEventArgs(Removed, obj, None, now)
  }

  /** The four events of the layer. */
  datatype Channel = ObjectCreated | ObjectUpdated | ObjectRemoved | ObjectChanged

  /** One invocation of an event with its arguments. */
  datatype Raised = Raised(channel: Channel, args: MapObjectEventArgs)

  /** The specific event that carries an event kind. */
  function ChannelOf(t: MapObjectEventType): (c: Channel)
    ensures c != ObjectChanged
  {
    match t
    case Created => ObjectCreated
    case Updated => ObjectUpdated
    case Removed => ObjectRemoved
  }

  /** What the layer raises for one change: the specific event, then ObjectChanged, with the same arguments. */
  function Pair(e: MapObjectEventArgs): (rs: seq<Raised>)
    ensures |rs| == 2 && rs[0].channel == ChannelOf(e.eventType) && rs[1].channel == ObjectChanged
    ensures rs[0].args == e && rs[1].args == e
  {
    [Raised(ChannelOf(e.eventType), e), Raised(ObjectChanged, e)]
  }

  /** An event log made of whole pairs. */
  ghost predicate Paired(log: seq<Raised>)
    decreases |log|
  {
    log == [] || (|log| >= 2 && log[..2] == Pair(log[0].args) && Paired(log[2..]))
  }

  /** The arguments of the ObjectChanged invocations, in order: what a handler on ObjectChanged sees. */
  function ChangedStream(log: seq<Raised>): seq<MapObjectEventArgs>
  {
    if log == [] then []
    else (if log[0].channel == ObjectChanged then [log[0].args] else []) + ChangedStream(log[1..])
  }

  /** The arguments of the specific invocations, in order. */
  function SpecificStream(log: seq<Raised>): seq<MapObjectEventArgs>
  {
    if log == [] then []
    else (if log[0].channel != ObjectChanged then [log[0].args] else []) + SpecificStream(log[1..])
  }

  /** Appending a pair keeps a log paired and adds the event once to the ObjectChanged stream. */
  lemma {:induction false} PairedAppend(log: seq<Raised>, e: MapObjectEventArgs)
    requires Paired(log)
    ensures Paired(log + Pair(e))
    ensures ChangedStream(log + Pair(e)) == ChangedStream(log) + [e]
    ensures SpecificStream(log + Pair(e)) == SpecificStream(log) + [e]
    decreases |log|
  {
    if log == [] {
      assert (log + Pair(e))[..2] == Pair(e);
      assert (log + Pair(e))[2..] == [];
      assert (log + Pair(e))[1..] == [Raised(ObjectChanged, e)];
      assert ChangedStream([Raised(ObjectChanged, e)]) == [e] + ChangedStream([]);
      assert SpecificStream([Raised(ObjectChanged, e)]) == SpecificStream([]);
    } else {
      PairedAppend(log[2..], e);
      assert (log + Pair(e))[..2] == log[..2];
      assert (log + Pair(e))[2..] == log[2..] + Pair(e);
      assert (log + Pair(e))[1..] == log[1..] + Pair(e);
      assert log[1..][1..] == log[2..];
      assert (log[1..] + Pair(e))[1..] == log[2..] + Pair(e);
      assert log[0].channel != ObjectChanged && log[1].channel == ObjectChanged;
    }
  }

  /** In a paired log every change reaches ObjectChanged: the two streams are the same. */
  lemma {:induction false} PairedStreamsAgree(log: seq<Raised>)
    requires Paired(log)
    ensures ChangedStream(log) == SpecificStream(log)
    decreases |log|
  {
    if log != [] {
      PairedStreamsAgree(log[2..]);
      assert log[1..][1..] == log[2..];
      assert log[0].channel != ObjectChanged && log[1].channel == ObjectChanged;
    }
  }
}
