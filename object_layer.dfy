/**
 * The object layer: validates requests, sequences repository calls, and raises events. The four C#
 * events are modelled as one log of invocations, appended in the order they are raised.
 */
module ObjectLayer {
  import opened Wrappers
  import opened Numerics
  import opened MapObjects
  import opened Events
  import opened Coordinates
  import opened Repository

  class MapObjectLayer {
    const repository: RedisMapObjectRepository
    /** Every event invocation so far, oldest first. */
    var log: seq<Raised>

    ghost predicate Valid()
      reads this, repository
    {
      repository.Valid() && Paired(log)
    }

    /** A layer over a repository; nothing raised yet. */
    constructor (repository: RedisMapObjectRepository)
      ensures this.repository == repository && log == []
    {
      this.repository := repository;
      log := [];
    }

    /** `new MapObjectLayer(repository)`: ArgumentNullException for a missing repository. */
    static method Create(repository: RedisMapObjectRepository?) returns (r: Result<MapObjectLayer>)
      ensures r.Failure? <==> repository == null
      ensures r.Failure? ==> r.error == ArgumentNull
      ensures r.Success? ==> fresh(r.value) && r.value.repository == repository && r.value.log == []
    {
      if repository == null {
        return Failure(ArgumentNull);
      }
      var layer := new MapObjectLayer(repository);
      return Success(layer);
    }

    /** `OnObjectCreated`: ObjectCreated, then ObjectChanged. */
    method OnObjectCreated(e: MapObjectEventArgs)
      requires e.eventType == Created
      modifies this
      ensures log == old(log) + [Raised(ObjectCreated, e), Raised(ObjectChanged, e)]
    {
      log := log + [Raised(ObjectCreated, e)];
      log := log + [Raised(ObjectChanged, e)];
    }

    /** `OnObjectUpdated`: ObjectUpdated, then ObjectChanged. */
    method OnObjectUpdated(e: MapObjectEventArgs)
      requires e.eventType == Updated
      modifies this
      ensures log == old(log) + [Raised(ObjectUpdated, e), Raised(ObjectChanged, e)]
    {
      log := log + [Raised(ObjectUpdated, e)];
      log := log + [Raised(ObjectChanged, e)];
    }

    /** `OnObjectRemoved`: ObjectRemoved, then ObjectChanged. */
    method OnObjectRemoved(e: MapObjectEventArgs)
      requires e.eventType == Removed
      modifies this
      ensures log == old(log) + [Raised(ObjectRemoved, e), Raised(ObjectChanged, e)]
    {
      log := log + [Raised(ObjectRemoved, e)];
      log := log + [Raised(ObjectChanged, e)];
    }

    /**
     * `AddObjectAsync`: ArgumentNullException for a missing object; the existence check's errors pass
     * through (ArgumentException for an empty id, a store failure unwrapped); InvalidOperationException for
     * an id already stored, before any write. A successful Add raises ObjectCreated and ObjectChanged once each.
     * `fault` makes the first store access of the call fail.
     */
    method AddObject(obj: Option<MapObject>, fault: bool, now: int) returns (r: Result<bool>)
      requires Valid()
      modifies this, repository
      ensures Valid()
      ensures obj.None? ==> r == Failure(ArgumentNull)
      ensures obj.Some? && obj.value.id == "" ==> r == Failure(Argument)
      ensures obj.Some? && obj.value.id != "" && fault ==> r == Failure(StoreFailure)
      ensures obj.Some? && obj.value.id != "" && !fault && obj.value.id in old(repository.records) ==>
        r == Failure(InvalidOperation)
      ensures obj.Some? && obj.value.id != "" && !fault && obj.value.id !in old(repository.records) ==>
        if CenterGeo(repository.converter, obj.value).Success? then
          r == Success(true)
          && repository.State() == Inserted(old(repository.State()), obj.value, CenterGeo(repository.converter, obj.value).value)
          && log == old(log) + Pair(MapObjectEventArgs(Created, obj.value, None, now))
        else r == Failure(InvalidOperation)
      ensures r != Success(true) ==> repository.State() == old(repository.State()) && log == old(log)
    {
      if obj.None? {
        return Failure(ArgumentNull);
      }
      var o := obj.value;
      var present := repository.Exists(o.id, fault);
      if present.Failure? {
        return Failure(present.error);
      }
      if present.value {
        return Failure(InvalidOperation);
      }
      var result := repository.Add(obj, false);
      if result.Failure? {
        return result;
      }
      if result.value {
        var e := CreatedArgs(obj, now).value;
        PairedAppend(log, e);
        OnObjectCreated(e);
      }
      return result;
    }

    /** `GetObjectByIdAsync`: ArgumentException for an empty id, else the repository's answer. */
    function GetObjectById(id: string, fault: bool): (r: Result<Option<MapObject>>)
      reads this, repository
      ensures id == "" ==> r == Failure(Argument)
      ensures id != "" ==> r == repository.GetById(id, fault)
    {
      if id == "" then Failure(Argument) else repository.GetById(id, fault)
    }

    /**
     * `RemoveObjectAsync`: ArgumentException for an empty id; false with no write and no event for an
     * unknown id; otherwise the deletions, then ObjectRemoved and ObjectChanged carrying the object as it
     * was read before deletion.
     */
    method RemoveObject(id: string, fault: bool, now: int) returns (r: Result<bool>)
      requires Valid()
      modifies this, repository
      ensures Valid()
      ensures id == "" ==> r == Failure(Argument)
      ensures id != "" && fault ==> r == Failure(InvalidOperation)
      ensures id != "" && !fault && id !in old(repository.records) ==> r == Success(false)
      ensures id != "" && !fault && id in old(repository.records) ==>
        r == Success(true)
        && repository.State() == Deleted(old(repository.State()), id)
        && log == old(log) + Pair(MapObjectEventArgs(Removed, old(repository.records)[id], None, now))
      ensures r != Success(true) ==> repository.State() == old(repository.State()) && log == old(log)
    {
      if id == "" {
        return Failure(Argument);
      }
      var obj := repository.GetById(id, fault);
      if obj.Failure? {
        return Failure(obj.error);
      }
      if obj.value.None? {
        return Success(false);
      }
      var result := repository.Remove(id, false);
      if result.Failure? {
        return result;
      }
      if result.value {
        var e := RemovedArgs(obj.value, now).value;
        PairedAppend(log, e);
        OnObjectRemoved(e);
      }
      return result;
    }

    /** `GetObjectsByCoordinatesAsync`: the repository's answer, unchanged. */
    method GetObjectsByCoordinates(x: int, y: int, query: GeoQuery, fault: bool) returns (r: Result<seq<MapObject>>)
      ensures r == repository.ByCoordinates(x, y, query, fault)
    {
      r := repository.GetByCoordinates(x, y, query, fault);
    }

    /** `GetObjectsInAreaAsync`, the synchronous wrapper: the repository's answer, with no check of its own. */
    method GetObjectsInArea(x: int, y: int, w: int, h: int, query: GeoQuery, fault: bool) returns (r: Result<seq<MapObject>>)
      ensures r == repository.InArea(x, y, w, h, query, fault)
    {
      r := repository.GetInArea(x, y, w, h, query, fault);
    }

    /** `GetObjectsInAreaTaskAsync`: ArgumentException for a negative size before the repository is asked. */
    method GetObjectsInAreaTask(x: int, y: int, w: int, h: int, query: GeoQuery, fault: bool) returns (r: Result<seq<MapObject>>)
      ensures w < 0 || h < 0 ==> r == Failure(Argument)
      ensures w >= 0 && h >= 0 ==> r == repository.InArea(x, y, w, h, query, fault)
    {
      if w < 0 || h < 0 {
        return Failure(Argument);
      }
      r := repository.GetInArea(x, y, w, h, query, fault);
    }

    /**
     * `UpdateObjectAsync`: ArgumentNullException for a missing object; the lookup's errors pass through;
     * InvalidOperationException with no write for an unknown id. A successful update raises ObjectUpdated
     * and ObjectChanged with the new object and the previous state.
     */
    method UpdateObject(obj: Option<MapObject>, fault: bool, now: int) returns (r: Result<bool>)
      requires Valid()
      modifies this, repository
      ensures Valid()
      ensures obj.None? ==> r == Failure(ArgumentNull)
      ensures obj.Some? && obj.value.id == "" ==> r == Failure(Argument)
      ensures obj.Some? && obj.value.id != "" && fault ==> r == Failure(InvalidOperation)
      ensures obj.None? || obj.value.id == "" || fault ==> repository.State() == old(repository.State())
      ensures obj.Some? && obj.value.id != "" && !fault && obj.value.id !in old(repository.records) ==>
        r == Failure(InvalidOperation) && repository.State() == old(repository.State())
      ensures obj.Some? && obj.value.id != "" && !fault && obj.value.id in old(repository.records) ==>
        if CenterGeo(repository.converter, obj.value).Success? then
          r == Success(true)
          && repository.State()
             == Inserted(Deleted(old(repository.State()), obj.value.id), obj.value, CenterGeo(repository.converter, obj.value).value)
          && log == old(log) + Pair(MapObjectEventArgs(Updated, obj.value, Some(old(repository.records)[obj.value.id]), now))
        else
          r == Failure(InvalidOperation) && repository.State() == Deleted(old(repository.State()), obj.value.id)
      ensures r != Success(true) ==> log == old(log)
    {
      if obj.None? {
        return Failure(ArgumentNull);
      }
      var o := obj.value;
      var previousState := repository.GetById(o.id, fault);
      if previousState.Failure? {
        return Failure(previousState.error);
      }
      if previousState.value.None? {
        return Failure(InvalidOperation);
      }
      var result := repository.Update(obj, false);
      if result.Failure? {
        return result;
      }
      if result.value {
        var e := UpdatedArgs(obj, previousState.value, now).value;
        PairedAppend(log, e);
        OnObjectUpdated(e);
      }
      return result;
    }

    /** `ObjectExistsAsync`: ArgumentException for an empty id, else the repository's answer. */
    function ObjectExists(id: string, fault: bool): (r: Result<bool>)
      reads this, repository
      ensures id == "" ==> r == Failure(Argument)
      ensures id != "" ==> r == repository.Exists(id, fault)
    {
      if id == "" then Failure(Argument) else repository.Exists(id, fault)
    }

    /** `IsObjectInAreaAsync`: false for a missing object, else whether the stored object meets the area. */
    function IsObjectInArea(objectId: string, x: int, y: int, w: int, h: int, fault: bool): (r: Result<bool>)
      reads this, repository
      ensures repository.GetById(objectId, fault).Failure? ==> r == Failure(repository.GetById(objectId, fault).error)
      ensures objectId != "" && !fault ==>
        r == Success(objectId in repository.records && IntersectsArea(repository.records[objectId], x, y, w, h))
    {
      match repository.GetById(objectId, fault)
      case Failure(e) => Failure(e)
      case Success(None) => Success(false)
      case Success(Some(o)) => Success(IntersectsArea(o, x, y, w, h))
    }

    /** `GetObjectCountAsync`: the repository's count. */
    function GetObjectCount(fault: bool): (r: Result<nat>)
      reads this, repository
      ensures !fault ==> r == Success(|repository.allIds|)
      ensures fault ==> r.Failure?
    {
      repository.GetCount(fault)
    }

    /** `ClearAllObjectsAsync`: the repository's Clear; no event is raised. */
    method ClearAllObjects(fault: bool) returns (r: Outcome)
      requires Valid()
      modifies repository
      ensures Valid()
      ensures fault ==> r == Fail(InvalidOperation) && repository.State() == old(repository.State())
      ensures !fault ==> r == Pass && repository.State() == EmptyStore
    {
      r := repository.Clear(fault);
    }
  }
}
