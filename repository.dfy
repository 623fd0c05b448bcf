/**
 * The object repository over a key-value store with a geo index. The store keeps three things:
 * the geo index (object id ↦ point of the object's centre), one serialized record per object under
 * the key "map:object:"+id, and the set of all object ids. Because record keys are injective in the id
 * and never equal the two fixed keys, the keyspace is modelled as three separate maps indexed by id.
 */
module Repository {
  import opened Wrappers
  import opened Numerics
  import opened MapObjects
  import opened Coordinates

  /** The key of the geo index. */
  const GeoKey: string := "map:objects:geo"
  /** The prefix of every object-record key. */
  const HashKeyPrefix: string := "map:object:"
  /** The key of the set of all object ids. */
  const AllObjectsKey: string := "map:objects:all"

  /** `GetObjectKey`: the record key of an object id. */
  function GetObjectKey(id: string): (k: string)
    ensures |k| == |HashKeyPrefix| + |id|
    ensures k[..|HashKeyPrefix|] == HashKeyPrefix && k[|HashKeyPrefix|..] == id
  {
    HashKeyPrefix + id
  }

  /** Different ids have different record keys. */
  lemma GetObjectKeyInjective(a: string, b: string)
    requires GetObjectKey(a) == GetObjectKey(b)
    ensures a == b
  {
    assert a == GetObjectKey(a)[|HashKeyPrefix|..];
  }

  /** No record key can overwrite the geo index or the id set: "map:object:" and "map:objects:" differ at index 10. */
  lemma GetObjectKeyAvoidsIndexKeys(id: string)
    ensures GetObjectKey(id) != GeoKey && GetObjectKey(id) != AllObjectsKey
  {
    var k := GetObjectKey(id);
    assert k[10] == ':';
    assert GeoKey[10] == 's' && AllObjectsKey[10] == 's';
  }

  /** The contents of the store. */
  datatype StoreState = StoreState(
    geo: map<string, GeoPoint>,
    /** The record stored under GetObjectKey(id), by id. */
    records: map<string, MapObject>,
    allIds: set<string>)

  /** The empty store. */
  const EmptyStore := StoreState(map[], map[], {})

  /**
   * The store as the repository keeps it: the index, the records and the id set name the same non-empty ids,
   * each record carries its own id, and the index holds the point of the record's centre.
   */
  ghost predicate Consistent(s: StoreState, c: Converter)
  {
    && s.geo.Keys == s.allIds
    && s.records.Keys == s.allIds
    && "" !in s.allIds
    && forall id :: id in s.records ==>
         s.records[id].id == id && CenterGeo(c, s.records[id]) == Success(s.geo[id])
  }

  /** The point the geo index stores for an object: its centre, converted. */
  function CenterGeo(c: Converter, o: MapObject): (r: Result<GeoPoint>)
    ensures r == ToGeo(c, GetCenter(o).0, GetCenter(o).1)
  {
    ToGeo(c, GetCenter(o).0, GetCenter(o).1)
  }

  /** The three writes of a committed Add. */
  function Inserted(s: StoreState, o: MapObject, p: GeoPoint): StoreState
  {
    StoreState(s.geo[o.id := p], s.records[o.id := o], s.allIds + {o.id})
  }

  /** The three deletions of a committed Remove. */
  function Deleted(s: StoreState, id: string): StoreState
  {
    StoreState(s.geo - {id}, s.records - {id}, s.allIds - {id})
  }

  /** Adding an object under a non-empty id at its centre's point keeps the store consistent. */
  lemma InsertedConsistent(s: StoreState, c: Converter, o: MapObject)
    requires Consistent(s, c) && o.id != "" && CenterGeo(c, o).Success?
    ensures Consistent(Inserted(s, o, CenterGeo(c, o).value), c)
  {
  }

  /** Removing an id keeps the store consistent. */
  lemma DeletedConsistent(s: StoreState, c: Converter, id: string)
    requires Consistent(s, c)
    ensures Consistent(Deleted(s, id), c)
  {
  }

  /** After an Add the object's record is the object, and every other record is as before. */
  lemma InsertedLookup(s: StoreState, o: MapObject, p: GeoPoint, id: string)
    ensures o.id in Inserted(s, o, p).records && Inserted(s, o, p).records[o.id] == o
    ensures id != o.id ==> (id in Inserted(s, o, p).records <==> id in s.records)
    ensures id != o.id && id in s.records ==> Inserted(s, o, p).records[id] == s.records[id]
  {
  }

  /** Removing a freshly added object restores the store exactly. */
  lemma DeleteUndoesInsert(s: StoreState, c: Converter, o: MapObject, p: GeoPoint)
    requires Consistent(s, c) && o.id !in s.allIds
    ensures Deleted(Inserted(s, o, p), o.id) == s
  {
    var t := Deleted(Inserted(s, o, p), o.id);
    assert t.geo == s.geo;
    assert t.records == s.records;
    assert t.allIds == s.allIds;
  }

  /** Replacing a stored object by one with the same id changes its record, index point and nothing else. */
  lemma ReplaceKeepsOthers(s: StoreState, c: Converter, o: MapObject, p: GeoPoint, other: string)
    requires Consistent(s, c) && o.id in s.allIds && other != o.id
    ensures Inserted(Deleted(s, o.id), o, p).allIds == s.allIds
    ensures Inserted(Deleted(s, o.id), o, p).records[o.id] == o
    ensures Inserted(Deleted(s, o.id), o, p).geo[o.id] == p
    ensures other in s.records ==> Inserted(Deleted(s, o.id), o, p).records[other] == s.records[other]
    ensures other in s.geo ==> Inserted(Deleted(s, o.id), o, p).geo[other] == s.geo[other]
  {
    assert s.allIds - {o.id} + {o.id} == s.allIds;
  }

  /** Adding a new id raises the count by one; removing a present id lowers it by one. */
  lemma CountChanges(s: StoreState, o: MapObject, p: GeoPoint, id: string)
    ensures o.id !in s.allIds ==> |Inserted(s, o, p).allIds| == |s.allIds| + 1
    ensures o.id in s.allIds ==> |Inserted(s, o, p).allIds| == |s.allIds|
    ensures id in s.allIds ==> |Deleted(s, id).allIds| == |s.allIds| - 1
    ensures id !in s.allIds ==> |Deleted(s, id).allIds| == |s.allIds|
  {
    if o.id in s.allIds {
      assert s.allIds + {o.id} == s.allIds;
    }
    if id !in s.allIds {
      assert s.allIds - {id} == s.allIds;
    }
  }

  /** What a spatial lookup keeps of its candidates. */
  datatype Criterion = Point(px: int, py: int) | Area(ax: int, ay: int, aw: int, ah: int)

  predicate Matches(o: MapObject, c: Criterion)
  {
    match c
    case Point(px, py) => ContainsPoint(o, px, py)
    case Area(ax, ay, aw, ah) => IntersectsArea(o, ax, ay, aw, ah)
  }

  /**
   * The post-filter of the spatial lookups: the records of the candidates, in candidate order, that exist
   * and match. An empty candidate id makes the per-candidate lookup throw, which the lookup reports as
   * InvalidOperationException.
   */
  function Filter(cands: seq<string>, records: map<string, MapObject>, c: Criterion): (r: Result<seq<MapObject>>)
    ensures r.Failure? <==> "" in cands
    ensures r.Failure? ==> r.error == InvalidOperation
    ensures r.Success? ==> |r.value| <= |cands|
  {
    if cands == [] then Success([])
    else
      var init := Filter(cands[..|cands| - 1], records, c);
      var last := cands[|cands| - 1];
      assert cands == cands[..|cands| - 1] + [last];
      if init.Failure? then init
      else if last == "" then Failure(InvalidOperation)
      else if last in records && Matches(records[last], c) then
        Success(init.value + [records[last]])
      else init
  }

  /** Everything the post-filter returns is the existing, matching record of some candidate. */
  lemma {:induction false} FilterSound(cands: seq<string>, records: map<string, MapObject>, c: Criterion, o: MapObject)
    requires Filter(cands, records, c).Success? && o in Filter(cands, records, c).value
    ensures exists id :: id in cands && id in records && records[id] == o
    ensures Matches(o, c)
  {
    var init := cands[..|cands| - 1];
    var last := cands[|cands| - 1];
    assert cands == init + [last];
    if o in Filter(init, records, c).value {
      FilterSound(init, records, c, o);
      var id :| id in init && id in records && records[id] == o;
      assert id in cands;
    } else {
      assert o == records[last];
    }
  }

  /** Every candidate whose record exists and matches is returned. */
  lemma {:induction false} FilterComplete(cands: seq<string>, records: map<string, MapObject>, c: Criterion, id: string)
    requires Filter(cands, records, c).Success?
    requires id in cands && id in records && Matches(records[id], c)
    ensures records[id] in Filter(cands, records, c).value
  {
    var init := cands[..|cands| - 1];
    var last := cands[|cands| - 1];
    assert cands == init + [last];
    if id != last {
      assert id in init;
      FilterComplete(init, records, c, id);
    }
  }

  /** The radius GetByCoordinates searches with: that of a 2 × 2 area. */
  function PointSearchRadius(): (r: Radius)
    ensures Success(r) == CalculateSearchRadius(2, 2)
    ensures r.square > 0.0
  {
    RadiusPositive(2, 2);
    CalculateSearchRadius(2, 2).value
  }

  /** GEORADIUS over the geo index: the ids within the radius of the point, in the store's order. */
  type GeoQuery = (map<string, GeoPoint>, GeoPoint, Radius) -> seq<string>

  /** An answer a geo index can give: members of the index, each once. */
  ghost predicate IndexAnswer(geo: map<string, GeoPoint>, ids: seq<string>)
  {
    (forall i :: 0 <= i < |ids| ==> ids[i] in geo) && NoDuplicates(ids)
  }

  /** A geo query that, for every index, centre and radius, answers only with members of the index, each once. */
  ghost predicate IndexQuery(query: GeoQuery)
  {
    forall g, p, r :: IndexAnswer(g, query(g, p, r))
  }

  /** Candidates without repeats, over records that carry their own ids, give results without repeats. */
  lemma {:induction false} FilterDistinct(cands: seq<string>, records: map<string, MapObject>, c: Criterion)
    requires NoDuplicates(cands)
    requires forall id :: id in records ==> records[id].id == id
    requires Filter(cands, records, c).Success?
    ensures NoDuplicates(Filter(cands, records, c).value)
  {
    if cands != [] {
      var init := cands[..|cands| - 1];
      var last := cands[|cands| - 1];
      assert cands == init + [last];
      assert NoDuplicates(init) by {
        forall i, j | 0 <= i < j < |init| ensures init[i] != init[j] {
          assert init[i] == cands[i] && init[j] == cands[j];
        }
      }
      FilterDistinct(init, records, c);
      var prefix := Filter(init, records, c).value;
      if last in records && Matches(records[last], c) {
        forall o | o in prefix ensures o != records[last] {
          FilterSound(init, records, c, o);
          var id :| id in init && id in records && records[id] == o;
          var k :| 0 <= k < |init| && init[k] == id;
          assert cands[k] == id;
        }
        var res := prefix + [records[last]];
        forall i, j | 0 <= i < j < |res| ensures res[i] != res[j] {
          if j == |prefix| {
            assert res[i] == prefix[i] && prefix[i] in prefix;
          } else {
            assert res[i] == prefix[i] && res[j] == prefix[j];
          }
        }
      }
    }
  }

  /**
   * With an index query that answers from the index, an area lookup on a consistent store whose centre
   * lies on the map succeeds, and returns no object twice.
   */
  lemma InAreaSucceeds(repo: RedisMapObjectRepository, x: int, y: int, w: int, h: int, query: GeoQuery)
    requires repo.Valid() && IndexQuery(query)
    requires w >= 0 && h >= 0 && ToGeo(repo.converter, x + Half(w), y + Half(h)).Success?
    ensures repo.InArea(x, y, w, h, query, false).Success?
    ensures NoDuplicates(repo.InArea(x, y, w, h, query, false).value)
  {
    var p := ToGeo(repo.converter, x + Half(w), y + Half(h)).value;
    var cands := query(repo.geo, p, CalculateSearchRadius(w, h).value);
    assert IndexAnswer(repo.geo, cands);
    assert "" !in cands;
    FilterDistinct(cands, repo.records, Area(x, y, w, h));
  }

  /** The same for a point lookup at a cell of the map. */
  lemma ByCoordinatesSucceeds(repo: RedisMapObjectRepository, x: int, y: int, query: GeoQuery)
    requires repo.Valid() && IndexQuery(query)
    requires ToGeo(repo.converter, x, y).Success?
    ensures repo.ByCoordinates(x, y, query, false).Success?
    ensures NoDuplicates(repo.ByCoordinates(x, y, query, false).value)
  {
    var p := ToGeo(repo.converter, x, y).value;
    var cands := query(repo.geo, p, PointSearchRadius());
    assert IndexAnswer(repo.geo, cands);
    assert "" !in cands;
    FilterDistinct(cands, repo.records, Point(x, y));
  }

  class RedisMapObjectRepository {
    const converter: Converter
    /** The geo index under "map:objects:geo". */
    var geo: map<string, GeoPoint>
    /** The serialized records, by key. */
    var records: map<string, MapObject>
    /** The set under "map:objects:all". */
    var allIds: set<string>

    function State(): StoreState
      reads this
    {
      StoreState(geo, records, allIds)
    }

    ghost predicate Valid()
      reads this
    {
      Consistent(State(), converter)
    }

    /** A repository over an empty store. */
    constructor (converter: Converter)
      ensures Valid() && this.converter == converter && State() == EmptyStore
    {
      this.converter := converter;
      geo := map[];
      records := map[];
      allIds := {};
    }

    /** `new RedisMapObjectRepository(redis, converter)`: ArgumentNullException for a missing database or converter. */
    static method Create(hasDatabase: bool, converter: Option<Converter>) returns (r: Result<RedisMapObjectRepository>)
      ensures r.Failure? <==> !hasDatabase || converter.None?
      ensures r.Failure? ==> r.error == ArgumentNull
      ensures r.Success? ==> fresh(r.value) && r.value.Valid() && r.value.converter == converter.value
      ensures r.Success? ==> r.value.State() == EmptyStore
    {
      if !hasDatabase || converter.None? {
        return Failure(ArgumentNull);
      }
      var repo := new RedisMapObjectRepository(converter.value);
      return Success(repo);
    }

    /**
     * `AddAsync`: ArgumentNullException / ArgumentException for a missing object or an empty id; a centre
     * off the map or a store failure surfaces as InvalidOperationException with nothing written. Otherwise
     * the three writes, and the result says whether the id was new.
     */
    method Add(obj: Option<MapObject>, fault: bool) returns (r: Result<bool>)
      requires Valid()
      modifies this
      ensures Valid()
      ensures obj.None? ==> r == Failure(ArgumentNull)
      ensures obj.Some? && obj.value.id == "" ==> r == Failure(Argument)
      ensures obj.Some? && obj.value.id != "" ==>
        (r.Failure? <==> fault || CenterGeo(converter, obj.value).Failure?)
      ensures obj.Some? && obj.value.id != "" && r.Failure? ==> r.error == InvalidOperation
      ensures r.Failure? ==> State() == old(State())
      ensures r.Success? ==> State() == Inserted(old(State()), obj.value, CenterGeo(converter, obj.value).value)
      ensures r.Success? ==> r.value == (obj.value.id !in old(allIds))
    {
      if obj.None? {
        return Failure(ArgumentNull);
      }
      var o := obj.value;
      if o.id == "" {
        return Failure(Argument);
      }
      var (centerX, centerY) := GetCenter(o);
      var point := ToGeo(converter, centerX, centerY);
      if point.Failure? || fault {
        return Failure(InvalidOperation);
      }
      InsertedConsistent(State(), converter, o);
      var geoAdded := o.id !in geo;
      var hashSet := true;
      var setAdded := o.id !in allIds;
      geo := geo[o.id := point.value];
      records := records[o.id := o];
      allIds := allIds + {o.id};
      return Success(geoAdded && hashSet && setAdded);
    }

    /** `GetByIdAsync`: ArgumentException for an empty id; the record, or null when there is none. */
    function GetById(id: string, fault: bool): (r: Result<Option<MapObject>>)
      reads this
      ensures id == "" ==> r == Failure(Argument)
      ensures id != "" && fault ==> r == Failure(InvalidOperation)
      ensures id != "" && !fault ==> r.Success? && (r.value.Some? <==> id in records)
      ensures r.Success? && r.value.Some? ==> r.value.value == records[id]
    {
      if id == "" then Failure(Argument)
      else if fault then Failure(InvalidOperation)
      else if id in records then Success(Some(records[id]))
      else Success(None)
    }

    /**
     * `RemoveAsync`: ArgumentException for an empty id; a store failure surfaces as
     * InvalidOperationException. Otherwise the three deletions, and the result says whether all three
     * found something.
     */
    method Remove(id: string, fault: bool) returns (r: Result<bool>)
      requires Valid()
      modifies this
      ensures Valid()
      ensures id == "" ==> r == Failure(Argument)
      ensures id != "" && fault ==> r == Failure(InvalidOperation)
      ensures id != "" && !fault ==> r.Success?
      ensures r.Failure? ==> State() == old(State())
      ensures r.Success? ==> State() == Deleted(old(State()), id)
      ensures r.Success? ==> r.value == (id in old(allIds))
    {
      if id == "" {
        return Failure(Argument);
      }
      if fault {
        return Failure(InvalidOperation);
      }
      DeletedConsistent(State(), converter, id);
      var geoRemoved := id in geo;
      var hashDeleted := id in records;
      var setRemoved := id in allIds;
      geo := geo - {id};
      records := records - {id};
      allIds := allIds - {id};
      return Success(geoRemoved && hashDeleted && setRemoved);
    }

    /** The post-filter loop shared by the two spatial lookups. */
    method FilterCandidates(cands: seq<string>, c: Criterion) returns (r: Result<seq<MapObject>>)
      ensures r == Filter(cands, records, c)
    {
      var objects: seq<MapObject> := [];
      for i := 0 to |cands|
        invariant Filter(cands[..i], records, c) == Success(objects)
      {
        assert cands[..i + 1][..i] == cands[..i];
        var obj := GetById(cands[i], false);
        if obj.Failure? {
          assert cands[..i + 1] <= cands;
          return Failure(InvalidOperation);
        }
        if obj.value.Some? && Matches(obj.value.value, c) {
          objects := objects + [obj.value.value];
        }
      }
      assert cands[..|cands|] == cands;
      return Success(objects);
    }

    /** What GetByCoordinates returns, given the result of the geo query. */
    function ByCoordinates(x: int, y: int, query: GeoQuery, fault: bool): Result<seq<MapObject>>
      reads this
    {
      if fault then Failure(InvalidOperation)
      else match ToGeo(converter, x, y)
        case Failure(_) => Failure(InvalidOperation)
        case Success(p) => Filter(query(geo, p, PointSearchRadius()), records, Point(x, y))
    }

    /**
     * `GetByCoordinatesAsync`: query the index around the cell with the 2 × 2 radius, then keep the
     * candidates whose record exists and contains the cell; a cell off the map or a store failure surfaces
     * as InvalidOperationException.
     */
    method GetByCoordinates(x: int, y: int, query: GeoQuery, fault: bool) returns (r: Result<seq<MapObject>>)
      ensures r == ByCoordinates(x, y, query, fault)
    {
      if fault {
        return Failure(InvalidOperation);
      }
      var point := ToGeo(converter, x, y);
      if point.Failure? {
        return Failure(InvalidOperation);
      }
      var searchRadius := PointSearchRadius();
      var results := query(geo, point.value, searchRadius);
      r := FilterCandidates(results, Point(x, y));
    }

    /** What GetInArea returns, given the result of the geo query. */
    function InArea(x: int, y: int, w: int, h: int, query: GeoQuery, fault: bool): Result<seq<MapObject>>
      reads this
    {
      if w < 0 || h < 0 then Failure(Argument)
      else if fault then Failure(InvalidOperation)
      else match ToGeo(converter, x + Half(w), y + Half(h))
        case Failure(_) => Failure(InvalidOperation)
        case Success(p) => Filter(query(geo, p, CalculateSearchRadius(w, h).value), records, Area(x, y, w, h))
    }

    /**
     * `GetInAreaAsync`: ArgumentException for a negative size, before the store is touched; then query the
     * index around the area's centre with the area's radius and keep the candidates whose record exists and
     * intersects the area. A centre off the map or a store failure surfaces as InvalidOperationException.
     */
    method GetInArea(x: int, y: int, w: int, h: int, query: GeoQuery, fault: bool) returns (r: Result<seq<MapObject>>)
      ensures r == InArea(x, y, w, h, query, fault)
    {
      if w < 0 || h < 0 {
        return Failure(Argument);
      }
      if fault {
        return Failure(InvalidOperation);
      }
      var centerX := x + Half(w);
      var centerY := y + Half(h);
      var point := ToGeo(converter, centerX, centerY);
      if point.Failure? {
        return Failure(InvalidOperation);
      }
      var searchRadius := CalculateSearchRadius(w, h).value;
      var results := query(geo, point.value, searchRadius);
      r := FilterCandidates(results, Area(x, y, w, h));
    }

    /** `ExistsAsync`: ArgumentException for an empty id; whether the record key is present. Store failures are not wrapped. */
    function Exists(id: string, fault: bool): (r: Result<bool>)
      reads this
      ensures id == "" ==> r == Failure(Argument)
      ensures id != "" && fault ==> r == Failure(StoreFailure)
      ensures id != "" && !fault ==> r == Success(id in records)
    {
      if id == "" then Failure(Argument)
      else if fault then Failure(StoreFailure)
      else Success(id in records)
    }

    /**
     * `UpdateAsync`: ArgumentNullException / ArgumentException as Add; false with nothing written for an
     * unknown id; otherwise Remove then Add. When the new centre is off the map the Add fails after the
     * Remove, so the object is gone and InvalidOperationException is reported.
     */
    method Update(obj: Option<MapObject>, fault: bool) returns (r: Result<bool>)
      requires Valid()
      modifies this
      ensures Valid()
      ensures obj.None? ==> r == Failure(ArgumentNull) && State() == old(State())
      ensures obj.Some? && obj.value.id == "" ==> r == Failure(Argument) && State() == old(State())
      ensures obj.Some? && obj.value.id != "" && fault ==> r == Failure(InvalidOperation) && State() == old(State())
      ensures obj.Some? && obj.value.id != "" && !fault && obj.value.id !in old(records) ==>
        r == Success(false) && State() == old(State())
      ensures obj.Some? && obj.value.id != "" && !fault && obj.value.id in old(records) ==>
        if CenterGeo(converter, obj.value).Success? then
          r == Success(true)
          && State() == Inserted(Deleted(old(State()), obj.value.id), obj.value, CenterGeo(converter, obj.value).value)
        else
          r == Failure(InvalidOperation) && State() == Deleted(old(State()), obj.value.id)
      ensures r == Success(true) ==> allIds == old(allIds)
      ensures r == Success(true) ==>
        forall other :: other in old(records) && other != obj.value.id ==> other in records && records[other] == old(records)[other]
    {
      if obj.None? {
        return Failure(ArgumentNull);
      }
      var o := obj.value;
      if o.id == "" {
        return Failure(Argument);
      }
      var present := Exists(o.id, fault);
      if present.Failure? {
        return Failure(InvalidOperation);
      }
      if !present.value {
        return Success(false);
      }
      ghost var before := State();
      var removed := Remove(o.id, false);
      var added := Add(obj, false);
      if added.Failure? {
        return Failure(InvalidOperation);
      }
      forall other | other in before.records && other != o.id {
        ReplaceKeepsOthers(before, converter, o, CenterGeo(converter, o).value, other);
      }
      return added;
    }

    /** `GetCountAsync`: the size of the id set. Store failures are not wrapped. */
    function GetCount(fault: bool): (r: Result<nat>)
      reads this
      ensures fault ==> r == Failure(StoreFailure)
      ensures !fault ==> r == Success(|allIds|)
    {
      if fault then Failure(StoreFailure) else Success(|allIds|)
    }

    /**
     * `ClearAsync`: delete the record of every id in the set, then the index and the set; a store failure
     * surfaces as InvalidOperationException with nothing deleted.
     */
    method Clear(fault: bool) returns (r: Outcome)
      requires Valid()
      modifies this
      ensures Valid()
      ensures fault ==> r == Fail(InvalidOperation) && State() == old(State())
      ensures !fault ==> r == Pass && State() == EmptyStore
    {
      if fault {
        return Fail(InvalidOperation);
      }
      var ids := allIds;
      var pending := ids;
      while pending != {}
        invariant pending <= ids
        invariant geo == old(geo) && allIds == old(allIds)
        invariant records.Keys == old(records).Keys - (ids - pending)
        decreases pending
      {
        var id :| id in pending;
        records := records - {id};
        pending := pending - {id};
      }
      geo := map[];
      allIds := {};
      assert records == map[];
      return Pass;
    }
  }

}
