/** The query service: turns corner-pair requests into area queries on the object and region layers. */
module Service {
  import opened Wrappers
  import opened Numerics
  import opened MapObjects
  import opened MapAreas
  import opened Regions
  import opened Contracts
  import opened Repository
  import opened ObjectLayer

  /** The area between two corners: the smaller coordinates and the absolute differences. */
  function NormalizeArea(x1: int, y1: int, x2: int, y2: int): (a: MapArea)
    ensures a.width >= 0 && a.height >= 0
    ensures a.x == Min(x1, x2) && a.x + a.width == Max(x1, x2)
    ensures a.y == Min(y1, y2) && a.y + a.height == Max(y1, y2)
  {
    MapArea(Min(x1, x2), Min(y1, y2), Abs(x2 - x1), Abs(y2 - y1))
  }

  /** Which corner comes first does not matter, on either axis. */
  lemma NormalizeAreaSymmetric(x1: int, y1: int, x2: int, y2: int)
    ensures NormalizeArea(x2, y2, x1, y1) == NormalizeArea(x1, y1, x2, y2)
    ensures NormalizeArea(x2, y1, x1, y2) == NormalizeArea(x1, y1, x2, y2)
  {
  }

  /** A cell lies in the area exactly when it lies between the corners, the larger one excluded. */
  lemma NormalizeAreaContains(x1: int, y1: int, x2: int, y2: int, px: int, py: int)
    ensures NormalizeArea(x1, y1, x2, y2).Contains(px, py)
        <==> Min(x1, x2) <= px < Max(x1, x2) && Min(y1, y2) <= py < Max(y1, y2)
  {
  }

  /** The objects response: one DTO per object, in order. */
  function ObjectDtos(objects: seq<MapObject>): (ds: seq<ObjectDto>)
    ensures |ds| == |objects|
    ensures forall i :: 0 <= i < |objects| ==> ds[i] == ToObjectDto(objects[i])
  {
    seq(|objects|, i requires 0 <= i < |objects| => ToObjectDto(objects[i]))
  }

  class MapService {
    const objectLayer: MapObjectLayer
    const regionLayer: RegionLayer

    constructor (objectLayer: MapObjectLayer, regionLayer: RegionLayer)
      ensures this.objectLayer == objectLayer && this.regionLayer == regionLayer
    {
      this.objectLayer := objectLayer;
      this.regionLayer := regionLayer;
    }

    /** `new MapService(objectLayer, regionLayer)`: ArgumentNullException for a missing layer. */
    static method Create(objectLayer: MapObjectLayer?, regionLayer: RegionLayer?) returns (r: Result<MapService>)
      ensures r.Failure? <==> objectLayer == null || regionLayer == null
      ensures r.Failure? ==> r.error == ArgumentNull
      ensures r.Success? ==> fresh(r.value) && r.value.objectLayer == objectLayer && r.value.regionLayer == regionLayer
    {
      if objectLayer == null || regionLayer == null {
        return Failure(ArgumentNull);
      }
      var service := new MapService(objectLayer, regionLayer);
      return Success(service);
    }

    /**
     * `GetObjectsInAreaAsync`: ArgumentNullException for a missing request; otherwise the layer's objects in
     * the normalised area, each copied into a DTO, in order. A failure of the lookup passes through.
     */
    method GetObjectsInArea(request: Option<GetObjectsInAreaRequest>, query: GeoQuery, fault: bool)
      returns (r: Result<GetObjectsInAreaResponse>)
      ensures request.None? ==> r == Failure(ArgumentNull)
      ensures request.Some? ==>
        var a := NormalizeArea(request.value.x1, request.value.y1, request.value.x2, request.value.y2);
        var found := objectLayer.repository.InArea(a.x, a.y, a.width, a.height, query, fault);
        (found.Failure? ==> r == Failure(found.error))
        && (found.Success? ==> r == Success(GetObjectsInAreaResponse(ObjectDtos(found.value))))
    {
      if request.None? {
        return Failure(ArgumentNull);
      }
      var req := request.value;
      var x := Min(req.x1, req.x2);
      var y := Min(req.y1, req.y2);
      var width := Abs(req.x2 - req.x1);
      var height := Abs(req.y2 - req.y1);
      var objects := objectLayer.GetObjectsInArea(x, y, width, height, query, fault);
      if objects.Failure? {
        return Failure(objects.error);
      }
      var dtos: seq<ObjectDto> := [];
      for i := 0 to |objects.value|
        invariant dtos == ObjectDtos(objects.value[..i])
      {
        var obj := objects.value[i];
        dtos := dtos + [ToObjectDto(obj)];
      }
      assert objects.value[..|objects.value|] == objects.value;
      return Success(GetObjectsInAreaResponse(dtos));
    }

    /**
     * `GetRegionsInAreaAsync`: ArgumentNullException for a missing request; otherwise one DTO per known
     * region with a cell in the normalised area, each region once, in an unspecified order.
     */
    method GetRegionsInArea(request: Option<GetRegionsInAreaRequest>) returns (r: Result<GetRegionsInAreaResponse>)
      requires regionLayer.Valid()
      ensures request.None? ==> r == Failure(ArgumentNull)
      ensures request.Some? ==> r.Success?
      ensures r.Success? ==>
        var a := NormalizeArea(request.value.x1, request.value.y1, request.value.x2, request.value.y2);
        forall d :: d in r.value.regions <==>
          exists id :: regionLayer.IdInArea(id, a.x, a.y, a.width, a.height) && id in regionLayer.regions
                       && ToRegionDto(regionLayer.regions[id]) == d
      ensures r.Success? ==> NoDuplicates(r.value.regions)
    {
      if request.None? {
        return Failure(ArgumentNull);
      }
      var req := request.value;
      var x := Min(req.x1, req.x2);
      var y := Min(req.y1, req.y2);
      var width := Abs(req.x2 - req.x1);
      var height := Abs(req.y2 - req.y1);
      var regions := regionLayer.GetRegionMetadataInArea(x, y, width, height);
      var dtos: seq<RegionDto> := [];
      for i := 0 to |regions|
        invariant dtos == RegionDtos(regions[..i])
      {
        dtos := dtos + [ToRegionDto(regions[i])];
      }
      assert regions[..|regions|] == regions;
      RegionDtosFaithful(regions);
      assert NormalizeArea(req.x1, req.y1, req.x2, req.y2) == MapArea(x, y, width, height);
      return Success(GetRegionsInAreaResponse(dtos));
    }
  }

  /** The regions response: one DTO per region record, in order. */
  function RegionDtos(rs: seq<Region>): (ds: seq<RegionDto>)
    ensures |ds| == |rs|
    ensures forall i :: 0 <= i < |rs| ==> ds[i] == ToRegionDto(rs[i])
  {
    seq(|rs|, i requires 0 <= i < |rs| => ToRegionDto(rs[i]))
  }

  /** Copying records into DTOs neither loses nor merges records. */
  lemma RegionDtosFaithful(rs: seq<Region>)
    ensures forall d :: d in RegionDtos(rs) <==> exists r :: r in rs && ToRegionDto(r) == d
    ensures NoDuplicates(rs) ==> NoDuplicates(RegionDtos(rs))
  {
    var ds := RegionDtos(rs);
    forall d | d in ds ensures exists r :: r in rs && ToRegionDto(r) == d {
      var k :| 0 <= k < |ds| && ds[k] == d;
      assert rs[k] in rs;
    }
    forall d | exists r :: r in rs && ToRegionDto(r) == d ensures d in ds {
      var r :| r in rs && ToRegionDto(r) == d;
      var k :| 0 <= k < |rs| && rs[k] == r;
      assert ds[k] == d;
    }
    if NoDuplicates(rs) {
      forall i, j | 0 <= i < j < |ds| ensures ds[i] != ds[j] {
        ToRegionDtoInjective(rs[i], rs[j]);
      }
    }
  }
}
