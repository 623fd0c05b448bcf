/** The wire shapes exchanged with clients: object and region DTOs, change notifications, requests and responses. */
module Contracts {
  import opened MapObjects
  import opened Regions

  /** `ObjectDto`: the object without its metadata. */
  datatype ObjectDto = ObjectDto(id: string, x: int, y: int, width: int, height: int, objectType: string)

  /** `RegionDto`. */
  datatype RegionDto = RegionDto(id: ushort, name: string, tileCount: int)

  /** `ObjectAddedEvent`, `ObjectUpdatedEvent`, `ObjectDeletedEvent`. */
  datatype ObjectAddedEvent = ObjectAddedEvent(obj: ObjectDto, timestamp: int)
  datatype ObjectUpdatedEvent = ObjectUpdatedEvent(obj: ObjectDto, timestamp: int)
  datatype ObjectDeletedEvent = ObjectDeletedEvent(objectId: string, timestamp: int)

  /** `GetObjectsInAreaRequest` and `GetRegionsInAreaRequest`: two opposite corners of the area. */
  datatype GetObjectsInAreaRequest = GetObjectsInAreaRequest(x1: int, y1: int, x2: int, y2: int)
  datatype GetRegionsInAreaRequest = GetRegionsInAreaRequest(x1: int, y1: int, x2: int, y2: int)

  datatype GetObjectsInAreaResponse = GetObjectsInAreaResponse(objects: seq<ObjectDto>)
  datatype GetRegionsInAreaResponse = GetRegionsInAreaResponse(regions: seq<RegionDto>)

  /** The object-to-DTO copy: Id, X, Y, Width, Height and Type. */
  function ToObjectDto(o: MapObject): (d: ObjectDto)
    ensures d.id == o.id && d.x == o.x && d.y == o.y && d.width == o.width && d.height == o.height
    ensures d.objectType == o.objectType
  {
    ObjectDto(o.id, o.x, o.y, o.width, o.height, o.objectType)
  }

  /** Two objects have the same DTO exactly when they differ at most in their metadata. */
  lemma ToObjectDtoForgetsOnlyMetadata(a: MapObject, b: MapObject)
    ensures ToObjectDto(a) == ToObjectDto(b) <==> a.(metadata := map[]) == b.(metadata := map[])
  {
  }

  /** The region-to-DTO copy: Id, Name and TileCount. */
  function ToRegionDto(r: Region): (d: RegionDto)
    ensures d.id == r.id && d.name == r.name && d.tileCount == r.tileCount
  {
    RegionDto(r.id, r.name, r.tileCount)
  }

  /** The region DTO loses nothing the region record holds. */
  lemma ToRegionDtoInjective(a: Region, b: Region)
    ensures ToRegionDto(a) == ToRegionDto(b) <==> a == b
  {
  }
}
