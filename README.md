# Tile-map server core, modelled in Dafny

This project models the core of TestDayTasks, a tile-map server written in C#. It covers:

- the rectangle predicates of map objects and areas;
- the terrain grid (`SurfaceLayer`) and the region partition (`RegionLayer`);
- the grid ↔ geographic coordinate converter;
- the Redis-backed object repository, with Redis reduced to three in-memory structures;
- the object layer that raises change events;
- the event broadcaster and its streaming hubs;
- the query service that turns a pair of corners into area queries and DTO responses.

Each source file becomes one module:

| module | file | form |
|---|---|---|
| `MapObjects`, `MapAreas`, `Tiles` | the model files and the tile extensions | datatypes, predicates, lemmas |
| `Surface` | `SurfaceLayer` | a class over an `array<TileType>` addressed `y * width + x` |
| `Regions` (with the pure `Partitions` and `Grid`) | `RegionLayer` | a class over an `array<ushort>` and a `map<ushort, Region>` |
| `Coordinates` | `CoordinateConverter` | pure functions over `real` |
| `Repository` | `RedisMapObjectRepository` | a class with map and set fields, plus the pure state transformers `Inserted` and `Deleted` |
| `Events`, `ObjectLayer` | `MapObjectEventArgs`, `MapObjectLayer` | a class whose events are appended to a log |
| `Streaming` | `MapEventBroadcaster` and `MapStreamingHub` | two classes, in one module because each refers to the other |
| `Contracts`, `Service` | the DTO shapes and `MapService` | datatypes, and a class whose response loops are proved against `ObjectDtos` and `RegionDtos` |

Conventions:

- A C# `null` argument is `Option.None` for a value type, or a nullable class type `C?` for a constructor dependency.
- A thrown exception is a `Failure` whose `Error` names the exception class (`ArgumentNull`, `Argument`, `ArgumentOutOfRange`, `InvalidOperation`).
- A store failure that the source does not wrap is `StoreFailure`.
- Whether the store fails on a given call is the parameter `fault`.
- GEORADIUS is the function parameter `query`: given the geo index, a centre and a radius, it returns the candidate ids.
- C# truncating division `n / 2` is `Numerics.Half`, which also covers negative operands.

## Model

| member | source | states |
|---|---|---|
| MapObjects.NewMapObject | Map.Core/Models/MapObject.cs:14-44 | a new object has empty Id and Type, zero coordinates and sizes, and empty metadata |
| MapObjects.ContainsPointHalfOpen | Map.Core/Models/MapObject.cs:49-52 | ContainsPoint holds iff X ≤ px < X+Width and Y ≤ py < Y+Height; the right and bottom edges are excluded |
| MapObjects.IntersectsIffCommonTile | Map.Core/Models/MapObject.cs:57-60 | for positive sizes, IntersectsArea holds iff some tile lies in both rectangles |
| MapObjects.TouchingDoNotIntersect | Map.Core/Models/MapObject.cs:57-60 | a column touching the object's left or right edge does not intersect it |
| MapObjects.IntersectsSymmetric | Map.Core/Models/MapObject.cs:57-60 | swapping the object rectangle and the query rectangle gives the same answer |
| MapObjects.IntersectionExamples | Map.Core/Models/MapObject.cs:57-60 | (10,20,5,5) meets (8,18,10,10) but not (50,50,10,10); (10,10,5,5) meets (12,12,10,10) but not (20,20,5,5) |
| MapObjects.FullyWithinImpliesIntersects | Map.Core/Models/MapObject.cs:65-68 | an object with positive sizes that is fully within an area intersects it |
| MapObjects.CenterIsInside | Map.Core/Models/MapObject.cs:73-76 | with positive sizes, the truncating centre (X + W/2, Y + H/2) is a point of the object |
| MapObjects.EmptyObjectCanIntersect | Map.Core/Models/MapObject.cs:57-60 | a 0 × 0 object contains no point, yet IntersectsArea reports it inside a surrounding area |
| MapAreas.NewMapArea | Map.Core/Models/MapArea.cs:10-16 | the constructor stores the four fields as given |
| MapAreas.EmptyAreaContainsNothing | Map.Core/Models/MapArea.cs:18 | an area with non-positive width or height contains no point |
| MapAreas.ContainsAgreesWithObject | Map.Core/Models/MapArea.cs:18 | Contains agrees with ContainsPoint of an object with the same four fields |
| Tiles.MovementCost | Map.Core/Extensions/TilePropertiesExtensions.cs:12-20 | Mountain costs int.MaxValue; every other tile costs 1 |
| Tiles.MovementCostPositive | Map.Core/Extensions/TilePropertiesExtensions.cs:12-20 | every tile costs at least 1 |
| Tiles.PlaceableIsCheap | Map.Core/Extensions/TilePropertiesExtensions.cs:7-20 | a tile that can carry an object (a Plain) costs 1 |
| Surface.SurfaceLayer.constructor | Map.Core/Layers/SurfaceLayer.cs:15-23 | for positive sizes, a fresh grid of width × height cells, all Plain |
| Surface.SurfaceLayer.Create | Map.Core/Layers/SurfaceLayer.cs:15-23 | ArgumentException iff a size is not positive; otherwise every in-bounds cell reads Plain |
| Surface.SurfaceLayer.FromTiles | Map.Core/Layers/SurfaceLayer.cs:25-38 | index i holds the i-th source tile while i < min(count, W·H), and Plain after that; so cell (x, y) holds tile y·W + x |
| Surface.SurfaceLayer.FromArray | Map.Core/Layers/SurfaceLayer.cs:40-55 | width is dimension 1 and height is dimension 0; cell (x, y) is src[y, x]; ArgumentException for an empty dimension |
| Surface.SurfaceLayer.SetTileUnchecked | Map.Core/Layers/SurfaceLayer.cs:78-81 | the named cell takes the tile and every other cell keeps its tile |
| Surface.SurfaceLayer.GetTile | Map.Core/Layers/SurfaceLayer.cs:57-63 | ArgumentOutOfRangeException exactly when the cell is out of bounds; otherwise the stored tile |
| Surface.SurfaceLayer.GetTileSafe | Map.Core/Layers/SurfaceLayer.cs:65-68 | never fails; in bounds it agrees with GetTile, and out of bounds it returns the default |
| Surface.SurfaceLayer.SetTile | Map.Core/Layers/SurfaceLayer.cs:70-76 | ArgumentOutOfRangeException exactly out of bounds, with the grid unchanged; otherwise GetTile(x, y) is the new tile and every other cell is unchanged |
| Surface.SurfaceLayer.FillArea | Map.Core/Layers/SurfaceLayer.cs:83-101 | never fails; the cells of rectangle ∩ grid take the tile and every other cell keeps its own |
| Surface.SurfaceLayer.FillMapArea | Map.Core/Layers/SurfaceLayer.cs:103-106 | the cells the area contains take the tile and all others keep theirs |
| Surface.SurfaceLayer.CanPlaceObjectInArea | Map.Core/Layers/SurfaceLayer.cs:108-125 | true iff the rectangle lies inside the grid and every cell it covers can carry an object |
| Surface.SurfaceLayer.CanPlaceObjectInMapArea | Map.Core/Layers/SurfaceLayer.cs:127-130 | the same answer for the area's rectangle |
| Surface.SurfaceLayer.GetMemoryUsage | Map.Core/Layers/SurfaceLayer.cs:137-141 | one byte per cell, plus two 4-byte sizes and one reference of the platform's pointer size |
| Surface.MemoryUsageBound | Map.Core/Layers/SurfaceLayer.cs:137-141 | a 1000 × 1000 surface with 8-byte references takes 1 000 016 bytes, under 8 MiB |
| Surface.MountainBlocksPlacement | Map.Core/Layers/SurfaceLayer.cs:108-125 | after a Mountain is set at (5, 5), a 3 × 3 area covering it cannot take an object |
| Partitions.PartitionLength | Map.Core/Layers/RegionLayer.cs:115-134 | the row-major sweep assigns exactly W·H cells |
| Partitions.PartitionRange | Map.Core/Layers/RegionLayer.cs:115-134 | every assigned id lies in 1..n |
| Partitions.LayoutSorted | Map.Core/Layers/RegionLayer.cs:115-134 | ids never decrease along the sweep, so each region is one contiguous run |
| Partitions.PartitionCount | Map.Core/Layers/RegionLayer.cs:105-134 | region i gets exactly total/n + (i ≤ total % n ? 1 : 0) cells, and no other id occurs |
| Partitions.QuotaBalanced | Map.Core/Layers/RegionLayer.cs:105-113 | each quota is total/n or total/n + 1, so two quotas differ by at most one |
| Partitions.QuotaSumTotal | Map.Core/Layers/RegionLayer.cs:105-113 | the quotas of regions 1..n sum to W·H |
| Partitions.SweepStep | Map.Core/Layers/RegionLayer.cs:116-132 | one step of the sweep writes the partition's id for the current cell, then moves on to the next region once the quota is reached |
| Partitions.TenRegionsOfHundredSquare | Map.Core/Layers/RegionLayer.cs:105-134 | ten regions on a 100 × 100 grid get 1000 cells each |
| Regions.RegionNamesDistinct | Map.Core/Layers/RegionLayer.cs:99 | the generated names "Регион i" of different regions differ |
| Numerics.NatToStringRoundTrip | Map.Core/Layers/RegionLayer.cs:99 | the decimal rendering used in region names reads back as the number |
| Regions.RegionLayer.constructor | Map.Core/Layers/RegionLayer.cs:16-25 | for positive sizes, a layer with no regions and every cell id 0 |
| Regions.RegionLayer.Create | Map.Core/Layers/RegionLayer.cs:16-25 | ArgumentException iff a size is not positive; otherwise every cell reads 0 and there are no regions |
| Regions.RegionLayer.GetRegionId | Map.Core/Layers/RegionLayer.cs:27-33 | ArgumentOutOfRangeException exactly out of bounds; otherwise the stored id |
| Regions.RegionLayer.GetRegionIdSafe | Map.Core/Layers/RegionLayer.cs:35-38 | agrees with GetRegionId in bounds and returns the default out of bounds |
| Regions.RegionLayer.GetRegionMetadata | Map.Core/Layers/RegionLayer.cs:40-43 | the table entry for a known id, and nothing for an unknown one |
| Regions.RegionLayer.TileBelongsToRegion | Map.Core/Layers/RegionLayer.cs:45-51 | true iff GetRegionId succeeds with that id, so false out of bounds |
| Regions.RegionLayer.GetRegionsInArea | Map.Core/Layers/RegionLayer.cs:53-72 | an id is in the result iff it is stored in some cell of rectangle ∩ grid |
| Regions.MetadataOf | Map.Core/Layers/RegionLayer.cs:77-80 | a record is in the result iff it is the table entry of one of the ids; ids without an entry are dropped |
| Regions.MetadataOfDistinct | Map.Core/Layers/RegionLayer.cs:77-80 | distinct ids give distinct records when each record carries its own id |
| Regions.RegionLayer.GetRegionMetadataInArea | Map.Core/Layers/RegionLayer.cs:74-81 | exactly the records of known regions with a cell in the area, each once |
| Regions.RegionLayer.GenerateRegions | Map.Core/Layers/RegionLayer.cs:83-138 | ArgumentException iff the count is not positive, with nothing changed; otherwise the keys are exactly 1..n, region i is (i, "Регион i", its quota), and the grid is the row-major partition, which does not depend on the seed |
| Regions.RegionLayer.UpdateRegionTileCounts | Map.Core/Layers/RegionLayer.cs:140-157 | each known region whose id occurs in the grid takes the number of cells carrying that id as its TileCount; the other regions, the ids, the names and the cells are unchanged |
| Regions.RegionLayer.SetRegionName | Map.Core/Layers/RegionLayer.cs:159-165 | only the named region's Name changes; an unknown id is a no-op; cells are untouched |
| Regions.RegionLayer.GetMemoryUsage | Map.Core/Layers/RegionLayer.cs:172-176 | two bytes per cell plus 100 bytes per region |
| Regions.MemoryUsageBound | Map.Core/Layers/RegionLayer.cs:172-176 | 1000 × 1000 cells with 50 regions stay under 8 MiB |
| Regions.NextUShort | Map.Core/Layers/RegionLayer.cs:94 | the ushort increment wraps 65535 to 0 |
| Regions.CreationLoopNeverExits | Map.Core/Layers/RegionLayer.cs:94-102 | for regionCount ≥ 65535 the creation loop never ends, however many steps it is given |
| Regions.CreationLoopExitsBelow | Map.Core/Layers/RegionLayer.cs:94-102 | for regionCount < 65535 the creation loop ends after regionCount + 1 − i steps |
| Coordinates.NewConverter | Map.Core/Services/CoordinateConverter.cs:29-36 | ArgumentException iff a size is not positive |
| Coordinates.ToGeo | Map.Core/Services/CoordinateConverter.cs:39-50 | ArgumentOutOfRangeException exactly outside [0,W)×[0,H); otherwise (x·0.0001, y·0.0001) |
| Coordinates.ToGeoOrigin | Map.Core/Services/CoordinateConverter.cs:46-47 | (0, 0) maps to (0, 0) |
| Coordinates.ToGeoInjective | Map.Core/Services/CoordinateConverter.cs:46-47 | different cells map to different points |
| Coordinates.ToGeoEqualSteps | Map.Core/Services/CoordinateConverter.cs:46-47 | one step on either axis moves that coordinate by 0.0001 and leaves the other one alone |
| Coordinates.ToGeoWithinEarth | Map.Core/Services/CoordinateConverter.cs:46-47 | maps up to 1 800 000 × 900 000 cells yield longitudes in [0, 180) and latitudes in [0, 90) |
| Coordinates.RoundHalfEven | Map.Core/Services/CoordinateConverter.cs:56-57 | Math.Round: the nearest integer, with ties going to the even one |
| Coordinates.Clamp | Map.Core/Services/CoordinateConverter.cs:60-61 | the value in [0, size−1]; it is unchanged when already in range, and taken to the nearer end otherwise |
| Coordinates.FromGeo | Map.Core/Services/CoordinateConverter.cs:53-64 | never fails and always lands on a cell of the map: the rounded quotient, clamped |
| Coordinates.RoundTrip | Map.Core/Services/CoordinateConverter.cs:39-64 | FromGeo(ToGeo(x, y)) = (x, y) for every cell of the map |
| Coordinates.CalculateSearchRadius | Map.Core/Services/CoordinateConverter.cs:67-83 | ArgumentException iff a size is negative; otherwise the radius squared is 1.1² times the squared half-diagonal in metres |
| Coordinates.RadiusPositive | Map.Core/Services/CoordinateConverter.cs:67-83 | the radius is at least the half-diagonal, and it is positive iff w > 0 or h > 0 |
| Coordinates.RadiusMonotone | Map.Core/Services/CoordinateConverter.cs:72-82 | the radius is strictly increasing in w² + h² |
| Coordinates.RadiusOfHalfArea | Map.Core/Services/CoordinateConverter.cs:72-82 | the radius of (w, h) exceeds that of (w/2, h/2) for positive sizes |
| Coordinates.GetAreaCenter | Map.Core/Services/CoordinateConverter.cs:88-93 | ToGeo of (x + w/2, y + h/2), failing exactly when that centre is off the map |
| Repository.GetObjectKey | Map.Core/Repositories/RedisMapObjectRepository.cs:272 | the key is "map:object:" followed by the id |
| Repository.GetObjectKeyInjective | Map.Core/Repositories/RedisMapObjectRepository.cs:272 | different ids have different record keys |
| Repository.GetObjectKeyAvoidsIndexKeys | Map.Core/Repositories/RedisMapObjectRepository.cs:18-20 | no record key equals the geo-index key or the id-set key |
| Repository.InsertedConsistent | Map.Core/Repositories/RedisMapObjectRepository.cs:46-58 | the three writes of Add keep the geo index, the records and the id set in step |
| Repository.DeletedConsistent | Map.Core/Repositories/RedisMapObjectRepository.cs:97-108 | the three deletions of Remove keep the structures in step |
| Repository.InsertedLookup | Map.Core/Repositories/RedisMapObjectRepository.cs:52 | after Add, the object's record is the object and every other record is as before |
| Repository.DeleteUndoesInsert | Map.Core/Repositories/RedisMapObjectRepository.cs:46-58 | removing a freshly added object restores the store exactly |
| Repository.CountChanges | Map.Core/Repositories/RedisMapObjectRepository.cs:55 | adding a new id raises the id-set size by one; removing a present id lowers it by one; otherwise the size stays |
| Repository.RedisMapObjectRepository.Create | Map.Core/Repositories/RedisMapObjectRepository.cs:22-26 | ArgumentNullException iff `GetDatabase()` yields no database or the converter is missing; the repository starts over an empty store |
| Repository.RedisMapObjectRepository.Add | Map.Core/Repositories/RedisMapObjectRepository.cs:29-66 | ArgumentNullException or ArgumentException before any store access; InvalidOperationException, with nothing changed, for a store failure or a centre off the map; otherwise the store is the old one plus the three writes, and the result says whether the id was new |
| Repository.RedisMapObjectRepository.GetById | Map.Core/Repositories/RedisMapObjectRepository.cs:69-87 | ArgumentException for an empty id; null for an absent record; otherwise the stored object |
| Repository.RedisMapObjectRepository.Remove | Map.Core/Repositories/RedisMapObjectRepository.cs:90-116 | ArgumentException for an empty id; otherwise the id leaves all three structures and nothing else changes; the result says whether it was present |
| Repository.Filter | Map.Core/Repositories/RedisMapObjectRepository.cs:136-147 | the post-filter fails iff an empty id is among the candidates (GetById rejects it); it never returns more objects than candidates |
| Repository.FilterSound | Map.Core/Repositories/RedisMapObjectRepository.cs:136-147 | every returned object is the existing record of some candidate and meets the criterion |
| Repository.FilterComplete | Map.Core/Repositories/RedisMapObjectRepository.cs:136-147 | every candidate whose record exists and meets the criterion is returned |
| Repository.FilterDistinct | Map.Core/Repositories/RedisMapObjectRepository.cs:179-189 | candidates without repeats, over records that carry their own ids, give a result without repeats |
| Repository.RedisMapObjectRepository.FilterCandidates | Map.Core/Repositories/RedisMapObjectRepository.cs:136-147 | the foreach loop computes Filter over the candidates in order |
| Repository.PointSearchRadius | Map.Core/Repositories/RedisMapObjectRepository.cs:127 | the point search uses the (positive) radius of a 2 × 2 area |
| Repository.RedisMapObjectRepository.GetByCoordinates | Map.Core/Repositories/RedisMapObjectRepository.cs:119-155 | the candidates of the query at ToGeo(x, y) with the 2 × 2 radius, filtered by ContainsPoint(x, y); an off-map point or any failure becomes InvalidOperationException |
| Repository.RedisMapObjectRepository.GetInArea | Map.Core/Repositories/RedisMapObjectRepository.cs:158-198 | ArgumentException for a negative size before any store access; otherwise the candidates of the query at the centre with CalculateSearchRadius(w, h), filtered by IntersectsArea; failures become InvalidOperationException |
| Repository.ByCoordinatesSucceeds | Map.Core/Repositories/RedisMapObjectRepository.cs:119-155 | on a consistent store, with a query that answers from the index without repeats, a point lookup at a cell of the map succeeds and returns no object twice |
| Repository.InAreaSucceeds | Map.Core/Repositories/RedisMapObjectRepository.cs:158-198 | on a consistent store, with a query that answers from the index without repeats, an area lookup whose centre is on the map succeeds and returns no object twice |
| Repository.RedisMapObjectRepository.Exists | Map.Core/Repositories/RedisMapObjectRepository.cs:201-207 | ArgumentException for an empty id; otherwise whether the record is present, with a store failure passed through unwrapped |
| Repository.RedisMapObjectRepository.Update | Map.Core/Repositories/RedisMapObjectRepository.cs:210-233 | rejects null and an empty id; for an absent id returns false with no write; otherwise Remove then Add, so the record becomes the new object, and on success the id set and every other record are as before |
| Repository.RedisMapObjectRepository.GetCount | Map.Core/Repositories/RedisMapObjectRepository.cs:236-239 | the size of the id set |
| Repository.RedisMapObjectRepository.Clear | Map.Core/Repositories/RedisMapObjectRepository.cs:242-267 | every record named in the set, the geo index and the set itself are deleted, so the store is empty |
| Events.NewEventArgs | Map.Core/Events/MapObjectEventArgs.cs:23-29 | ArgumentNullException iff the object is missing; otherwise the fields are as given |
| Events.CreatedArgs | Map.Core/Events/MapObjectEventArgs.cs:31-32 | type Created, the object, and no previous state |
| Events.UpdatedArgs | Map.Core/Events/MapObjectEventArgs.cs:34-35 | type Updated, the object, and the given previous state |
| Events.RemovedArgs | Map.Core/Events/MapObjectEventArgs.cs:37-38 | type Removed, the object, and no previous state |
| Events.Pair | Map.Core/Layers/MapObjectLayer.cs:215-231 | each raise helper invokes the specific event, then ObjectChanged, with the same arguments |
| Events.PairedAppend | Map.Core/Layers/MapObjectLayer.cs:215-231 | appending one raise keeps the log paired and adds that event to both streams |
| Events.PairedStreamsAgree | Map.Core/Layers/MapObjectLayer.cs:215-231 | in a paired log, the ObjectChanged stream equals the stream of specific events |
| Repository.ReplaceKeepsOthers | Map.Core/Repositories/RedisMapObjectRepository.cs:226-227 | replacing a stored object keeps the id set and every other record and point |
| ObjectLayer.MapObjectLayer.Create | Map.Core/Layers/MapObjectLayer.cs:34-37 | ArgumentNullException iff the repository is missing; the log starts empty |
| ObjectLayer.MapObjectLayer.OnObjectCreated | Map.Core/Layers/MapObjectLayer.cs:215-219 | appends ObjectCreated, then ObjectChanged |
| ObjectLayer.MapObjectLayer.OnObjectUpdated | Map.Core/Layers/MapObjectLayer.cs:221-225 | appends ObjectUpdated, then ObjectChanged |
| ObjectLayer.MapObjectLayer.OnObjectRemoved | Map.Core/Layers/MapObjectLayer.cs:227-231 | appends ObjectRemoved, then ObjectChanged |
| ObjectLayer.MapObjectLayer.AddObject | Map.Core/Layers/MapObjectLayer.cs:46-62 | ArgumentNullException for null; InvalidOperationException for an existing id, with no write and no event; on success the object is stored and one Created pair is logged; a false result raises nothing |
| ObjectLayer.MapObjectLayer.GetObjectById | Map.Core/Layers/MapObjectLayer.cs:69-75 | ArgumentException for an empty id, else the repository's answer |
| ObjectLayer.MapObjectLayer.RemoveObject | Map.Core/Layers/MapObjectLayer.cs:82-101 | ArgumentException for an empty id; false with no write and no event for a missing id; on success the object is deleted and a Removed pair carrying the object as read before deletion is logged |
| ObjectLayer.MapObjectLayer.GetObjectsByCoordinates | Map.Core/Layers/MapObjectLayer.cs:109-112 | the repository's answer, unchanged |
| ObjectLayer.MapObjectLayer.GetObjectsInArea | Map.Core/Layers/MapObjectLayer.cs:122-126 | the repository's answer, with no check of its own |
| ObjectLayer.MapObjectLayer.GetObjectsInAreaTask | Map.Core/Layers/MapObjectLayer.cs:131-137 | ArgumentException for a negative size before the repository is asked; otherwise the repository's answer |
| ObjectLayer.MapObjectLayer.UpdateObject | Map.Core/Layers/MapObjectLayer.cs:144-163 | ArgumentNullException for null, and the lookup's errors for an empty id or a store failure, each with the store unchanged; InvalidOperationException with no write when there is no previous state; on success the record is the new object and an Updated pair carrying the new object and the previous state is logged |
| ObjectLayer.MapObjectLayer.ObjectExists | Map.Core/Layers/MapObjectLayer.cs:170-176 | ArgumentException for an empty id, else the repository's answer |
| ObjectLayer.MapObjectLayer.IsObjectInArea | Map.Core/Layers/MapObjectLayer.cs:187-195 | false for a missing object, else IntersectsArea on the stored object |
| ObjectLayer.MapObjectLayer.GetObjectCount | Map.Core/Layers/MapObjectLayer.cs:201-204 | the repository's count |
| ObjectLayer.MapObjectLayer.ClearAllObjects | Map.Core/Layers/MapObjectLayer.cs:209-212 | the repository's Clear; no event |
| Contracts.ToObjectDto | Map.Network/Events/MapEventBroadcaster.cs:117-128 | copies Id, X, Y, Width, Height and Type |
| Contracts.ToObjectDtoForgetsOnlyMetadata | Map.Network/Events/MapEventBroadcaster.cs:117-128 | two objects have the same DTO iff they differ at most in their metadata |
| Contracts.ToRegionDto | Map.Network/Services/MapService.cs:80-85 | copies Id, Name and TileCount |
| Contracts.ToRegionDtoInjective | Map.Network/Services/MapService.cs:80-85 | the region DTO loses nothing of the region record |
| Streaming.MessageOf | Map.Network/Events/MapEventBroadcaster.cs:56-113 | Created becomes ObjectAdded and Updated becomes ObjectUpdated, each carrying the DTO and the timestamp; Removed becomes ObjectDeleted, carrying only the id and the timestamp |
| Streaming.SubscribeList | Map.Network/Events/MapEventBroadcaster.cs:27-30 | the hub is in the result, which extends the old list by at most one entry |
| Streaming.SubscribeProperties | Map.Network/Events/MapEventBroadcaster.cs:27-30 | subscribing keeps the list free of duplicates, subscribing twice is the same as once, and a new hub goes to the end |
| Streaming.RemoveFirst | Map.Network/Events/MapEventBroadcaster.cs:40 | List.Remove: one entry fewer if the hub was present, and no new entries |
| Streaming.RemoveAbsent | Map.Network/Events/MapEventBroadcaster.cs:40 | removing an unknown hub is a no-op |
| Streaming.RemoveFirstDeletesOne | Map.Network/Events/MapEventBroadcaster.cs:40 | exactly the first occurrence is cut out, and the others keep their order |
| Streaming.RemoveFirstNoDuplicates | Map.Network/Events/MapEventBroadcaster.cs:40 | on a duplicate-free list the hub is gone afterwards, and all other hubs remain |
| Streaming.SubscribeThenRemove | Map.Network/Events/MapEventBroadcaster.cs:23-44 | subscribing a new hub and then unsubscribing it restores the list |
| Streaming.Fanout | Map.Network/Events/MapEventBroadcaster.cs:64-74 | one delivery per subscriber of the snapshot, in list order, with the message; a delivery that throws is marked failed and the later ones still happen |
| Streaming.FanoutExactlyOnce | Map.Network/Events/MapEventBroadcaster.cs:64-74 | with a duplicate-free list, no hub receives one event twice |
| Streaming.DispatchAppendPair | Map.Network/Events/MapEventBroadcaster.cs:20 | the handler attached to ObjectChanged turns one change of the layer (its pair of raises) into exactly one fan-out to the subscribers |
| Streaming.DispatchOncePerChange | Map.Network/Events/MapEventBroadcaster.cs:20 | over a paired log, the subscribers receive \|subs\| deliveries per change, not per raise, because only ObjectChanged is listened to |
| Streaming.MapEventBroadcaster.Create | Map.Network/Events/MapEventBroadcaster.cs:15-21 | ArgumentNullException iff the layer is missing; no subscribers yet, and the list invariant (no hub twice) holds |
| Streaming.MapEventBroadcaster.Subscribe | Map.Network/Events/MapEventBroadcaster.cs:23-34 | the list becomes SubscribeList of the old list and still holds no hub twice |
| Streaming.MapEventBroadcaster.Unsubscribe | Map.Network/Events/MapEventBroadcaster.cs:36-44 | the list becomes RemoveFirst of the old list and still holds no hub twice |
| Streaming.MapEventBroadcaster.OnObjectEvent | Map.Network/Events/MapEventBroadcaster.cs:46-115 | the subscriber list is unchanged, and the deliveries gain Fanout(snapshot, MessageOf(event)) |
| Streaming.MapStreamingHub.Create | Map.Network/Services/MapStreamingHub.cs:15-19 | ArgumentNullException iff the layer or the broadcaster is missing; not subscribed |
| Streaming.MapStreamingHub.SubscribeToMapUpdates | Map.Network/Services/MapStreamingHub.cs:21-28 | a no-op when already subscribed; otherwise sets the flag and registers the hub once; keeps "flag iff registered" for this hub and for every other hub on the same broadcaster, whose membership is unchanged |
| Streaming.MapStreamingHub.UnsubscribeFromMapUpdates | Map.Network/Services/MapStreamingHub.cs:30-37 | a no-op when not subscribed; otherwise clears the flag and removes the hub; keeps "flag iff registered" for this hub and for every other hub on the same broadcaster, whose membership is unchanged |
| Streaming.MapStreamingHub.OnDisconnected | Map.Network/Services/MapStreamingHub.cs:39-45 | removes a subscribed hub from the broadcaster and leaves the flag set |
| Streaming.MapStreamingHub.BroadcastObjectAdded | Map.Network/Services/MapStreamingHub.cs:48-52 | changes no state |
| Streaming.MapStreamingHub.BroadcastObjectUpdated | Map.Network/Services/MapStreamingHub.cs:54-58 | changes no state |
| Streaming.MapStreamingHub.BroadcastObjectDeleted | Map.Network/Services/MapStreamingHub.cs:60-64 | changes no state |
| Service.NormalizeArea | Map.Network/Services/MapService.cs:28-31 | width and height are non-negative; the area runs from min to max of the corners on each axis |
| Service.NormalizeAreaSymmetric | Map.Network/Services/MapService.cs:28-31 | swapping the corners, on one axis or on both, gives the same area |
| Service.NormalizeAreaContains | Map.Network/Services/MapService.cs:28-31 | a cell is in the area iff it lies between the corners, with the larger corner excluded |
| Service.ObjectDtos | Map.Network/Services/MapService.cs:41-53 | one DTO per object, in the same order |
| Service.RegionDtos | Map.Network/Services/MapService.cs:77-86 | one DTO per region record, in the same order |
| Service.RegionDtosFaithful | Map.Network/Services/MapService.cs:77-86 | converting records to DTOs neither loses records nor merges two of them |
| Service.MapService.Create | Map.Network/Services/MapService.cs:16-20 | ArgumentNullException iff either layer is missing |
| Service.MapService.GetObjectsInArea | Map.Network/Services/MapService.cs:22-56 | ArgumentNullException for a null request; otherwise the layer's objects in the normalised area, converted to DTOs in order; a lookup failure passes through |
| Service.MapService.GetRegionsInArea | Map.Network/Services/MapService.cs:58-89 | ArgumentNullException for a null request; otherwise one DTO for each known region with a cell in the normalised area, each exactly once |

## Left out

- Concurrency and asynchrony: every call is a sequential step. So the locks of the broadcaster and the service, `Task`, `GetAwaiter().GetResult()`, and the races between check and act (for example AddObject's Exists, then Add) are not modelled.
- Redis: the store is three in-memory structures, and a committed transaction is one atomic update.
  - The step booleans of GEOADD/SADD ("was new") and GEOREM/DEL/SREM ("was present") are membership tests.
  - Transactions carry no conditions, so they always commit.
  - `FireAndForget` deletions are plain deletions.
  - GEORADIUS distance semantics are the abstract `query` parameter.
- Repository.RedisMapObjectRepository.GetByCoordinates: its completeness is relative to the candidates the geo query returns. An object whose centre lies outside the small search circle around the point is not among them, although it may contain the point.
- Repository.RedisMapObjectRepository.GetInArea: its completeness is likewise relative to the candidates. The index holds each object at its centre, and only the circle of CalculateSearchRadius(w, h) around the area's centre is searched. An object that overlaps the area with its centre outside that circle is never a candidate: the object (0, 0, 100, 100), centred at (50, 50), meets the area (0, 0, 2, 2) but lies far outside its circle of radius about 1.1·√2 tiles around (1, 1). The model promises the intersecting candidates (FilterSound, FilterComplete), not every intersecting object. Which ids GEORADIUS returns is not modelled, so this is stated rather than proved.
- Repository.RedisMapObjectRepository.Create: the source attaches to an existing Redis database, whose keys outlive the repository instance; the model starts every repository over an empty store. The flag `hasDatabase` models only `GetDatabase()` returning null. A null `redis` argument makes the source throw NullReferenceException before that check, which is not modelled.
- Store failures are one `fault` flag per call. For the layers, the flag means that the first store access of the call fails. A failure part-way through a transaction, or of the Add after Update's Remove, is not modelled.
- Repository.RedisMapObjectRepository.Update: when the new centre is off the map, the source's Remove has already run, so the object is lost and the call fails. The model states exactly this and does not repair it.
- Records are keyed by id in the model. The key string is `GetObjectKey(id)`, which is injective and never collides with the two index keys, so the two keyings are equivalent.
- MemoryPack serialization: a record reads back as the object that was written. The `Metadata` dictionary is an opaque map.
- Floating point: doubles are exact reals and IEEE rounding is not modelled. Coordinates.FromGeo does not model the `(int)` cast of `Math.Round` for quotients outside the `int` range, where C# gives an unspecified value; the model clamps the exact rounded quotient. The search radius is represented by its square, because Dafny reals have no square root. Redis compares distances with that radius.
- Timestamps: `DateTime.UtcNow` is a parameter `now`, copied through unchanged.
- Streaming.MapEventBroadcaster.Create: the handler that the constructor attaches to `ObjectChanged` is not an object reference in the model, so no state ties the layer's log to the broadcaster's deliveries. The wiring is stated as the function Dispatch over the log instead (DispatchAppendPair, DispatchOncePerChange), for a subscriber list that stays fixed between changes; `OnObjectEvent` receives the event from its caller.
- Which subscribers throw from a delivery is the parameter `fails`. The hub's `Broadcast*` methods are empty in the source, and `MapStreamingHub` base-class behaviour from MagicOnion is not part of this model.
- C# `int` overflow in `x + width`, `Math.Abs` of extremes and `y * width` is not modelled: integers are unbounded.
- Regions.RegionLayer.GenerateRegions: requires regionCount ≤ 65535, although the source's `ushort` loop never ends at 65535 or above. For 65535 itself the model's answer (regions 1..65535 and the partition) is the corrected behaviour, not the source's, which never returns. The as-written behaviour is under Findings.
- GenerateRegions ignores its `random` argument, so it is modelled with an unused `seed`.
- The storage width of `TileType` (a byte) is not modelled: the grid is an `array<TileType>`.
- The HashSet enumeration order in GetRegionMetadataInArea is unspecified. The model proves membership and distinctness, not order.
- `RegionLayer.Regions` hands out the live `Region` objects, so a caller could change them outside `SetRegionName`. The model stores regions as values, and `Region.Description` and `Region.Metadata` are not part of this model.
- The bootstrapping programs, the data seeder, the client, the interface files and the serializer providers are not part of this model.

## Findings

| source | as written | input that shows it | evidently intended | confidence | as-written member | corrected member |
|---|---|---|---|---|---|---|
| Map.Core/Layers/RegionLayer.cs:94-102 | the counter `ushort i` runs `for (i = 1; i <= regionCount; i++)`, and `i++` wraps 65535 to 0 | `GenerateRegions(65535)` on any layer: after i = 65535 the counter wraps to 0 and `i <= 65535` still holds, so the loop never ends | create regions 1..regionCount and stop, or reject counts above 65535 | not executed | Regions.CreationLoopNeverExits | Regions.RegionLayer.GenerateRegions |
