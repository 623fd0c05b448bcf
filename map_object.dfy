/** The positioned object of the map: a rectangle of tiles with an id and a type. */
module MapObjects {
  import opened Numerics

  /** The free-form metadata dictionary, kept opaque. */
  type Metadata = map<string, string>

  /** A map object occupying the half-open rectangle [x, x+width) × [y, y+height). */
  datatype MapObject = MapObject(
    id: string,
    x: int,
    y: int,
    width: int,
    height: int,
    objectType: string,
    metadata: Metadata)

  /** `new MapObject()`: empty id, empty type, zero rectangle and no metadata. */
  function NewMapObject(): (o: MapObject)
    ensures o.id == "" && o.objectType == ""
    ensures o.x == 0 && o.y == 0 && o.width == 0 && o.height == 0 && o.metadata == map[]
  {
    MapObject("", 0, 0, 0, 0, "", map[])
  }

  /** `lo <= v < lo + len`: v lies in a half-open interval. */
  predicate InSpan(v: int, lo: int, len: int) { lo <= v < lo + len }

  /** `ContainsPoint`: the point lies in the object's half-open rectangle. */
  predicate ContainsPoint(o: MapObject, px: int, py: int)
  {
    px >= o.x && px < o.x + o.width && py >= o.y && py < o.y + o.height
  }

  /** `IntersectsArea`: the rectangles are not separated along either axis. */
  predicate IntersectsArea(o: MapObject, x: int, y: int, width: int, height: int)
  {
    !(o.x + o.width <= x || o.x >= x + width || o.y + o.height <= y || o.y >= y + height)
  }

  /** `IsFullyWithinArea`: the object's rectangle lies inside the area. */
  predicate IsFullyWithinArea(o: MapObject, x: int, y: int, width: int, height: int)
  {
    o.x >= x && o.y >= y && o.x + o.width <= x + width && o.y + o.height <= y + height
  }

  /** `GetCenter`: the corner moved by half the size on each axis (C# truncating division). */
  function GetCenter(o: MapObject): (c: (int, int))
  {
    (o.x + Half(o.width), o.y + Half(o.height))
  }

  /** The object rectangle as an area with the same four fields. */
  function AsObject(x: int, y: int, width: int, height: int): MapObject
  {
    MapObject("", x, y, width, height, "", map[])
  }

  /** ContainsPoint is the product of two half-open intervals. */
  lemma ContainsPointHalfOpen(o: MapObject, px: int, py: int)
    ensures ContainsPoint(o, px, py) <==> InSpan(px, o.x, o.width) && InSpan(py, o.y, o.height)
    ensures !ContainsPoint(o, o.x + o.width, py) && !ContainsPoint(o, px, o.y + o.height)
  {
  }

  /**
   * For non-empty rectangles, IntersectsArea holds exactly when some tile lies in both.
   * The witness of overlap is the larger of the two top-left corners.
   */
  lemma IntersectsIffCommonTile(o: MapObject, x: int, y: int, width: int, height: int)
    requires o.width > 0 && o.height > 0 && width > 0 && height > 0
    ensures IntersectsArea(o, x, y, width, height) <==>
      exists px, py :: ContainsPoint(o, px, py) && ContainsPoint(AsObject(x, y, width, height), px, py)
  {
    var a := AsObject(x, y, width, height);
    if IntersectsArea(o, x, y, width, height) {
      var px, py := Max(o.x, x), Max(o.y, y);
      assert ContainsPoint(o, px, py) && ContainsPoint(a, px, py);
    }
  }

  /** Rectangles that only touch along an edge do not intersect. */
  lemma TouchingDoNotIntersect(o: MapObject, y: int, height: int)
    ensures !IntersectsArea(o, o.x + o.width, y, 1, height)
    ensures !IntersectsArea(o, o.x - 1, y, 1, height)
  {
  }

  /** IntersectsArea is symmetric in the object rectangle and the query rectangle. */
  lemma IntersectsSymmetric(o: MapObject, x: int, y: int, width: int, height: int)
    ensures IntersectsArea(o, x, y, width, height)
        == IntersectsArea(AsObject(x, y, width, height), o.x, o.y, o.width, o.height)
  {
  }

  /** A non-empty object fully inside an area intersects it. */
  lemma FullyWithinImpliesIntersects(o: MapObject, x: int, y: int, width: int, height: int)
    requires o.width > 0 && o.height > 0
    requires IsFullyWithinArea(o, x, y, width, height)
    ensures IntersectsArea(o, x, y, width, height)
  {
  }

  /** A non-empty object contains its own centre. */
  lemma CenterIsInside(o: MapObject)
    requires o.width > 0 && o.height > 0
    ensures ContainsPoint(o, GetCenter(o).0, GetCenter(o).1)
  {
  }

  /** A zero-width object with its corner inside an area still intersects it: the test is on edges only. */
  lemma EmptyObjectCanIntersect(o: MapObject)
    requires o.width == 0 && o.height == 0
    ensures IntersectsArea(o, o.x - 1, o.y - 1, 2, 2)
    ensures forall px, py :: !ContainsPoint(o, px, py)
  {
  }

  /** The scenario of the object-layer tests: (10,20,5,5) meets (8,18,10,10) and misses (50,50,10,10). */
  lemma IntersectionExamples()
    ensures IntersectsArea(AsObject(10, 20, 5, 5), 8, 18, 10, 10)
    ensures !IntersectsArea(AsObject(10, 20, 5, 5), 50, 50, 10, 10)
    ensures IntersectsArea(AsObject(10, 10, 5, 5), 12, 12, 10, 10)
    ensures !IntersectsArea(AsObject(10, 10, 5, 5), 20, 20, 5, 5)
  {
  }
}
