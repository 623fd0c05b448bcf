/** The query rectangle value. */
module MapAreas {
  import MapObjects

  /** A readonly rectangle [x, x+width) × [y, y+height); the fields are set once by the constructor. */
  datatype MapArea = MapArea(x: int, y: int, width: int, height: int)
  {
    /** `Contains`: the point lies in the half-open rectangle. */
    predicate Contains(px: int, py: int)
    {
      px >= x && px < x + width && py >= y && py < y + height
    }
  }

  /** `new MapArea(x, y, width, height)` stores its arguments verbatim. */
  function NewMapArea(x: int, y: int, width: int, height: int): (a: MapArea)
    ensures a.x == x && a.y == y && a.width == width && a.height == height
  {
    MapArea(x, y, width, height)
  }

  /** An area with no width or no height contains no point. */
  lemma EmptyAreaContainsNothing(a: MapArea, px: int, py: int)
    requires a.width <= 0 || a.height <= 0
    ensures !a.Contains(px, py)
  {
  }

  /** Contains agrees with MapObject.ContainsPoint on an object with the same rectangle. */
  lemma ContainsAgreesWithObject(a: MapArea, o: MapObjects.MapObject, px: int, py: int)
    requires o.x == a.x && o.y == a.y && o.width == a.width && o.height == a.height
    ensures a.Contains(px, py) == MapObjects.ContainsPoint(o, px, py)
  {
  }
}
