/**
 * The mapping between map cells and the geographic coordinates the geo index stores: one cell is
 * 0.0001 degree on both axes, counted from (0, 0). Doubles are modelled as exact reals.
 */
module Coordinates {
  import opened Wrappers
  import opened Numerics

  /** Degrees per cell. */
  const ScaleFactor: real := 0.0001
  /** Approximate metres per degree of latitude. */
  const MetersPerDegree: real := 111320.0
  /** The safety margin added to the search radius. */
  const RadiusMargin: real := 1.1

  /** A (longitude, latitude) pair. */
  datatype GeoPoint = GeoPoint(longitude: real, latitude: real)

  /** A search radius in metres, held through its square: the radius is the non-negative root of `square`. */
  datatype Radius = Radius(square: real)

  /** A converter for a map of the given size. */
  datatype Converter = Converter(mapWidth: int, mapHeight: int)
  {
    ghost predicate Valid()
    {
      mapWidth > 0 && mapHeight > 0
    }

    predicate InMap(x: int, y: int)
    {
      0 <= x < mapWidth && 0 <= y < mapHeight
    }
  }

  /** The constructor: ArgumentException for a non-positive size. */
  function NewConverter(mapWidth: int, mapHeight: int): (r: Result<Converter>)
    ensures r.Failure? <==> mapWidth <= 0 || mapHeight <= 0
    ensures r.Failure? ==> r.error == Argument
    ensures r.Success? ==> r.value.Valid() && r.value.mapWidth == mapWidth && r.value.mapHeight == mapHeight
  {
    if mapWidth <= 0 || mapHeight <= 0 then Failure(Argument) else Success(Converter(mapWidth, mapHeight))
  }

  /** `ToGeoCoordinates`: ArgumentOutOfRangeException off the map, else the scaled cell. */
  function ToGeo(c: Converter, x: int, y: int): (r: Result<GeoPoint>)
    ensures r.Failure? <==> !c.InMap(x, y)
    ensures r.Failure? ==> r.error == ArgumentOutOfRange
    ensures r.Success? ==> r.value.longitude == x as real * ScaleFactor && r.value.latitude == y as real * ScaleFactor
  {
    if x < 0 || x >= c.mapWidth || y < 0 || y >= c.mapHeight then Failure(ArgumentOutOfRange)
    else Success(GeoPoint(x as real * ScaleFactor, y as real * ScaleFactor))
  }

  /** `Math.Round`: the nearest integer, ties to the even one. */
  function RoundHalfEven(v: real): (n: int)
    ensures -0.5 <= v - n as real <= 0.5
    ensures v - n as real == 0.5 || n as real - v == 0.5 ==> n % 2 == 0
  {
    var f := v.Floor;
    var frac := v - f as real;
    if frac < 0.5 then f
    else if frac > 0.5 then f + 1
    else if f % 2 == 0 then f
    else f + 1
  }

  /** Whole numbers round to themselves. */
  lemma RoundWhole(n: int)
    ensures RoundHalfEven(n as real) == n
  {
  }

  /** `Math.Max(0, Math.Min(size - 1, v))`. */
  function Clamp(v: int, size: int): (r: int)
    requires size > 0
    ensures 0 <= r < size
    ensures 0 <= v < size ==> r == v
    ensures v < 0 ==> r == 0
    ensures v >= size ==> r == size - 1
  {
    Max(0, Min(size - 1, v))
  }

  /** `FromGeoCoordinates`: the nearest cell, clamped onto the map; never fails. */
  function FromGeo(c: Converter, g: GeoPoint): (cell: (int, int))
    requires c.Valid()
    ensures c.InMap(cell.0, cell.1)
    ensures cell.0 == Clamp(RoundHalfEven(g.longitude / ScaleFactor), c.mapWidth)
    ensures cell.1 == Clamp(RoundHalfEven(g.latitude / ScaleFactor), c.mapHeight)
  {
    (Clamp(RoundHalfEven(g.longitude / ScaleFactor), c.mapWidth),
     Clamp(RoundHalfEven(g.latitude / ScaleFactor), c.mapHeight))
  }

  /** Converting a cell and back returns the cell. */
  lemma RoundTrip(c: Converter, x: int, y: int)
    requires c.Valid() && c.InMap(x, y)
    ensures ToGeo(c, x, y).Success? && FromGeo(c, ToGeo(c, x, y).value) == (x, y)
  {
    var g := ToGeo(c, x, y).value;
    assert g.longitude / ScaleFactor == x as real;
    assert g.latitude / ScaleFactor == y as real;
    RoundWhole(x);
    RoundWhole(y);
  }

  /** Distinct cells have distinct geographic coordinates. */
  lemma ToGeoInjective(c: Converter, x1: int, y1: int, x2: int, y2: int)
    requires ToGeo(c, x1, y1).Success? && ToGeo(c, x2, y2).Success?
    requires (x1, y1) != (x2, y2)
    ensures ToGeo(c, x1, y1).value != ToGeo(c, x2, y2).value
  {
  }

  /** Neighbouring cells are one step apart, and the step is the same on both axes. */
  lemma ToGeoEqualSteps(c: Converter, x: int, y: int)
    requires c.InMap(x, y) && c.InMap(x + 1, y + 1)
    ensures ToGeo(c, x + 1, y).value.longitude - ToGeo(c, x, y).value.longitude == ScaleFactor
    ensures ToGeo(c, x, y + 1).value.latitude - ToGeo(c, x, y).value.latitude == ScaleFactor
    ensures ToGeo(c, x + 1, y).value.latitude == ToGeo(c, x, y).value.latitude
  {
  }

  /** The origin cell maps to (0, 0). */
  lemma ToGeoOrigin(c: Converter)
    requires c.Valid()
    ensures ToGeo(c, 0, 0) == Success(GeoPoint(0.0, 0.0))
  {
  }

  /** On a map of at most 1 800 000 × 900 000 cells every coordinate is a valid longitude and latitude. */
  lemma ToGeoWithinEarth(c: Converter, x: int, y: int)
    requires c.mapWidth <= 1_800_000 && c.mapHeight <= 900_000
    requires ToGeo(c, x, y).Success?
    ensures 0.0 <= ToGeo(c, x, y).value.longitude < 180.0
    ensures 0.0 <= ToGeo(c, x, y).value.latitude < 90.0
  {
  }

  /** Half the diagonal of a w × h area, in metres, squared. */
  function HalfDiagonalSquare(w: int, h: int): (s: real)
    ensures s >= 0.0
  {
    var wd := w as real * ScaleFactor;
    var hd := h as real * ScaleFactor;
    (wd * wd + hd * hd) * (MetersPerDegree / 2.0) * (MetersPerDegree / 2.0)
  }

  /**
   * `CalculateSearchRadius`: ArgumentException for a negative size, else half the area's diagonal in
   * metres, enlarged by the 10% margin.
   */
  function CalculateSearchRadius(w: int, h: int): (r: Result<Radius>)
    ensures r.Failure? <==> w < 0 || h < 0
    ensures r.Failure? ==> r.error == Argument
    ensures r.Success? ==> r.value.square == RadiusMargin * RadiusMargin * HalfDiagonalSquare(w, h)
  {
    if w < 0 || h < 0 then Failure(Argument)
    else Success(Radius(RadiusMargin * RadiusMargin * HalfDiagonalSquare(w, h)))
  }

  /** The radius is a real length, zero exactly for the empty area, and it reaches past the half-diagonal. */
  lemma RadiusPositive(w: int, h: int)
    requires w >= 0 && h >= 0
    ensures CalculateSearchRadius(w, h).value.square >= HalfDiagonalSquare(w, h)
    ensures CalculateSearchRadius(w, h).value.square > 0.0 <==> w > 0 || h > 0
  {
    var wd := w as real * ScaleFactor;
    var hd := h as real * ScaleFactor;
    if w > 0 || h > 0 {
      assert wd * wd + hd * hd > 0.0;
      assert HalfDiagonalSquare(w, h) > 0.0;
    } else {
      assert wd == 0.0 && hd == 0.0;
    }
  }

  /** The radius grows strictly with w² + h². */
  lemma RadiusMonotone(w1: int, h1: int, w2: int, h2: int)
    requires 0 <= w1 && 0 <= h1 && 0 <= w2 && 0 <= h2
    requires w1 * w1 + h1 * h1 < w2 * w2 + h2 * h2
    ensures CalculateSearchRadius(w1, h1).value.square < CalculateSearchRadius(w2, h2).value.square
  {
    var s := ScaleFactor * ScaleFactor * (MetersPerDegree / 2.0) * (MetersPerDegree / 2.0);
    assert HalfDiagonalSquare(w1, h1) == (w1 * w1 + h1 * h1) as real * s;
    assert HalfDiagonalSquare(w2, h2) == (w2 * w2 + h2 * h2) as real * s;
  }

  /** Halving a non-empty area (with C#'s truncating division) shrinks its radius. */
  lemma RadiusOfHalfArea(w: int, h: int)
    requires w > 0 && h > 0
    ensures CalculateSearchRadius(w, h).value.square > CalculateSearchRadius(Half(w), Half(h)).value.square
  {
    assert Half(w) * Half(w) <= w * w && Half(w) < w;
    assert Half(w) * Half(w) < w * w;
    assert Half(h) * Half(h) <= h * h;
    RadiusMonotone(Half(w), Half(h), w, h);
  }

  /** `GetAreaCenter`: the coordinates of the cell (x + w/2, y + h/2), failing as ToGeo does when that is off the map. */
  function GetAreaCenter(c: Converter, x: int, y: int, w: int, h: int): (r: Result<GeoPoint>)
    ensures r == ToGeo(c, x + Half(w), y + Half(h))
    ensures r.Failure? <==> !c.InMap(x + Half(w), y + Half(h))
  {
    ToGeo(c, x + Half(w), y + Half(h))
  }
}
