/** The terrain grid: one tile code per cell in a flat row-major array. */
module Surface {
  import opened Wrappers
  import opened Numerics
  import opened Tiles
  import opened Grid
  import opened MapAreas

  class SurfaceLayer {
    const width: int
    const height: int
    /** `_tiles`: the cell (x, y) is stored at index y * width + x. */
    const tiles: array<TileType>

    ghost predicate Valid()
    {
      width > 0 && height > 0 && tiles.Length == width * height
    }

    /** The tile stored for an in-bounds cell: the abstract view of the grid. */
    function Cell(x: int, y: int): TileType
      reads tiles
      requires Valid() && InBounds(width, height, x, y)
    {
      IndexInRange(width, height, x, y);
      tiles[Index(width, x, y)]
    }

    /** The constructor for valid sizes: an all-Plain grid. */
    constructor (width: int, height: int)
      requires width > 0 && height > 0
      ensures Valid() && fresh(tiles)
      ensures this.width == width && this.height == height
      ensures tiles[..] == seq(width * height, _ => Plain)
    {
      this.width := width;
      this.height := height;
      this.tiles := new TileType[width * height](_ => Plain);
    }

    /** `new SurfaceLayer(width, height)`: ArgumentException for a non-positive size. */
    static method Create(width: int, height: int) returns (r: Result<SurfaceLayer>)
      ensures r.Failure? <==> width <= 0 || height <= 0
      ensures r.Failure? ==> r.error == Argument
      ensures r.Success? ==> fresh(r.value) && fresh(r.value.tiles) && r.value.Valid()
      ensures r.Success? ==> r.value.width == width && r.value.height == height
      ensures r.Success? ==> forall x, y :: InBounds(width, height, x, y) ==> r.value.Cell(x, y) == Plain
    {
      if width <= 0 || height <= 0 {
        return Failure(Argument);
      }
      var layer := new SurfaceLayer(width, height);
      forall x, y | InBounds(width, height, x, y) ensures layer.Cell(x, y) == Plain {
        IndexInRange(width, height, x, y);
      }
      return Success(layer);
    }

    /** `FromTiles`: the first min(|src|, width * height) tiles fill the grid in row-major order. */
    static method FromTiles(width: int, height: int, src: seq<TileType>) returns (r: Result<SurfaceLayer>)
      ensures r.Failure? <==> width <= 0 || height <= 0
      ensures r.Failure? ==> r.error == Argument
      ensures r.Success? ==> fresh(r.value) && fresh(r.value.tiles) && r.value.Valid()
      ensures r.Success? ==> r.value.width == width && r.value.height == height
      ensures r.Success? ==> forall i :: 0 <= i < r.value.tiles.Length ==>
        r.value.tiles[i] == if i < |src| then src[i] else Plain
      ensures r.Success? ==> forall x, y :: InBounds(width, height, x, y) ==>
        r.value.Cell(x, y) == if Index(width, x, y) < |src| then src[Index(width, x, y)] else Plain
    {
      if width <= 0 || height <= 0 {
        return Failure(Argument);
      }
      var layer := new SurfaceLayer(width, height);
      var index := 0;
      while index < |src|
        invariant 0 <= index <= |src| && index <= layer.tiles.Length
        invariant forall i :: 0 <= i < layer.tiles.Length ==>
          layer.tiles[i] == if i < index then src[i] else Plain
      {
        if index >= layer.tiles.Length {
          break;
        }
        layer.tiles[index] := src[index];
        index := index + 1;
      }
      forall x, y | InBounds(width, height, x, y)
        ensures layer.Cell(x, y) == if Index(width, x, y) < |src| then src[Index(width, x, y)] else Plain
      {
        IndexInRange(width, height, x, y);
      }
      return Success(layer);
    }

    /** `FromArray`: width from dimension 1, height from dimension 0, and cell (x, y) is src[y, x]. */
    static method FromArray(src: array2<TileType>) returns (r: Result<SurfaceLayer>)
      ensures r.Failure? <==> src.Length0 == 0 || src.Length1 == 0
      ensures r.Failure? ==> r.error == Argument
      ensures r.Success? ==> fresh(r.value) && fresh(r.value.tiles) && r.value.Valid()
      ensures r.Success? ==> r.value.width == src.Length1 && r.value.height == src.Length0
      ensures r.Success? ==> forall x, y :: InBounds(src.Length1, src.Length0, x, y) ==>
        r.value.Cell(x, y) == src[y, x]
    {
      var height := src.Length0;
      var width := src.Length1;
      if width <= 0 || height <= 0 {
        return Failure(Argument);
      }
      var layer := new SurfaceLayer(width, height);
      forall px, py | InBounds(width, height, px, py) ensures layer.Cell(px, py) == Plain {
        IndexInRange(width, height, px, py);
      }
      for y := 0 to height
        invariant forall px, py :: InBounds(width, height, px, py) ==>
          layer.Cell(px, py) == if py < y then src[py, px] else Plain
      {
        for x := 0 to width
          invariant forall px, py :: InBounds(width, height, px, py) ==>
            layer.Cell(px, py) == if py < y || (py == y && px < x) then src[py, px] else Plain
        {
          layer.SetTileUnchecked(x, y, src[y, x]);
        }
      }
      return Success(layer);
    }

    /** `SetTileUnchecked`: the write of SetTile for a cell the caller knows is in bounds. */
    method SetTileUnchecked(x: int, y: int, t: TileType)
      requires Valid() && InBounds(width, height, x, y)
      modifies tiles
      ensures Cell(x, y) == t
      ensures forall px, py :: InBounds(width, height, px, py) && (px != x || py != y) ==>
        Cell(px, py) == old(Cell(px, py))
    {
      IndexInRange(width, height, x, y);
      tiles[y * width + x] := t;
      forall px, py | InBounds(width, height, px, py) && (px != x || py != y)
        ensures Index(width, px, py) != Index(width, x, y)
      {
        IndexDistinct(width, height, px, py, x, y);
      }
    }

    /** `IsInBounds`. */
    predicate IsInBounds(x: int, y: int)
    {
      InBounds(width, height, x, y)
    }

    /** `GetTile`: ArgumentOutOfRangeException exactly outside the grid, the stored tile inside. */
    function GetTile(x: int, y: int): (r: Result<TileType>)
      reads tiles
      requires Valid()
      ensures r.Failure? <==> !IsInBounds(x, y)
      ensures r.Failure? ==> r.error == ArgumentOutOfRange
      ensures r.Success? ==> r.value == Cell(x, y)
    {
      if !IsInBounds(x, y) then Failure(ArgumentOutOfRange) else Success(Cell(x, y))
    }

    /** `GetTileSafe`: never fails; agrees with GetTile inside and yields the default outside. */
    function GetTileSafe(x: int, y: int, defaultValue: TileType := Plain): (t: TileType)
      reads tiles
      requires Valid()
      ensures GetTile(x, y).Success? ==> t == GetTile(x, y).value
      ensures GetTile(x, y).Failure? ==> t == defaultValue
    {
      if IsInBounds(x, y) then Cell(x, y) else defaultValue
    }

    /** `SetTile`: ArgumentOutOfRangeException outside the grid; inside, exactly one cell changes. */
    method SetTile(x: int, y: int, t: TileType) returns (r: Outcome)
      requires Valid()
      modifies tiles
      ensures r.Fail? <==> !IsInBounds(x, y)
      ensures r.Fail? ==> r.error == ArgumentOutOfRange && tiles[..] == old(tiles[..])
      ensures r.Pass? ==> GetTile(x, y) == Success(t)
      ensures r.Pass? ==> forall px, py :: InBounds(width, height, px, py) && (px != x || py != y) ==>
        Cell(px, py) == old(Cell(px, py))
    {
      if !IsInBounds(x, y) {
        return Fail(ArgumentOutOfRange);
      }
      IndexInRange(width, height, x, y);
      tiles[y * width + x] := t;
      forall px, py | InBounds(width, height, px, py) && (px != x || py != y)
        ensures Index(width, px, py) != Index(width, x, y)
      {
        IndexDistinct(width, height, px, py, x, y);
      }
      return Pass;
    }

    /** `FillArea`: never fails; sets exactly the cells of rectangle ∩ grid and leaves every other cell. */
    method FillArea(x: int, y: int, w: int, h: int, t: TileType)
      requires Valid()
      modifies tiles
      ensures forall px, py :: InBounds(width, height, px, py) ==>
        Cell(px, py) == if InRect(x, y, w, h, px, py) then t else old(Cell(px, py))
    {
      var x1, y1 := ClipLow(x), ClipLow(y);
      var x2, y2 := ClipHigh(width, x, w), ClipHigh(height, y, h);
      var cy := y1;
      while cy < y2
        invariant y1 <= cy <= Max(y1, y2)
        invariant forall px, py :: InBounds(width, height, px, py) ==>
          Cell(px, py) == if y1 <= py < cy && x1 <= px < x2 then t else old(Cell(px, py))
      {
        var rowStart := cy * width;
        var cx := x1;
        while cx < x2
          invariant x1 <= cx <= Max(x1, x2)
          invariant forall px, py :: InBounds(width, height, px, py) ==>
            Cell(px, py) == if (y1 <= py < cy && x1 <= px < x2) || (py == cy && x1 <= px < cx)
                            then t else old(Cell(px, py))
        {
          IndexInRange(width, height, cx, cy);
          tiles[rowStart + cx] := t;
          forall px, py | InBounds(width, height, px, py) && (px != cx || py != cy)
            ensures Index(width, px, py) != Index(width, cx, cy)
          {
            IndexDistinct(width, height, px, py, cx, cy);
          }
          cx := cx + 1;
        }
        cy := cy + 1;
      }
      forall px, py | InBounds(width, height, px, py)
        ensures (y1 <= py < y2 && x1 <= px < x2) == InRect(x, y, w, h, px, py)
      {
        ClipExact(width, height, x, y, w, h, px, py);
      }
    }

    /** `FillArea(MapArea, type)`: the cells the area contains take the type, all others keep theirs. */
    method FillMapArea(area: MapArea, t: TileType)
      requires Valid()
      modifies tiles
      ensures forall px, py :: InBounds(width, height, px, py) ==>
        Cell(px, py) == if area.Contains(px, py) then t else old(Cell(px, py))
    {
      FillArea(area.x, area.y, area.width, area.height, t);
    }

    /** The rectangle lies in the grid and every one of its cells can carry an object. */
    ghost predicate AreaPlaceable(x: int, y: int, w: int, h: int)
      reads tiles
      requires Valid()
    {
      && x >= 0 && y >= 0 && x + w <= width && y + h <= height
      && forall px, py :: InRect(x, y, w, h, px, py) ==> CanPlaceObject(Cell(px, py))
    }

    /** `CanPlaceObjectInArea`: false when the rectangle leaves the grid, else whether all its cells are Plain. */
    method CanPlaceObjectInArea(x: int, y: int, w: int, h: int) returns (r: bool)
      requires Valid()
      ensures r == AreaPlaceable(x, y, w, h)
    {
      if x < 0 || y < 0 || x + w > width || y + h > height {
        return false;
      }
      var cy := y;
      while cy < y + h
        invariant y <= cy <= Max(y, y + h)
        invariant forall px, py :: InRect(x, y, w, cy - y, px, py) ==> CanPlaceObject(Cell(px, py))
      {
        var rowStart := cy * width;
        var cx := x;
        while cx < x + w
          invariant x <= cx <= Max(x, x + w)
          invariant forall px :: x <= px < cx ==> CanPlaceObject(Cell(px, cy))
        {
          IndexInRange(width, height, cx, cy);
          var tile := tiles[rowStart + cx];
          if !CanPlaceObject(tile) {
            assert !CanPlaceObject(Cell(cx, cy));
            return false;
          }
          cx := cx + 1;
        }
        cy := cy + 1;
      }
      return true;
    }

    /** `CanPlaceObjectInArea(MapArea)`: the same answer for the area's rectangle. */
    method CanPlaceObjectInMapArea(area: MapArea) returns (r: bool)
      requires Valid()
      ensures r == AreaPlaceable(area.x, area.y, area.width, area.height)
    {
      r := CanPlaceObjectInArea(area.x, area.y, area.width, area.height);
    }

    /**
     * `GetMemoryUsage`: one byte per cell, the two stored sizes and one reference; the reference width
     * (`IntPtr.Size`) is a property of the platform and so a parameter.
     */
    function GetMemoryUsage(pointerSize: nat): (bytes: int)
      reads this
      requires Valid()
      ensures bytes == width * height + 2 * 4 + pointerSize
    {
      tiles.Length + 4 * 2 + pointerSize
    }
  }

  /** The memory tests: a 1000 × 1000 surface on a 64-bit platform stays below 8 MiB. */
  lemma MemoryUsageBound(layer: SurfaceLayer)
    requires layer.Valid() && layer.width == 1000 && layer.height == 1000
    ensures layer.GetMemoryUsage(8) < 8 * 1024 * 1024
    ensures layer.GetMemoryUsage(8) == 1000 * 1000 + 16
  {
  }

  /** The scenario of the surface tests: one mountain blocks every area that covers it. */
  method MountainBlocksPlacement(layer: SurfaceLayer) returns (r: bool)
    requires layer.Valid() && layer.width == 10 && layer.height == 10
    modifies layer.tiles
    ensures !r
  {
    var _ := layer.SetTile(5, 5, Mountain);
    r := layer.CanPlaceObjectInArea(4, 4, 3, 3);
    assert Grid.InRect(4, 4, 3, 3, 5, 5);
  }
}
