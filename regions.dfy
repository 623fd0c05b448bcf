/** The region layer: every cell carries the id of the region it belongs to, plus a table of regions. */
module Regions {
  import opened Wrappers
  import opened Numerics
  import opened Grid
  import opened Partitions

  /** C# `ushort`. */
  type ushort = x: int | 0 <= x <= 0xFFFF

  /** A region record: id, display name and the number of cells carrying its id. */
  datatype Region = Region(id: ushort, name: string, tileCount: int)

  /** The name GenerateRegions gives region i: `$"Регион {i}"`. */
  function RegionName(i: nat): string
  {
    "Регион " + NatToString(i)
  }

  /** Distinct regions get distinct generated names. */
  lemma RegionNamesDistinct(i: nat, j: nat)
    requires i != j
    ensures RegionName(i) != RegionName(j)
  {
    if RegionName(i) == RegionName(j) {
      assert NatToString(i) == RegionName(i)[7..];
      NatToStringInjective(i, j);
    }
  }

  /** The Select/Where pipeline of GetRegionMetadataInArea: look each id up and drop the ids with no entry. */
  function MetadataOf(ids: seq<ushort>, table: map<ushort, Region>): (rs: seq<Region>)
    ensures |rs| <= |ids|
    ensures forall r :: r in rs <==> exists k :: 0 <= k < |ids| && ids[k] in table && table[ids[k]] == r
  {
    if ids == [] then []
    else
      var rest := MetadataOf(ids[1..], table);
      assert forall k :: 1 <= k < |ids| ==> ids[k] == ids[1..][k - 1];
      if ids[0] in table then [table[ids[0]]] + rest else rest
  }

  /** Every region of a table whose entries carry their own key lands in the result exactly once per id. */
  lemma {:induction false} MetadataOfDistinct(ids: seq<ushort>, table: map<ushort, Region>)
    requires forall i, j :: 0 <= i < j < |ids| ==> ids[i] != ids[j]
    requires forall id :: id in table ==> table[id].id == id
    ensures forall i, j :: 0 <= i < j < |MetadataOf(ids, table)| ==> MetadataOf(ids, table)[i] != MetadataOf(ids, table)[j]
  {
    if ids != [] {
      MetadataOfDistinct(ids[1..], table);
      var rest := MetadataOf(ids[1..], table);
      if ids[0] in table {
        forall r | r in rest ensures r != table[ids[0]] {
          var k :| 0 <= k < |ids[1..]| && ids[1..][k] in table && table[ids[1..][k]] == r;
          assert ids[1..][k] == ids[k + 1];
          assert r.id == ids[k + 1] != ids[0] == table[ids[0]].id;
        }
        var rs := MetadataOf(ids, table);
        assert rs == [table[ids[0]]] + rest;
        forall i, j | 0 <= i < j < |rs| ensures rs[i] != rs[j] {
          assert rs[j] == rest[j - 1] && rs[j] in rest;
          if i > 0 {
            assert rs[i] == rest[i - 1];
          }
        }
      }
    }
  }

  /** `i++` on a C# `ushort` in an unchecked context: 65535 wraps to 0. */
  function NextUShort(i: ushort): (j: ushort)
    ensures i < 0xFFFF ==> j == i + 1
    ensures i == 0xFFFF ==> j == 0
  {
    (i + 1) % 0x1_0000
  }

  /**
   * The region-creation loop of GenerateRegions as written, `for (ushort i = start; i <= n; i++)`:
   * whether it leaves within `fuel` iterations.
   */
  predicate CreationLoopExits(i: ushort, n: int, fuel: nat)
    decreases fuel
  {
    if !(i <= n) then true
    else if fuel == 0 then false
    else CreationLoopExits(NextUShort(i), n, fuel - 1)
  }

  /** With a count of 65535 or more the `ushort` counter never exceeds the count, so the loop never ends. */
  lemma {:induction false} CreationLoopNeverExits(i: ushort, n: int, fuel: nat)
    requires n >= 0xFFFF
    ensures !CreationLoopExits(i, n, fuel)
    decreases fuel
  {
    if fuel > 0 {
      CreationLoopNeverExits(NextUShort(i), n, fuel - 1);
    }
  }

  /** Below 65535 the loop leaves after the n + 1 - start iterations intended. */
  lemma {:induction false} CreationLoopExitsBelow(i: ushort, n: int)
    requires 1 <= i <= n + 1 && n < 0xFFFF
    ensures CreationLoopExits(i, n, n + 1 - i)
    decreases n + 1 - i
  {
    if i <= n {
      CreationLoopExitsBelow(i + 1, n);
    }
  }

  class RegionLayer {
    const width: int
    const height: int
    /** `_regionIds`: the region id of cell (x, y) at index y * width + x; 0 means unassigned. */
    const regionIds: array<ushort>
    /** `_regions`. */
    var regions: map<ushort, Region>

    ghost predicate Valid()
      reads this
    {
      && width > 0 && height > 0 && regionIds.Length == width * height
      && forall id :: id in regions ==> regions[id].id == id
    }

    /** The id of every cell, in row-major order. */
    function Cells(): seq<ushort>
      reads regionIds
    {
      regionIds[..]
    }

    /** The id stored for an in-bounds cell. */
    function Cell(x: int, y: int): ushort
      reads this, regionIds
      requires Valid() && InBounds(width, height, x, y)
    {
      IndexInRange(width, height, x, y);
      regionIds[Index(width, x, y)]
    }

    /** The number of cells carrying the id. */
    function CountOf(id: int): nat
      reads regionIds
    {
      multiset(regionIds[..])[id]
    }

    /** The constructor for valid sizes: no regions, every cell 0. */
    constructor (width: int, height: int)
      requires width > 0 && height > 0
      ensures Valid() && fresh(regionIds)
      ensures this.width == width && this.height == height
      ensures Cells() == seq(width * height, _ => 0) && regions == map[]
    {
      this.width := width;
      this.height := height;
      this.regionIds := new ushort[width * height](_ => 0);
      this.regions := map[];
    }

    /** `new RegionLayer(width, height)`: ArgumentException for a non-positive size. */
    static method Create(width: int, height: int) returns (r: Result<RegionLayer>)
      ensures r.Failure? <==> width <= 0 || height <= 0
      ensures r.Failure? ==> r.error == Argument
      ensures r.Success? ==> fresh(r.value) && fresh(r.value.regionIds) && r.value.Valid()
      ensures r.Success? ==> r.value.width == width && r.value.height == height && r.value.regions == map[]
      ensures r.Success? ==> forall x, y :: InBounds(width, height, x, y) ==> r.value.Cell(x, y) == 0
    {
      if width <= 0 || height <= 0 {
        return Failure(Argument);
      }
      var layer := new RegionLayer(width, height);
      forall x, y | InBounds(width, height, x, y) ensures layer.Cell(x, y) == 0 {
        IndexInRange(width, height, x, y);
      }
      return Success(layer);
    }

    /** `GetRegionId`: ArgumentOutOfRangeException exactly outside the grid. */
    function GetRegionId(x: int, y: int): (r: Result<ushort>)
      reads this, regionIds
      requires Valid()
      ensures r.Failure? <==> !InBounds(width, height, x, y)
      ensures r.Failure? ==> r.error == ArgumentOutOfRange
      ensures r.Success? ==> r.value == Cell(x, y)
    {
      if !InBounds(width, height, x, y) then Failure(ArgumentOutOfRange) else Success(Cell(x, y))
    }

    /** `GetRegionIdSafe`: never fails; agrees with GetRegionId inside and is the default outside. */
    function GetRegionIdSafe(x: int, y: int, defaultValue: ushort := 0): (id: ushort)
      reads this, regionIds
      requires Valid()
      ensures GetRegionId(x, y).Success? ==> id == GetRegionId(x, y).value
      ensures GetRegionId(x, y).Failure? ==> id == defaultValue
    {
      if InBounds(width, height, x, y) then Cell(x, y) else defaultValue
    }

    /** `GetRegionMetadata`: the table entry, or null. */
    function GetRegionMetadata(id: ushort): (r: Option<Region>)
      reads this
      ensures r.Some? <==> id in regions
      ensures r.Some? ==> r.value == regions[id]
    {
      if id in regions then Some(regions[id]) else None
    }

    /** `TileBelongsToRegion`: false outside the grid, else whether the cell carries the id. */
    function TileBelongsToRegion(x: int, y: int, regionId: ushort): (b: bool)
      reads this, regionIds
      requires Valid()
      ensures b <==> GetRegionId(x, y) == Success(regionId)
    {
      if !InBounds(width, height, x, y) then false else Cell(x, y) == regionId
    }

    /** The id is stored in some cell of rectangle ∩ grid. */
    ghost predicate IdInArea(id: int, x: int, y: int, w: int, h: int)
      reads this, regionIds
      requires Valid()
    {
      exists px, py :: InBounds(width, height, px, py) && InRect(x, y, w, h, px, py) && Cell(px, py) == id
    }

    /** `GetRegionsInArea`: exactly the ids stored in rectangle ∩ grid. */
    method GetRegionsInArea(x: int, y: int, w: int, h: int) returns (ids: set<ushort>)
      requires Valid()
      ensures forall id :: id in ids <==> IdInArea(id, x, y, w, h)
    {
      ids := {};
      var x1, y1 := ClipLow(x), ClipLow(y);
      var x2, y2 := ClipHigh(width, x, w), ClipHigh(height, y, h);
      var cy := y1;
      while cy < y2
        invariant y1 <= cy <= Max(y1, y2)
        invariant forall id :: id in ids <==>
          exists px, py :: y1 <= py < cy && x1 <= px < x2 && Cell(px, py) == id
      {
        var rowStart := cy * width;
        var cx := x1;
        while cx < x2
          invariant x1 <= cx <= Max(x1, x2)
          invariant forall id :: id in ids <==>
            exists px, py :: ((y1 <= py < cy && x1 <= px < x2) || (py == cy && x1 <= px < cx)) && Cell(px, py) == id
        {
          IndexInRange(width, height, cx, cy);
          ids := ids + {regionIds[rowStart + cx]};
          assert Cell(cx, cy) == regionIds[rowStart + cx];
          cx := cx + 1;
        }
        cy := cy + 1;
      }
      forall id | IdInArea(id, x, y, w, h) ensures id in ids {
        var px, py :| InBounds(width, height, px, py) && InRect(x, y, w, h, px, py) && Cell(px, py) == id;
        ClipExact(width, height, x, y, w, h, px, py);
      }
      forall id | id in ids ensures IdInArea(id, x, y, w, h) {
        var px, py :| y1 <= py < y2 && x1 <= px < x2 && Cell(px, py) == id;
        ClipExact(width, height, x, y, w, h, px, py);
      }
    }

    /**
     * `GetRegionMetadataInArea`: the table entries of the ids in the area, ids without an entry dropped.
     * The ids are enumerated in an unspecified order, as a HashSet enumerates them.
     */
    method GetRegionMetadataInArea(x: int, y: int, w: int, h: int) returns (rs: seq<Region>)
      requires Valid()
      ensures forall r :: r in rs <==> exists id :: IdInArea(id, x, y, w, h) && id in regions && regions[id] == r
      ensures forall i, j :: 0 <= i < j < |rs| ==> rs[i] != rs[j]
    {
      var ids := GetRegionsInArea(x, y, w, h);
      var order: seq<ushort> := [];
      var rest := ids;
      while rest != {}
        invariant rest <= ids
        invariant forall id :: id in ids <==> id in rest || id in order
        invariant forall id :: id in order ==> id !in rest
        invariant forall i, j :: 0 <= i < j < |order| ==> order[i] != order[j]
        decreases rest
      {
        var id :| id in rest;
        order := order + [id];
        rest := rest - {id};
      }
      rs := MetadataOf(order, regions);
      MetadataOfDistinct(order, regions);
      forall r | r in rs ensures exists id :: IdInArea(id, x, y, w, h) && id in regions && regions[id] == r {
        var k :| 0 <= k < |order| && order[k] in regions && regions[order[k]] == r;
        assert order[k] in ids;
      }
      forall r | exists id :: IdInArea(id, x, y, w, h) && id in regions && regions[id] == r ensures r in rs {
        var id :| IdInArea(id, x, y, w, h) && id in regions && regions[id] == r;
        assert id in ids;
        var k :| 0 <= k < |order| && order[k] == id;
      }
    }

    /** `UpdateRegionTileCounts`: every region whose id occurs in the grid takes its number of cells. */
    method UpdateRegionTileCounts()
      requires Valid()
      modifies this
      ensures Valid()
      ensures regions.Keys == old(regions).Keys
      ensures forall id :: id in regions ==>
        regions[id] == old(regions)[id].(tileCount := if CountOf(id) > 0 then CountOf(id) else old(regions)[id].tileCount)
    {
      var counts: map<ushort, int> := map[];
      for i := 0 to regionIds.Length
        invariant forall id :: id in counts <==> multiset(regionIds[..i])[id] > 0
        invariant forall id :: id in counts ==> counts[id] == multiset(regionIds[..i])[id]
      {
        var id := regionIds[i];
        var c := if id in counts then counts[id] else 0;
        counts := counts[id := c + 1];
        assert regionIds[..i + 1] == regionIds[..i] + [id];
      }
      assert regionIds[..regionIds.Length] == regionIds[..];
      var rest := counts.Keys;
      while rest != {}
        invariant rest <= counts.Keys
        invariant regions.Keys == old(regions).Keys
        invariant forall id :: id in regions ==>
          regions[id] == old(regions)[id].(tileCount := if id in counts && id !in rest then counts[id] else old(regions)[id].tileCount)
        decreases rest
      {
        var id :| id in rest;
        if id in regions {
          regions := regions[id := regions[id].(tileCount := counts[id])];
        }
        rest := rest - {id};
      }
    }
    /**
     * `GenerateRegions`: ArgumentException for a non-positive count, before anything is cleared; otherwise
     * regions 1..n named "Регион i", and the cells cut in row-major order into the balanced partition.
     * The random source is never consulted, so the result depends on the sizes and the count alone.
     */
    method GenerateRegions(regionCount: int, seed: int) returns (r: Outcome)
      requires Valid()
      requires regionCount <= 0xFFFF
      modifies this, regionIds
      ensures Valid()
      ensures r.Fail? <==> regionCount <= 0
      ensures r.Fail? ==> r.error == Argument && regions == old(regions) && Cells() == old(Cells())
      ensures r.Pass? ==> Cells() == Partition(width * height, regionCount)
      ensures r.Pass? ==> forall i: ushort :: i in regions <==> 1 <= i <= regionCount
      ensures r.Pass? ==> forall i :: i in regions ==>
        regions[i] == Region(i, RegionName(i), Quota(width * height, regionCount, i))
    {
      if regionCount <= 0 {
        return Fail(Argument);
      }
      var n := regionCount;
      var total := width * height;
      ResetRegions(n);
      ClearCells();
      var regionTiles := QuotaTable(total, n);
      AssignCells(n, regionTiles);
      ghost var generated := regions;
      UpdateRegionTileCounts();
      forall m | m in regions
        ensures regions[m] == Region(m, RegionName(m), Quota(total, n, m))
      {
        assert generated[m] == Region(m, RegionName(m), 0);
        PartitionCount(total, n, m);
      }
      return Pass;
    }

    /** The first step of GenerateRegions: the table becomes regions 1..n with their names and no cells. */
    method ResetRegions(n: int)
      requires Valid() && 0 < n <= 0xFFFF
      modifies this
      ensures Valid()
      ensures forall j: ushort :: j in regions <==> 1 <= j <= n
      ensures forall j :: j in regions ==> regions[j] == Region(j, RegionName(j), 0)
    {
      regions := map[];
      var i := 1;
      while i <= n
        invariant 1 <= i <= n + 1
        invariant forall j: ushort :: j in regions <==> 1 <= j < i
        invariant forall j :: j in regions ==> regions[j] == Region(j, RegionName(j), 0)
      {
        regions := regions[i as ushort := Region(i as ushort, RegionName(i), 0)];
        i := i + 1;
      }
    }

    /** `Array.Clear(_regionIds)`: every cell back to 0. */
    method ClearCells()
      modifies regionIds
      ensures forall j :: 0 <= j < regionIds.Length ==> regionIds[j] == 0
    {
      for i := 0 to regionIds.Length
        invariant forall j :: 0 <= j < i ==> regionIds[j] == 0
      {
        regionIds[i] := 0;
      }
    }

    /** `regionTiles`: entry i holds the quota of region i. */
    static method QuotaTable(total: int, n: int) returns (regionTiles: array<int>)
      requires total >= 0 && n > 0
      ensures fresh(regionTiles) && regionTiles.Length == n + 1
      ensures forall m :: 1 <= m <= n ==> regionTiles[m] == Quota(total, n, m)
    {
      var baseTilesPerRegion := total / n;
      var extraTiles := total % n;
      regionTiles := new int[n + 1];
      for j := 1 to n + 1
        invariant forall m :: 1 <= m < j ==> regionTiles[m] == Quota(total, n, m)
      {
        regionTiles[j] := baseTilesPerRegion + (if j <= extraTiles then 1 else 0);
      }
    }

    /** The row-major sweep of GenerateRegions: each region takes its quota of consecutive cells. */
    method AssignCells(n: int, regionTiles: array<int>)
      requires Valid() && 0 < n <= 0xFFFF
      requires regionTiles.Length == n + 1
      requires forall m :: 1 <= m <= n ==> regionTiles[m] == Quota(width * height, n, m)
      modifies regionIds
      ensures Cells() == Partition(width * height, n)
    {
      var total := width * height;
      PartitionLength(total, n);
      SweepStart(total, n);
      var currentRegion := 1;
      var tilesInCurrentRegion := 0;
      for y := 0 to height
        invariant SweepState(total, n, y * width, currentRegion, tilesInCurrentRegion)
        invariant regionIds[..y * width] == Partition(total, n)[..y * width]
      {
        currentRegion, tilesInCurrentRegion := AssignRow(n, regionTiles, y, currentRegion, tilesInCurrentRegion);
      }
      assert regionIds[..] == regionIds[..height * width];
    }

    /** One row of the sweep: the cells of row y continue the partition from where the previous row left it. */
    method AssignRow(n: int, regionTiles: array<int>, y: int, c0: int, t0: int) returns (c: int, t: int)
      requires Valid() && 0 < n <= 0xFFFF && 0 <= y < height
      requires regionTiles.Length == n + 1
      requires forall m :: 1 <= m <= n ==> regionTiles[m] == Quota(width * height, n, m)
      requires SweepState(width * height, n, y * width, c0, t0)
      requires regionIds[..y * width] == Partition(width * height, n)[..y * width]
      modifies regionIds
      ensures SweepState(width * height, n, (y + 1) * width, c, t)
      ensures regionIds[..(y + 1) * width] == Partition(width * height, n)[..(y + 1) * width]
    {
      var total := width * height;
      PartitionLength(total, n);
      c, t := c0, t0;
      var rowStart := y * width;
      for x := 0 to width
        invariant SweepState(total, n, rowStart + x, c, t)
        invariant regionIds[..rowStart + x] == Partition(total, n)[..rowStart + x]
      {
        IndexInRange(width, height, x, y);
        var k := rowStart + x;
        SweepStep(total, n, k, c, t);
        regionIds[k] := c as ushort;
        assert regionIds[..k + 1] == regionIds[..k] + [regionIds[k]];
        assert Partition(total, n)[..k + 1] == Partition(total, n)[..k] + [Partition(total, n)[k]];
        t := t + 1;
        if t >= regionTiles[c] {
          c := c + 1;
          t := 0;
        }
      }
      assert (y + 1) * width == rowStart + width;
    }

    /** `SetRegionName`: renames a known region in place; an unknown id changes nothing. */
    method SetRegionName(regionId: ushort, name: string)
      requires Valid()
      modifies this
      ensures Valid()
      ensures regions == if regionId in old(regions) then old(regions)[regionId := old(regions)[regionId].(name := name)]
                         else old(regions)
      ensures Cells() == old(Cells())
    {
      if regionId in regions {
        regions := regions[regionId := regions[regionId].(name := name)];
      }
    }

    /** `GetMemoryUsage`: two bytes per cell plus a fixed 100 bytes per region. */
    function GetMemoryUsage(): (bytes: int)
      reads this
      requires Valid()
      ensures bytes == 2 * (width * height) + 100 * |regions|
    {
      regionIds.Length * 2 + |regions| * 100
    }
  }

  /** The estimate of the memory test: a 1000 × 1000 grid with 50 regions stays below 8 MiB. */
  lemma MemoryUsageBound(layer: RegionLayer)
    requires layer.Valid() && layer.width == 1000 && layer.height == 1000 && |layer.regions| == 50
    ensures layer.GetMemoryUsage() < 8 * 1024 * 1024
  {
  }
}
