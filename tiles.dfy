/** Terrain codes and their properties. */
module Tiles {
  import opened Numerics

  /** The terrain of one cell; Plain is the default value of a fresh grid. */
  datatype TileType = Plain | Mountain | Water

  /** `CanPlaceObject`: objects may stand only on plains. */
  predicate CanPlaceObject(t: TileType)
  {
    t == Plain
  }

  /** `MovementCost`: mountains are impassable (`int.MaxValue`), every other terrain costs 1. */
  function MovementCost(t: TileType): (c: int)
    ensures c == 1 || c == IntMaxValue
    ensures c == IntMaxValue <==> t == Mountain
  {
    match t
    case Plain => 1
    case Mountain => IntMaxValue
    case _ => 1
  }

  /** Every move costs at least one. */
  lemma MovementCostPositive(t: TileType)
    ensures MovementCost(t) >= 1
  {
  }

  /** A placeable tile is cheap to cross. */
  lemma PlaceableIsCheap(t: TileType)
    requires CanPlaceObject(t)
    ensures MovementCost(t) == 1
  {
  }
}
