/** Tile codes of the level grid and their collision classification (Level.h). */
module Tiles {
  import opened Wrappers

  /** The four tile kinds a level grid may contain. */
  datatype TileType = Empty | Wall | Lava | InvisibleWall

  /** The integer code a tile kind is stored under in the grid. */
  function Code(t: TileType): int
  {
    match t
    case Empty => 0
    case Wall => 1
    case Lava => 2
    case InvisibleWall => 3
  }

  /** The code out-of-level lookups default to (`value_or(TileType::WALL)`). */
  const WallCode: int := 1

  /** The tile kind a raw grid code names; None for a code outside the enumeration. */
  function Decode(c: int): (r: Option<TileType>)
    ensures r.Some? <==> 0 <= c <= 3
    ensures r.Some? ==> Code(r.value) == c
  {
    if c == 0 then Some(Empty)
    else if c == 1 then Some(Wall)
    else if c == 2 then Some(Lava)
    else if c == 3 then Some(InvisibleWall)
    else None
  }

  /** Decoding inverts encoding: every tile kind has exactly one code. */
  lemma DecodeCode(t: TileType)
    ensures Decode(Code(t)) == Some(t)
  {
  }

  /** True for tiles that block movement. */
  predicate IsCollider(t: TileType)
  {
    match t
    case Empty => false
    case Wall => true
    case Lava => true
    case InvisibleWall => true
  }

  /** `isCollider` applied to a raw grid code. The source asserts on any code
      outside the enumeration, so the function is defined on codes 0..3 only. */
  function IsColliderCode(c: int): (r: bool)
    requires Decode(c).Some?
    ensures r <==> c != Code(Empty)
  {
    IsCollider(Decode(c).value)
  }

  /** The classification: only EMPTY lets a hitbox through; LAVA and
      INVISIBLE_WALL collide exactly like WALL. */
  lemma ColliderClassification(t: TileType)
    ensures !IsCollider(Empty)
    ensures IsCollider(t) <==> t == Wall || t == Lava || t == InvisibleWall
  {
  }
}
