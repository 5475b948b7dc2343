/** The corner-sampling collision classifier `Level::collisionDetection` (Level.cpp).
    The four tiles under a hitbox's corners are sampled (out-of-level tiles read as
    WALL); the pattern of solid corners and the sign of the horizontal velocity give
    a list of push directions, which is folded into contact flags and a correction. */
module Collisions {
  import opened Wrappers
  import opened Geometry
  import opened Tiles
  import opened Levels

  /** Push directions: DOWN pushes out of a ceiling, UP out of a floor,
      RIGHT away from a wall on the left, LEFT away from a wall on the right. */
  datatype Direction = Up | Down | Left | Right

  /** Which of the four sampled tiles collide. */
  datatype Corners = Corners(topLeft: bool, topRight: bool, bottomLeft: bool, bottomRight: bool)

  /** The result tuple `(grounded, touchingCeiling, touchingWall, touchingWallDirection, moveDelta)`;
      the direction is 1 for a wall on the right, -1 on the left, 0 for none. */
  datatype Contacts = Contacts(grounded: bool, touchingCeiling: bool, touchingWall: bool,
                               touchingWallDirection: int, moveDelta: Vec2)

  /** The early result when no sampled tile collides (note the direction -1). */
  const NoContact: Contacts := Contacts(false, false, false, -1, Zero)

  /** Start of the fold over the push list. */
  const Untouched: Contacts := Contacts(false, false, false, 0, Zero)

  /** The correction each push applies. They come from the remainder of the
      position divided by the tile size: `tileSize - rem(y)`, `-rem(y + height)`,
      `tileSize - rem(x)` and `-rem(x)`. */
  datatype Pushes = Pushes(down: real, up: real, right: real, left: real)

  /** True when `v` is a negative whole multiple of the tile size. */
  predicate NegativeMultiple(v: real, tileSize: int)
    requires tileSize > 0
  {
    v < 0.0 && v == v.Floor as real && v.Floor % tileSize == 0
  }

  /** The tile row or column of a hitbox coordinate, as the source computes it:
      truncate, divide toward zero, then step down one for a negative coordinate.
      This is the floor everywhere except at a negative whole multiple of the tile
      size, where it lands one tile too low. */
  function HitBoxTile(v: real, tileSize: int): (t: int)
    requires tileSize > 0
    ensures !NegativeMultiple(v, tileSize) ==> (t * tileSize) as real <= v < ((t + 1) * tileSize) as real
    ensures NegativeMultiple(v, tileSize) ==> ((t + 1) * tileSize) as real == v
  {
    var n := Trunc(v);
    var q := TDiv(n, tileSize);
    var t := q - (if v < 0.0 then 1 else 0);
    TileBracket(v, tileSize, n, q, t);
    t
  }

  /** The arithmetic behind HitBoxTile's contract. */
  lemma TileBracket(v: real, ts: int, n: int, q: int, t: int)
    requires ts > 0 && n == Trunc(v) && q == TDiv(n, ts) && t == q - (if v < 0.0 then 1 else 0)
    ensures !NegativeMultiple(v, ts) ==> (t * ts) as real <= v < ((t + 1) * ts) as real
    ensures NegativeMultiple(v, ts) ==> ((t + 1) * ts) as real == v
  {
    var lo, hi := t * ts, (t + 1) * ts;
    assert hi == lo + ts;
    if v < 0.0 {
      assert hi == q * ts;
      NegativeBracket(v, ts, n, lo, hi, t);
    } else {
      assert lo == q * ts;
      assert lo <= n < hi;
    }
  }

  /** The negative branch of TileBracket, over the bracketing multiples `lo < n <= hi`. */
  lemma NegativeBracket(v: real, ts: int, n: int, lo: int, hi: int, t: int)
    requires ts > 0 && v < 0.0 && n as real - 1.0 < v <= n as real
    requires lo == t * ts && hi == (t + 1) * ts && hi == lo + ts && lo < n <= hi
    ensures !NegativeMultiple(v, ts) ==> lo as real <= v < hi as real
    ensures NegativeMultiple(v, ts) ==> hi as real == v
  {
    if v == n as real {
      assert v.Floor == n;
      if n == hi {
        MultipleMod(t + 1, ts);
        assert NegativeMultiple(v, ts);
      } else {
        BetweenMultiplesMod(n, t, ts);
        assert !NegativeMultiple(v, ts);
        assert lo as real < v < hi as real;
      }
    } else {
      assert v.Floor == n - 1;
      assert v != v.Floor as real;
      assert !NegativeMultiple(v, ts);
      assert lo <= n - 1;
      assert lo as real <= v < hi as real;
    }
  }

  /** A multiple of `ts` leaves no remainder. */
  lemma MultipleMod(k: int, ts: int)
    requires ts > 0
    ensures (k * ts) % ts == 0
  {
    MulDiv(k, ts);
  }

  /** A number strictly between two consecutive multiples of `ts` leaves a remainder. */
  lemma BetweenMultiplesMod(n: int, k: int, ts: int)
    requires ts > 0 && k * ts < n < (k + 1) * ts
    ensures n % ts != 0
  {
    var q := n / ts;
    assert n == q * ts + n % ts;
    MulAwayFromZero(q - k, ts);
    MulAwayFromZero(q - k - 1, ts);
    assert (q - k) * ts == q * ts - k * ts;
    assert (q - k - 1) * ts == q * ts - (k + 1) * ts;
  }

  /** On a non-negative coordinate the source's tile is the floor quotient. */
  lemma HitBoxTileNonNegative(v: real, tileSize: int)
    requires tileSize > 0 && 0.0 <= v
    ensures HitBoxTile(v, tileSize) == v.Floor / tileSize
  {
    TDivNonNegative(v.Floor, tileSize);
  }

  /** The off-by-one: at every negative whole multiple of the tile size the hitbox
      starts in the floor tile, but the source samples from the tile one lower
      (at x = -16 with 16-pixel tiles, tile -2 instead of -1). */
  lemma HitBoxTileOffByOne(v: real, tileSize: int)
    requires tileSize > 0 && NegativeMultiple(v, tileSize)
    ensures HitBoxTile(v, tileSize) == v.Floor / tileSize - 1
    ensures (v.Floor / tileSize * tileSize) as real <= v < ((v.Floor / tileSize + 1) * tileSize) as real
  {
    var t, q := HitBoxTile(v, tileSize), v.Floor / tileSize;
    assert v.Floor == q * tileSize;
    assert (t + 1) * tileSize == q * tileSize;
    MulCancel(t + 1, q, tileSize);
  }

  lemma MulCancel(a: int, b: int, c: int)
    requires c > 0 && a * c == b * c
    ensures a == b
  {
    assert (a - b) * c == a * c - b * c;
  }

  /** The code of tile (x, y); a tile outside the level reads as WALL. */
  function CornerCode(l: Level, x: int, y: int): (c: int)
    requires Valid(l)
    ensures GetTileRaw(l, x, y).None? ==> c == Code(Wall)
    ensures GetTileRaw(l, x, y).Some? ==> c == l.levelData[y * Columns(l) + x]
  {
    GetTileRaw(l, x, y).GetOr(WallCode)
  }

  /** Every sampled tile holds one of the four tile codes (`isCollider` asserts otherwise). */
  predicate CornersDecodable(l: Level, tx: int, ty: int)
    requires Valid(l)
  {
    && Decode(CornerCode(l, tx, ty)).Some?
    && Decode(CornerCode(l, tx + 1, ty)).Some?
    && Decode(CornerCode(l, tx, ty + 1)).Some?
    && Decode(CornerCode(l, tx + 1, ty + 1)).Some?
  }

  /** A sampled tile is solid exactly when it lies outside the level or is not EMPTY. */
  predicate SolidTile(l: Level, x: int, y: int)
    requires Valid(l)
  {
    GetTileRaw(l, x, y).None? || GetTileRaw(l, x, y).value != Code(Empty)
  }

  /** Which of the tiles (tx, ty), (tx+1, ty), (tx, ty+1), (tx+1, ty+1) collide. */
  function SampleCorners(l: Level, tx: int, ty: int): (c: Corners)
    requires Valid(l) && CornersDecodable(l, tx, ty)
    ensures c.topLeft <==> SolidTile(l, tx, ty)
    ensures c.topRight <==> SolidTile(l, tx + 1, ty)
    ensures c.bottomLeft <==> SolidTile(l, tx, ty + 1)
    ensures c.bottomRight <==> SolidTile(l, tx + 1, ty + 1)
  {
    Corners(IsColliderCode(CornerCode(l, tx, ty)), IsColliderCode(CornerCode(l, tx + 1, ty)),
            IsColliderCode(CornerCode(l, tx, ty + 1)), IsColliderCode(CornerCode(l, tx + 1, ty + 1)))
  }

  predicate AnySolid(c: Corners)
  {
    c.topLeft || c.topRight || c.bottomLeft || c.bottomRight
  }

  /** The corners left over once every edge with two solid corners has been handled:
      the flags the source clears as it recognises flush ceilings, floors and walls. */
  function LoneCorners(c: Corners): (r: Corners)
    ensures r.topLeft <==> c.topLeft && !c.topRight && !c.bottomLeft
    ensures r.topRight <==> c.topRight && !c.topLeft && !c.bottomRight
    ensures r.bottomLeft <==> c.bottomLeft && !c.bottomRight && !c.topLeft
    ensures r.bottomRight <==> c.bottomRight && !c.bottomLeft && !c.topRight
  {
    var afterTop := if c.topLeft && c.topRight then c.(topLeft := false, topRight := false) else c;
    var afterBottom := if c.bottomLeft && c.bottomRight then afterTop.(bottomLeft := false, bottomRight := false) else afterTop;
    var afterLeft := if c.topLeft && c.bottomLeft then afterBottom.(topLeft := false, bottomLeft := false) else afterBottom;
    if c.topRight && c.bottomRight then afterLeft.(topRight := false, bottomRight := false) else afterLeft
  }

  /** The push list, in the order the source appends to it. `isRight` and `isDown`
      say whether the hitbox reaches into the next tile column or row. */
  function Moves(c: Corners, vx: real, isRight: bool, isDown: bool): seq<Direction>
  {
    var lone := LoneCorners(c);
    (if c.topLeft && c.topRight then [Down] else [])
    + (if c.bottomLeft && c.bottomRight && isDown then [Up] else [])
    + (if c.topLeft && c.bottomLeft then [Right] else [])
    + (if c.topRight && c.bottomRight && isRight then [Left] else [])
    + (if lone.topLeft then (if vx >= 0.0 then [Down] else [Right]) else [])
    + (if lone.topRight then (if vx <= 0.0 then [Down] else if isRight then [Left] else []) else [])
    + (if lone.bottomLeft then (if vx >= 0.0 then (if isDown then [Up] else [Right]) else []) else [])
    + (if lone.bottomRight then (if vx <= 0.0 then (if isDown then [Up] else if isRight then [Left] else []) else []) else [])
  }

  /** Decision table for a DOWN push: a flush ceiling, or a lone top corner met
      while moving away from its side or standing still. */
  predicate PushesDown(c: Corners, vx: real)
  {
    || (c.topLeft && c.topRight)
    || (c.topLeft && !c.topRight && !c.bottomLeft && vx >= 0.0)
    || (c.topRight && !c.topLeft && !c.bottomRight && vx <= 0.0)
  }

  /** Decision table for an UP push: the hitbox reaches into the row below, over a
      flush floor or a lone bottom corner not being moved away from. */
  predicate PushesUp(c: Corners, vx: real, isDown: bool)
  {
    isDown && (
      || (c.bottomLeft && c.bottomRight)
      || (c.bottomLeft && !c.bottomRight && !c.topLeft && vx >= 0.0)
      || (c.bottomRight && !c.bottomLeft && !c.topRight && vx <= 0.0))
  }

  /** Decision table for a RIGHT push (wall on the left). */
  predicate PushesRight(c: Corners, vx: real, isDown: bool)
  {
    || (c.topLeft && c.bottomLeft)
    || (c.topLeft && !c.topRight && !c.bottomLeft && vx < 0.0)
    || (c.bottomLeft && !c.bottomRight && !c.topLeft && vx >= 0.0 && !isDown)
  }

  /** Decision table for a LEFT push (wall on the right): only when the hitbox
      reaches into the column on the right. */
  predicate PushesLeft(c: Corners, vx: real, isRight: bool, isDown: bool)
  {
    isRight && (
      || (c.topRight && c.bottomRight)
      || (c.topRight && !c.topLeft && !c.bottomRight && vx > 0.0)
      || (c.bottomRight && !c.bottomLeft && !c.topRight && vx <= 0.0 && !isDown))
  }

  /** The push list contains each direction exactly when its decision table says so. */
  lemma MovesDecisionTable(c: Corners, vx: real, isRight: bool, isDown: bool)
    ensures Down in Moves(c, vx, isRight, isDown) <==> PushesDown(c, vx)
    ensures Up in Moves(c, vx, isRight, isDown) <==> PushesUp(c, vx, isDown)
    ensures Right in Moves(c, vx, isRight, isDown) <==> PushesRight(c, vx, isDown)
    ensures Left in Moves(c, vx, isRight, isDown) <==> PushesLeft(c, vx, isRight, isDown)
  {
    MovesDown(c, vx, isRight, isDown);
    MovesUp(c, vx, isRight, isDown);
    MovesRight(c, vx, isRight, isDown);
    MovesLeft(c, vx, isRight, isDown);
  }

  lemma MovesDown(c: Corners, vx: real, isRight: bool, isDown: bool)
    ensures Down in Moves(c, vx, isRight, isDown) <==> PushesDown(c, vx)
  {
  }

  lemma MovesUp(c: Corners, vx: real, isRight: bool, isDown: bool)
    ensures Up in Moves(c, vx, isRight, isDown) <==> PushesUp(c, vx, isDown)
  {
  }

  lemma MovesRight(c: Corners, vx: real, isRight: bool, isDown: bool)
    ensures Right in Moves(c, vx, isRight, isDown) <==> PushesRight(c, vx, isDown)
  {
  }

  lemma MovesLeft(c: Corners, vx: real, isRight: bool, isDown: bool)
    ensures Left in Moves(c, vx, isRight, isDown) <==> PushesLeft(c, vx, isRight, isDown)
  {
  }

  /** One step of the fold: a push sets its flag and its component of the correction. */
  function Apply(s: Contacts, d: Direction, p: Pushes): Contacts
  {
    match d
    case Down => s.(touchingCeiling := true, moveDelta := Vec2(s.moveDelta.x, p.down))
    case Up => s.(grounded := true, moveDelta := Vec2(s.moveDelta.x, p.up))
    case Right => s.(touchingWall := true, touchingWallDirection := -1, moveDelta := Vec2(p.right, s.moveDelta.y))
    case Left => s.(touchingWall := true, touchingWallDirection := 1, moveDelta := Vec2(p.left, s.moveDelta.y))
  }

  predicate Horizontal(d: Direction) { d.Left? || d.Right? }

  /** `k` is the last wall push (LEFT or RIGHT) in `moves`. */
  predicate LastHorizontal(moves: seq<Direction>, k: int)
  {
    0 <= k < |moves| && Horizontal(moves[k]) && forall j :: k < j < |moves| ==> !Horizontal(moves[j])
  }

  /** `k` is the last vertical push (UP or DOWN) in `moves`. */
  predicate LastVertical(moves: seq<Direction>, k: int)
  {
    0 <= k < |moves| && !Horizontal(moves[k]) && forall j :: k < j < |moves| ==> Horizontal(moves[j])
  }

  /** The loop over the push list, in order; later pushes overwrite earlier ones, so
      the last wall push decides the wall direction and the horizontal correction,
      and the last vertical push decides the vertical correction. */
  function FoldMoves(moves: seq<Direction>, p: Pushes): (r: Contacts)
    ensures r.touchingCeiling <==> Down in moves
    ensures r.grounded <==> Up in moves
    ensures r.touchingWall <==> Left in moves || Right in moves
    ensures -1 <= r.touchingWallDirection <= 1
    ensures r.touchingWallDirection == 0 <==> !(Left in moves || Right in moves)
    ensures r.touchingWallDirection == 1 ==> Left in moves
    ensures r.touchingWallDirection == -1 ==> Right in moves
    ensures r.moveDelta.x == (if r.touchingWallDirection == 1 then p.left
                              else if r.touchingWallDirection == -1 then p.right else 0.0)
    ensures !(Up in moves) ==> r.moveDelta.y == (if Down in moves then p.down else 0.0)
    ensures !(Down in moves) ==> r.moveDelta.y == (if Up in moves then p.up else 0.0)
    ensures Down in moves || Up in moves ==> r.moveDelta.y == p.down || r.moveDelta.y == p.up
    ensures forall k :: LastHorizontal(moves, k) ==>
      && r.touchingWallDirection == (if moves[k].Left? then 1 else -1)
      && r.moveDelta.x == (if moves[k].Left? then p.left else p.right)
    ensures forall k :: LastVertical(moves, k) ==>
      r.moveDelta.y == (if moves[k].Down? then p.down else p.up)
  {
    if |moves| == 0 then Untouched
    else
      var pre := moves[..|moves| - 1];
      assert moves == pre + [moves[|moves| - 1]];
      assert forall k :: LastHorizontal(moves, k) && k < |moves| - 1 ==> LastHorizontal(pre, k);
      assert forall k :: LastVertical(moves, k) && k < |moves| - 1 ==> LastVertical(pre, k);
      Apply(FoldMoves(pre, p), moves[|moves| - 1], p)
  }

  /** Walls on both sides: with all four corners solid and the hitbox reaching into
      the right column, the LEFT push comes last, so the wall direction is 1 whatever
      the horizontal velocity, even for a player moving left. */
  lemma BothWallsIgnoreVelocity(vx: real, isDown: bool, p: Pushes)
    ensures var r := FoldMoves(Moves(Corners(true, true, true, true), vx, true, isDown), p);
      r.touchingWall && r.touchingWallDirection == 1 && r.moveDelta.x == p.left
  {
    var moves := Moves(Corners(true, true, true, true), vx, true, isDown);
    assert moves == [Down] + (if isDown then [Up] else []) + [Right, Left];
    assert LastHorizontal(moves, |moves| - 1);
  }

  /** Whether the hitbox reaches past the right edge of its tile column. */
  predicate SpansRight(hitBox: Rect, tileSize: int)
    requires tileSize > 0
  {
    TMod(Trunc(hitBox.x), tileSize) as real + hitBox.width > tileSize as real
  }

  /** Whether the hitbox reaches past the bottom edge of its tile row. */
  predicate SpansDown(hitBox: Rect, tileSize: int)
    requires tileSize > 0
  {
    TMod(Trunc(hitBox.y), tileSize) as real + hitBox.height > tileSize as real
  }

  /** The corrections for a hitbox, given the remainder part of the source's `divide`. */
  function PushesFor(hitBox: Rect, tileSize: int, remainder: real -> real): (r: Pushes)
    ensures 0.0 <= remainder(hitBox.y) < tileSize as real ==> 0.0 < r.down <= tileSize as real
    ensures 0.0 <= remainder(hitBox.y + hitBox.height) < tileSize as real ==> -(tileSize as real) < r.up <= 0.0
    ensures 0.0 <= remainder(hitBox.x) < tileSize as real ==>
      0.0 < r.right <= tileSize as real && -(tileSize as real) < r.left <= 0.0
  {
    Pushes(tileSize as real - remainder(hitBox.y), -remainder(hitBox.y + hitBox.height),
           tileSize as real - remainder(hitBox.x), -remainder(hitBox.x))
  }

  /** The final grounded probe: with the correction applied, the hitbox's bottom is
      within a pixel of (or below) the top of its tile row, and a solid bottom corner
      lies on the hitbox's side of the boundary between the two sampled columns. */
  predicate GroundProbe(hitBox: Rect, c: Corners, tx: int, ty: int, tileSize: int, delta: Vec2)
  {
    var groundLevel := (ty * tileSize) as real;
    var groundCenter := ((tx + 1) * tileSize) as real;
    var movedBottom := hitBox.y + hitBox.height + delta.y;
    var movedLeft := hitBox.x + delta.x;
    var movedRight := hitBox.x + hitBox.width + delta.x;
    movedBottom + 1.0 >= groundLevel
      && ((c.bottomLeft && movedLeft < groundCenter) || (c.bottomRight && movedRight >= groundCenter))
  }

  /** The hitbox's sampled tile column and row. */
  function HitBoxTiles(l: Level, hitBox: Rect): (int, int)
    requires Valid(l)
  {
    (HitBoxTile(hitBox.x, l.tileSize), HitBoxTile(hitBox.y, l.tileSize))
  }

  /** What `collisionDetection` demands: a hitbox smaller than a tile in both
      dimensions, over sampled tiles holding valid codes. */
  predicate CanDetect(l: Level, hitBox: Rect)
  {
    && Valid(l)
    && hitBox.width < l.tileSize as real && hitBox.height < l.tileSize as real
    && CornersDecodable(l, HitBoxTiles(l, hitBox).0, HitBoxTiles(l, hitBox).1)
  }

  /** The solid-corner pattern under a hitbox. */
  function CornersOf(l: Level, hitBox: Rect): Corners
    requires CanDetect(l, hitBox)
  {
    SampleCorners(l, HitBoxTiles(l, hitBox).0, HitBoxTiles(l, hitBox).1)
  }

  /** The push list for a hitbox moving with `velocity`. */
  function MovesOf(l: Level, hitBox: Rect, velocity: Vec2): seq<Direction>
    requires CanDetect(l, hitBox)
  {
    Moves(CornersOf(l, hitBox), velocity.x, SpansRight(hitBox, l.tileSize), SpansDown(hitBox, l.tileSize))
  }

  /** `collisionDetection`. `remainder` stands for the second component of the
      `divide(value, tileSize)` helper, which is not part of this model. */
  function CollisionDetection(l: Level, hitBox: Rect, velocity: Vec2, remainder: real -> real): (r: Contacts)
    requires CanDetect(l, hitBox)
    ensures !AnySolid(CornersOf(l, hitBox)) ==> r == NoContact
    ensures AnySolid(CornersOf(l, hitBox)) ==>
      && -1 <= r.touchingWallDirection <= 1
      && (r.touchingWall <==> r.touchingWallDirection != 0)
      && (r.moveDelta.x != 0.0 ==> r.touchingWall)
      && (r.moveDelta.y != 0.0 ==> Down in MovesOf(l, hitBox, velocity) || Up in MovesOf(l, hitBox, velocity))
    ensures r.touchingCeiling <==> Down in MovesOf(l, hitBox, velocity)
    ensures forall k :: LastHorizontal(MovesOf(l, hitBox, velocity), k) ==>
      var d := MovesOf(l, hitBox, velocity)[k];
      && r.touchingWallDirection == (if d.Left? then 1 else -1)
      && r.moveDelta.x == (if d.Left? then PushesFor(hitBox, l.tileSize, remainder).left
                           else PushesFor(hitBox, l.tileSize, remainder).right)
    ensures forall k :: LastVertical(MovesOf(l, hitBox, velocity), k) ==>
      r.moveDelta.y == (if MovesOf(l, hitBox, velocity)[k].Down? then PushesFor(hitBox, l.tileSize, remainder).down
                        else PushesFor(hitBox, l.tileSize, remainder).up)
    ensures r.touchingWall <==> Left in MovesOf(l, hitBox, velocity) || Right in MovesOf(l, hitBox, velocity)
    ensures r.grounded <==>
      || Up in MovesOf(l, hitBox, velocity)
      || (AnySolid(CornersOf(l, hitBox)) &&
          GroundProbe(hitBox, CornersOf(l, hitBox), HitBoxTiles(l, hitBox).0, HitBoxTiles(l, hitBox).1,
                      l.tileSize, r.moveDelta))
  {
    var (tx, ty) := HitBoxTiles(l, hitBox);
    var c := SampleCorners(l, tx, ty);
    if !AnySolid(c) then NoContact
    else
      var moves := Moves(c, velocity.x, SpansRight(hitBox, l.tileSize), SpansDown(hitBox, l.tileSize));
      var f := FoldMoves(moves, PushesFor(hitBox, l.tileSize, remainder));
      f.(grounded := f.grounded || GroundProbe(hitBox, c, tx, ty, l.tileSize, f.moveDelta))
  }

  /** Grounded needs a floor: a hitbox is only ever reported grounded over a solid
      bottom corner, whether by an UP push or by the final probe. */
  lemma GroundedNeedsFloor(l: Level, hitBox: Rect, velocity: Vec2, remainder: real -> real)
    requires CanDetect(l, hitBox)
    ensures CollisionDetection(l, hitBox, velocity, remainder).grounded ==>
      CornersOf(l, hitBox).bottomLeft || CornersOf(l, hitBox).bottomRight
  {
    MovesUp(CornersOf(l, hitBox), velocity.x, SpansRight(hitBox, l.tileSize), SpansDown(hitBox, l.tileSize));
  }

  /** Each corner tile outside the level counts as solid. */
  lemma OutOfLevelIsSolid(l: Level, hitBox: Rect)
    requires CanDetect(l, hitBox)
    ensures var (tx, ty) := HitBoxTiles(l, hitBox);
      && (GetTileRaw(l, tx, ty).None? ==> CornersOf(l, hitBox).topLeft)
      && (GetTileRaw(l, tx + 1, ty).None? ==> CornersOf(l, hitBox).topRight)
      && (GetTileRaw(l, tx, ty + 1).None? ==> CornersOf(l, hitBox).bottomLeft)
      && (GetTileRaw(l, tx + 1, ty + 1).None? ==> CornersOf(l, hitBox).bottomRight)
  {
  }

  /** Two solid top corners always report a ceiling. */
  lemma FlushCeiling(l: Level, hitBox: Rect, velocity: Vec2, remainder: real -> real)
    requires CanDetect(l, hitBox)
    requires CornersOf(l, hitBox).topLeft && CornersOf(l, hitBox).topRight
    ensures CollisionDetection(l, hitBox, velocity, remainder).touchingCeiling
  {
    MovesDecisionTable(CornersOf(l, hitBox), velocity.x, SpansRight(hitBox, l.tileSize), SpansDown(hitBox, l.tileSize));
  }

  /** Two solid left corners always report a wall. */
  lemma FlushLeftWall(l: Level, hitBox: Rect, velocity: Vec2, remainder: real -> real)
    requires CanDetect(l, hitBox)
    requires CornersOf(l, hitBox).topLeft && CornersOf(l, hitBox).bottomLeft
    ensures CollisionDetection(l, hitBox, velocity, remainder).touchingWall
  {
    MovesDecisionTable(CornersOf(l, hitBox), velocity.x, SpansRight(hitBox, l.tileSize), SpansDown(hitBox, l.tileSize));
  }

  /** A lone solid top-left corner is resolved by the horizontal velocity: moving right
      or standing still it is a ceiling (push DOWN), moving left it is a wall on the
      left (push RIGHT). */
  lemma LoneTopLeftCorner(l: Level, hitBox: Rect, velocity: Vec2, remainder: real -> real)
    requires CanDetect(l, hitBox)
    requires CornersOf(l, hitBox) == Corners(true, false, false, false)
    ensures var r := CollisionDetection(l, hitBox, velocity, remainder);
      && (velocity.x >= 0.0 ==>
            r.touchingCeiling && !r.touchingWall && r.touchingWallDirection == 0
            && r.moveDelta == Vec2(0.0, l.tileSize as real - remainder(hitBox.y)))
      && (velocity.x < 0.0 ==>
            !r.touchingCeiling && r.touchingWall && r.touchingWallDirection == -1
            && r.moveDelta == Vec2(l.tileSize as real - remainder(hitBox.x), 0.0))
      && !r.grounded
  {
    var c := CornersOf(l, hitBox);
    var moves := MovesOf(l, hitBox, velocity);
    if velocity.x >= 0.0 {
      assert moves == [Down];
    } else {
      assert moves == [Right];
    }
  }
}
