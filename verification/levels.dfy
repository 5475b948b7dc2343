/** The level's tile grid and collectible bookkeeping (Level.cpp, Level.h). */
module Levels {
  import opened Wrappers
  import opened Geometry
  import Collectibles

  /** The collision-relevant state of a loaded level. `levelData` holds one raw
      int8 tile code per tile, row-major, top-left tile first, bottom-right last. */
  datatype Level = Level(
    tileSize: int,
    levelWidth: int,
    levelHeight: int,
    levelData: seq<int>,
    collectibles: seq<Collectibles.Collectible>,
    playerStartPosition: Vec2)

  /** Tiles per row. */
  function Columns(l: Level): int
    requires l.tileSize > 0
  {
    l.levelWidth / l.tileSize
  }

  /** Tiles per column. */
  function Rows(l: Level): int
    requires l.tileSize > 0
  {
    l.levelHeight / l.tileSize
  }

  /** C++ `static_cast<int8_t>`: wraps an int into [-128, 128). */
  function Int8(v: int): (r: int)
    ensures -128 <= r < 128
    ensures (v - r) % 256 == 0
    ensures -128 <= v < 128 ==> r == v
  {
    (v + 128) % 256 - 128
  }

  /** What `load` establishes: a positive tile size, level dimensions that are
      multiples of it, and exactly one int8 code per tile. */
  predicate Valid(l: Level)
  {
    && l.tileSize > 0
    && 0 <= l.levelWidth && 0 <= l.levelHeight
    && l.levelWidth % l.tileSize == 0 && l.levelHeight % l.tileSize == 0
    && |l.levelData| == Columns(l) * Rows(l)
    && forall i :: 0 <= i < |l.levelData| ==> -128 <= l.levelData[i] < 128
  }

  /** The grid part of `load`: asserts that both dimensions are multiples of the
      tile size (None models the failed assertion), sizes the grid to one entry
      per tile, stores each CSV value as an int8, and places one collectible per
      collectible entity. */
  function LoadGrid(tileSize: int, levelWidth: int, levelHeight: int, csv: seq<int>,
                    collectiblePositions: seq<Vec2>, playerStart: Vec2): (r: Option<Level>)
    requires tileSize > 0 && 0 <= levelWidth && 0 <= levelHeight
    requires |csv| >= (levelWidth / tileSize) * (levelHeight / tileSize)
    ensures r.Some? <==> TMod(levelWidth, tileSize) == 0 && TMod(levelHeight, tileSize) == 0
    ensures r.Some? ==> Valid(r.value)
    ensures r.Some? ==> r.value.tileSize == tileSize && r.value.levelWidth == levelWidth
                        && r.value.levelHeight == levelHeight
    ensures r.Some? ==> |r.value.levelData| == (levelWidth / tileSize) * (levelHeight / tileSize)
    ensures r.Some? ==> forall i :: 0 <= i < |r.value.levelData| ==> r.value.levelData[i] == Int8(csv[i])
    ensures r.Some? ==> |r.value.collectibles| == |collectiblePositions|
    ensures r.Some? ==> forall i :: 0 <= i < |r.value.collectibles| ==>
      !r.value.collectibles[i].collected && !r.value.collectibles[i].forHud
    ensures r.Some? ==> forall i :: 0 <= i < |collectiblePositions| ==>
      r.value.collectibles[i] == Collectibles.Spawn(collectiblePositions[i])
  {
    TDivNonNegative(levelWidth, tileSize);
    TDivNonNegative(levelHeight, tileSize);
    if TMod(levelWidth, tileSize) != 0 || TMod(levelHeight, tileSize) != 0 then None
    else
      var cols, rows := levelWidth / tileSize, levelHeight / tileSize;
      NaturalProduct(cols, rows);
      var l := Level(tileSize, levelWidth, levelHeight, Narrow(csv[..cols * rows]),
                     SpawnAll(collectiblePositions), playerStart);
      assert Columns(l) == cols && Rows(l) == rows;
      Some(l)
  }

  /** A freshly loaded level has no collected HUD collectible. */
  lemma LoadGridHudFree(tileSize: int, levelWidth: int, levelHeight: int, csv: seq<int>,
                        collectiblePositions: seq<Vec2>, playerStart: Vec2)
    requires tileSize > 0 && 0 <= levelWidth && 0 <= levelHeight
    requires |csv| >= (levelWidth / tileSize) * (levelHeight / tileSize)
    ensures var r := LoadGrid(tileSize, levelWidth, levelHeight, csv, collectiblePositions, playerStart);
      r.Some? ==> Collectibles.HudNeverCollected(r.value.collectibles)
  {
  }

  /** The product of two naturals is a natural. */
  lemma NaturalProduct(a: int, b: int)
    requires 0 <= a && 0 <= b
    ensures 0 <= a * b
  {
  }

  /** Every CSV value stored as an int8, in order. */
  function Narrow(values: seq<int>): (r: seq<int>)
    ensures |r| == |values|
    ensures forall i :: 0 <= i < |r| ==> r[i] == Int8(values[i]) && -128 <= r[i] < 128
  {
    seq(|values|, i requires 0 <= i < |values| => Int8(values[i]))
  }

  /** One fresh collectible per collectible position, in order. */
  function SpawnAll(positions: seq<Vec2>): (r: seq<Collectibles.Collectible>)
    ensures |r| == |positions|
    ensures forall i :: 0 <= i < |r| ==> r[i] == Collectibles.Spawn(positions[i])
  {
    seq(|positions|, i requires 0 <= i < |positions| => Collectibles.Spawn(positions[i]))
  }

  /** `x * tileSize < width` says exactly that column `x` is inside the grid. */
  lemma ScaledBound(x: int, ts: int, w: int)
    requires ts > 0 && 0 <= w && w % ts == 0 && 0 <= x
    ensures x * ts < w <==> x < w / ts
  {
    var c := w / ts;
    assert w == c * ts;
    if x < c {
      assert x * ts <= (c - 1) * ts;
    } else {
      assert x * ts >= c * ts;
    }
  }

  /** Row `y` starts at `y * width / tileSize`, which is `y` whole rows. */
  lemma RowStart(y: int, ts: int, w: int)
    requires ts > 0 && 0 <= w && w % ts == 0 && 0 <= y
    ensures TDiv(y * w, ts) == y * (w / ts)
  {
    var c := w / ts;
    assert y * w == (y * c) * ts;
    TDivNonNegative(y * w, ts);
    MulDiv(y * c, ts);
  }

  /** Dividing a multiple of `b` by `b` gives the factor back. */
  lemma MulDiv(a: int, b: int)
    requires b > 0
    ensures (a * b) / b == a
  {
    var q, r := (a * b) / b, (a * b) % b;
    assert a * b == q * b + r;
    assert (a - q) * b == r;
    MulAwayFromZero(a - q, b);
  }

  /** A non-zero multiple of a positive `b` is at least `b` away from zero. */
  lemma MulAwayFromZero(k: int, b: int)
    requires b > 0
    ensures k >= 1 ==> k * b >= b
    ensures k <= -1 ==> k * b <= -b
  {
    if k >= 1 {
      assert k * b == (k - 1) * b + b;
    } else if k <= -1 {
      assert k * b == (k + 1) * b - b;
    }
  }

  /** A tile coordinate inside the grid has a row-major index inside `levelData`. */
  lemma IndexInGrid(x: int, y: int, cols: int, rows: int)
    requires 0 <= x < cols && 0 <= y < rows
    ensures 0 <= y * cols + x < cols * rows
  {
    assert y * cols + x < (y + 1) * cols;
    assert (y + 1) * cols <= rows * cols;
  }

  /** `getTileRaw`: the raw code of tile (x, y), or None outside the level. */
  function GetTileRaw(l: Level, x: int, y: int): (r: Option<int>)
    requires Valid(l)
    ensures r.None? <==> x < 0 || y < 0 || x * l.tileSize >= l.levelWidth || y * l.tileSize >= l.levelHeight
    ensures r.Some? <==> 0 <= x < Columns(l) && 0 <= y < Rows(l)
    ensures r.Some? ==> 0 <= y * Columns(l) + x < |l.levelData| && r.value == l.levelData[y * Columns(l) + x]
  {
    if x < 0 then None
    else if y < 0 then None
    else
      ScaledBound(x, l.tileSize, l.levelWidth);
      ScaledBound(y, l.tileSize, l.levelHeight);
      if x * l.tileSize >= l.levelWidth then None
      else if y * l.tileSize >= l.levelHeight then None
      else
        RowStart(y, l.tileSize, l.levelWidth);
        IndexInGrid(x, y, Columns(l), Rows(l));
        var index := TDiv(y * l.levelWidth, l.tileSize) + x;
        Some(l.levelData[index])
  }

  /** The grid is row-major: entry `i` is tile (i mod columns, i div columns). */
  lemma RowMajor(l: Level, i: int)
    requires Valid(l) && 0 <= i < |l.levelData|
    ensures Columns(l) > 0
    ensures GetTileRaw(l, i % Columns(l), i / Columns(l)) == Some(l.levelData[i])
  {
    var c, rows := Columns(l), Rows(l);
    PositiveFactors(c, rows);
    var x, y := i % c, i / c;
    assert i == y * c + x;
    DivAtLeast(i, c, rows);
    assert rows * c == c * rows;
    assert 0 <= x < c && 0 <= y < rows;
  }

  /** Both factors of a positive product of naturals are positive. */
  lemma PositiveFactors(a: int, b: int)
    requires 0 <= a && 0 <= b && a * b > 0
    ensures a > 0 && b > 0
  {
  }

  /** The first entry is the top-left tile and the last entry the bottom-right tile. */
  lemma GridCorners(l: Level)
    requires Valid(l) && |l.levelData| > 0
    ensures Columns(l) > 0 && Rows(l) > 0
    ensures GetTileRaw(l, 0, 0) == Some(l.levelData[0])
    ensures GetTileRaw(l, Columns(l) - 1, Rows(l) - 1) == Some(l.levelData[|l.levelData| - 1])
  {
    RowMajor(l, 0);
    var c, r := Columns(l), Rows(l);
    assert (r - 1) * c + (c - 1) == c * r - 1;
  }

  /** Floor division by a positive size compared with a whole number of tiles. */
  lemma DivAtLeast(n: int, ts: int, c: int)
    requires 0 <= n && ts > 0
    ensures n / ts >= c <==> n >= c * ts
  {
    assert n == (n / ts) * ts + n % ts;
    if n / ts >= c {
      assert (n / ts) * ts >= c * ts;
    } else {
      assert (n / ts) * ts <= (c - 1) * ts;
    }
  }

  /** A world coordinate inside [0, extent) falls in a tile inside the grid. */
  lemma WorldAxis(v: real, ts: int, extent: int)
    requires 0.0 <= v && ts > 0 && 0 <= extent && extent % ts == 0
    ensures Trunc(v) == v.Floor
    ensures TDiv(Trunc(v), ts) == v.Floor / ts
    ensures TDiv(Trunc(v), ts) * ts >= extent <==> v >= extent as real
  {
    TDivNonNegative(v.Floor, ts);
    DivAtLeast(v.Floor, ts, extent / ts);
    assert (extent / ts) * ts == extent;
    ScaledBound(v.Floor / ts, ts, extent);
  }

  /** `getTileWorld`: the tile under a world position; None for a negative coordinate
      or a position beyond the level. */
  function GetTileWorld(l: Level, p: Vec2): (r: Option<int>)
    requires Valid(l)
    ensures r.Some? <==> 0.0 <= p.x < l.levelWidth as real && 0.0 <= p.y < l.levelHeight as real
    ensures 0.0 <= p.x && 0.0 <= p.y ==> r == GetTileRaw(l, p.x.Floor / l.tileSize, p.y.Floor / l.tileSize)
  {
    if p.x < 0.0 || p.y < 0.0 then None
    else
      WorldAxis(p.x, l.tileSize, l.levelWidth);
      WorldAxis(p.y, l.tileSize, l.levelHeight);
      GetTileRaw(l, TDiv(Trunc(p.x), l.tileSize), TDiv(Trunc(p.y), l.tileSize))
  }

  /** Number of collected collectibles. */
  function CollectedCount(cs: seq<Collectibles.Collectible>): (n: nat)
    ensures n <= |cs|
  {
    if |cs| == 0 then 0
    else CollectedCount(cs[..|cs| - 1]) + (if cs[|cs| - 1].collected then 1 else 0)
  }

  /** Number of collectibles that count towards the level total (not for the HUD). */
  function AvailableCount(cs: seq<Collectibles.Collectible>): (n: nat)
    ensures n <= |cs|
  {
    if |cs| == 0 then 0
    else AvailableCount(cs[..|cs| - 1]) + (if cs[|cs| - 1].forHud then 0 else 1)
  }

  /** With no HUD collectible collected, at most all available collectibles are collected. */
  lemma {:induction false} CollectedAtMostAvailable(cs: seq<Collectibles.Collectible>)
    requires Collectibles.HudNeverCollected(cs)
    ensures CollectedCount(cs) <= AvailableCount(cs)
  {
    if |cs| > 0 {
      var pre := cs[..|cs| - 1];
      assert Collectibles.HudNeverCollected(pre) by {
        forall i | 0 <= i < |pre| ensures pre[i].forHud ==> !pre[i].collected {
          assert pre[i] == cs[i];
        }
      }
      CollectedAtMostAvailable(pre);
      assert cs[|cs| - 1].forHud ==> !cs[|cs| - 1].collected;
    }
  }

  /** `getCollectibleStats` as written: one pass counting collected and non-HUD collectibles. */
  method GetCollectibleStats(l: Level) returns (collectedCount: int, totalCount: int)
    ensures collectedCount == CollectedCount(l.collectibles)
    ensures totalCount == AvailableCount(l.collectibles)
    ensures 0 <= collectedCount <= |l.collectibles| && 0 <= totalCount <= |l.collectibles|
  {
    var cs := l.collectibles;
    collectedCount, totalCount := 0, 0;
    var i := 0;
    while i < |cs|
      invariant 0 <= i <= |cs|
      invariant collectedCount == CollectedCount(cs[..i])
      invariant totalCount == AvailableCount(cs[..i])
    {
      assert cs[..i + 1][..i] == cs[..i];
      if cs[i].collected {
        collectedCount := collectedCount + 1;
      }
      if !cs[i].forHud {
        totalCount := totalCount + 1;
      }
      i := i + 1;
    }
    assert cs[..i] == cs;
  }

  /** The collectible part of `Level::update`: every collectible runs its own update. */
  function UpdateCollectibles(l: Level, prefab: Collectibles.Prefab, levelTimeDelta: real,
                              playerPosition: Vec2): (r: Level)
    requires (forall i :: 0 <= i < |l.collectibles| ==> l.collectibles[i].collected) || Collectibles.Ready(prefab)
    ensures r == l.(collectibles := r.collectibles)
    ensures |r.collectibles| == |l.collectibles|
    ensures forall i :: 0 <= i < |l.collectibles| ==>
      r.collectibles[i] == Collectibles.Update(l.collectibles[i], prefab, levelTimeDelta, playerPosition)
    ensures forall i :: 0 <= i < |l.collectibles| ==> l.collectibles[i].collected ==> r.collectibles[i].collected
    ensures Collectibles.HudNeverCollected(l.collectibles) ==> Collectibles.HudNeverCollected(r.collectibles)
  {
    var cs := l.collectibles;
    l.(collectibles := seq(|cs|, i requires 0 <= i < |cs| =>
                             Collectibles.Update(cs[i], prefab, levelTimeDelta, playerPosition)))
  }
}
