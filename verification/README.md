# Verified model of the BialJam2023 platformer core

This project models the game logic of a small raylib platformer. Rendering,
audio and device input are stripped away. What remains is written as immutable
records and pure functions over exact reals and unbounded integers, with
contracts and lemmas that state what the C++ code promises:

- **Tiles** (`Level.h`): the four tile codes and the `isCollider` classification.
- **Levels** (`Level.cpp`): the grid loaded from the level's CSV, with the
  size asserts and the `int8_t` narrowing; the bounds-checked row-major
  `getTileRaw`; `getTileWorld`; the per-frame collectible update; and the
  `getCollectibleStats` count.
- **Collisions** (`Level.cpp`): `collisionDetection`. It samples the four tiles
  under a hitbox's corners, with out-of-level tiles reading as `WALL`. It turns
  the solid-corner pattern and the sign of the horizontal velocity into a list of
  push directions, then folds that list into `(grounded, touchingCeiling,
  touchingWall, touchingWallDirection, moveDelta)`, followed by the ground probe.
- **Animations** (`Animation.cpp`): the parallel frame lists built by `load`,
  and `spriteForTime`. The latter wraps the time by whole animation lengths and
  picks the first frame whose cumulative delay exceeds it.
- **Scenes** (`Scene.cpp`, `Scene.h`): the scene lists, the clock advance, the
  sprites drawn per frame, `startScene` and `areAnimationsFinished`.
- **Collectibles** (`Collectible.cpp`): the pickup transition.
- **Menus** (`Menu.cpp`, `Menu.h`): the pause toggle, focus navigation over the
  four items with the stick debounce, and item activation.
- **Games** (`Game.cpp`): the screen/world transforms and the camera's follow
  and clamp steps. It also holds the progression between the start screen, a
  level and the three end screens, with the running collectible totals and an
  invariant those transitions keep.
- **ResourceCaches** (`ResourceCache.cpp`): image and sound memoisation over maps.

C++ conversions are written out explicitly:

- `Geometry.Trunc` is `static_cast<int>` of a float, which rounds toward zero.
- `Geometry.TDiv` and `Geometry.TMod` are C++'s truncating `/` and `%`.
- `Levels.Int8` is the `int8_t` narrowing.
- `Geometry.PointInRect` is raylib's point-in-rectangle test. Its left and top
  edges are inclusive and its right and bottom edges exclusive.

Collision response is the corner heuristic in `Level::collisionDetection`.
Several headers belong to another revision
than their `.cpp`: `Game.h` lacks `gameState`, the episodes and the totals, and
`Animation.h` declares a different `spriteForTime` result. In both cases the
`.cpp` behaviour is followed, and the `Game` record's fields are taken from
`Game.cpp`.

## Model

| member | source | states |
|---|---|---|
| Geometry.Trunc | Level.cpp:154-155 | `static_cast<int>` of a float rounds toward zero: the result is within one below a non-negative value and within one above a negative one |
| Geometry.TDiv | Level.cpp:154-155 | C++ integer division by a positive divisor rounds toward zero: q*b brackets a from the side of zero |
| Geometry.TMod | Level.cpp:185-186 | C++ `%` by a positive divisor: a == TDiv(a, b)*b + m, with m in [0, b) for non-negative a and in (-b, 0] for negative a |
| Tiles.Decode | Level.h:17-22 | a code names a tile exactly when it is 0..3, and the tile's code is that value |
| Tiles.DecodeCode | Level.h:17-22 | every tile type's code decodes back to it |
| Tiles.IsColliderCode | Level.h:24-32 | on the four valid codes, a tile collides exactly when it is not EMPTY; other codes are excluded, as the trailing assert does |
| Tiles.ColliderClassification | Level.h:24-30 | EMPTY does not collide; WALL, LAVA and INVISIBLE_WALL do |
| Levels.Int8 | Level.cpp:90 | the stored value is in -128..127, agrees with the CSV value modulo 256, and equals it when it fits |
| Levels.LoadGrid | Level.cpp:65-91 | loading succeeds exactly when both dimensions are multiples of the tile size; the grid then has (width/tileSize)*(height/tileSize) entries, each the narrowed CSV value, and collectible i is a fresh, uncollected, non-HUD collectible at collectible position i |
| Levels.GetTileRaw | Level.cpp:130-138 | no tile exactly when x<0, y<0, x*tileSize>=width or y*tileSize>=height; otherwise the index y*columns+x lies inside the grid and the tile is that entry |
| Levels.RowMajor | Level.h:52 | every grid entry i is the tile at column i%columns, row i/columns |
| Levels.GridCorners | Level.h:52 | the first entry is the top-left tile and the last entry the bottom-right tile |
| Levels.GetTileWorld | Level.cpp:140-144 | a tile exactly when 0<=x<width and 0<=y<height; for non-negative coordinates it is getTileRaw of the floored coordinates divided by the tile size |
| Levels.CollectedCount | Level.cpp:303-311 | the number of collected collectibles never exceeds the collectible count |
| Levels.AvailableCount | Level.cpp:303-311 | the number of non-HUD collectibles never exceeds the collectible count |
| Levels.CollectedAtMostAvailable | Level.cpp:306-309 | when no HUD collectible is collected, collectedCount <= totalCount |
| Levels.LoadGridHudFree | Level.cpp:73-76 | a freshly loaded level has no collected HUD collectible |
| Levels.GetCollectibleStats | Level.cpp:303-311 | the loop returns the collected count and the non-HUD count, both between 0 and the number of collectibles |
| Levels.UpdateCollectibles | Level.cpp:125-127 | every collectible is updated in place, nothing else in the level changes, collected flags are never cleared, and no HUD collectible becomes collected |
| Collectibles.Spawn | Level.cpp:73-76 | a spawned collectible is uncollected, not for the HUD, and at the given position |
| Collectibles.Update | Collectible.cpp:20-40 | a collected collectible is unchanged; otherwise its clock advances by the frame time, and it becomes collected exactly when it is not a HUD item and the player lies in its pickup rectangle |
| Collectibles.PickupRect | Collectible.cpp:27-29 | the pickup rectangle has the prefab hitbox size and sits at the hitbox offset from where the frame shown at that time is drawn (Scenes.SpriteAt) |
| Collectibles.PickupRectPeriodic | Collectible.cpp:24-29 | the pickup rectangle repeats every animation length |
| Collectibles.UpdateMonotone | Collectible.cpp:21-23 | collected stays collected, and an uncollected HUD collectible stays uncollected |
| Collisions.HitBoxTile | Level.cpp:154-159 | the sampled tile is the floor of coordinate/tileSize, except at a negative whole multiple of the tile size, where it is one less |
| Collisions.HitBoxTileNonNegative | Level.cpp:154-155 | for non-negative coordinates the sampled tile is the floor quotient |
| Collisions.HitBoxTileOffByOne | Level.cpp:156-159 | at every negative whole multiple of the tile size the sampled tile is one below the floor tile that holds the coordinate (at x = -16 with 16-pixel tiles, -2 instead of -1) |
| Collisions.CornerCode | Level.cpp:161-166 | a tile outside the level reads as WALL, and a tile inside reads as its grid value |
| Collisions.SampleCorners | Level.cpp:161-183 | each corner flag is set exactly when its tile lies outside the level or is not EMPTY |
| Collisions.LoneCorners | Level.cpp:197-228 | a corner remains after the flush-edge checks exactly when neither edge through it has a second solid corner |
| Collisions.MovesDecisionTable | Level.cpp:197-253 | each push direction is in the list exactly when its decision table holds, over the four corner flags, the sign of velocity.x and whether the hitbox spans into the next column or row |
| Collisions.Moves | Level.cpp:195-253 | the push list in the order the source appends to it; characterised per direction by Collisions.MovesDecisionTable |
| Collisions.FoldMoves | Level.cpp:255-284 | the ceiling flag is set iff a DOWN push is present; the grounded flag iff an UP push; the wall flag iff a LEFT or RIGHT push; the last LEFT or RIGHT push in the list fixes the wall direction (1 for LEFT, -1 for RIGHT) and the x correction, and the last DOWN or UP push fixes the y correction; with no such push they stay 0 |
| Collisions.BothWallsIgnoreVelocity | Level.cpp:257-283 | with walls on both sides and the hitbox reaching into the right column, the wall direction is 1 and the x correction the LEFT one, whatever the horizontal velocity |
| Collisions.CollisionDetection | Level.cpp:150-301 | with no solid corner the result is exactly (false, false, false, -1, (0,0)); otherwise the last wall push in the push list decides the wall direction and the x correction and the last vertical push the y correction; touchingWall iff the direction is non-zero; grounded iff an UP push or the final ground probe succeeds |
| Collisions.PushesFor | Level.cpp:264-281 | when the remainder lies in [0, tileSize), a DOWN or RIGHT correction is in (0, tileSize] and an UP or LEFT correction in (-tileSize, 0] |
| Collisions.GroundedNeedsFloor | Level.cpp:266-298 | the result is grounded only over a solid bottom corner, by an UP push or by the final ground probe (Collisions.GroundProbe) |
| Collisions.OutOfLevelIsSolid | Level.cpp:161-166 | each of the four sampled corner tiles that lies outside the level counts as a collider |
| Collisions.FlushCeiling | Level.cpp:197-201 | two solid top corners always set touchingCeiling |
| Collisions.FlushLeftWall | Level.cpp:197-253 | two solid left corners always set touchingWall |
| Collisions.LoneTopLeftCorner | Level.cpp:209-228 | a lone solid top-left corner pushes DOWN when velocity.x >= 0 and RIGHT otherwise, with the matching flags and correction, and does not ground |
| Animations.Load | Animation.cpp:37-48 | exactly one image, origin and delay is appended per frame entry, earlier entries are kept, and the length becomes the sum of all delays |
| Animations.SumSnoc | Animation.cpp:48 | appending a delay adds it to the total length |
| Animations.WrapTime | Animation.cpp:15-17 | the wrapped time is below the length, equals the input when that is already below it, is non-negative for non-negative input, and differs from the input by a whole non-negative number of lengths |
| Animations.WrapTimePeriodic | Animation.cpp:16-17 | for t >= 0, wrapping t + length gives the same time as wrapping t |
| Animations.FrameIndex | Animation.cpp:18-24 | the selected index is the least i whose cumulative delay exceeds the wrapped time, or the frame count if there is none |
| Animations.SpriteIndex | Animation.cpp:14-26 | for an animation whose length is the sum of its delays, the selected frame is in range and is the least one whose cumulative delay exceeds the wrapped time |
| Animations.SpriteIndexPeriodic | Animation.cpp:16-17 | for t >= 0, the frame at t + length is the frame at t |
| Animations.SpriteForTime | Animation.cpp:14-27 | the subtraction loop and the scan return the least frame whose cumulative delay exceeds the wrapped time, with that frame's origin and image |
| Scenes.Load | Scene.cpp:28-42 | one position and one animation are appended per entry, in order, so parallel lists stay parallel |
| Scenes.StartScene | Scene.h:32-36 | the scene clock is reset to 0 and nothing else changes |
| Scenes.Advance | Scene.cpp:48 | the scene clock increases by exactly the frame time |
| Scenes.SpriteAt | Scene.cpp:51-52 | the drawn sprite is the frame spriteForTime selects at the scene time (Animations.SpriteIndex), placed at the position minus that frame's origin |
| Scenes.Sprites | Scene.cpp:50-53 | one sprite per animation, in order, each the frame selected at the scene time for that animation at that animation's position |
| Scenes.Update | Scene.cpp:45-54 | the clock advances by the frame time, and the sprites drawn are exactly Sprites of the advanced scene |
| Scenes.AreAnimationsFinished | Scene.cpp:56-62 | the scan answers true exactly when the scene time has reached every animation's length |
| Scenes.NoAnimationsFinished | Scene.cpp:56-62 | a scene without animations is finished |
| Scenes.PlayMonotone | Scene.cpp:48 | with non-negative frame times the scene clock never decreases |
| Scenes.FinishedStaysFinished | Scene.cpp:48 | once finished, a scene stays finished under non-negative frame times |
| Scenes.StartSceneUnfinishes | Scene.h:33 | restarting a scene that has a positive-length animation makes it unfinished |
| Menus.SetInMenu | Menu.h:24 | no-op when the flag already has that value; entering the menu resets focus to 0; leaving keeps focus |
| Menus.Show | Menu.h:27-32 | sets the flag, focus 0 and unblocked, whatever the prior state |
| Menus.Navigate | Menu.cpp:53-65 | unblocked up moves focus back one (wrapping), unblocked down forward one, up wins over down; either blocks the stick; while blocked focus stays; releasing both unblocks |
| Menus.Activate | Menu.cpp:30-47 | item 0 hides the menu, item 1 does nothing, item 2 toggles full screen and item 3 quits |
| Menus.Update | Menu.cpp:12-78 | pause outside the menu only shows it; pause inside only hides it; outside the menu without pause nothing changes; in the menu the stick navigates, and the action button then activates the newly focused item; focus stays in [0,4); effects happen only in the menu on the action button |
| Menus.InitialValid | Menu.h:13-16 | a new menu is hidden, focused on item 0 and unblocked |
| Menus.HeldInputStepsOnce | Menu.cpp:53-63 | holding the same direction on the next frame leaves focus where the first frame put it |
| Menus.PressAndRelease | Menu.cpp:53-65 | from an unblocked stick, a press followed by a release moves the focus exactly one step in that direction, wrapping, and leaves the stick unblocked |
| Menus.FullCycle | Menu.cpp:55-61 | four press-and-release steps in one direction return focus to where it started |
| Games.WorldToScreen | Game.cpp:9-12 | a world point's offset from the screen centre equals its offset from the camera |
| Games.ScreenToWorld | Game.cpp:14-16 | a screen point's offset from the camera equals its offset from the screen centre |
| Games.ScreenRoundTrip | Game.cpp:9-16 | screenToWorld undoes worldToScreen and vice versa |
| Games.CameraAtScreenCenter | Game.cpp:9-12 | the camera position is drawn at pixel (640, 360) |
| Games.WindowPixels | Game.cpp:48 | a camera window given by on-screen fractions becomes a pixel rectangle inside the 1280x720 screen |
| Games.WorldWindow | Game.cpp:48-50 | the window keeps its pixel size, and its corner is drawn where the fractions place it on screen |
| Games.FollowAxis | Game.cpp:54-57 | the window start moves just far enough: to the player when the player is before it, to player minus size when the player is past its end, and not at all when the player is within it; afterwards the player is within [start, start+size] |
| Games.Follow | Game.cpp:52-58 | the window keeps its size, is unchanged when it contains the player, and afterwards has the player in its closed rectangle |
| Games.Center | Game.cpp:60 | the camera sits halfway between the window's edges |
| Games.View | Game.cpp:63 | the view is the 1280x720 rectangle whose corner is drawn at pixel (0,0) |
| Games.ClampToLevel | Game.cpp:62-69 | the window keeps its size, is unchanged when the view is already inside the level, and for a level at least one screen in size the final view lies in [0,width]x[0,height] |
| Games.ClampAxis | Game.cpp:63-67 | on one axis: the window is unchanged when the view is inside [0, extent], and when the view fits in the extent the shifted view lies inside it |
| Games.CameraUpdate | Game.cpp:47-70 | for a level at least one screen in size, the final view lies inside the level |
| Games.FollowKeepsPlayerInView | Game.cpp:47-60 | with an on-screen camera window, the view after the follow step contains the player |
| Games.WindowWithinView | Game.cpp:48-50 | an on-screen camera window lies inside the view of its own centre |
| Games.CameraKeepsPlayerInView | Game.cpp:47-70 | a player inside the level stays in view after the clamp |
| Games.RestartGame | Game.cpp:72-84 | start screen, the menu shown through `setInMenu(true)` (focus reset only when it was hidden, debounce kept), both totals 0, level 0, no episode, start scene rewound; episodes, level and the other scenes untouched |
| Games.StartLevel | Game.cpp:90-102 | needs an existing episode with a level i; then state LEVEL, currentLevel = i, the menu hidden through `setInMenu(false)` (focus and debounce kept), that level loaded with the player at its start, jump wait set, totals kept, and for a level at least one screen in size the camera view inside it |
| Games.EndLevel | Game.cpp:104-129 | menu off; a death shows the death screen and keeps the totals; a success with no current episode is the error result, where `episodes.at` throws; otherwise a success shows the level-end screen before the episode's last level and the game-end screen otherwise, and adds the level's collected and available counts to the totals |
| Games.RestartGameInv | Game.cpp:72-84 | restarting establishes the progression invariant |
| Games.StartLevelInv | Game.cpp:90-102 | starting an existing level keeps the invariant when the level is read by Levels.LoadGrid |
| Games.EndLevelInv | Game.cpp:104-129 | ending a level from a non-start state never hits the error result and keeps the invariant, including totalCollected <= totalAvailable |
| Games.UpdateCollectiblesInv | Level.cpp:125-127 | a frame of collectible updates keeps the invariant |
| Games.LevelSuccessHasNext | Game.cpp:114-117 | from the level-end screen the next level of the episode exists, and starting it enters that level |
| Games.GameSuccessOnlyAtLastLevel | Game.cpp:114-122 | a successful level reaches the game-end screen exactly when it is the episode's last level |
| ResourceCaches.Memo | ResourceCache.cpp:5-12 | a hit returns the stored value and leaves the map unchanged; a miss stores the loaded value under exactly that key and returns it; other entries are never changed or removed |
| ResourceCaches.GetImage | ResourceCache.cpp:5-12 | image memoisation; the sound cache is untouched |
| ResourceCaches.GetSound | ResourceCache.cpp:14-21 | sound memoisation; the image cache is untouched |
| ResourceCaches.GetImageIdempotent | ResourceCache.cpp:5-12 | a second request for the same image returns the first handle and changes nothing |
| ResourceCaches.GetSoundIdempotent | ResourceCache.cpp:14-21 | a second request for the same sound returns the first handle and changes nothing |
| ResourceCaches.GetImages | ResourceCache.cpp:5-12 | after a run of requests every requested name is cached, no other name is added, and earlier handles are kept |

## Left out

- Rendering, audio and the window are not modelled. This covers every `Draw*` call, the HUD in `drawHud`, music and sound playback, `endScene`, raygui buttons and the menu rectangle. These are raylib calls with no logic to state.
- Device input is not modelled: gamepad and keyboard reads become the boolean and axis fields of `Menus.Input`. `Player.cpp` is not part of this model.
- `drawFrame`, `mainLoop` and `main.cpp` are not part of this model. They orchestrate each frame and handle debug keys.
- JSON and file reading are not modelled. The parsed values become parameters: the CSV values, the level size, the collectible positions, the frame entries of an animation, and the scene entries. `Animation::fromPicture` is not modelled; a scene entry carries its animation already built. `Utilities.cpp` and `zstr.h` are not part of this model.
- Games.StartLevel: reading the level file is the parameter `loadLevel`. The player starting at the level's start position stands in for `Player::setInitialState`, which is not part of this model.
- Collisions.CollisionDetection: the `divide` helper is not part of this model. Its remainder is the parameter `remainder`, so the contract states which component of `moveDelta` is set, not its value.
- Collisions.CollisionDetection: it requires the four sampled tiles to hold codes 0..3. Any other code reaches the assert in `isCollider`, which is not modelled as a crash.
- Geometry.PointInRect: raylib's `CheckCollision` is not part of this model. It is taken to be half-open, with left and top edges inclusive and right and bottom edges exclusive.
- Floating-point rounding is not modelled. All positions, times and delays are exact reals, so `Animations.WrapTime` is exact where the C++ loop subtracts in single precision.
- 32-bit integer overflow in `x * tileSize`, `y * levelWidth` and the collectible counters is not modelled; integers are unbounded.
- Levels.LoadGrid: it requires a positive tile size, non-negative dimensions, and enough CSV values for the grid. The C++ stream silently reads nothing past the end of a short CSV, and this is not modelled.
- Scenes.Update: it requires every animation to be loaded with a positive length and to have a position. `spriteForTime` asserts a positive length, and the C++ would index past `positions` otherwise.
- Menus.Update: the drawing loop over the items (Menu.cpp:67-72) is not modelled; only the focus and the chosen item's action are.
- Games.CameraUpdate: the player's camera window (`player.cameraWindow`) is the `cameraWindow` field, because the `Player` declaration is not part of this model.
- `Game::restartLevel` is `startLevel(currentLevel)` and is covered by Games.StartLevel. `Level::startLevel` starts the music and calls `player.setInitialState(playerStartPosition)`; the model keeps only that reset, as the player position set in Games.StartLevel. `Level::endLevel` only stops the music.
- Collisions.FoldMoves: the code keeps the last wall push, while the comment at Level.cpp:257 says the player's direction is used when both sides touch. The model follows the code, and Collisions.BothWallsIgnoreVelocity shows the difference: a player moving left between two walls gets direction 1.
- Collisions.HitBoxTile: the off-by-one at exact negative multiples of the tile size is modelled as the code is written, not corrected, and Collisions.HitBoxTileOffByOne exhibits it.
