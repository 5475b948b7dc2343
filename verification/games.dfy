/** Game progression and camera (Game.cpp): the screen/world transforms, the camera
    that follows the player and stays inside the level, and the transitions
    between the start screen, a level and the three end-of-level screens. */
module Games {
  import opened Wrappers
  import opened Geometry
  import Menus
  import Levels
  import Scenes
  import Collectibles

  const ScreenWidth: int := 1280
  const ScreenHeight: int := 720

  /** The screen centre in pixels; `screenWidth / 2` is an integer division. */
  const ScreenCenter: Vec2 := Vec2((ScreenWidth / 2) as real, (ScreenHeight / 2) as real)

  /** `worldToScreen`: the camera position maps to the screen centre. */
  function WorldToScreen(cameraPosition: Vec2, worldPosition: Vec2): (r: Vec2)
    ensures r.Minus(ScreenCenter) == worldPosition.Minus(cameraPosition)
  {
    var delta := worldPosition.Minus(cameraPosition);
    Vec2(delta.x + (ScreenWidth / 2) as real, delta.y + (ScreenHeight / 2) as real)
  }

  /** `screenToWorld`: the screen centre maps to the camera position. */
  function ScreenToWorld(cameraPosition: Vec2, screenPosition: Vec2): (r: Vec2)
    ensures r.Minus(cameraPosition) == screenPosition.Minus(ScreenCenter)
  {
    Vec2(screenPosition.x - (ScreenWidth / 2) as real + cameraPosition.x,
         (screenPosition.y - (ScreenHeight / 2) as real) + cameraPosition.y)
  }

  /** The two transforms are inverse to each other, in both orders. */
  lemma ScreenRoundTrip(cameraPosition: Vec2, p: Vec2)
    ensures ScreenToWorld(cameraPosition, WorldToScreen(cameraPosition, p)) == p
    ensures WorldToScreen(cameraPosition, ScreenToWorld(cameraPosition, p)) == p
  {
  }

  /** The camera position is drawn at the screen centre, pixel (640, 360). */
  lemma CameraAtScreenCenter(cameraPosition: Vec2)
    ensures WorldToScreen(cameraPosition, cameraPosition) == Vec2(640.0, 360.0)
  {
  }

  /** Half the screen, in floating-point division. */
  const HalfScreen: Vec2 := Vec2(ScreenWidth as real / 2.0, ScreenHeight as real / 2.0)

  /** The player's camera window, given as fractions of the screen, scaled to pixels. */
  function WindowPixels(fractions: Rect): (r: Rect)
    ensures OnScreen(fractions) ==>
      0.0 <= r.x && 0.0 <= r.width && r.x + r.width <= 1280.0
      && 0.0 <= r.y && 0.0 <= r.height && r.y + r.height <= 720.0
  {
    Rect(fractions.x * ScreenWidth as real, fractions.y * ScreenHeight as real,
         fractions.width * ScreenWidth as real, fractions.height * ScreenHeight as real)
  }

  /** The camera window in world coordinates, for a camera at `cameraPosition`. */
  function WorldWindow(cameraPosition: Vec2, fractions: Rect): (r: Rect)
    ensures r.Size() == WindowPixels(fractions).Size()
    ensures WorldToScreen(cameraPosition, r.Position()) == WindowPixels(fractions).Position()
  {
    var wnd := WindowPixels(fractions);
    var p := cameraPosition.Minus(HalfScreen).Plus(wnd.Position());
    Rect(p.x, p.y, wnd.width, wnd.height)
  }

  /** One axis of the follow step: moves the window's start just far enough to
      cover `p`. The second test sees the start the first one may have moved. */
  function FollowAxis(start: real, size: real, p: real): (r: real)
    ensures 0.0 <= size ==> r <= p <= r + size
    ensures start <= p <= start + size ==> r == start
    ensures 0.0 <= size && p < start ==> r == p
    ensures start + size < p ==> r == p - size
  {
    var s1 := if p < start then p else start;
    if p > s1 + size then p - size else s1
  }

  /** The follow step of `cameraUpdate`: leaves the window alone when the player is
      inside it, and otherwise pushes it until the player is on or inside its edges. */
  function Follow(window: Rect, player: Vec2): (r: Rect)
    ensures r.Size() == window.Size()
    ensures PointInRect(window, player) ==> r == window
    ensures 0.0 <= window.width && 0.0 <= window.height ==> InClosedRect(r, player)
  {
    if PointInRect(window, player) then window
    else window.(x := FollowAxis(window.x, window.width, player.x),
                 y := FollowAxis(window.y, window.height, player.y))
  }

  /** The camera position for a window: the window's centre. */
  function Center(window: Rect): (r: Vec2)
    ensures r.x - window.x == window.x + window.width - r.x
    ensures r.y - window.y == window.y + window.height - r.y
  {
    window.Position().Plus(Vec2(window.width / 2.0, window.height / 2.0))
  }

  /** What the screen shows for a camera at `cameraPosition`, in world coordinates. */
  function View(cameraPosition: Vec2): (r: Rect)
    ensures WorldToScreen(cameraPosition, r.Position()) == Vec2(0.0, 0.0)
    ensures r.width == 1280.0 && r.height == 720.0
  {
    var p := cameraPosition.Minus(HalfScreen);
    Rect(p.x, p.y, HalfScreen.x * 2.0, HalfScreen.y * 2.0)
  }

  /** One axis of the clamp step. All tests read the view from before the clamp. */
  function ClampAxis(start: real, viewStart: real, viewSize: real, extent: real): (r: real)
    ensures 0.0 <= viewStart && viewStart + viewSize <= extent ==> r == start
    ensures 0.0 <= viewSize <= extent ==>
      0.0 <= viewStart + (r - start) && viewStart + (r - start) + viewSize <= extent
  {
    var s1 := if viewStart < 0.0 then start - viewStart else start;
    if viewStart + viewSize > extent then s1 - ((viewStart + viewSize) - extent) else s1
  }

  /** The clamp step of `cameraUpdate`: shifts the window so that the view of its
      centre does not leave the level. */
  function ClampToLevel(window: Rect, levelWidth: real, levelHeight: real): (r: Rect)
    ensures r.Size() == window.Size()
    ensures var v := View(Center(window));
      0.0 <= v.x && v.x + v.width <= levelWidth && 0.0 <= v.y && v.y + v.height <= levelHeight ==> r == window
    ensures 1280.0 <= levelWidth && 720.0 <= levelHeight ==>
      var v := View(Center(r));
      0.0 <= v.x && v.x + v.width <= levelWidth && 0.0 <= v.y && v.y + v.height <= levelHeight
  {
    var v := View(Center(window));
    window.(x := ClampAxis(window.x, v.x, v.width, levelWidth),
            y := ClampAxis(window.y, v.y, v.height, levelHeight))
  }

  /** `cameraUpdate`: the new camera position. */
  function CameraUpdate(cameraPosition: Vec2, fractions: Rect, player: Vec2, levelWidth: real, levelHeight: real): (r: Vec2)
    ensures 1280.0 <= levelWidth && 720.0 <= levelHeight ==>
      var v := View(r);
      0.0 <= v.x && v.x + v.width <= levelWidth && 0.0 <= v.y && v.y + v.height <= levelHeight
  {
    Center(ClampToLevel(Follow(WorldWindow(cameraPosition, fractions), player), levelWidth, levelHeight))
  }

  /** A camera window that lies on the screen. */
  predicate OnScreen(fractions: Rect)
  {
    0.0 <= fractions.x && 0.0 <= fractions.width && fractions.x + fractions.width <= 1.0
    && 0.0 <= fractions.y && 0.0 <= fractions.height && fractions.y + fractions.height <= 1.0
  }

  /** The follow step keeps the player in view: with an on-screen camera window,
      the view of the followed window's centre contains the player. */
  lemma FollowKeepsPlayerInView(cameraPosition: Vec2, fractions: Rect, player: Vec2)
    requires OnScreen(fractions)
    ensures InClosedRect(View(Center(Follow(WorldWindow(cameraPosition, fractions), player))), player)
  {
    var w := Follow(WorldWindow(cameraPosition, fractions), player);
    WindowWithinView(fractions, w);
  }

  /** An on-screen window of the camera fits in the view of its own centre. */
  lemma WindowWithinView(fractions: Rect, w: Rect)
    requires OnScreen(fractions)
    requires w.Size() == WindowPixels(fractions).Size()
    ensures var v := View(Center(w));
      v.x <= w.x && w.x + w.width <= v.x + v.width && v.y <= w.y && w.y + w.height <= v.y + v.height
  {
  }

  /** A player inside the level and on the followed view stays on the clamped view. */
  lemma CameraKeepsPlayerInView(cameraPosition: Vec2, fractions: Rect, player: Vec2, levelWidth: real, levelHeight: real)
    requires OnScreen(fractions)
    requires 0.0 <= player.x <= levelWidth && 0.0 <= player.y <= levelHeight
    ensures InClosedRect(View(CameraUpdate(cameraPosition, fractions, player, levelWidth, levelHeight)), player)
  {
    FollowKeepsPlayerInView(cameraPosition, fractions, player);
  }

  /** The screens of the game, as in `Game::GameState`. */
  datatype GameState = StartScreen | InLevel | LevelDied | LevelSuccess | GameSuccess

  /** The game's progression state. `cameraWindow` holds the player's camera window
      as fractions of the screen. Audio and the window are not modelled. */
  datatype Game = Game(
    gameState: GameState,
    episodes: map<string, seq<string>>,
    currentEpisode: string,
    currentLevel: int,
    totalCollected: int,
    totalAvailable: int,
    menu: Menus.Menu,
    level: Levels.Level,
    playerPosition: Vec2,
    cameraWindow: Rect,
    cameraPosition: Vec2,
    startScreen: Scenes.Scene,
    deadScreen: Scenes.Scene,
    levelEndScreen: Scenes.Scene,
    gameEndScreen: Scenes.Scene,
    waitUntilJumpNotPressed: bool)

  /** `restartGame`: back to the start screen with the menu up, totals cleared and no episode. */
  function RestartGame(g: Game): (r: Game)
    ensures r.gameState == StartScreen && r.menu == Menus.SetInMenu(g.menu, true)
    ensures r.totalCollected == 0 && r.totalAvailable == 0
    ensures r.currentLevel == 0 && r.currentEpisode == []
    ensures r.startScreen.animTime == 0.0
    ensures r.episodes == g.episodes && r.level == g.level && r.playerPosition == g.playerPosition
    ensures r.deadScreen == g.deadScreen && r.levelEndScreen == g.levelEndScreen && r.gameEndScreen == g.gameEndScreen
  {
    g.(menu := Menus.SetInMenu(g.menu, true),
       gameState := StartScreen,
       totalCollected := 0,
       totalAvailable := 0,
       startScreen := Scenes.StartScene(g.startScreen),
       currentLevel := 0,
       currentEpisode := [])
  }

  /** `startLevel(i)`: the current episode must exist and have a level `i`. `loadLevel`
      stands for reading a level file; the player starts at the level's start position. */
  function StartLevel(g: Game, levelIndex: int, loadLevel: string -> Levels.Level): (r: Game)
    requires g.currentEpisode in g.episodes
    requires 0 <= levelIndex < |g.episodes[g.currentEpisode]|
    ensures r.gameState == InLevel && r.currentLevel == levelIndex && r.menu == Menus.SetInMenu(g.menu, false)
    ensures r.level == loadLevel(g.episodes[g.currentEpisode][levelIndex])
    ensures r.playerPosition == r.level.playerStartPosition
    ensures r.waitUntilJumpNotPressed
    ensures r.totalCollected == g.totalCollected && r.totalAvailable == g.totalAvailable
    ensures r.episodes == g.episodes && r.currentEpisode == g.currentEpisode
    ensures 1280 <= r.level.levelWidth && 720 <= r.level.levelHeight ==>
      var v := View(r.cameraPosition);
      0.0 <= v.x && v.x + v.width <= r.level.levelWidth as real && 0.0 <= v.y && v.y + v.height <= r.level.levelHeight as real
  {
    var level := loadLevel(g.episodes[g.currentEpisode][levelIndex]);
    var player := level.playerStartPosition;
    g.(menu := Menus.SetInMenu(g.menu, false),
       gameState := InLevel,
       currentLevel := levelIndex,
       level := level,
       playerPosition := player,
       cameraPosition := CameraUpdate(player, g.cameraWindow, player, level.levelWidth as real, level.levelHeight as real),
       waitUntilJumpNotPressed := true)
  }

  /** `endLevel(died)`: a death shows the death screen and keeps the totals; a
      success shows the level-end screen, or the game-end screen after the last
      level of the episode, and adds the level's collectible counts to the totals.
      A success with no current episode is None: `episodes.at` throws there. */
  function EndLevel(g: Game, died: bool): (r: Option<Game>)
    ensures r.None? <==> !died && g.currentEpisode !in g.episodes
    ensures r.Some? ==> !r.value.menu.inMenu
    ensures r.Some? ==> r.value.currentLevel == g.currentLevel && r.value.currentEpisode == g.currentEpisode
                        && r.value.level == g.level && r.value.episodes == g.episodes
    ensures died ==> r.Some? && r.value.gameState == LevelDied && r.value.deadScreen.animTime == 0.0
    ensures died ==> r.Some? && r.value.totalCollected == g.totalCollected && r.value.totalAvailable == g.totalAvailable
    ensures r.Some? && !died ==>
      (r.value.gameState == LevelSuccess <==> g.currentLevel < |g.episodes[g.currentEpisode]| - 1)
    ensures r.Some? && !died ==>
      (r.value.gameState == GameSuccess <==> g.currentLevel >= |g.episodes[g.currentEpisode]| - 1)
    ensures r.Some? && r.value.gameState == LevelSuccess ==> r.value.levelEndScreen.animTime == 0.0
    ensures r.Some? && r.value.gameState == GameSuccess ==> r.value.gameEndScreen.animTime == 0.0
    ensures r.Some? && !died ==>
      r.value.totalCollected == g.totalCollected + Levels.CollectedCount(g.level.collectibles)
      && r.value.totalAvailable == g.totalAvailable + Levels.AvailableCount(g.level.collectibles)
  {
    var g1 := g.(menu := Menus.SetInMenu(g.menu, false));
    if died then
      Some(g1.(gameState := LevelDied, deadScreen := Scenes.StartScene(g.deadScreen)))
    else if g.currentEpisode !in g.episodes then
      None
    else
      var g2 :=
        if g.currentLevel < |g.episodes[g.currentEpisode]| - 1 then
          g1.(gameState := LevelSuccess, levelEndScreen := Scenes.StartScene(g.levelEndScreen))
        else
          g1.(gameState := GameSuccess, gameEndScreen := Scenes.StartScene(g.gameEndScreen));
      Some(g2.(totalCollected := g.totalCollected + Levels.CollectedCount(g.level.collectibles),
               totalAvailable := g.totalAvailable + Levels.AvailableCount(g.level.collectibles)))
  }

  /** What the progression keeps true: a well-formed menu, running totals with
      collected never above available, outside the start screen a current level
      that exists, and end screens that agree with the level's place in the episode. */
  predicate GameInv(g: Game)
  {
    && Menus.Valid(g.menu)
    && 0 <= g.totalCollected <= g.totalAvailable
    && Collectibles.HudNeverCollected(g.level.collectibles)
    && (g.gameState != StartScreen ==>
          g.currentEpisode in g.episodes && 0 <= g.currentLevel < |g.episodes[g.currentEpisode]|)
    && (g.gameState == LevelSuccess ==> g.currentLevel < |g.episodes[g.currentEpisode]| - 1)
    && (g.gameState == GameSuccess ==> g.currentLevel == |g.episodes[g.currentEpisode]| - 1)
  }

  /** Restarting establishes the invariant from any well-formed menu and level. */
  lemma RestartGameInv(g: Game)
    requires Menus.Valid(g.menu) && Collectibles.HudNeverCollected(g.level.collectibles)
    ensures GameInv(RestartGame(g))
  {
  }

  /** Starting any existing level of the current episode keeps the invariant when
      the level file is read by `Levels.LoadGrid`, whatever its contents. */
  lemma StartLevelInv(g: Game, levelIndex: int, loadLevel: string -> Levels.Level,
                      tileSize: int, levelWidth: int, levelHeight: int, csv: seq<int>,
                      collectiblePositions: seq<Vec2>, playerStart: Vec2)
    requires GameInv(g)
    requires g.currentEpisode in g.episodes && 0 <= levelIndex < |g.episodes[g.currentEpisode]|
    requires tileSize > 0 && 0 <= levelWidth && 0 <= levelHeight
    requires |csv| >= (levelWidth / tileSize) * (levelHeight / tileSize)
    requires Levels.LoadGrid(tileSize, levelWidth, levelHeight, csv, collectiblePositions, playerStart)
             == Some(loadLevel(g.episodes[g.currentEpisode][levelIndex]))
    ensures GameInv(StartLevel(g, levelIndex, loadLevel))
  {
    Levels.LoadGridHudFree(tileSize, levelWidth, levelHeight, csv, collectiblePositions, playerStart);
  }

  /** Ending a level keeps the invariant; the totals stay ordered because a level never
      counts more collected than available collectibles. */
  lemma EndLevelInv(g: Game, died: bool)
    requires GameInv(g) && g.gameState != StartScreen
    ensures EndLevel(g, died).Some? && GameInv(EndLevel(g, died).value)
  {
    Levels.CollectedAtMostAvailable(g.level.collectibles);
  }

  /** A frame of collectible updates keeps the invariant. */
  lemma UpdateCollectiblesInv(g: Game, prefab: Collectibles.Prefab, levelTimeDelta: real)
    requires GameInv(g)
    requires (forall i :: 0 <= i < |g.level.collectibles| ==> g.level.collectibles[i].collected) || Collectibles.Ready(prefab)
    ensures GameInv(g.(level := Levels.UpdateCollectibles(g.level, prefab, levelTimeDelta, g.playerPosition)))
  {
  }

  /** From the level-end screen the next level of the episode exists, and starting it
      enters that level. */
  lemma LevelSuccessHasNext(g: Game, loadLevel: string -> Levels.Level)
    requires GameInv(g) && g.gameState == LevelSuccess
    ensures g.currentEpisode in g.episodes && 0 <= g.currentLevel + 1 < |g.episodes[g.currentEpisode]|
    ensures StartLevel(g, g.currentLevel + 1, loadLevel).gameState == InLevel
    ensures StartLevel(g, g.currentLevel + 1, loadLevel).currentLevel == g.currentLevel + 1
  {
  }

  /** A successful level ends on the game-end screen exactly when it is the
      episode's last level. */
  lemma GameSuccessOnlyAtLastLevel(g: Game)
    requires GameInv(g) && g.gameState == InLevel
    ensures EndLevel(g, false).Some?
    ensures EndLevel(g, false).value.gameState == GameSuccess <==> g.currentLevel == |g.episodes[g.currentEpisode]| - 1
  {
  }
}
