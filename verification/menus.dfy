/** The pause menu's focus and debounce state machine (Menu.cpp, Menu.h).
    Device reads become boolean inputs and drawing is left out. */
module Menus {

  /** Back to game, Show controls, Full screen, Quit. */
  const NumItems: int := 4

  datatype Menu = Menu(inMenu: bool, focusedItem: int, yaxisBlocked: bool)

  /** A freshly constructed menu: hidden, first item focused, stick not blocked. */
  const Initial: Menu := Menu(false, 0, false)

  /** The focus always names one of the menu items. */
  predicate Valid(m: Menu)
  {
    0 <= m.focusedItem < NumItems
  }

  /** `setInMenu`: nothing happens when the value is already set; entering the menu
      refocuses the first item, leaving it keeps the focus. */
  function SetInMenu(m: Menu, inMenu: bool): (r: Menu)
    ensures r.inMenu == inMenu && r.yaxisBlocked == m.yaxisBlocked
    ensures m.inMenu == inMenu ==> r == m
    ensures !m.inMenu && inMenu ==> r.focusedItem == 0
    ensures !inMenu ==> r.focusedItem == m.focusedItem
    ensures Valid(m) ==> Valid(r)
  {
    if m.inMenu == inMenu then m
    else m.(inMenu := inMenu, focusedItem := if inMenu then 0 else m.focusedItem)
  }

  /** `show`: sets visibility and resets focus and debounce, whatever the prior state. */
  function Show(m: Menu, doShow: bool): (r: Menu)
    ensures Valid(r) && r.focusedItem == 0 && !r.yaxisBlocked && r.inMenu == doShow
  {
    Menu(doShow, 0, false)
  }

  /** One frame's input: the pause button, the D-pad, the left stick's Y axis and the A button. */
  datatype Input = Input(pausePressed: bool, dpadUpPressed: bool, dpadDownPressed: bool, axisY: real, actionPressed: bool)

  predicate UpActive(i: Input) { i.dpadUpPressed || i.axisY < -0.5 }
  predicate DownActive(i: Input) { i.dpadDownPressed || i.axisY > 0.5 }

  /** What a frame asks of the rest of the game besides the menu state. */
  datatype Effect = NoEffect | ToggleFullscreen | Quit

  datatype Outcome = Outcome(menu: Menu, effect: Effect)

  /** Focus movement with debounce: up wins over down; a held direction moves the
      focus once and then blocks until both are released. */
  function Navigate(m: Menu, up: bool, down: bool): (r: Menu)
    requires Valid(m)
    ensures Valid(r) && r.inMenu == m.inMenu
    ensures (up || down) == r.yaxisBlocked
    ensures m.yaxisBlocked || !(up || down) ==> r.focusedItem == m.focusedItem
    ensures !m.yaxisBlocked && up ==> (r.focusedItem + 1) % NumItems == m.focusedItem
    ensures !m.yaxisBlocked && !up && down ==> r.focusedItem == (m.focusedItem + 1) % NumItems
  {
    if up then
      m.(focusedItem := if !m.yaxisBlocked then (m.focusedItem + NumItems - 1) % NumItems else m.focusedItem,
         yaxisBlocked := true)
    else if down then
      m.(focusedItem := if !m.yaxisBlocked then (m.focusedItem + 1) % NumItems else m.focusedItem,
         yaxisBlocked := true)
    else
      m.(yaxisBlocked := false)
  }

  /** The focused item's action: item 0 hides the menu, item 1 does nothing,
      item 2 toggles full screen, item 3 quits. */
  function Activate(m: Menu): (o: Outcome)
    requires Valid(m)
    ensures Valid(o.menu)
    ensures o.effect == Quit <==> m.focusedItem == 3
    ensures o.effect == ToggleFullscreen <==> m.focusedItem == 2
    ensures o.menu.inMenu <==> m.inMenu && m.focusedItem != 0
    ensures m.focusedItem != 0 ==> o.menu == m
    ensures m.focusedItem == 0 ==> o.menu == Show(m, false)
  {
    if m.focusedItem == 0 then Outcome(Show(m, false), NoEffect)
    else if m.focusedItem == 1 then Outcome(m, NoEffect)
    else if m.focusedItem == 2 then Outcome(m, ToggleFullscreen)
    else Outcome(m, Quit)
  }

  /** `Menu::update` for one frame. */
  function Update(m: Menu, i: Input): (o: Outcome)
    requires Valid(m)
    ensures Valid(o.menu)
    ensures !m.inMenu && i.pausePressed ==> o == Outcome(Show(m, true), NoEffect)
    ensures m.inMenu && i.pausePressed ==> o == Outcome(Show(m, false), NoEffect)
    ensures !m.inMenu && !i.pausePressed ==> o == Outcome(m, NoEffect)
    ensures m.inMenu && !i.pausePressed && !i.actionPressed ==>
      o == Outcome(Navigate(m, UpActive(i), DownActive(i)), NoEffect)
    ensures m.inMenu && !i.pausePressed && i.actionPressed ==>
      o == Activate(Navigate(m, UpActive(i), DownActive(i)))
    ensures o.effect != NoEffect ==> m.inMenu && o.menu.inMenu && i.actionPressed
  {
    if !m.inMenu && i.pausePressed then Outcome(Show(m, true), NoEffect)
    else if m.inMenu && i.pausePressed then Outcome(Show(m, false), NoEffect)
    else if !m.inMenu then Outcome(m, NoEffect)
    else
      var n := Navigate(m, UpActive(i), DownActive(i));
      if i.actionPressed then Activate(n) else Outcome(n, NoEffect)
  }

  /** The initial menu state satisfies the focus invariant. */
  lemma InitialValid()
    ensures Valid(Initial) && !Initial.inMenu && !Initial.yaxisBlocked
  {
  }

  /** Holding a direction moves the focus at most once: a second frame with the
      same input leaves the focus where the first frame put it. */
  lemma HeldInputStepsOnce(m: Menu, up: bool, down: bool)
    requires Valid(m)
    ensures var once := Navigate(m, up, down);
      Navigate(once, up, down).focusedItem == once.focusedItem
  {
  }

  /** One press of up (or down) followed by a frame with the stick released. */
  function PressAndRelease(m: Menu, up: bool): (r: Menu)
    requires Valid(m)
    ensures Valid(r) && !r.yaxisBlocked
    ensures !m.yaxisBlocked ==>
      r.focusedItem == if up then (m.focusedItem + NumItems - 1) % NumItems else (m.focusedItem + 1) % NumItems
  {
    Navigate(Navigate(m, up, !up), false, false)
  }

  /** Stepping four times in one direction wraps the focus back to where it started. */
  lemma FullCycle(m: Menu, up: bool)
    requires Valid(m) && !m.yaxisBlocked
    ensures PressAndRelease(PressAndRelease(PressAndRelease(PressAndRelease(m, up), up), up), up).focusedItem
            == m.focusedItem
  {
    var m1 := PressAndRelease(m, up);
    var m2 := PressAndRelease(m1, up);
    var m3 := PressAndRelease(m2, up);
    var m4 := PressAndRelease(m3, up);
    var f := m.focusedItem;
    if f == 0 {
      assert m1.focusedItem == (if up then 3 else 1) && m2.focusedItem == 2 && m3.focusedItem == (if up then 1 else 3);
    } else if f == 1 {
      assert m1.focusedItem == (if up then 0 else 2) && m2.focusedItem == 3 && m3.focusedItem == (if up then 2 else 0);
    } else if f == 2 {
      assert m1.focusedItem == (if up then 1 else 3) && m2.focusedItem == 0 && m3.focusedItem == (if up then 3 else 1);
    } else {
      assert m1.focusedItem == (if up then 2 else 0) && m2.focusedItem == 1 && m3.focusedItem == (if up then 0 else 2);
    }
  }
}
