/** Collectible pickups (Collectible.cpp, Collectible.h). */
module Collectibles {
  import opened Geometry
  import Animations
  import Scenes

  /** One collectible. HUD collectibles are drawn in screen space and never picked up. */
  datatype Collectible = Collectible(position: Vec2, animTime: real, collected: bool, forHud: bool)

  /** A collectible as a level places it: not yet collected and not for the HUD. */
  function Spawn(position: Vec2): (c: Collectible)
    ensures !c.collected && !c.forHud && c.position == position
  {
    Collectible(position, 0.0, false, false)
  }

  /** The data every collectible shares: its pickup hitbox, relative to the
      sprite, and its wiggle animation. */
  datatype Prefab = Prefab(hitbox: Rect, wiggleAnimation: Animations.Animation)

  /** The wiggle animation can be sampled (`spriteForTime` asserts a positive length). */
  predicate Ready(prefab: Prefab)
  {
    Animations.Valid(prefab.wiggleAnimation) && prefab.wiggleAnimation.animationLength > 0.0
  }

  /** The pickup rectangle at animation time `t`: the prefab hitbox, placed relative
      to the collectible's position minus the origin of the frame shown at `t`. */
  function PickupRect(c: Collectible, prefab: Prefab, t: real): (r: Rect)
    requires Ready(prefab)
    ensures r.Size() == prefab.hitbox.Size()
    ensures r.Position() == Scenes.SpriteAt(prefab.wiggleAnimation, c.position, t).at.Plus(prefab.hitbox.Position())
  {
    var anim := prefab.wiggleAnimation;
    var origin := anim.origins[Animations.SpriteIndex(anim, t)];
    Rect(c.position.x - origin.x + prefab.hitbox.x, c.position.y - origin.y + prefab.hitbox.y,
         prefab.hitbox.width, prefab.hitbox.height)
  }

  /** The pickup rectangle wiggles with the animation: it repeats every animation length. */
  lemma PickupRectPeriodic(c: Collectible, prefab: Prefab, t: real)
    requires Ready(prefab) && 0.0 <= t
    ensures PickupRect(c, prefab, t + prefab.wiggleAnimation.animationLength) == PickupRect(c, prefab, t)
  {
    Animations.SpriteIndexPeriodic(prefab.wiggleAnimation, t);
  }

  /** `Collectible::update` for one frame: a collected collectible is frozen; otherwise
      its animation advances and it is collected when the player's position lies in
      its pickup rectangle, unless it is a HUD collectible. */
  function Update(c: Collectible, prefab: Prefab, levelTimeDelta: real, playerPosition: Vec2): (r: Collectible)
    requires !c.collected ==> Ready(prefab)
    ensures c.collected ==> r == c
    ensures !c.collected ==> r.animTime == c.animTime + levelTimeDelta
    ensures r.position == c.position && r.forHud == c.forHud
    ensures r.collected <==>
      c.collected || (!c.forHud && PointInRect(PickupRect(c, prefab, c.animTime + levelTimeDelta), playerPosition))
  {
    if c.collected then c
    else
      var t := c.animTime + levelTimeDelta;
      var hit := !c.forHud && PointInRect(PickupRect(c, prefab, t), playerPosition);
      c.(animTime := t, collected := hit)
  }

  /** No HUD collectible in the list is marked collected. */
  predicate HudNeverCollected(cs: seq<Collectible>)
  {
    forall i :: 0 <= i < |cs| ==> cs[i].forHud ==> !cs[i].collected
  }

  /** `collected` is monotone and HUD collectibles stay uncollected across an update. */
  lemma UpdateMonotone(c: Collectible, prefab: Prefab, levelTimeDelta: real, playerPosition: Vec2)
    requires !c.collected ==> Ready(prefab)
    ensures c.collected ==> Update(c, prefab, levelTimeDelta, playerPosition).collected
    ensures c.forHud && !c.collected ==> !Update(c, prefab, levelTimeDelta, playerPosition).collected
  {
  }
}
