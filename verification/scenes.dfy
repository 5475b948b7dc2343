/** Cut-scene screens (Scene.cpp, Scene.h): animations placed at positions and a
    shared clock that decides when the scene has finished playing. */
module Scenes {
  import opened Geometry
  import Animations

  /** A scene: parallel lists of animations and their positions, and the scene clock. */
  datatype Scene = Scene(animations: seq<Animations.Animation>, positions: seq<Vec2>, animTime: real)

  /** One entry of a scene file, with its animation already read (from a picture or an animation file). */
  datatype Entry = Entry(position: Vec2, animation: Animations.Animation)

  /** `load`: appends exactly one position and one animation per entry. */
  function Load(s: Scene, entries: seq<Entry>): (r: Scene)
    ensures r.animTime == s.animTime
    ensures |r.positions| == |s.positions| + |entries| && |r.animations| == |s.animations| + |entries|
    ensures |s.positions| == |s.animations| ==> |r.positions| == |r.animations|
    ensures r.positions[..|s.positions|] == s.positions && r.animations[..|s.animations|] == s.animations
    ensures forall i :: 0 <= i < |entries| ==>
      r.positions[|s.positions| + i] == entries[i].position && r.animations[|s.animations| + i] == entries[i].animation
  {
    Scene(s.animations + seq(|entries|, i requires 0 <= i < |entries| => entries[i].animation),
          s.positions + seq(|entries|, i requires 0 <= i < |entries| => entries[i].position),
          s.animTime)
  }

  /** `startScene`: rewinds the scene clock (music is not modelled). */
  function StartScene(s: Scene): (r: Scene)
    ensures r.animTime == 0.0 && r.animations == s.animations && r.positions == s.positions
  {
    s.(animTime := 0.0)
  }

  /** The clock part of `update`: the scene advances by the frame's level time. */
  function Advance(s: Scene, levelTimeDelta: real): (r: Scene)
    ensures r.animTime - s.animTime == levelTimeDelta
    ensures r.animations == s.animations && r.positions == s.positions
  {
    s.(animTime := s.animTime + levelTimeDelta)
  }

  /** What the drawing loop of `update` needs: a position for every animation
      index it visits, and animations that can be sampled. */
  predicate Drawable(s: Scene)
  {
    && |s.animations| <= |s.positions|
    && forall i :: 0 <= i < |s.animations| ==>
         Animations.Valid(s.animations[i]) && s.animations[i].animationLength > 0.0
  }

  /** An image drawn at a world position. */
  datatype Sprite = Sprite(image: string, at: Vec2)

  /** `sprite` is one of the frames of `a`, placed so that its origin lies on `position`. */
  predicate ShowsFrameOf(sprite: Sprite, a: Animations.Animation, position: Vec2)
  {
    exists k :: 0 <= k < |a.images| && k < |a.origins| && sprite == Sprite(a.images[k], position.Minus(a.origins[k]))
  }

  /** The drawing part of `update`: for each animation, its current frame placed at
      the animation's position minus the frame's origin. */
  function Sprites(s: Scene): (r: seq<Sprite>)
    requires Drawable(s)
    ensures |r| == |s.animations|
    ensures forall i :: 0 <= i < |r| ==> ShowsFrameOf(r[i], s.animations[i], s.positions[i])
    ensures forall i :: 0 <= i < |r| ==> r[i] == SpriteAt(s.animations[i], s.positions[i], s.animTime)
  {
    seq(|s.animations|, i requires 0 <= i < |s.animations| => SpriteAt(s.animations[i], s.positions[i], s.animTime))
  }

  /** One animation drawn at `position` at time `t`: some frame of it, shifted by that frame's origin. */
  function SpriteAt(a: Animations.Animation, position: Vec2, t: real): (r: Sprite)
    requires Animations.Valid(a) && a.animationLength > 0.0
    ensures ShowsFrameOf(r, a, position)
    ensures r.image == a.images[Animations.SpriteIndex(a, t)]
    ensures r.at == position.Minus(a.origins[Animations.SpriteIndex(a, t)])
  {
    var k := Animations.SpriteIndex(a, t);
    Sprite(a.images[k], position.Minus(a.origins[k]))
  }

  /** `update`: advance the clock, then draw every animation. */
  function Update(s: Scene, levelTimeDelta: real): (r: (Scene, seq<Sprite>))
    requires Drawable(s)
    ensures r.0 == Advance(s, levelTimeDelta) && Drawable(r.0)
    ensures |r.1| == |s.animations|
    ensures r.1 == Sprites(r.0)
  {
    var next := Advance(s, levelTimeDelta);
    (next, Sprites(next))
  }

  /** Every animation of the scene has played to its end. */
  predicate Finished(s: Scene)
  {
    forall i :: 0 <= i < |s.animations| ==> s.animTime >= s.animations[i].animationLength
  }

  /** `areAnimationsFinished` as written: stops at the first animation still playing. */
  method AreAnimationsFinished(s: Scene) returns (finished: bool)
    ensures finished <==> forall i :: 0 <= i < |s.animations| ==> s.animTime >= s.animations[i].animationLength
  {
    var i := 0;
    while i < |s.animations|
      invariant 0 <= i <= |s.animations|
      invariant forall j :: 0 <= j < i ==> s.animTime >= s.animations[j].animationLength
    {
      if s.animTime < s.animations[i].animationLength {
        return false;
      }
      i := i + 1;
    }
    return true;
  }

  /** A scene with no animations is finished at once. */
  lemma NoAnimationsFinished(s: Scene)
    requires |s.animations| == 0
    ensures Finished(s)
  {
  }

  /** Advancing the clock by each of `deltas` in turn. */
  function Play(s: Scene, deltas: seq<real>): (r: Scene)
    ensures r.animations == s.animations && r.positions == s.positions
    decreases |deltas|
  {
    if |deltas| == 0 then s else Play(Advance(s, deltas[0]), deltas[1..])
  }

  /** Played for non-negative frame times, the clock never goes back. */
  lemma {:induction false} PlayMonotone(s: Scene, deltas: seq<real>)
    requires forall i :: 0 <= i < |deltas| ==> deltas[i] >= 0.0
    ensures Play(s, deltas).animTime >= s.animTime
    decreases |deltas|
  {
    if |deltas| > 0 {
      PlayMonotone(Advance(s, deltas[0]), deltas[1..]);
    }
  }

  /** Once finished, a scene played for non-negative frame times stays finished. */
  lemma FinishedStaysFinished(s: Scene, deltas: seq<real>)
    requires Finished(s)
    requires forall i :: 0 <= i < |deltas| ==> deltas[i] >= 0.0
    ensures Finished(Play(s, deltas))
  {
    PlayMonotone(s, deltas);
  }

  /** Restarting a scene with a positive-length animation makes it unfinished again. */
  lemma StartSceneUnfinishes(s: Scene, i: int)
    requires 0 <= i < |s.animations| && s.animations[i].animationLength > 0.0
    ensures !Finished(StartScene(s))
  {
  }
}
