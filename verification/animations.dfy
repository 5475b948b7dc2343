/** Frame-based sprite animations (Animation.cpp): the parallel frame lists
    `load` builds and the frame `spriteForTime` selects for a point in time. */
module Animations {
  import opened Geometry

  /** One frame entry of an animation file: image path, sprite origin, display time. */
  datatype FrameSpec = FrameSpec(image: string, origin: Vec2, delay: real)

  /** An animation: three parallel per-frame lists and the total length in seconds. */
  datatype Animation = Animation(images: seq<string>, origins: seq<Vec2>, delays: seq<real>, animationLength: real)

  /** Sum of a list of delays, front first. */
  function Sum(ds: seq<real>): real
  {
    if |ds| == 0 then 0.0 else ds[0] + Sum(ds[1..])
  }

  /** Summing a list extended by one delay adds that delay. */
  lemma {:induction false} SumSnoc(ds: seq<real>, d: real)
    ensures Sum(ds + [d]) == Sum(ds) + d
  {
    if |ds| == 0 {
      assert ds + [d] == [d];
      assert [d][1..] == [];
    } else {
      assert (ds + [d])[1..] == ds[1..] + [d];
      SumSnoc(ds[1..], d);
    }
  }

  /** Time at which frame `j` stops showing: the sum of delays 0..j. */
  function FrameEnd(ds: seq<real>, j: nat): real
    requires j < |ds|
  {
    Sum(ds[..j + 1])
  }

  /** The three per-frame lists have one entry per frame. */
  predicate Parallel(a: Animation)
  {
    |a.images| == |a.origins| == |a.delays|
  }

  /** What `load` establishes: parallel lists, and a length equal to the sum of the delays. */
  predicate Valid(a: Animation)
  {
    Parallel(a) && a.animationLength == Sum(a.delays)
  }

  /** `load`: appends one image, one origin and one delay per frame entry, then
      recomputes the length over all delays. Lists are appended to, not cleared. */
  function Load(a: Animation, frames: seq<FrameSpec>): (r: Animation)
    requires Parallel(a)
    ensures Valid(r)
    ensures |r.images| == |a.images| + |frames|
    ensures r.images[..|a.images|] == a.images && r.origins[..|a.origins|] == a.origins
    ensures r.delays[..|a.delays|] == a.delays
    ensures forall i :: 0 <= i < |frames| ==>
      var j := |a.images| + i;
      r.images[j] == frames[i].image && r.origins[j] == frames[i].origin && r.delays[j] == frames[i].delay
  {
    var images := seq(|frames|, i requires 0 <= i < |frames| => frames[i].image);
    var origins := seq(|frames|, i requires 0 <= i < |frames| => frames[i].origin);
    var delays := seq(|frames|, i requires 0 <= i < |frames| => frames[i].delay);
    var ds := a.delays + delays;
    assert |a.images + images| == |a.origins + origins| == |ds|;
    Animation(a.images + images, a.origins + origins, ds, Sum(ds))
  }

  /** The `while (animationTime >= animationLength)` reduction: a time at or past the
      end is brought back into [0, length) by whole lengths; an earlier time
      (including a negative one) is left as it is. */
  function WrapTime(t: real, len: real): (w: real)
    requires len > 0.0
    ensures w < len
    ensures t < len ==> w == t
    ensures 0.0 <= t ==> 0.0 <= w
    ensures (t - w) / len == ((t - w) / len).Floor as real
    ensures 0.0 <= (t - w) / len
  {
    if t < len then t
    else
      var k := (t / len).Floor;
      FloorBounds(t / len);
      ScaleBounds(t, len, k);
      t - k as real * len
  }

  /** Floor brackets its argument. */
  lemma FloorBounds(x: real)
    ensures x.Floor as real <= x < x.Floor as real + 1.0
  {
  }

  /** Multiplying by a positive factor keeps order. */
  lemma MulMonotone(a: real, b: real, c: real)
    requires a <= b && c > 0.0
    ensures a * c <= b * c
    ensures a < b ==> a * c < b * c
  {
    assert b * c - a * c == (b - a) * c;
  }

  /** Scaling the bracket `k <= t/len < k+1` by a positive length. */
  lemma ScaleBounds(t: real, len: real, k: int)
    requires len > 0.0
    requires k as real <= t / len < k as real + 1.0
    ensures k as real * len <= t < k as real * len + len
    ensures (k as real * len) / len == k as real
  {
    var q := t / len;
    var kr := k as real;
    DivMul(t, len);
    MulMonotone(kr, q, len);
    MulMonotone(q, kr + 1.0, len);
    Distribute(kr, len);
    calc {
      t;
    ==
      q * len;
    <
      (kr + 1.0) * len;
    ==
      kr * len + len;
    }
    DivMul(kr * len, len);
  }

  /** Dividing and multiplying back by a positive length cancel. */
  lemma DivMul(t: real, len: real)
    requires len > 0.0
    ensures (t / len) * len == t
    ensures (t * len) / len == t
  {
  }

  /** One more length adds one length. */
  lemma Distribute(kr: real, len: real)
    ensures (kr + 1.0) * len == kr * len + len
  {
  }

  /** Dividing by a positive length: a value in [0, len) maps into [0, 1). */
  lemma DivUnit(t: real, len: real)
    requires len > 0.0 && 0.0 <= t < len
    ensures 0.0 <= t / len < 1.0
  {
    var q := t / len;
    assert q * len == t;
    if q >= 1.0 {
      MulMonotone(1.0, q, len);
      calc {
        len;
      ==
        1.0 * len;
      <=
        q * len;
      ==
        t;
      }
    }
  }

  /** Shifting by one length shifts the quotient by one. */
  lemma DivShift(t: real, len: real, k: int)
    requires len > 0.0
    ensures (t + k as real * len) / len == t / len + k as real
  {
    assert (t / len + k as real) * len == t + k as real * len;
  }

  /** An integer that brackets `x` is its floor. */
  lemma FloorUnique(x: real, k: int)
    requires k as real <= x < k as real + 1.0
    ensures x.Floor == k
  {
  }

  /** The wrapped time is periodic: adding one animation length to a
      non-negative time changes nothing. */
  lemma WrapTimePeriodic(t: real, len: real)
    requires len > 0.0 && 0.0 <= t
    ensures WrapTime(t + len, len) == WrapTime(t, len)
  {
    var k := (t / len).Floor;
    FloorBounds(t / len);
    DivShift(t, len, 1);
    FloorUnique((t + len) / len, k + 1);
  }

  /** The frame shown at (already wrapped) time `t`: the least `i` whose cumulative
      delay `delays[0] + ... + delays[i]` exceeds `t`, or the frame count if none does. */
  function FrameIndex(ds: seq<real>, t: real): (i: nat)
    ensures i <= |ds|
    ensures forall j :: 0 <= j < i ==> FrameEnd(ds, j) <= t
    ensures i < |ds| ==> t < FrameEnd(ds, i)
  {
    if |ds| == 0 then 0
    else
      PrefixSumShift(ds);
      if t < ds[0] then 0
      else 1 + FrameIndex(ds[1..], t - ds[0])
  }

  /** A cumulative delay is the first delay plus the cumulative delay of the rest. */
  lemma PrefixSumShift(ds: seq<real>)
    requires |ds| > 0
    ensures FrameEnd(ds, 0) == ds[0]
    ensures forall j :: 0 < j < |ds| ==> FrameEnd(ds, j) == ds[0] + FrameEnd(ds[1..], j - 1)
  {
    assert ds[..1] == [ds[0]];
    assert [ds[0]][1..] == [];
    assert Sum([]) == 0.0;
    assert Sum([ds[0]]) == ds[0] + Sum([]);
    forall j | 0 < j < |ds|
      ensures FrameEnd(ds, j) == ds[0] + FrameEnd(ds[1..], j - 1)
    {
      assert ds[..j + 1][1..] == ds[1..][..j];
    }
  }

  /** The last frame ends at the sum of all delays. */
  lemma LastFrameEnd(ds: seq<real>)
    ensures |ds| > 0 ==> FrameEnd(ds, |ds| - 1) == Sum(ds)
  {
    assert ds[..|ds|] == ds;
  }

  /** The frame `spriteForTime(t)` selects. */
  function SpriteIndex(a: Animation, t: real): (i: nat)
    requires Valid(a) && a.animationLength > 0.0
    ensures i < |a.images|
    ensures forall j :: 0 <= j < i ==> FrameEnd(a.delays, j) <= WrapTime(t, a.animationLength)
    ensures WrapTime(t, a.animationLength) < FrameEnd(a.delays, i)
  {
    LastFrameEnd(a.delays);
    FrameIndex(a.delays, WrapTime(t, a.animationLength))
  }

  /** Frame selection repeats with the animation's length. */
  lemma SpriteIndexPeriodic(a: Animation, t: real)
    requires Valid(a) && a.animationLength > 0.0 && 0.0 <= t
    ensures SpriteIndex(a, t + a.animationLength) == SpriteIndex(a, t)
  {
    WrapTimePeriodic(t, a.animationLength);
  }

  /** Leaving the subtraction loop after `k > 0` rounds lands on the wrapped time. */
  lemma WrapLoopExit(t0: real, len: real, k: nat, t: real)
    requires len > 0.0 && k > 0
    requires t == t0 - k as real * len && 0.0 <= t < len
    ensures t == WrapTime(t0, len)
  {
    DivShift(t, len, k);
    DivUnit(t, len);
    FloorUnique(t0 / len, k);
  }

  /** `spriteForTime` as written: the subtraction loop, then the cumulative-delay
      scan; returns the selected frame's index, origin and image. */
  method SpriteForTime(a: Animation, animationTime: real) returns (i: nat, origin: Vec2, image: string)
    requires Valid(a) && a.animationLength > 0.0
    ensures i < |a.images|
    ensures forall j :: 0 <= j < i ==> FrameEnd(a.delays, j) <= WrapTime(animationTime, a.animationLength)
    ensures WrapTime(animationTime, a.animationLength) < FrameEnd(a.delays, i)
    ensures origin == a.origins[i] && image == a.images[i]
  {
    var len := a.animationLength;
    var t := animationTime;
    ghost var k: nat := 0;
    while t >= len
      invariant t == animationTime - k as real * len
      invariant k > 0 ==> 0.0 <= t
      decreases (t / len).Floor
    {
      FloorBounds(t / len);
      DivShift(t, len, -1);
      FloorUnique((t - len) / len, (t / len).Floor - 1);
      t := t - len;
      k := k + 1;
    }
    if k > 0 {
      WrapLoopExit(animationTime, len, k, t);
    }
    var time := 0.0;
    i := 0;
    while i < |a.images|
      invariant i <= |a.images|
      invariant time == Sum(a.delays[..i])
      invariant forall j :: 0 <= j < i ==> FrameEnd(a.delays, j) <= t
    {
      assert a.delays[..i + 1] == a.delays[..i] + [a.delays[i]];
      SumSnoc(a.delays[..i], a.delays[i]);
      time := time + a.delays[i];
      if t < time {
        break;
      }
      i := i + 1;
    }
    if i == |a.images| {
      LastFrameEnd(a.delays);
      assert false;
    }
    origin := a.origins[i];
    image := a.images[i];
  }
}
