// The overlay animations (explosions, banners, the volume bar): each one is
// registered with a frame budget, counted down once per tick and dropped when
// it reaches zero.
module Animation {

  datatype AnimationSeq =
    | ShipExplosion(x: int, y: int)
    | SpiderExplosion(x: int, y: int)
    | BonusBombHit(x: int, y: int, bombType: nat)
    | ScreenStart(screen: nat)
    | ExtraLife
    | VolumeChange(volume: int)

  /** The number of frames each kind of animation lasts. */
  function InitialFrames(s: AnimationSeq): nat
  {
    match s
    case ShipExplosion(_, _) => 32
    case SpiderExplosion(_, _) => 20
    case BonusBombHit(_, _, _) => 100
    case ScreenStart(_) => 100
    case ExtraLife => 50
    case VolumeChange(_) => 100
  }

  datatype Animation = Animation(animationSeq: AnimationSeq, framesLeft: nat)
  {
    predicate Finished()
    {
      framesLeft == 0
    }

    /** Set up by `NewAnimation` and counted down by `Animations.Update`, never past its budget. */
    predicate Running()
    {
      1 <= framesLeft <= InitialFrames(animationSeq)
    }
  }

  function NewAnimation(s: AnimationSeq): (a: Animation)
    ensures a.animationSeq == s
    ensures a.Running() && !a.Finished()
    ensures a.framesLeft == InitialFrames(s)
    ensures 20 <= a.framesLeft <= 100
  {
    Animation(s, InitialFrames(s))
  }

  /** The animations that have frames left, in their original order. */
  function Unfinished(s: seq<Animation>): (r: seq<Animation>)
    ensures |r| <= |s|
    ensures forall a :: a in r <==> a in s && !a.Finished()
  {
    if s == [] then []
    else if s[0].Finished() then Unfinished(s[1..])
    else [s[0]] + Unfinished(s[1..])
  }

  /** Everything except volume-change animations, in the original order. */
  function WithoutVolumeChange(s: seq<Animation>): (r: seq<Animation>)
    ensures |r| <= |s|
    ensures forall a :: a in r <==> a in s && !a.animationSeq.VolumeChange?
  {
    if s == [] then []
    else if s[0].animationSeq.VolumeChange? then WithoutVolumeChange(s[1..])
    else [s[0]] + WithoutVolumeChange(s[1..])
  }

  /** Every animation with one frame fewer. */
  function Decremented(s: seq<Animation>): (r: seq<Animation>)
    requires forall i :: 0 <= i < |s| ==> s[i].framesLeft >= 1
  {
    seq(|s|, i requires 0 <= i < |s| => s[i].(framesLeft := s[i].framesLeft - 1))
  }

  function VolumeChangeCount(s: seq<Animation>): nat
  {
    if s == [] then 0
    else (if s[0].animationSeq.VolumeChange? then 1 else 0) + VolumeChangeCount(s[1..])
  }

  lemma {:induction false} UnfinishedDistributes(s: seq<Animation>, t: seq<Animation>)
    ensures Unfinished(s + t) == Unfinished(s) + Unfinished(t)
  {
    if s == [] {
      assert s + t == t;
    } else {
      assert (s + t)[1..] == s[1..] + t;
      UnfinishedDistributes(s[1..], t);
    }
  }

  lemma {:induction false} NoVolumeChangeLeft(s: seq<Animation>)
    ensures VolumeChangeCount(WithoutVolumeChange(s)) == 0
  {
    if s != [] {
      NoVolumeChangeLeft(s[1..]);
    }
  }

  lemma {:induction false} VolumeChangeCountAppend(s: seq<Animation>, a: Animation)
    ensures VolumeChangeCount(s + [a]) ==
            VolumeChangeCount(s) + (if a.animationSeq.VolumeChange? then 1 else 0)
  {
    if s == [] {
      assert s + [a] == [a];
    } else {
      assert (s + [a])[1..] == s[1..] + [a];
      VolumeChangeCountAppend(s[1..], a);
    }
  }

  lemma {:induction false} VolumeChangeCountShrinks(s: seq<Animation>)
    ensures VolumeChangeCount(Unfinished(s)) <= VolumeChangeCount(s)
  {
    if s != [] {
      VolumeChangeCountShrinks(s[1..]);
    }
  }

  lemma {:induction false} DecrementedKeepsVolumeChanges(s: seq<Animation>)
    requires forall i :: 0 <= i < |s| ==> s[i].framesLeft >= 1
    ensures VolumeChangeCount(Decremented(s)) == VolumeChangeCount(s)
  {
    if s != [] {
      assert Decremented(s)[1..] == Decremented(s[1..]);
      DecrementedKeepsVolumeChanges(s[1..]);
    }
  }

  /** Frame of the four-image ship explosion for a running animation. */
  function ShipExplosionFrame(framesLeft: nat): (i: nat)
    requires 1 <= framesLeft <= 32
    ensures i < 4
  {
    (32 - framesLeft) / 8
  }

  /** Frame of the four-image spider explosion for a running animation. */
  function SpiderExplosionFrame(framesLeft: nat): (i: nat)
    requires 1 <= framesLeft <= 20
    ensures i < 4
  {
    (20 - framesLeft) / 5
  }

  class Animations {
    var animation: seq<Animation>

    /** Every stored animation is running, and at most one of them shows the volume. */
    ghost predicate Valid()
      reads this
    {
      (forall i :: 0 <= i < |animation| ==> animation[i].Running()) &&
      VolumeChangeCount(animation) <= 1
    }

    constructor ()
      ensures Valid() && animation == []
    {
      animation := [];
    }

    method UnregisterFinished()
      modifies this
      ensures animation == Unfinished(old(animation))
    {
      animation := Unfinished(animation);
    }

    /** A new volume change replaces the one on show; anything else is appended. */
    method Register(a: Animation)
      requires Valid()
      requires a == NewAnimation(a.animationSeq)
      modifies this
      ensures Valid()
      ensures animation ==
        (if a.animationSeq.VolumeChange? then WithoutVolumeChange(old(animation)) else old(animation)) + [a]
    {
      if a.animationSeq.VolumeChange? {
        NoVolumeChangeLeft(animation);
        animation := WithoutVolumeChange(animation);
      }
      VolumeChangeCountAppend(animation, a);
      animation := animation + [a];
    }

    /** One tick: every animation loses a frame, then the finished ones are dropped. */
    method Update()
      requires Valid()
      modifies this
      ensures Valid()
      ensures animation == Unfinished(Decremented(old(animation)))
    {
      ghost var before := animation;
      var i := 0;
      while i < |animation|
        invariant 0 <= i <= |animation| == |before|
        invariant forall k :: 0 <= k < i ==> animation[k] == before[k].(framesLeft := before[k].framesLeft - 1)
        invariant forall k :: i <= k < |animation| ==> animation[k] == before[k]
      {
        animation := animation[i := animation[i].(framesLeft := animation[i].framesLeft - 1)];
        i := i + 1;
      }
      assert animation == Decremented(before);
      DecrementedKeepsVolumeChanges(before);
      VolumeChangeCountShrinks(animation);
      UnregisterFinished();
      assert forall a :: a in animation ==> a.Running() by {
        forall a | a in animation ensures a.Running() {
          var k :| 0 <= k < |before| && Decremented(before)[k] == a;
        }
      }
    }
  }
}
