// The spiders' bombs: a pool of four slots. A slot is claimed by a release,
// falls four pixels per tick and is freed when it leaves the screen or hits.
module Bombs {
  import opened Common

  const BombWidth: nat := 3
  const BombHeight: nat := 15
  const BombSpeed: int := 4
  const MaxBombs: nat := 4

  datatype Bomb = Bomb(x: int, y: int, inFlight: bool)
  {
    function Area(): Area
    {
      NewArea(x, y, BombWidth, BombHeight)
    }

    /** One tick of a single slot. */
    function Updated(): (b: Bomb)
      ensures b.x == x
      ensures !inFlight ==> b == this
      ensures inFlight ==> b.y == y + 4 && (b.inFlight <==> b.y < ScreenHeight)
    {
      if inFlight then
        var y' := y + BombSpeed;
        Bomb(x, y', y' < ScreenHeight)
      else this
    }
  }

  /** Slot `k` is the lowest slot not in flight. */
  ghost predicate FirstInert(s: seq<Bomb>, k: int)
  {
    0 <= k < |s| && !s[k].inFlight && forall j :: 0 <= j < k ==> s[j].inFlight
  }

  /** `after` is what `release(x, y)` makes of the slots `before`. */
  ghost predicate ReleaseOutcome(before: seq<Bomb>, after: seq<Bomb>, x: int, y: int)
  {
    (exists k :: FirstInert(before, k) && after == before[k := Bomb(x - 1, y, true)]) ||
    ((forall k :: 0 <= k < |before| ==> before[k].inFlight) && after == before)
  }

  /** A flying bomb overlaps `area`. */
  predicate Hits(b: Bomb, area: Area)
  {
    b.inFlight && area.Collides(b.Area())
  }

  /** Slot `k` is the lowest flying slot overlapping `area`. */
  ghost predicate FirstHit(s: seq<Bomb>, area: Area, k: int)
  {
    0 <= k < |s| && Hits(s[k], area) && forall j :: 0 <= j < k ==> !Hits(s[j], area)
  }

  class Bombs {
    const bomb: array<Bomb>

    ghost predicate Valid()
      reads this
    {
      bomb.Length == MaxBombs
    }

    constructor ()
      ensures Valid() && fresh(bomb)
      ensures forall i :: 0 <= i < MaxBombs ==> bomb[i] == Bomb(0, 0, false)
    {
      bomb := new Bomb[MaxBombs](_ => Bomb(0, 0, false));
    }

    method Reset()
      requires Valid()
      modifies bomb
      ensures forall i :: 0 <= i < MaxBombs ==>
        bomb[i] == old(bomb[i]).(inFlight := false)
    {
      for i := 0 to MaxBombs
        invariant forall k :: 0 <= k < i ==> bomb[k] == old(bomb[k]).(inFlight := false)
        invariant forall k :: i <= k < MaxBombs ==> bomb[k] == old(bomb[k])
      {
        bomb[i] := bomb[i].(inFlight := false);
      }
    }

    /** Claims the lowest inert slot for a bomb dropped at (x, y); false when all four fly. */
    method Release(x: int, y: int) returns (released: bool)
      requires Valid()
      modifies bomb
      ensures released <==> exists k :: 0 <= k < MaxBombs && !old(bomb[k]).inFlight
      ensures released ==> exists k :: FirstInert(old(bomb[..]), k) &&
                                       bomb[..] == old(bomb[..])[k := Bomb(x - 1, y, true)]
      ensures !released ==> bomb[..] == old(bomb[..])
    {
      var i := 0;
      while i < MaxBombs
        invariant 0 <= i <= MaxBombs
        invariant forall j :: 0 <= j < i ==> bomb[j].inFlight
        invariant bomb[..] == old(bomb[..])
      {
        if !bomb[i].inFlight {
          bomb[i] := Bomb(x - BombWidth / 2, y, true);
          assert FirstInert(old(bomb[..]), i);
          return true;
        }
        i := i + 1;
      }
      return false;
    }

    /** Retires the lowest flying slot that overlaps `area`, if there is one. */
    method Collision(area: Area) returns (hit: bool)
      requires Valid()
      modifies bomb
      ensures hit <==> exists k :: 0 <= k < MaxBombs && Hits(old(bomb[k]), area)
      ensures hit ==> exists k :: FirstHit(old(bomb[..]), area, k) &&
                                  bomb[..] == old(bomb[..])[k := old(bomb[k]).(inFlight := false)]
      ensures !hit ==> bomb[..] == old(bomb[..])
    {
      var i := 0;
      while i < MaxBombs
        invariant 0 <= i <= MaxBombs
        invariant forall j :: 0 <= j < i ==> !Hits(bomb[j], area)
        invariant bomb[..] == old(bomb[..])
      {
        if Hits(bomb[i], area) {
          bomb[i] := bomb[i].(inFlight := false);
          assert FirstHit(old(bomb[..]), area, i);
          return true;
        }
        i := i + 1;
      }
      return false;
    }

    predicate InFlight()
      requires Valid()
      reads this, bomb
    {
      exists k :: 0 <= k < MaxBombs && bomb[k].inFlight
    }

    method Update()
      requires Valid()
      modifies bomb
      ensures forall i :: 0 <= i < MaxBombs ==> bomb[i] == old(bomb[i]).Updated()
    {
      for i := 0 to MaxBombs
        invariant forall k :: 0 <= k < i ==> bomb[k] == old(bomb[k]).Updated()
        invariant forall k :: i <= k < MaxBombs ==> bomb[k] == old(bomb[k])
      {
        bomb[i] := bomb[i].Updated();
      }
    }
  }
}
