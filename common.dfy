// Shared definitions: screen constants, the claim record passed between a
// spider and a brick grid, and the rectangle overlap test every collision uses.
module Common {

  const ScreenWidth: int := 600
  const ScreenHeight: int := 700

  datatype Option<T> = None | Some(value: T)

  /** A claim on one brick: its pixel position and its index in the grid. */
  datatype TargetBrick = TargetBrick(x: int, y: int, brickId: nat)

  /** An axis-aligned rectangle given by its top-left and bottom-right corners. */
  datatype Area = Area(tlX: int, tlY: int, brX: int, brY: int)
  {
    /** Overlap test; every comparison is strict, so shared edges do not count. */
    predicate Collides(other: Area)
    {
      other.brX > tlX && other.tlX < brX &&
      other.brY > tlY && other.tlY < brY
    }
  }

  /** The rectangle with top-left corner (x, y), width w and height h. */
  function NewArea(x: int, y: int, w: nat, h: nat): (a: Area)
    ensures a.tlX == x && a.tlY == y
    ensures a.brX - a.tlX == w && a.brY - a.tlY == h
  {
    Area(x, y, x + w, y + h)
  }

  /** Rust's `as i32` on a float: truncation toward zero (saturation not modelled). */
  function TruncToInt(r: real): (n: int)
    ensures r >= 0.0 ==> n as real <= r < n as real + 1.0
    ensures r < 0.0 ==> n as real - 1.0 < r <= n as real
  {
    if r >= 0.0 then r.Floor else -((-r).Floor)
  }

  lemma CollidesSymmetric(a: Area, b: Area)
    ensures a.Collides(b) <==> b.Collides(a)
  {
  }

  lemma EdgeContactIsNoCollision(a: Area, b: Area)
    requires a.brX == b.tlX || a.brY == b.tlY
    ensures !a.Collides(b) && !b.Collides(a)
  {
  }

  lemma NonEmptyAreaCollidesWithItself(x: int, y: int, w: nat, h: nat)
    requires w > 0 && h > 0
    ensures NewArea(x, y, w, h).Collides(NewArea(x, y, w, h))
  {
  }

  lemma DisjointColumnsNeverCollide(a: Area, b: Area)
    requires a.brX <= b.tlX || b.brX <= a.tlX
    ensures !a.Collides(b)
  {
  }
}
