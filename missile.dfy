// The ship's single missile: launched from the ship, flies straight up and
// stops once it leaves the top of the screen or hits something.
module Missile {
  import opened Common

  const MissileWidth: nat := 3
  const MissileHeight: nat := 15
  const MissileSpeed: int := 12

  class Missile {
    var x: int
    var y: int
    var inFlight: bool

    constructor ()
      ensures x == 0 && y == 0 && !inFlight
    {
      x, y, inFlight := 0, 0, false;
    }

    method Reset()
      modifies this
      ensures !inFlight && x == old(x) && y == old(y)
    {
      inFlight := false;
    }

    /** A missile already in flight is not relaunched. */
    method Launch(fromX: int, fromY: int)
      modifies this
      ensures old(inFlight) ==> x == old(x) && y == old(y) && inFlight
      ensures !old(inFlight) ==> x == fromX - 1 && y == fromY - 15 && inFlight
    {
      if !inFlight {
        x := fromX - MissileWidth / 2;
        y := fromY - MissileHeight;
        inFlight := true;
      }
    }

    /** Moves up while flying; the flight ends once the missile is above the screen. */
    method Update()
      modifies this
      ensures x == old(x)
      ensures y == if old(inFlight) then old(y) - MissileSpeed else old(y)
      ensures inFlight == (old(inFlight) && y >= 0)
    {
      if inFlight {
        y := y - MissileSpeed;
      }
      if y < 0 {
        inFlight := false;
      }
    }

    function Area(): (a: Area)
      reads this
      ensures a == NewArea(x, y, 3, 15)
    {
      NewArea(x, y, MissileWidth, MissileHeight)
    }

    function Flying(): bool
      reads this
    {
      inFlight
    }

    method TerminateFlight()
      modifies this
      ensures !inFlight && x == old(x) && y == old(y)
    {
      inFlight := false;
    }
  }
}
