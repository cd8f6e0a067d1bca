// The mother ship: bounces along the top of the screen, is where spiders are
// launched from, and drops the bonus bomb once per screen.
module Mother {
  import opened Common
  import BonusBomb

  const MotherY: int := 100
  const MotherWidth: int := 100
  const MotherSpeed: int := 2
  const HomeX: int := (ScreenWidth - MotherWidth) / 2
  const BonusBombDelay: nat := 1200

  /** `i32::signum`. */
  function Sign(v: int): int
  {
    if v > 0 then 1 else if v < 0 then -1 else 0
  }

  class Mother {
    var x: int
    var vel: int
    var bonusBombFrame: nat

    /** Even position within [0, 500], speed 2, heading inwards at either end. */
    ghost predicate Valid()
      reads this
    {
      x % 2 == 0 && 0 <= x <= ScreenWidth - MotherWidth &&
      (vel == MotherSpeed || vel == -MotherSpeed) &&
      (x == ScreenWidth - MotherWidth ==> vel == -MotherSpeed) &&
      (x == 0 ==> vel == MotherSpeed)
    }

    constructor ()
      ensures Valid() && x == 250 && vel == 2 && bonusBombFrame == 0
    {
      x := HomeX;
      vel := MotherSpeed;
      bonusBombFrame := 0;
    }

    /** Schedules the bonus bomb 1200 + `delayDraw` ticks into the screen. */
    method Reset(delayDraw: nat)
      requires delayDraw < 1200
      modifies this
      ensures bonusBombFrame == 1200 + delayDraw && x == old(x) && vel == old(vel)
      ensures 1200 <= bonusBombFrame < 2400
    {
      bonusBombFrame := BonusBombDelay + delayDraw;
    }

    method FullReset(delayDraw: nat)
      requires delayDraw < 1200
      modifies this
      ensures Valid()
      ensures bonusBombFrame == 1200 + delayDraw && x == 250 && vel == 2
    {
      Reset(delayDraw);
      x := HomeX;
      vel := MotherSpeed;
    }

    /**
     * Moves one step, turning round near either edge. On the bonus frame the bomb
     * is launched from the centre of the ship, unless `restrict` holds, in which
     * case it is postponed by 100 + `postponeDraw` ticks.
     */
    method Update(bonusBomb: BonusBomb.BonusBomb, restrict: bool, frameCount: nat,
                  postponeDraw: nat, typeDraw: nat)
      requires Valid() && postponeDraw < 200 && typeDraw < 3
      modifies this, bonusBomb
      ensures Valid()
      ensures x == old(x) + old(vel)
      ensures vel == if x > 498 || x < 2 then -old(vel) else old(vel)
      ensures frameCount == old(bonusBombFrame) && restrict ==>
        bonusBombFrame == old(bonusBombFrame) + 100 + postponeDraw &&
        unchanged(bonusBomb)
      ensures frameCount == old(bonusBombFrame) && !restrict ==>
        bonusBombFrame == old(bonusBombFrame) &&
        bonusBomb.x == x + 25 && bonusBomb.y == BonusBomb.StartY &&
        bonusBomb.bombState == BonusBomb.InFlight && bonusBomb.bombType.Index() == typeDraw
      ensures frameCount != old(bonusBombFrame) ==>
        bonusBombFrame == old(bonusBombFrame) && unchanged(bonusBomb)
    {
      x := x + vel;
      if x > ScreenWidth - MotherWidth - MotherSpeed || x < MotherSpeed {
        vel := -vel;
      }
      if frameCount == bonusBombFrame {
        if restrict {
          bonusBombFrame := bonusBombFrame + 100 + postponeDraw;
        } else {
          bonusBomb.Launch(x + MotherWidth / 2, typeDraw);
        }
      }
    }

    function Location(): (p: (int, int))
      reads this
      ensures p.1 == 100
    {
      (x, MotherY)
    }

    /**
     * The direction a spider launched now would swoop: away from the ship's heading,
     * and only when there are more than 50 pixels to the edge it heads away from.
     */
    function LaunchDir(): (d: Option<int>)
      reads this
      ensures d.Some? <==> (vel < 0 && x < 450) || (vel > 0 && x > 50)
      ensures d.Some? ==> (d.value == 1 || d.value == -1) && d.value * vel < 0
    {
      if (vel < 0 && x < ScreenWidth - 50 - MotherWidth) || (vel > 0 && x > 50) then
        Some(-Sign(vel))
      else
        None
    }
  }
}
