// The player's ship: moves along the bottom in steps of five pixels, fires the
// missile, and after being hit waits, changes over to a spare life and enjoys
// a short grace period.
module Ship {
  import opened Common
  import opened Animation
  import Missile

  const ShipWidth: nat := 30
  const ShipHeight: nat := 40
  const ShipY: int := 565
  const ShipSpeed: int := 5
  const Lives: nat := 4
  const UpdateFps: nat := 60
  const MinFramesBeforeChangeover: nat := UpdateFps * 3 / 2
  const GracePeriodFrames: nat := UpdateFps
  /**
   * Ticks the changeover lasts: a float progress grows by 0.05 from 0.0 until it
   * reaches 1.0; the count is kept abstract as this constant.
   */
  const ChangeOverSteps: nat := 20
  const HomeX: int := (ScreenWidth - ShipWidth) / 2

  datatype ShipState =
    | Alive(graceLeft: nat)
    | WaitForChangeOver(delayLeft: nat)
    | ChangeOver(progress: nat)

  class Ship {
    var x: int
    var state: ShipState
    var lives: nat

    /** The ship sits on the five-pixel grid within the screen. */
    ghost predicate Valid()
      reads this
    {
      x % ShipSpeed == 0 && 0 <= x <= ScreenWidth - ShipWidth
    }

    constructor ()
      ensures Valid() && x == 285 && state == ShipState.Alive(0) && lives == 4
    {
      x, state, lives := HomeX, ShipState.Alive(0), Lives;
    }

    method Reset()
      modifies this
      ensures Valid() && x == 285 && state == ShipState.Alive(0) && lives == 4
    {
      x, state, lives := HomeX, ShipState.Alive(0), Lives;
    }

    method MoveLeft()
      requires Valid()
      modifies this
      ensures Valid() && state == old(state) && lives == old(lives)
      ensures x == if old(state).Alive? && old(x) > 0 then old(x) - 5 else old(x)
    {
      if state.Alive? {
        if x > 0 {
          x := x - ShipSpeed;
        }
      }
    }

    method MoveRight()
      requires Valid()
      modifies this
      ensures Valid() && state == old(state) && lives == old(lives)
      ensures x == if old(state).Alive? && old(x) < 570 then old(x) + 5 else old(x)
    {
      if state.Alive? {
        if x < ScreenWidth - ShipWidth {
          x := x + ShipSpeed;
        }
      }
    }

    /** A hit: explode where the ship was, go home and wait 90 ticks. No effect unless alive. */
    method Kill(animations: Animations)
      requires Valid() && animations.Valid()
      modifies this, animations
      ensures Valid() && animations.Valid() && lives == old(lives)
      ensures old(state).Alive? ==>
        state == WaitForChangeOver(90) && x == 285 &&
        animations.animation == old(animations.animation) + [NewAnimation(ShipExplosion(old(x), ShipY))]
      ensures !old(state).Alive? ==>
        state == old(state) && x == old(x) && animations.animation == old(animations.animation)
    {
      if state.Alive? {
        var a := NewAnimation(ShipExplosion(x, ShipY));
        animations.Register(a);
        state := WaitForChangeOver(MinFramesBeforeChangeover);
        x := HomeX;
      }
    }

    method AwardExtraLife(animations: Animations)
      requires animations.Valid()
      modifies this, animations
      ensures lives == old(lives) + 1 && x == old(x) && state == old(state)
      ensures animations.Valid()
      ensures animations.animation == old(animations.animation) + [NewAnimation(ExtraLife)]
    {
      lives := lives + 1;
      var a := NewAnimation(ExtraLife);
      animations.Register(a);
    }

    predicate Alive()
      reads this
    {
      state.Alive?
    }

    /** The game is lost once the ship waits for a changeover with no life to change over to. */
    predicate LifeLeft()
      reads this
    {
      !(lives == 0 && state.WaitForChangeOver?)
    }

    function Area(): (a: Area)
      reads this
      ensures a == NewArea(x, 565, 30, 40)
    {
      NewArea(x, ShipY, ShipWidth, ShipHeight)
    }

    /** One tick of the state machine. */
    method Update()
      modifies this
      ensures x == old(x) && lives == old(lives)
      ensures state == Step(old(state))
    {
      match state {
        case WaitForChangeOver(n) =>
          if n > 0 {
            state := WaitForChangeOver(n - 1);
          }
        case ChangeOver(p) =>
          if p < ChangeOverSteps {
            state := ChangeOver(p + 1);
          } else {
            state := ShipState.Alive(GracePeriodFrames);
          }
        case Alive(n) =>
          if n > 0 {
            state := ShipState.Alive(n - 1);
          }
      }
    }

    /** Fires from the middle of the ship's nose, only while alive. */
    method LaunchMissile(missile: Missile.Missile)
      modifies missile
      ensures state.Alive? && !old(missile.inFlight) ==>
        missile.x == x + 15 - 1 && missile.y == ShipY - 15 && missile.inFlight
      ensures !(state.Alive? && !old(missile.inFlight)) ==>
        missile.x == old(missile.x) && missile.y == old(missile.y) &&
        missile.inFlight == old(missile.inFlight)
    {
      if state.Alive? {
        missile.Launch(x + ShipWidth / 2, ShipY);
      }
    }

    predicate WaitingForChangeover()
      reads this
    {
      state.WaitForChangeOver?
    }

    predicate EnoughDelayForChangeover()
      reads this
    {
      state.WaitForChangeOver? && state.delayLeft == 0
    }

    predicate InChangeover()
      reads this
    {
      state.WaitForChangeOver? || state.ChangeOver?
    }

    /** Starts the changeover to a spare life, if there is one. */
    method ProceedWithChangeover()
      modifies this
      ensures x == old(x)
      ensures old(lives) > 0 ==> state == ChangeOver(0) && lives == old(lives) - 1
      ensures old(lives) == 0 ==> state == old(state) && lives == 0
    {
      if lives > 0 {
        state := ChangeOver(0);
        lives := lives - 1;
      }
    }

    /** The grace period after a changeover, during which spiders hold back. */
    predicate Protected()
      reads this
    {
      state.Alive? && state.graceLeft > 0
    }
  }

  /**
   * How the state queries relate: the ship is either alive or in a changeover;
   * protection is a kind of being alive; enough delay is a kind of waiting; and
   * the game can only run out of lives during a wait.
   */
  lemma StateQueries(s: Ship)
    ensures s.Alive() != s.InChangeover()
    ensures s.Protected() ==> s.Alive()
    ensures s.EnoughDelayForChangeover() ==> s.WaitingForChangeover() && s.InChangeover()
    ensures !s.LifeLeft() <==> s.lives == 0 && s.WaitingForChangeover()
  {
  }

  /** The state `update` moves to. */
  function Step(s: ShipState): ShipState
  {
    match s
    case WaitForChangeOver(n) => WaitForChangeOver(if n > 0 then n - 1 else 0)
    case ChangeOver(p) => if p < ChangeOverSteps then ChangeOver(p + 1) else Alive(GracePeriodFrames)
    case Alive(n) => Alive(if n > 0 then n - 1 else 0)
  }

  /** The state after k updates. */
  function Steps(s: ShipState, k: nat): ShipState
    decreases k
  {
    if k == 0 then s else Steps(Step(s), k - 1)
  }

  /**
   * A wait of n ticks becomes ready for the changeover after exactly n updates,
   * and stays ready however many more follow.
   */
  lemma {:induction false} WaitCountsDown(n: nat, k: nat)
    ensures Steps(WaitForChangeOver(n), k) == WaitForChangeOver(if k <= n then n - k else 0)
  {
    if k > 0 {
      WaitCountsDown(if n > 0 then n - 1 else 0, k - 1);
    }
  }

  /** A changeover started from 0 ends, after 21 updates, alive and protected for 60 ticks. */
  lemma {:induction false} ChangeOverEndsProtected(p: nat, k: nat)
    requires p + k <= ChangeOverSteps
    ensures Steps(ChangeOver(p), k) == ChangeOver(p + k)
    ensures Steps(ChangeOver(p), k + 1) ==
      if p + k < ChangeOverSteps then ChangeOver(p + k + 1) else Alive(GracePeriodFrames)
    decreases k
  {
    if k > 0 {
      ChangeOverEndsProtected(p + 1, k - 1);
    }
  }

  /** The grace period runs out after exactly n updates. */
  lemma {:induction false} GraceRunsOut(n: nat, k: nat)
    ensures Steps(Alive(n), k) == Alive(if k <= n then n - k else 0)
  {
    if k > 0 {
      GraceRunsOut(if n > 0 then n - 1 else 0, k - 1);
    }
  }
}
