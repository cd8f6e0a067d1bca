// The bonus bomb the mother ship drops now and then. Shooting it scores
// points and queues 10, 30 or 50 letter bricks for removal.
module BonusBomb {
  import opened Common
  import opened Animation
  import LetterBricks

  const StartY: int := 120
  const BombWidth: nat := 50
  const BombHeight: nat := 22
  const BombSpeed: int := 2
  const ScoreMultiplier: nat := 20

  datatype BombType = Bonus10 | Bonus30 | Bonus50
  {
    /** The discriminant, as `bomb_type as usize` yields it. */
    function Index(): nat
    {
      match this
      case Bonus10 => 0
      case Bonus30 => 1
      case Bonus50 => 2
    }

    /** Letter bricks a hit removes (the `BOMB_VALUE` table). */
    function Value(): nat
    {
      [10, 30, 50][Index()]
    }
  }

  /** The type a draw from 0..2 selects. */
  function TypeOfDraw(draw: nat): (t: BombType)
    ensures draw < 3 ==> t.Index() == draw
  {
    if draw == 0 then Bonus10 else if draw == 1 then Bonus30 else Bonus50
  }

  datatype BombState = Dormant | InFlight

  class BonusBomb {
    var x: int
    var y: int
    var bombState: BombState
    var bombType: BombType

    constructor ()
      ensures x == 0 && y == 0 && bombState == Dormant && bombType == Bonus10
    {
      x, y, bombState, bombType := 0, 0, Dormant, Bonus10;
    }

    /** Only the middle 30 pixels of the 50-pixel-wide bomb can be hit. */
    function Area(): (a: Area)
      reads this
      ensures a == Common.Area(x + 10, y, x + 40, y + 22)
    {
      NewArea(x + 10, y, BombWidth - 20, BombHeight)
    }

    predicate InFlight()
      reads this
    {
      bombState == BombState.InFlight
    }

    method Reset()
      modifies this
      ensures bombState == Dormant && x == old(x) && y == old(y) && bombType == old(bombType)
    {
      bombState := Dormant;
    }

    /** Drops the bomb centred on `fromX`; `typeDraw` stands for the random choice in 0..2. */
    method Launch(fromX: int, typeDraw: nat)
      requires typeDraw < 3
      modifies this
      ensures x == fromX - 25 && y == StartY && bombState == BombState.InFlight
      ensures bombType.Index() == typeDraw
    {
      x := fromX - BombWidth / 2;
      y := StartY;
      bombState := BombState.InFlight;
      bombType := TypeOfDraw(typeDraw);
    }

    /** Whether `colArea` hits the bomb while it falls. */
    predicate Collision(colArea: Area)
      reads this
    {
      InFlight() && colArea.Collides(Area())
    }

    /** Points for shooting the bomb. */
    function Score(): (points: nat)
      reads this
      ensures points == bombType.Value() * ScoreMultiplier
      ensures points == (match bombType case Bonus10 => 200 case Bonus30 => 600 case Bonus50 => 1000)
    {
      bombType.Value() * ScoreMultiplier
    }

    /** The bomb was shot: it stops, queues its bricks for removal and shows a hit animation. */
    method AchieveBonus(letters: LetterBricks.LetterBricks, animations: Animations)
      requires letters.Valid() && animations.Valid()
      modifies this, letters, animations
      ensures bombState == Dormant && x == old(x) && y == old(y) && bombType == old(bombType)
      ensures letters.toRemove == LetterBricks.Reverse(old(letters.toRemove) +
        LetterBricks.RemovalScan(letters.brick[..], LetterBricks.BricksQty, |old(letters.toRemove)|, bombType.Value()))
      ensures letters.qtyFilled == old(letters.qtyFilled)
      ensures old(letters.toRemove) == [] ==> letters.Valid()
      ensures animations.Valid()
      ensures animations.animation ==
        old(animations.animation) + [NewAnimation(BonusBombHit(x + 25, y + 11, bombType.Index()))]
    {
      bombState := Dormant;
      letters.InitiateRemoval(bombType.Value());
      var a := NewAnimation(BonusBombHit(x + BombWidth / 2, y + BombHeight / 2, bombType.Index()));
      animations.Register(a);
    }

    /** Falls two pixels per tick and goes dormant once past the bottom of the screen. */
    method Update()
      modifies this
      ensures x == old(x) && bombType == old(bombType)
      ensures old(bombState) == Dormant ==> y == old(y) && bombState == Dormant
      ensures old(bombState) == BombState.InFlight ==>
        y == old(y) + 2 && (bombState == Dormant <==> y > ScreenHeight)
    {
      if bombState == BombState.InFlight {
        y := y + BombSpeed;
        if y > ScreenHeight {
          bombState := Dormant;
        }
      }
    }
  }

  /** A hit needs the bomb in flight and an overlap with its middle strip. */
  lemma CollisionMeansCentralHit(b: BonusBomb, colArea: Area)
    ensures b.Collision(colArea) <==>
      b.bombState == InFlight && colArea.Collides(Common.Area(b.x + 10, b.y, b.x + 40, b.y + 22))
  {
  }
}
