// The game: the tick that drives every component, scoring and extra lives,
// the collisions that end spiders and the ship, and the rules that advance a
// screen and end the game. Two cross-component facts are kept as the game's
// invariant: every claim a spider holds is marked in its brick grid, and the
// bonus bomb is never hit while bricks are still queued for removal.
module Game {
  import opened Common
  import opened Animation
  import Ship
  import Missile
  import BaseBricks
  import LetterBricks
  import Mother
  import Spiders
  import Bombs
  import BonusBomb
  import SoundFx
  import Background

  const SpiderScore: seq<nat> := [40, 80, 200]
  const ExtraLifeScore: nat := 6000

  datatype State = Startup | InProgress | GameOver
  {
    predicate Playing()
    {
      match this
      case Startup => false
      case GameOver => false
      case _ => true
    }

    predicate ScreenInProgress()
    {
      this.InProgress?
    }
  }

  /**
   * Only a screen in progress is being played; the components keep moving
   * whenever the game is not paused, since a state that is not in progress is
   * not being played either.
   */
  lemma StateQueries(s: State)
    ensures s.Playing() <==> s.InProgress?
    ensures s.ScreenInProgress() <==> s.Playing()
    ensures s.ScreenInProgress() || !s.Playing()
  {
  }

  // ---------------------------------------------------------------------------
  // Score

  function Threshold(k: nat): nat
  {
    k * ExtraLifeScore
  }

  /** `increase_score` awards a life when the score moves into a higher multiple of 6000. */
  predicate ExtraLifeDue(score: nat, inc: nat)
  {
    (score + inc) / ExtraLifeScore > score / ExtraLifeScore
  }

  /** A life is due exactly when some multiple of 6000 lies in (score, score + inc]. */
  lemma ExtraLifeIffThresholdCrossed(score: nat, inc: nat)
    ensures ExtraLifeDue(score, inc) <==> exists k: nat :: score < Threshold(k) <= score + inc
  {
    var q, q' := score / ExtraLifeScore, (score + inc) / ExtraLifeScore;
    if ExtraLifeDue(score, inc) {
      assert score < Threshold(q') <= score + inc by {
        assert Threshold(q') == q' * ExtraLifeScore;
        assert (q + 1) * ExtraLifeScore > score;
      }
    }
    if exists k: nat :: score < Threshold(k) <= score + inc {
      var k: nat :| score < Threshold(k) <= score + inc;
      assert q < k && k <= q';
    }
  }

  /**
   * Scoring a spider's points twice in a row, as a carrying spider is scored,
   * awards as many lives as scoring the sum at once, as long as the sum is at
   * most 6000: two thresholds are never both crossed.
   */
  lemma DoubleScoreSameLives(score: nat, p: nat)
    requires 2 * p <= ExtraLifeScore
    ensures (if ExtraLifeDue(score, p) then 1 else 0) + (if ExtraLifeDue(score + p, p) then 1 else 0) ==
            (if ExtraLifeDue(score, 2 * p) then 1 else 0)
  {
    var q := score / ExtraLifeScore;
    assert score + 2 * p < (q + 2) * ExtraLifeScore;
    assert (score + p) / ExtraLifeScore >= q;
  }

  /** The points for a spider: by its kind, and double while it carries a brick. */
  function SpiderPoints(s: Spiders.Spider): (p: nat)
    ensures !s.state.Carry? ==> p == SpiderScore[s.kind.Index()]
    ensures s.state.Carry? ==> p == 2 * SpiderScore[s.kind.Index()]
    ensures p in {40, 80, 200, 160, 400}
  {
    var points := SpiderScore[s.kind.Index()];
    if s.state.Carry? then points + points else points
  }

  // ---------------------------------------------------------------------------
  // The bonus bomb's pacing

  /**
   * The bonus bomb against the removal queue of `q` bricks at frame `fc`,
   * with the bomb due at frame `bbf`: at most 50 bricks are queued; the bomb is
   * in flight only from its frame on and with nothing queued; and bricks stay
   * queued before the bomb's frame only while enough removal frames (multiples
   * of 15) remain before it to pop them all.
   */
  predicate QueuePaced(q: nat, inFlight: bool, fc: nat, bbf: nat)
  {
    q <= 50 &&
    (inFlight ==> q == 0 && fc >= bbf) &&
    (q > 0 && fc < bbf ==> (bbf - 1) / LetterBricks.RemovePeriod - fc / LetterBricks.RemovePeriod >= q)
  }

  /**
   * One frame of the removal queue: frame `fc + 1` pops a brick when it is a
   * removal frame. The pacing holds at the new frame, and when that frame is
   * the bomb's, the queue is empty and the bomb is not yet in flight.
   */
  lemma QueuePacedTick(q: nat, inFlight: bool, fc: nat, bbf: nat)
    requires QueuePaced(q, inFlight, fc, bbf)
    ensures var q' := if (fc + 1) % LetterBricks.RemovePeriod == 0 && q > 0 then q - 1 else q;
      QueuePaced(q', inFlight, fc + 1, bbf) &&
      (fc + 1 == bbf ==> q' == 0 && !inFlight)
  {
    var f := fc + 1;
    if f % LetterBricks.RemovePeriod == 0 {
      assert f / LetterBricks.RemovePeriod == fc / LetterBricks.RemovePeriod + 1;
    } else {
      assert f / LetterBricks.RemovePeriod == fc / LetterBricks.RemovePeriod;
    }
  }

  /** A new screen starts at frame 0 with the bomb due from frame 1200 on: anything still queued drains in time. */
  lemma QueuePacedNewScreen(q: nat, bbf: nat)
    requires q <= 50 && bbf >= Mother.BonusBombDelay
    ensures QueuePaced(q, false, 0, bbf)
  {
  }

  // ---------------------------------------------------------------------------
  // Input

  datatype Key = KeyZ | KeyX | RShift | Space | KeyP | Up | Down | OtherKey

  /** The events `update_inputs` looks at; everything else is `OtherEvent`. */
  datatype Event = KeyDown(key: Key) | KeyUp(key: Key) | OtherEvent

  /**
   * The key latches. Left, right and start follow the key; fire, pause and the
   * volume keys are set on a key press and stay set until acknowledged.
   */
  class GameInput {
    var leftPressed: bool
    var rightPressed: bool
    var firePressed: bool
    var startPressed: bool
    var pausePressed: bool
    var incVolPressed: bool
    var decVolPressed: bool

    predicate NoneLatched()
      reads this
    {
      !leftPressed && !rightPressed && !firePressed && !startPressed &&
      !pausePressed && !incVolPressed && !decVolPressed
    }

    constructor ()
      ensures NoneLatched()
    {
      leftPressed, rightPressed, firePressed, startPressed := false, false, false, false;
      pausePressed, incVolPressed, decVolPressed := false, false, false;
    }

    method Reset()
      modifies this
      ensures NoneLatched()
    {
      leftPressed, rightPressed, firePressed, startPressed := false, false, false, false;
      pausePressed, incVolPressed, decVolPressed := false, false, false;
    }

    method UpdateInputs(e: Event)
      modifies this
      ensures leftPressed == (e == KeyDown(KeyZ) || (old(leftPressed) && e != KeyUp(KeyZ)))
      ensures rightPressed == (e == KeyDown(KeyX) || (old(rightPressed) && e != KeyUp(KeyX)))
      ensures startPressed == (e == KeyDown(Space) || (old(startPressed) && e != KeyUp(Space)))
      ensures firePressed == (e == KeyDown(RShift) || old(firePressed))
      ensures pausePressed == (e == KeyDown(KeyP) || old(pausePressed))
      ensures incVolPressed == (e == KeyDown(Up) || old(incVolPressed))
      ensures decVolPressed == (e == KeyDown(Down) || old(decVolPressed))
    {
      match e {
        case KeyDown(k) =>
          match k {
            case KeyZ => leftPressed := true;
            case KeyX => rightPressed := true;
            case RShift => firePressed := true;
            case Space => startPressed := true;
            case KeyP => pausePressed := true;
            case Up => incVolPressed := true;
            case Down => decVolPressed := true;
            case OtherKey =>
          }
        case KeyUp(k) =>
          match k {
            case KeyZ => leftPressed := false;
            case KeyX => rightPressed := false;
            case Space => startPressed := false;
            case _ =>
          }
        case OtherEvent =>
      }
    }

    method AcknowledgeFire()
      modifies this`firePressed
      ensures !firePressed
    {
      firePressed := false;
    }

    method AcknowledgePause()
      modifies this`pausePressed
      ensures !pausePressed
    {
      pausePressed := false;
    }

    method AcknowledgeVolumeChange()
      modifies this`incVolPressed, this`decVolPressed
      ensures !incVolPressed && !decVolPressed
    {
      incVolPressed := false;
      decVolPressed := false;
    }
  }

  // ---------------------------------------------------------------------------
  // The random choices of one tick

  datatype TickDraws = TickDraws(spiders: seq<Spiders.Draws>, waveDraw: nat, postponeDraw: nat,
                                 typeDraw: nat, delayDraw: nat)
  {
    /** One draw record per spider, the wave rest in [200, 400), and the mother's three ranges. */
    predicate Valid()
    {
      |spiders| == Spiders.NumberOfSpiders && (forall i :: 0 <= i < |spiders| ==> spiders[i].Valid()) &&
      200 <= waveDraw < 400 && postponeDraw < 200 && typeDraw < 3 && delayDraw < 1200
    }
  }

  /**
   * How the grids change when spider `s` is hit: the claim it reports is
   * released, in the letter grid when it carries and in the base grid otherwise.
   */
  ghost predicate ClaimReleasedFrom(s: Spiders.Spider, bt: seq<bool>, bt': seq<bool>,
                                    lb: seq<LetterBricks.LetterBrick>, lb': seq<LetterBricks.LetterBrick>)
  {
    match Spiders.ReportedClaim(s)
    case None => bt' == bt && lb' == lb
    case Some(c) =>
      if s.state.Carry? then c < |lb| && lb' == lb[c := lb[c].(targetted := false)] && bt' == bt
      else c < |bt| && bt' == bt[c := false] && lb' == lb
  }

  class Game {
    var gameState: State
    const ship: Ship.Ship
    const missile: Missile.Missile
    const baseBricks: BaseBricks.BaseBricks
    const letterBricks: LetterBricks.LetterBricks
    const mother: Mother.Mother
    const spiders: Spiders.Spiders
    const bombs: Bombs.Bombs
    const bonusBomb: BonusBomb.BonusBomb
    const gameInput: GameInput
    var frameCount: nat
    var score: nat
    var screen: nat
    const soundControl: SoundFx.SoundControl
    var paused: bool
    const animations: Animations
    const background: Background.Background

    ghost function Repr(): set<object>
    {
      {this, ship, missile, baseBricks, baseBricks.filled, baseBricks.targetted, letterBricks,
       letterBricks.brick, mother, spiders, spiders.spider, bombs.bomb, bonusBomb, gameInput,
       soundControl, animations, background}
    }

    /** Every component is consistent, the claims are held, and the bonus bomb is paced at frame `fc`. */
    ghost predicate Consistent(fc: nat)
      reads ship, baseBricks, baseBricks.filled, baseBricks.targetted, letterBricks,
            letterBricks.brick, mother, spiders, spiders.spider, bombs, bonusBomb, soundControl,
            animations, background
    {
      ship.Valid() && baseBricks.Valid() && letterBricks.Valid() && bombs.Valid() && spiders.Valid() &&
      mother.Valid() && animations.Valid() && soundControl.Valid() && background.Valid() &&
      Spiders.ClaimsHeld(spiders.spider[..], baseBricks.targetted[..], letterBricks.brick[..]) &&
      spiders.lastLaunchFrame <= fc &&
      QueuePaced(|letterBricks.toRemove|, bonusBomb.InFlight(), fc, mother.bonusBombFrame)
    }

    ghost predicate Valid()
      reads this, ship, baseBricks, baseBricks.filled, baseBricks.targetted, letterBricks,
            letterBricks.brick, mother, spiders, spiders.spider, bombs, bonusBomb, soundControl,
            animations, background
    {
      Consistent(frameCount)
    }

    /** The components that hold no claim: each consistent on its own, the bonus bomb at rest. */
    static method NewParts() returns (ship: Ship.Ship, missile: Missile.Missile, mother: Mother.Mother,
                                      bombs: Bombs.Bombs, bonusBomb: BonusBomb.BonusBomb, soundControl: SoundFx.SoundControl,
                                      animations: Animations, background: Background.Background)
      ensures fresh(ship) && fresh(missile) && fresh(mother) && fresh(bombs) && fresh(bombs.bomb) && fresh(bonusBomb)
      ensures fresh(soundControl) && fresh(animations) && fresh(background)
      ensures ship.Valid() && mother.Valid() && bombs.Valid() && soundControl.Valid() && animations.Valid() && background.Valid()
      ensures !bonusBomb.InFlight()
    {
      ship := new Ship.Ship();
      missile := new Missile.Missile();
      mother := new Mother.Mother();
      bombs := new Bombs.Bombs();
      bonusBomb := new BonusBomb.BonusBomb();
      soundControl := new SoundFx.SoundControl();
      animations := new Animations();
      background := new Background.Background();
    }

    /** The grids and the roster: consistent, nothing queued, and no claim held. */
    static method NewGrids() returns (baseBricks: BaseBricks.BaseBricks, letterBricks: LetterBricks.LetterBricks,
                                      spiders: Spiders.Spiders)
      ensures fresh(baseBricks) && fresh(baseBricks.filled) && fresh(baseBricks.targetted)
      ensures fresh(letterBricks) && fresh(letterBricks.brick) && fresh(spiders) && fresh(spiders.spider)
      ensures baseBricks.Valid() && letterBricks.Valid() && spiders.Valid()
      ensures letterBricks.toRemove == [] && spiders.lastLaunchFrame == 0
      ensures Spiders.ClaimsHeld(spiders.spider[..], baseBricks.targetted[..], letterBricks.brick[..])
    {
      baseBricks := new BaseBricks.BaseBricks();
      letterBricks := new LetterBricks.LetterBricks();
      spiders := new Spiders.Spiders();
      Spiders.NoClaimsHeld(spiders.spider[..], baseBricks.targetted[..], letterBricks.brick[..]);
    }

    constructor ()
      ensures Valid()
      ensures fresh(ship) && fresh(missile) && fresh(mother) && fresh(bombs) && fresh(bombs.bomb) && fresh(bonusBomb)
      ensures fresh(baseBricks) && fresh(baseBricks.filled) && fresh(baseBricks.targetted)
      ensures fresh(letterBricks) && fresh(letterBricks.brick) && fresh(spiders) && fresh(spiders.spider)
      ensures fresh(gameInput) && fresh(soundControl) && fresh(animations) && fresh(background)
      ensures gameState == Startup && frameCount == 0 && score == 0 && screen == 0 && !paused
    {
      gameState := Startup;
      frameCount, score, screen, paused := 0, 0, 0, false;
      gameInput := new GameInput();
      var sh, mi, mo, bo, bb, so, an, ba := NewParts();
      var bases, letters, roster := NewGrids();
      ship, missile, mother, bombs, bonusBomb, soundControl, animations, background := sh, mi, mo, bo, bb, so, an, ba;
      baseBricks, letterBricks, spiders := bases, letters, roster;
    }

    /** Adds `inc` and awards a life when the score enters a higher multiple of 6000. */
    method IncreaseScore(inc: nat)
      requires animations.Valid()
      modifies this`score, ship, animations
      ensures score == old(score) + inc
      ensures ship.lives == old(ship.lives) + (if ExtraLifeDue(old(score), inc) then 1 else 0)
      ensures ship.x == old(ship.x) && ship.state == old(ship.state)
      ensures animations.Valid()
      ensures animations.animation ==
        old(animations.animation) + (if ExtraLifeDue(old(score), inc) then [NewAnimation(ExtraLife)] else [])
    {
      var q := score / ExtraLifeScore;
      score := score + inc;
      if score / ExtraLifeScore > q {
        ship.AwardExtraLife(animations);
      }
    }

    /** Announces the screen now starting. */
    method ScreenStart()
      requires Valid()
      modifies animations
      ensures Valid()
      ensures animations.animation == old(animations.animation) + [NewAnimation(AnimationSeq.ScreenStart(screen))]
    {
      var a := NewAnimation(AnimationSeq.ScreenStart(screen));
      animations.Register(a);
    }

    /** Gives up the claim spider `spiderId` reports: in the letter grid if it carries, else in the base grid. */
    method ReleaseClaim(spiderId: nat)
      requires spiderId < Spiders.NumberOfSpiders && spiders.Valid()
      requires baseBricks.Valid() && letterBricks.Valid()
      requires Spiders.ClaimsHeld(spiders.spider[..], baseBricks.targetted[..], letterBricks.brick[..])
      modifies baseBricks.targetted, letterBricks.brick
      ensures baseBricks.Valid() && letterBricks.Valid()
      ensures ClaimReleasedFrom(spiders.spider[spiderId], old(baseBricks.targetted[..]), baseBricks.targetted[..],
                                old(letterBricks.brick[..]), letterBricks.brick[..])
    {
      ghost var s := spiders.spider[spiderId];
      assert Spiders.ClaimMarked(spiders.spider[..][spiderId], baseBricks.targetted[..], letterBricks.brick[..]);
      var targetBrickId := spiders.TargetBrickId(spiderId);
      if targetBrickId.Some? {
        if spiders.Carrying(spiderId) {
          letterBricks.Untarget(targetBrickId.value);
        } else {
          baseBricks.Untarget(targetBrickId.value);
        }
      }
    }

    /**
     * The claims are still held once spider `i` of `ss` is dead and the claim it
     * reported has been released from the grids.
     */
    static lemma ClaimsHeldAfterKill(ss: seq<Spiders.Spider>, i: nat, bt: seq<bool>, bt': seq<bool>,
                                     lb: seq<LetterBricks.LetterBrick>, lb': seq<LetterBricks.LetterBrick>)
      requires Spiders.ClaimsHeld(ss, bt, lb) && i < |ss|
      requires ClaimReleasedFrom(ss[i], bt, bt', lb, lb')
      ensures Spiders.ClaimsHeld(ss[i := ss[i].(state := Spiders.Dead)], bt', lb')
    {
      assert Spiders.ClaimMarked(ss[i], bt, lb);
      Spiders.ClaimReleased(ss, i, bt, lb, bt', lb');
    }

    /**
     * The end of spider `id`, hit by the missile or the ship: the claim it
     * reports is released and the spider is killed.
     */
    method KillSpider(ghost clock: nat, id: nat)
      requires Consistent(clock) && id < Spiders.NumberOfSpiders && Spiders.Hittable(spiders.spider[id].state)
      modifies baseBricks.targetted, letterBricks.brick, spiders, spiders.spider, animations
      ensures Consistent(clock)
      ensures spiders.spider[..] == old(spiders.spider[..])[id := old(spiders.spider[id]).(state := Spiders.Dead)]
      ensures ClaimReleasedFrom(old(spiders.spider[id]),
        old(baseBricks.targetted[..]), baseBricks.targetted[..], old(letterBricks.brick[..]), letterBricks.brick[..])
    {
      ghost var ss, bt, lb := spiders.spider[..], baseBricks.targetted[..], letterBricks.brick[..];
      Spiders.HitSpiderIsCounted(spiders, id);
      ReleaseClaim(id);
      spiders.Kill(id, animations);
      ClaimsHeldAfterKill(ss, id, bt, baseBricks.targetted[..], lb, letterBricks.brick[..]);
    }

    /** A spider's `points` are scored, a second time when it was carrying. */
    method ScoreSpider(ghost clock: nat, points: nat, carrying: bool)
      requires Consistent(clock) && 2 * points <= ExtraLifeScore
      modifies this`score, ship, animations
      ensures Consistent(clock)
      ensures score == old(score) + (if carrying then 2 * points else points)
      ensures ship.lives == old(ship.lives) + (if ExtraLifeDue(old(score), score - old(score)) then 1 else 0)
      ensures ship.x == old(ship.x) && ship.state == old(ship.state)
    {
      ghost var score0 := score;
      IncreaseScore(points);
      if carrying {
        IncreaseScore(points);
        DoubleScoreSameLives(score0, points);
      }
    }

    /**
     * A missile hit on spider `id`: the flight ends, the spider's points are
     * scored (a second time when it carries), its claim is released and it is
     * killed. `missile_collision` releases the claim first; the release
     * touches only the grids, which the flight and the score do not, so the
     * outcome is the same.
     */
    method ShootSpider(ghost clock: nat, id: nat)
      requires Consistent(clock) && id < Spiders.NumberOfSpiders && Spiders.Hittable(spiders.spider[id].state)
      modifies this`score, ship, missile, baseBricks.targetted, letterBricks.brick, spiders, spiders.spider, animations
      ensures Consistent(clock)
      ensures !missile.inFlight
      ensures spiders.spider[..] == old(spiders.spider[..])[id := old(spiders.spider[id]).(state := Spiders.Dead)]
      ensures ClaimReleasedFrom(old(spiders.spider[id]),
        old(baseBricks.targetted[..]), baseBricks.targetted[..], old(letterBricks.brick[..]), letterBricks.brick[..])
      ensures score == old(score) + SpiderPoints(old(spiders.spider[id]))
      ensures ship.lives == old(ship.lives) + (if ExtraLifeDue(old(score), SpiderPoints(old(spiders.spider[id]))) then 1 else 0)
      ensures ship.x == old(ship.x) && ship.state == old(ship.state)
    {
      missile.TerminateFlight();
      var points := SpiderScore[spiders.SpiderType(id)];
      var carrying := spiders.Carrying(id);
      ScoreSpider(clock, points, carrying);
      KillSpider(clock, id);
    }

    /** The flying missile against the roster: the first spider it hits, if any, is shot. */
    method MissileStrike(ghost clock: nat) returns (hit: Option<nat>)
      requires Consistent(clock) && missile.inFlight
      modifies this`score, ship, missile, baseBricks.targetted, letterBricks.brick, spiders, spiders.spider, animations
      ensures Consistent(clock)
      ensures hit.None? ==> Spiders.NoSpiderHit(old(spiders.spider[..]), old(missile.Area()))
      ensures hit.None? ==> unchanged(this, ship, missile, spiders, spiders.spider, baseBricks.targetted, letterBricks.brick)
      ensures hit.Some? ==> Spiders.FirstSpiderHit(old(spiders.spider[..]), old(missile.Area()), hit.value)
      ensures hit.Some? ==> (!missile.inFlight &&
        spiders.spider[..] == old(spiders.spider[..])[hit.value := old(spiders.spider[hit.value]).(state := Spiders.Dead)])
      ensures hit.Some? ==> ClaimReleasedFrom(old(spiders.spider[hit.value]),
        old(baseBricks.targetted[..]), baseBricks.targetted[..], old(letterBricks.brick[..]), letterBricks.brick[..])
      ensures hit.Some? ==> score == old(score) + SpiderPoints(old(spiders.spider[hit.value]))
      ensures ship.lives == old(ship.lives) + (if ExtraLifeDue(old(score), score - old(score)) then 1 else 0)
      ensures ship.x == old(ship.x) && ship.state == old(ship.state)
    {
      hit := spiders.Collision(missile.Area());
      if hit.Some? {
        ShootSpider(clock, hit.value);
      }
    }

    /**
     * `missile_collision`: a flying missile that hits a spider releases the
     * spider's claim, ends its flight, scores the spider's points (twice for a
     * carrying spider) and kills the spider.
     */
    method MissileCollision(ghost clock: nat) returns (hit: Option<nat>)
      requires Consistent(clock)
      modifies this`score, ship, missile, baseBricks.targetted, letterBricks.brick, spiders, spiders.spider, animations
      ensures Consistent(clock)
      ensures hit.None? ==> !old(missile.inFlight) || Spiders.NoSpiderHit(old(spiders.spider[..]), old(missile.Area()))
      ensures hit.None? ==> (score == old(score) && missile.inFlight == old(missile.inFlight) &&
        spiders.spider[..] == old(spiders.spider[..]) && baseBricks.targetted[..] == old(baseBricks.targetted[..]) &&
        letterBricks.brick[..] == old(letterBricks.brick[..]) && ship.lives == old(ship.lives))
      ensures hit.Some? ==> old(missile.inFlight) && Spiders.FirstSpiderHit(old(spiders.spider[..]), old(missile.Area()), hit.value)
      ensures hit.Some? ==> (!missile.inFlight &&
        spiders.spider[..] == old(spiders.spider[..])[hit.value := old(spiders.spider[hit.value]).(state := Spiders.Dead)])
      ensures hit.Some? ==> ClaimReleasedFrom(old(spiders.spider[hit.value]),
        old(baseBricks.targetted[..]), baseBricks.targetted[..], old(letterBricks.brick[..]), letterBricks.brick[..])
      ensures hit.Some? ==> score == old(score) + SpiderPoints(old(spiders.spider[hit.value]))
      ensures ship.lives == old(ship.lives) + (if ExtraLifeDue(old(score), score - old(score)) then 1 else 0)
      ensures ship.x == old(ship.x) && ship.state == old(ship.state)
    {
      if missile.Flying() {
        hit := MissileStrike(clock);
      } else {
        hit := None;
      }
    }

    /** A live ship is killed: it waits for the changeover, back at its home position. */
    method KillShip(ghost clock: nat)
      requires Consistent(clock)
      modifies ship, animations
      ensures Consistent(clock) && ship.lives == old(ship.lives)
      ensures old(ship.state).Alive? ==>
        ship.state == Ship.WaitForChangeOver(Ship.MinFramesBeforeChangeover) && ship.x == Ship.HomeX
      ensures !old(ship.state).Alive? ==> ship.state == old(ship.state) && ship.x == old(ship.x)
    {
      ship.Kill(animations);
    }

    /** `bomb_collision`: a live ship hit by a bomb retires the bomb and is killed. */
    method BombCollision(ghost clock: nat) returns (hit: bool)
      requires Consistent(clock)
      modifies ship, bombs.bomb, animations
      ensures Consistent(clock) && ship.lives == old(ship.lives)
      ensures hit <==> old(ship.state).Alive? && exists k :: 0 <= k < Bombs.MaxBombs && Bombs.Hits(old(bombs.bomb[k]), old(ship.Area()))
      ensures hit ==> ship.state == Ship.WaitForChangeOver(Ship.MinFramesBeforeChangeover) && ship.x == Ship.HomeX
      ensures hit ==> exists k :: Bombs.FirstHit(old(bombs.bomb[..]), old(ship.Area()), k) &&
                                  bombs.bomb[..] == old(bombs.bomb[..])[k := old(bombs.bomb[k]).(inFlight := false)]
      ensures !hit ==> ship.state == old(ship.state) && ship.x == old(ship.x) && bombs.bomb[..] == old(bombs.bomb[..])
    {
      hit := false;
      if ship.Alive() {
        hit := bombs.Collision(ship.Area());
        if hit {
          KillShip(clock);
        }
      }
    }

    /**
     * The ship running into spider `id`, in the order `spider_collision` takes:
     * the claim is released, then the spider and the ship are killed.
     */
    method RamSpider(ghost clock: nat, id: nat)
      requires Consistent(clock) && id < Spiders.NumberOfSpiders && Spiders.Hittable(spiders.spider[id].state)
      requires ship.state.Alive?
      modifies ship, baseBricks.targetted, letterBricks.brick, spiders, spiders.spider, animations
      ensures Consistent(clock) && ship.lives == old(ship.lives)
      ensures ship.state == Ship.WaitForChangeOver(Ship.MinFramesBeforeChangeover) && ship.x == Ship.HomeX
      ensures spiders.spider[..] == old(spiders.spider[..])[id := old(spiders.spider[id]).(state := Spiders.Dead)]
      ensures ClaimReleasedFrom(old(spiders.spider[id]),
        old(baseBricks.targetted[..]), baseBricks.targetted[..], old(letterBricks.brick[..]), letterBricks.brick[..])
    {
      KillSpider(clock, id);
      KillShip(clock);
    }

    /**
     * `spider_collision`: a live ship that touches a spider releases the
     * spider's claim and kills both the spider and the ship. No points.
     */
    method SpiderCollision(ghost clock: nat) returns (hit: Option<nat>)
      requires Consistent(clock)
      modifies ship, baseBricks.targetted, letterBricks.brick, spiders, spiders.spider, animations
      ensures Consistent(clock) && ship.lives == old(ship.lives)
      ensures hit.None? ==> !old(ship.state).Alive? || Spiders.NoSpiderHit(old(spiders.spider[..]), old(ship.Area()))
      ensures hit.None? ==> (ship.state == old(ship.state) && ship.x == old(ship.x) &&
        spiders.spider[..] == old(spiders.spider[..]) && baseBricks.targetted[..] == old(baseBricks.targetted[..]) &&
        letterBricks.brick[..] == old(letterBricks.brick[..]))
      ensures hit.Some? ==> old(ship.state).Alive? && Spiders.FirstSpiderHit(old(spiders.spider[..]), old(ship.Area()), hit.value)
      ensures hit.Some? ==> (ship.state == Ship.WaitForChangeOver(Ship.MinFramesBeforeChangeover) && ship.x == Ship.HomeX &&
        spiders.spider[..] == old(spiders.spider[..])[hit.value := old(spiders.spider[hit.value]).(state := Spiders.Dead)])
      ensures hit.Some? ==> ClaimReleasedFrom(old(spiders.spider[hit.value]),
        old(baseBricks.targetted[..]), baseBricks.targetted[..], old(letterBricks.brick[..]), letterBricks.brick[..])
    {
      hit := None;
      if ship.Alive() {
        hit := spiders.Collision(ship.Area());
        if hit.Some? {
          RamSpider(clock, hit.value);
        }
      }
    }

    /**
     * A missile hit on the bonus bomb: the flight ends, the bomb is scored and
     * its bricks are queued for removal. The queue is empty whenever the bomb
     * flies, so the removal starts afresh.
     */
    method ShootBonusBomb(ghost clock: nat)
      requires Consistent(clock) && bonusBomb.InFlight()
      modifies this`score, ship, missile, bonusBomb, letterBricks, animations
      ensures Consistent(clock)
      ensures !missile.inFlight && !bonusBomb.InFlight() && score == old(score) + old(bonusBomb.Score())
      ensures letterBricks.toRemove == LetterBricks.Reverse(LetterBricks.RemovalScan(letterBricks.brick[..],
        LetterBricks.BricksQty, 0, bonusBomb.bombType.Value()))
      ensures letterBricks.brick[..] == old(letterBricks.brick[..]) && letterBricks.qtyFilled == old(letterBricks.qtyFilled)
      ensures ship.lives == old(ship.lives) + (if ExtraLifeDue(old(score), old(bonusBomb.Score())) then 1 else 0)
      ensures ship.x == old(ship.x) && ship.state == old(ship.state)
    {
      missile.TerminateFlight();
      var points := bonusBomb.Score();
      IncreaseScore(points);
      assert letterBricks.toRemove == [];
      bonusBomb.AchieveBonus(letterBricks, animations);
      assert [] + LetterBricks.RemovalScan(letterBricks.brick[..], LetterBricks.BricksQty, 0, bonusBomb.bombType.Value()) ==
        LetterBricks.RemovalScan(letterBricks.brick[..], LetterBricks.BricksQty, 0, bonusBomb.bombType.Value());
      LetterBricks.RemovalQueueFromEmpty(letterBricks.brick[..], bonusBomb.bombType.Value());
    }

    /**
     * `bonus_bomb_collision`: a flying missile that hits the bonus bomb ends its
     * flight, scores the bomb and queues its bricks for removal.
     */
    method BonusBombCollision(ghost clock: nat) returns (hit: bool)
      requires Consistent(clock)
      modifies this`score, ship, missile, bonusBomb, letterBricks, animations
      ensures Consistent(clock)
      ensures hit <==> old(missile.inFlight) && old(bonusBomb.Collision(missile.Area()))
      ensures hit ==> (!missile.inFlight && !bonusBomb.InFlight() && score == old(score) + old(bonusBomb.Score()) &&
        letterBricks.toRemove == LetterBricks.Reverse(LetterBricks.RemovalScan(letterBricks.brick[..],
          LetterBricks.BricksQty, 0, bonusBomb.bombType.Value())))
      ensures !hit ==> (score == old(score) && missile.inFlight == old(missile.inFlight) &&
        bonusBomb.bombState == old(bonusBomb.bombState) && letterBricks.toRemove == old(letterBricks.toRemove))
      ensures letterBricks.brick[..] == old(letterBricks.brick[..]) && letterBricks.qtyFilled == old(letterBricks.qtyFilled)
      ensures ship.lives == old(ship.lives) + (if ExtraLifeDue(old(score), score - old(score)) then 1 else 0)
      ensures ship.x == old(ship.x) && ship.state == old(ship.state)
    {
      hit := missile.Flying() && bonusBomb.Collision(missile.Area());
      if hit {
        ShootBonusBomb(clock);
      }
    }

    /** The ship gets its next life once the screen is quiet and the wait is over. */
    method Changeover(ghost clock: nat)
      requires Consistent(clock)
      modifies ship
      ensures Consistent(clock) && ship.x == old(ship.x)
      ensures if old(ship.EnoughDelayForChangeover()) && spiders.Clear() && !bombs.InFlight() && !missile.inFlight
        then (old(ship.lives) > 0 ==> ship.state == Ship.ChangeOver(0) && ship.lives == old(ship.lives) - 1) &&
             (old(ship.lives) == 0 ==> ship.state == old(ship.state) && ship.lives == 0)
        else ship.state == old(ship.state) && ship.lives == old(ship.lives)
    {
      if ship.WaitingForChangeover() && spiders.Clear() && !bombs.InFlight() && !missile.Flying() &&
         ship.EnoughDelayForChangeover() {
        ship.ProceedWithChangeover();
      }
    }

    /** The game is over once the letters are complete or no life is left. */
    method CheckGameOver(ghost clock: nat)
      requires Consistent(clock)
      modifies this`gameState
      ensures Consistent(clock)
      ensures gameState == if letterBricks.Complete() || !ship.LifeLeft() then GameOver else old(gameState)
    {
      if letterBricks.Complete() || !ship.LifeLeft() {
        gameState := GameOver;
      }
    }

    /** The missile and the ship advance by a tick. */
    method AdvanceShip(ghost clock: nat)
      requires Consistent(clock)
      modifies ship, missile
      ensures Consistent(clock) && ship.lives == old(ship.lives) && ship.x == old(ship.x)
      ensures missile.inFlight == (old(missile.inFlight) && old(missile.y) >= Missile.MissileSpeed)
      ensures missile.x == old(missile.x)
      ensures missile.y == if old(missile.inFlight) then old(missile.y) - Missile.MissileSpeed else old(missile.y)
      ensures ship.state == Ship.Step(old(ship.state))
    {
      missile.Update();
      ship.Update();
    }

    /** The ship follows the left key, or else the right key, one step while alive and inside the screen. */
    method MoveShip(ghost clock: nat)
      requires Consistent(clock)
      modifies ship
      ensures Consistent(clock) && ship.lives == old(ship.lives) && ship.state == old(ship.state)
      ensures ship.x == if gameInput.leftPressed && ship.state.Alive? && old(ship.x) > 0 then old(ship.x) - Ship.ShipSpeed
        else if !gameInput.leftPressed && gameInput.rightPressed && ship.state.Alive? && old(ship.x) < 570
        then old(ship.x) + Ship.ShipSpeed
        else old(ship.x)
    {
      if gameInput.leftPressed {
        ship.MoveLeft();
      } else if gameInput.rightPressed {
        ship.MoveRight();
      }
    }

    /** A latched fire key launches the missile, when the ship is alive and none is flying, and is acknowledged. */
    method FireControl(ghost clock: nat)
      requires Consistent(clock)
      modifies missile, gameInput`firePressed
      ensures Consistent(clock) && !gameInput.firePressed
      ensures old(gameInput.firePressed) && ship.state.Alive? && !old(missile.inFlight) ==>
        missile.inFlight && missile.x == ship.x + Ship.ShipWidth / 2 - 1 && missile.y == Ship.ShipY - Missile.MissileHeight
      ensures !(old(gameInput.firePressed) && ship.state.Alive? && !old(missile.inFlight)) ==>
        missile.inFlight == old(missile.inFlight) && missile.x == old(missile.x) && missile.y == old(missile.y)
    {
      if gameInput.firePressed {
        ship.LaunchMissile(missile);
        gameInput.AcknowledgeFire();
      }
    }

    /** The missile against the bonus bomb, then against the spiders. */
    method Shots(ghost clock: nat)
      requires Consistent(clock)
      modifies this`score, ship, missile, baseBricks.targetted, letterBricks,
               letterBricks.brick, spiders, spiders.spider, bonusBomb, animations
      ensures Consistent(clock)
      ensures score >= old(score)
    {
      var bonusHit := BonusBombCollision(clock);
      var missileHit := MissileCollision(clock);
    }

    /** The ship against the bombs, then against the spiders. */
    method ShipHits(ghost clock: nat)
      requires Consistent(clock)
      modifies ship, baseBricks.targetted, letterBricks.brick, spiders, spiders.spider, bombs.bomb, animations
      ensures Consistent(clock)
    {
      var bombHit := BombCollision(clock);
      var spiderHit := SpiderCollision(clock);
    }

    /** The four collision checks of a playing tick, in order; only hits score. */
    method Collisions(ghost clock: nat)
      requires Consistent(clock)
      modifies this`score, ship, missile, baseBricks.targetted, letterBricks,
               letterBricks.brick, spiders, spiders.spider, bombs.bomb, bonusBomb, animations
      ensures Consistent(clock)
      ensures score >= old(score)
    {
      Shots(clock);
      ShipHits(clock);
    }

    /** The ship's next life, then the end of the game when it is due. */
    method Referee(ghost clock: nat)
      requires Consistent(clock) && gameState.Playing()
      modifies this`gameState, ship
      ensures Consistent(clock)
      ensures gameState == InProgress || gameState == GameOver
    {
      Changeover(clock);
      CheckGameOver(clock);
    }

    /** The ship and the missile advance, then the ship follows the keys and fires. */
    method PlayerTick(ghost clock: nat)
      requires Consistent(clock)
      modifies ship, missile, gameInput`firePressed
      ensures Consistent(clock)
    {
      AdvanceShip(clock);
      MoveShip(clock);
      FireControl(clock);
    }

    /** The part of a tick that only runs while playing: the collisions, the ship and its controls. */
    method PlayingTick(ghost clock: nat)
      requires Consistent(clock) && gameState.Playing()
      modifies this`score, this`gameState, ship, missile, baseBricks.targetted, letterBricks,
               letterBricks.brick, spiders, spiders.spider, bombs.bomb, bonusBomb, gameInput`firePressed, animations
      ensures Consistent(clock)
      ensures gameState == InProgress || gameState == GameOver
      ensures score >= old(score)
    {
      Collisions(clock);
      Referee(clock);
      PlayerTick(clock);
    }

    /** The base piles refill or slide; the claims on them survive either way. */
    method BaseTick(ghost clock: nat)
      requires Consistent(clock)
      modifies baseBricks, baseBricks.filled, baseBricks.targetted
      ensures Consistent(clock)
      ensures old(baseBricks.qtyFilled) == 0 ==> baseBricks.qtyFilled == BaseBricks.BrickQty
      ensures old(baseBricks.qtyFilled) != 0 ==> baseBricks.qtyFilled == old(baseBricks.qtyFilled)
      ensures old(baseBricks.qtyFilled) != 0 ==>
        baseBricks.filled[..] == old(baseBricks.filled[..]) && baseBricks.targetted[..] == old(baseBricks.targetted[..])
    {
      ghost var bt0 := baseBricks.targetted[..];
      if baseBricks.qtyFilled == 0 {
        forall k | 0 <= k < BaseBricks.BrickQty
          ensures !baseBricks.targetted[k]
        {
          if baseBricks.targetted[k] {
            BaseBricks.CountTruePositive(baseBricks.filled[..], k);
          }
        }
      }
      baseBricks.Update();
      Spiders.ClaimsHeldWeaken(spiders.spider[..], bt0, letterBricks.brick[..], baseBricks.targetted[..], letterBricks.brick[..]);
    }

    /**
     * The removal queue at the frame just counted: a brick is popped on a
     * removal frame. The bomb stays paced, and on the bomb's own frame nothing
     * is queued and the bomb is not yet in flight.
     */
    method LettersTick(ghost clock: nat)
      requires Consistent(clock) && frameCount == clock + 1
      modifies letterBricks, letterBricks.brick
      ensures Consistent(frameCount)
      ensures frameCount == mother.bonusBombFrame ==> letterBricks.toRemove == [] && !bonusBomb.InFlight()
    {
      ghost var lb0 := letterBricks.brick[..];
      QueuePacedTick(|letterBricks.toRemove|, bonusBomb.InFlight(), clock, mother.bonusBombFrame);
      letterBricks.Update(frameCount);
      Spiders.ClaimsHeldWeaken(spiders.spider[..], baseBricks.targetted[..], lb0, baseBricks.targetted[..], letterBricks.brick[..]);
    }

    /** The base piles, then the removal queue, at the frame just counted. */
    method GridsTick(ghost clock: nat)
      requires Consistent(clock) && frameCount == clock + 1
      modifies baseBricks, baseBricks.filled, baseBricks.targetted, letterBricks, letterBricks.brick
      ensures Consistent(frameCount)
      ensures frameCount == mother.bonusBombFrame ==> letterBricks.toRemove == [] && !bonusBomb.InFlight()
    {
      BaseTick(clock);
      LettersTick(clock);
    }

    /** The bombs fall. */
    method BombsTick()
      requires Valid()
      modifies bombs.bomb
      ensures Valid()
      ensures forall i :: 0 <= i < Bombs.MaxBombs ==> bombs.bomb[i] == old(bombs.bomb[i]).Updated()
    {
      bombs.Update();
    }

    /**
     * The bonus bomb falls, then the mother moves and, on the bomb's frame,
     * launches it (or, when `restrict` holds, postpones it by 100 + `postponeDraw`).
     */
    method MotherTick(restrict: bool, postponeDraw: nat, typeDraw: nat)
      requires Valid() && postponeDraw < 200 && typeDraw < 3
      requires frameCount == mother.bonusBombFrame ==> letterBricks.toRemove == [] && !bonusBomb.InFlight()
      modifies bonusBomb, mother
      ensures Valid()
    {
      bonusBomb.Update();
      mother.Update(bonusBomb, restrict, frameCount, postponeDraw, typeDraw);
    }

    /** The spiders' tick, with the grids and the bombs they act on. */
    method SpidersTick(restrict: bool, d: TickDraws)
      requires Valid() && d.Valid()
      modifies baseBricks, baseBricks.filled, baseBricks.targetted, letterBricks`qtyFilled, letterBricks.brick,
               bombs.bomb, spiders, spiders.spider
      ensures Valid()
    {
      spiders.Update(mother, baseBricks, letterBricks, bombs, restrict, frameCount, d.waveDraw, d.spiders);
    }

    /**
     * The components' own updates, at the frame just counted: the grids, the
     * bonus bomb and the mother, the bombs, then the spiders.
     */
    method WorldTick(ghost clock: nat, restrict: bool, d: TickDraws)
      requires Consistent(clock) && frameCount == clock + 1 && d.Valid()
      modifies baseBricks, baseBricks.filled, baseBricks.targetted, letterBricks, letterBricks.brick,
               bonusBomb, mother, bombs.bomb, spiders, spiders.spider
      ensures Valid()
    {
      GridsTick(clock);
      MotherTick(restrict, d.postponeDraw, d.typeDraw);
      BombsTick();
      SpidersTick(restrict, d);
    }

    /** Screen `n` is entered and the roster refilled for it; with every spider back in its nest no claim is held. */
    method RefillRoster(ghost clock: nat, n: nat)
      requires Consistent(clock)
      modifies this`screen, spiders, spiders.spider
      ensures Consistent(clock) && screen == n
      ensures gameState == old(gameState) && score == old(score) && paused == old(paused) && frameCount == old(frameCount)
      ensures spiders.spidersLeft == Spiders.NumberOfSpiders && spiders.nextSpiderLaunch == 0
      ensures spiders.maxSpidersInFlight ==
        (if Spiders.InitInFlight + screen - 1 < Spiders.MaxInFlight then Spiders.InitInFlight + screen - 1 else Spiders.MaxInFlight)
      ensures forall i :: 0 <= i < Spiders.NumberOfSpiders ==> spiders.spider[i].state.Nestle?
      ensures spiders.lastLaunchFrame == 0
    {
      screen := n;
      spiders.Reset(screen);
      Spiders.NoClaimsHeld(spiders.spider[..], baseBricks.targetted[..], letterBricks.brick[..]);
    }

    /**
     * The clock restarts at frame 0 with the mother's bonus rescheduled (and
     * the mother sent home when `home` holds) and the bonus bomb stopped. The
     * bricks still queued drain before the bomb is due.
     */
    method RestartClock(delayDraw: nat, home: bool)
      requires Valid() && delayDraw < 1200 && spiders.lastLaunchFrame == 0
      modifies this`frameCount, mother, bonusBomb
      ensures Valid()
      ensures frameCount == 0 && !bonusBomb.InFlight() && mother.bonusBombFrame == 1200 + delayDraw
    {
      if home {
        mother.FullReset(delayDraw);
      } else {
        mother.Reset(delayDraw);
      }
      bonusBomb.Reset();
      frameCount := 0;
      QueuePacedNewScreen(|letterBricks.toRemove|, mother.bonusBombFrame);
    }

    /**
     * Screen `n` is set up at frame 0: the roster is refilled and the clock
     * restarted. The screen number is set first, since the roster's cap
     * depends on it; `spiders.reset` runs after the mother and the bonus bomb
     * are reset, and touches neither.
     */
    method SetUpScreen(n: nat, delayDraw: nat, home: bool)
      requires Valid() && delayDraw < 1200
      modifies this`screen, this`frameCount, mother, bonusBomb, spiders, spiders.spider
      ensures Valid()
      ensures screen == n && frameCount == 0 && !bonusBomb.InFlight()
      ensures gameState == old(gameState) && score == old(score) && paused == old(paused)
      ensures mother.bonusBombFrame == 1200 + delayDraw
      ensures spiders.spidersLeft == Spiders.NumberOfSpiders && spiders.nextSpiderLaunch == 0
      ensures spiders.maxSpidersInFlight ==
        (if Spiders.InitInFlight + n - 1 < Spiders.MaxInFlight then Spiders.InitInFlight + n - 1 else Spiders.MaxInFlight)
      ensures forall i :: 0 <= i < Spiders.NumberOfSpiders ==> spiders.spider[i].state.Nestle?
    {
      RefillRoster(frameCount, n);
      RestartClock(delayDraw, home);
    }

    /** The next screen starts, and is announced. */
    method NextScreen(delayDraw: nat)
      requires Valid() && delayDraw < 1200
      modifies this`screen, this`frameCount, mother, bonusBomb, spiders, spiders.spider, animations
      ensures Valid()
      ensures screen == old(screen) + 1 && frameCount == 0 && !bonusBomb.InFlight()
      ensures gameState == old(gameState) && score == old(score) && paused == old(paused)
      ensures mother.bonusBombFrame == 1200 + delayDraw
      ensures spiders.spidersLeft == Spiders.NumberOfSpiders && spiders.nextSpiderLaunch == 0
      ensures spiders.maxSpidersInFlight ==
        (if Spiders.InitInFlight + screen - 1 < Spiders.MaxInFlight then Spiders.InitInFlight + screen - 1 else Spiders.MaxInFlight)
    {
      SetUpScreen(screen + 1, delayDraw, false);
      ScreenStart();
    }

    /** A screen in progress with no spider left and no bomb falling is over. */
    method ScreenAdvance(delayDraw: nat)
      requires Valid() && delayDraw < 1200
      modifies this`screen, this`frameCount, mother, bonusBomb, spiders, spiders.spider, animations
      ensures Valid()
      ensures gameState == old(gameState) && score == old(score) && paused == old(paused)
      ensures if old(gameState.ScreenInProgress() && !spiders.SpidersRemain() && !bombs.InFlight()) then
          screen == old(screen) + 1 && frameCount == 0 && !bonusBomb.InFlight() &&
          mother.bonusBombFrame == 1200 + delayDraw &&
          spiders.spidersLeft == Spiders.NumberOfSpiders && spiders.nextSpiderLaunch == 0 &&
          spiders.maxSpidersInFlight ==
            (if Spiders.InitInFlight + screen - 1 < Spiders.MaxInFlight then Spiders.InitInFlight + screen - 1 else Spiders.MaxInFlight)
        else
          screen == old(screen) && frameCount == old(frameCount) &&
          spiders.spider[..] == old(spiders.spider[..]) && spiders.spidersLeft == old(spiders.spidersLeft)
    {
      if gameState.ScreenInProgress() && !spiders.SpidersRemain() && !bombs.InFlight() {
        NextScreen(delayDraw);
      }
    }

    /** The ship and missile are reset, the score cleared, the keys released, and the first life begins its changeover. */
    method ResetPlayer(ghost clock: nat)
      requires Consistent(clock)
      modifies this`score, ship, missile, gameInput
      ensures Consistent(clock)
      ensures gameState == old(gameState) && screen == old(screen) && frameCount == old(frameCount) && paused == old(paused)
      ensures score == 0 && ship.lives == Ship.Lives - 1 && ship.state == Ship.ChangeOver(0)
      ensures !missile.inFlight && gameInput.NoneLatched()
    {
      ship.Reset();
      missile.Reset();
      score := 0;
      gameInput.Reset();
      ship.ProceedWithChangeover();
    }

    /** The base piles refill, the letters and bombs are cleared; without spider claims the invariant survives. */
    method ResetGrids(ghost clock: nat)
      requires Consistent(clock)
      requires forall i :: 0 <= i < Spiders.NumberOfSpiders ==> spiders.spider[i].state.Nestle?
      modifies baseBricks, baseBricks.filled, baseBricks.targetted, letterBricks, letterBricks.brick, bombs.bomb
      ensures Consistent(clock)
      ensures letterBricks.qtyFilled == 0 && letterBricks.toRemove == []
      ensures baseBricks.qtyFilled == BaseBricks.BrickQty
    {
      baseBricks.Reset();
      baseBricks.Update();
      letterBricks.Reset();
      bombs.Reset();
      Spiders.NoClaimsHeld(spiders.spider[..], baseBricks.targetted[..], letterBricks.brick[..]);
    }

    /** The grids are reset and the screen now starting is announced. */
    method ResetBoard()
      requires Valid()
      requires forall i :: 0 <= i < Spiders.NumberOfSpiders ==> spiders.spider[i].state.Nestle?
      modifies baseBricks, baseBricks.filled, baseBricks.targetted, letterBricks, letterBricks.brick, bombs.bomb, animations
      ensures Valid()
      ensures letterBricks.qtyFilled == 0 && letterBricks.toRemove == []
      ensures baseBricks.qtyFilled == BaseBricks.BrickQty
    {
      ResetGrids(frameCount);
      ScreenStart();
    }

    /** The player and the grids are reset for a new game, and the first screen is announced. */
    method ResetPlayfield()
      requires Valid()
      requires forall i :: 0 <= i < Spiders.NumberOfSpiders ==> spiders.spider[i].state.Nestle?
      modifies this`score, ship, missile, gameInput, baseBricks, baseBricks.filled, baseBricks.targetted,
               letterBricks, letterBricks.brick, bombs.bomb, animations
      ensures Valid()
      ensures gameState == old(gameState) && screen == old(screen) && frameCount == old(frameCount) && paused == old(paused)
      ensures score == 0 && ship.lives == Ship.Lives - 1 && ship.state == Ship.ChangeOver(0)
      ensures !missile.inFlight && gameInput.NoneLatched()
      ensures letterBricks.qtyFilled == 0 && letterBricks.toRemove == []
      ensures baseBricks.qtyFilled == BaseBricks.BrickQty
    {
      ResetPlayer(frameCount);
      ResetBoard();
    }

    /**
     * `new_game`: screen 1 at frame 0 with a fresh roster, ship, grids and
     * bombs, a zero score, no latched keys, and the ship's first life starting
     * its changeover. The resets touch disjoint components, so they are taken
     * here screen first, then the player, then the grids.
     */
    method NewGame(delayDraw: nat)
      requires Valid() && delayDraw < 1200
      modifies Repr()
      ensures Valid()
      ensures gameState == InProgress && screen == 1 && score == 0 && frameCount == 0
      ensures ship.lives == Ship.Lives - 1 && ship.state == Ship.ChangeOver(0)
      ensures letterBricks.qtyFilled == 0 && letterBricks.toRemove == []
      ensures baseBricks.qtyFilled == BaseBricks.BrickQty && !bonusBomb.InFlight() && !missile.inFlight
      ensures spiders.spidersLeft == Spiders.NumberOfSpiders && spiders.maxSpidersInFlight == Spiders.InitInFlight
      ensures gameInput.NoneLatched() && paused == old(paused)
    {
      gameState := InProgress;
      SetUpScreen(1, delayDraw, true);
      ResetPlayfield();
    }

    /** The pause key toggles the pause while playing, and is acknowledged either way. */
    method PauseControl()
      requires Valid()
      modifies this`paused, gameInput`pausePressed
      ensures Valid() && !gameInput.pausePressed
      ensures gameInput.incVolPressed == old(gameInput.incVolPressed) && gameInput.decVolPressed == old(gameInput.decVolPressed)
      ensures soundControl.volume == old(soundControl.volume)
      ensures paused == (old(paused) != (old(gameInput.pausePressed) && gameState.Playing()))
    {
      if gameInput.pausePressed {
        gameInput.AcknowledgePause();
        if gameState.Playing() {
          paused := !paused;
        }
      }
    }

    /** A latched volume-down key lowers the volume by a step and acknowledges both volume keys. */
    method VolumeDownControl()
      requires Valid()
      modifies gameInput`incVolPressed, gameInput`decVolPressed, soundControl, animations
      ensures paused == old(paused) && gameInput.pausePressed == old(gameInput.pausePressed)
      ensures Valid() && !gameInput.decVolPressed
      ensures old(gameInput.decVolPressed) ==> !gameInput.incVolPressed
      ensures old(gameInput.decVolPressed) ==>
        soundControl.volume == if old(soundControl.volume) > 0 then old(soundControl.volume) - 1 else 0
      ensures !old(gameInput.decVolPressed) ==>
        gameInput.incVolPressed == old(gameInput.incVolPressed) && soundControl.volume == old(soundControl.volume)
    {
      if gameInput.decVolPressed {
        gameInput.AcknowledgeVolumeChange();
        soundControl.DecreaseVolume(animations);
      }
    }

    /** A latched volume-up key raises the volume by a step and acknowledges both volume keys. */
    method VolumeUpControl()
      requires Valid()
      modifies gameInput`incVolPressed, gameInput`decVolPressed, soundControl, animations
      ensures paused == old(paused) && gameInput.pausePressed == old(gameInput.pausePressed)
      ensures Valid() && !gameInput.incVolPressed
      ensures old(gameInput.incVolPressed) ==> !gameInput.decVolPressed
      ensures old(gameInput.incVolPressed) ==>
        soundControl.volume == if old(soundControl.volume) < SoundFx.VolSteps then old(soundControl.volume) + 1 else SoundFx.VolSteps
      ensures !old(gameInput.incVolPressed) ==>
        gameInput.decVolPressed == old(gameInput.decVolPressed) && soundControl.volume == old(soundControl.volume)
    {
      if gameInput.incVolPressed {
        gameInput.AcknowledgeVolumeChange();
        soundControl.IncreaseVolume(animations);
      }
    }

    /**
     * The pause key toggles the pause while playing; the volume keys step the
     * volume, the decrease taking precedence since it acknowledges both keys.
     */
    method Controls()
      requires Valid()
      modifies this`paused, gameInput`pausePressed, gameInput`incVolPressed, gameInput`decVolPressed,
               soundControl, animations
      ensures Valid()
      ensures paused == (old(paused) != (old(gameInput.pausePressed) && gameState.Playing()))
      ensures !gameInput.pausePressed && !gameInput.incVolPressed && !gameInput.decVolPressed
      ensures soundControl.volume ==
        if old(gameInput.decVolPressed) then (if old(soundControl.volume) > 0 then old(soundControl.volume) - 1 else 0)
        else if old(gameInput.incVolPressed) then
          (if old(soundControl.volume) < SoundFx.VolSteps then old(soundControl.volume) + 1 else SoundFx.VolSteps)
        else old(soundControl.volume)
    {
      PauseControl();
      VolumeDownControl();
      VolumeUpControl();
    }

    method UpdateInputs(e: Event)
      modifies gameInput
      ensures gameInput.leftPressed == (e == KeyDown(KeyZ) || (old(gameInput.leftPressed) && e != KeyUp(KeyZ)))
      ensures gameInput.rightPressed == (e == KeyDown(KeyX) || (old(gameInput.rightPressed) && e != KeyUp(KeyX)))
      ensures gameInput.startPressed == (e == KeyDown(Space) || (old(gameInput.startPressed) && e != KeyUp(Space)))
      ensures gameInput.firePressed == (e == KeyDown(RShift) || old(gameInput.firePressed))
      ensures gameInput.pausePressed == (e == KeyDown(KeyP) || old(gameInput.pausePressed))
      ensures gameInput.incVolPressed == (e == KeyDown(Up) || old(gameInput.incVolPressed))
      ensures gameInput.decVolPressed == (e == KeyDown(Down) || old(gameInput.decVolPressed))
    {
      gameInput.UpdateInputs(e);
    }

    /** The animations age and the background scrolls. */
    method Scenery()
      requires Valid()
      modifies animations, background
      ensures Valid()
    {
      animations.Update();
      background.Update();
    }

    /** The start key begins a new game when not playing; otherwise nothing changes here. */
    method StartControl(delayDraw: nat)
      requires Valid() && delayDraw < 1200
      modifies Repr()
      ensures Valid() && paused == old(paused)
      ensures old(!gameState.Playing() && gameInput.startPressed) ==>
        gameState == InProgress && screen == 1 && score == 0 && frameCount == 0
      ensures !old(!gameState.Playing() && gameInput.startPressed) ==>
        gameState == old(gameState) && score == old(score) && screen == old(screen) && frameCount == old(frameCount)
    {
      if !gameState.Playing() && gameInput.startPressed {
        NewGame(delayDraw);
      }
    }

    /** The screen-advance rule, then a new game on start when not playing. */
    method ScreenOrGame(delayDraw: nat)
      requires Valid() && delayDraw < 1200
      modifies Repr()
      ensures Valid()
      ensures old(gameState).GameOver? && gameState.InProgress? ==> score == 0 && screen == 1
      ensures old(gameState).GameOver? && !gameState.InProgress? ==> gameState.GameOver? && score == old(score)
      ensures paused == old(paused) && (frameCount == old(frameCount) || frameCount == 0)
    {
      ScreenAdvance(delayDraw);
      StartControl(delayDraw);
    }

    /**
     * The end of a frame: the screen-advance rule, a new game on start when
     * not playing, then the animations and the background.
     */
    method EndOfFrame(delayDraw: nat)
      requires Valid() && delayDraw < 1200
      modifies Repr()
      ensures Valid()
      ensures old(gameState).GameOver? && gameState.InProgress? ==> score == 0 && screen == 1
      ensures old(gameState).GameOver? && !gameState.InProgress? ==> gameState.GameOver? && score == old(score)
      ensures paused == old(paused) && (frameCount == old(frameCount) || frameCount == 0)
    {
      ScreenOrGame(delayDraw);
      Scenery();
    }

    /**
     * The frame just counted, from frame `clock`: the playing part runs while
     * playing, then the components are updated, held back while the ship
     * changes over or is protected.
     */
    method Advance(ghost clock: nat, d: TickDraws)
      requires Consistent(clock) && frameCount == clock + 1 && d.Valid()
      modifies this`score, this`gameState, ship, missile, baseBricks, baseBricks.filled, baseBricks.targetted,
               letterBricks, letterBricks.brick, mother, spiders, spiders.spider, bombs.bomb, bonusBomb,
               gameInput`firePressed, animations
      ensures Valid() && frameCount == old(frameCount) && paused == old(paused)
      ensures old(gameState).GameOver? ==> gameState.GameOver? && score == old(score)
    {
      if gameState.Playing() {
        PlayingTick(clock);
      }
      var restrict := (ship.InChangeover() && gameState.Playing()) || ship.Protected();
      StateQueries(gameState);
      if gameState.ScreenInProgress() || !gameState.Playing() {
        WorldTick(clock, restrict, d);
      }
    }

    /** The frame is counted, then advanced from the frame before. */
    method CountAndAdvance(d: TickDraws)
      requires Valid() && d.Valid()
      modifies this`frameCount, this`score, this`gameState, ship, missile, baseBricks, baseBricks.filled,
               baseBricks.targetted, letterBricks, letterBricks.brick, mother, spiders, spiders.spider, bombs.bomb,
               bonusBomb, gameInput`firePressed, animations
      ensures Valid() && frameCount == old(frameCount) + 1 && paused == old(paused)
      ensures old(gameState).GameOver? ==> gameState.GameOver? && score == old(score)
    {
      ghost var clock := frameCount;
      frameCount := frameCount + 1;
      Advance(clock, d);
    }

    /**
     * A frame that is not paused: it is counted, advanced, and ended. The
     * frame count moves on by one, unless a new screen or game restarted it at 0.
     */
    method Frame(d: TickDraws)
      requires Valid() && d.Valid()
      modifies Repr()
      ensures Valid()
      ensures frameCount == old(frameCount) + 1 || frameCount == 0
      ensures old(gameState).GameOver? && gameState.InProgress? ==> score == 0 && screen == 1
      ensures paused == old(paused)
    {
      CountAndAdvance(d);
      EndOfFrame(d.delayDraw);
    }

    /** `Game::update`: the controls, then a frame unless the game is paused. */
    method Update(d: TickDraws)
      requires Valid() && d.Valid()
      modifies Repr()
      ensures Valid()
      ensures old(paused) && paused ==> frameCount == old(frameCount) && score == old(score) && screen == old(screen)
      ensures !paused ==> frameCount == old(frameCount) + 1 || frameCount == 0
      ensures old(gameState).GameOver? && gameState.InProgress? ==> score == 0 && screen == 1
    {
      Controls();
      if !paused {
        Frame(d);
      }
    }
  }
}
