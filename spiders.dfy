// The spiders: a roster of 45 launched one by one from the mother ship. Each
// one flies down to the base bricks, claims and grabs a brick, carries it up and
// deposits it in the letters. Positions and velocities are rationals; the
// random choices of the game arrive as a `Draws` record per spider and tick.
module Spiders {
  import opened Common
  import Mother
  import BaseBricks
  import LetterBricks
  import Bombs
  import Animation

  const NumberOfSpiders: nat := 45
  const InitInFlight: nat := 7
  const MaxInFlight: nat := 18
  const SpiderWidth: real := 30.0
  const SpiderHeight: real := 40.0
  /** Ticks a swoop, grab or release rotation takes: progress grows by 0.05 per tick until 1.0. */
  const RotateSteps: nat := 20
  const SwoopSpeed: real := 5.0
  const FramesBetweenLaunches: nat := 30
  const FirstLaunch: nat := 100
  const FlightSpiderYMax: real := 480.0
  const FlightSpiderYMin: real := 200.0
  const SpeedSlow: real := 2.0
  const SpeedMedium: real := 3.0
  const SpeedFast: real := 4.0
  const SpiderAscendY: real := 510.0
  const BombReleaseMaxY: real := 410.0
  /** Offset from the mother's position to the centre of a launched spider (0.5 * 30 * 0.2). */
  const LaunchOffset: real := 3.0

  datatype Kind = Slow | Medium | Fast
  {
    function Index(): nat
    {
      match this
      case Slow => 0
      case Medium => 1
      case Fast => 2
    }

    function AscendSpeed(): real
    {
      match this
      case Slow => SpeedSlow
      case Medium => SpeedMedium
      case Fast => SpeedFast
    }
  }

  /** The first 11 spiders are slow, the last 9 fast, the rest medium. */
  function KindOf(i: nat): Kind
  {
    if i < 11 then Slow else if i > 35 then Fast else Medium
  }

  datatype SpiderState =
    | Nestle
    | Swoop(progress: nat, dir: int)
    | Seek(xVel: real, yVel: real, target: Option<TargetBrick>)
    | Descend(brick: TargetBrick)
    | Grab(progress: nat, spin: real)
    | Ascend
    | Carry(xVel: real, yVel: real, target: Option<TargetBrick>)
    | Release(progress: nat, spin: real)
    | Dead

  datatype Spider = Spider(kind: Kind, state: SpiderState, x: real, y: real,
                           nextDirChange: nat, nextBombRelease: nat)

  /** The random choices one spider may make in one tick. */
  datatype Draws = Draws(dirChange: nat, velRow: nat, xFlip: bool, yFlip: bool, bombDelay: nat,
                         spin: bool, basePick: nat, letterPick: nat, swoopDx: real, swoopDy: real)
  {
    /** The ranges each random choice is drawn from; the swoop step is a displacement of at most the swoop speed along each axis. */
    predicate Valid()
    {
      100 <= dirChange < 200 && velRow < 3 && 50 <= bombDelay < 200 &&
      -SwoopSpeed <= swoopDx <= SwoopSpeed && -SwoopSpeed <= swoopDy <= SwoopSpeed
    }
  }

  function Abs(r: real): real
  {
    if r < 0.0 then -r else r
  }

  /** `f64::signum` on a value that is not -0.0 or NaN. */
  function Signum(r: real): real
  {
    if r < 0.0 then -1.0 else 1.0
  }

  // ---------------------------------------------------------------------------
  // Velocities

  /** Row `row` of the kind's speed table. */
  function Speed(kind: Kind, row: nat): (v: (real, real))
    requires row < 3
    ensures 0.0 <= v.0 <= SpeedFast && 0.0 <= v.1 <= SpeedFast
    ensures v.1 == 0.0 <==> kind == Fast && row == 0
  {
    match kind
    case Slow =>
      if row == 0 then (SpeedSlow, SpeedSlow)
      else if row == 1 then (SpeedSlow / 2.0, SpeedSlow)
      else (0.0, SpeedSlow)
    case Medium =>
      if row == 0 then (SpeedMedium, SpeedMedium / 2.0)
      else if row == 1 then (SpeedMedium, SpeedMedium)
      else (SpeedMedium / 2.0, SpeedMedium)
    case Fast =>
      if row == 0 then (SpeedFast, 0.0)
      else if row == 1 then (SpeedFast, SpeedFast / 2.0)
      else (SpeedFast, SpeedFast)
  }

  function RandomSign(n: real, flip: bool): real
  {
    if flip then -n else n
  }

  datatype DirRequired = Up | Down | Any

  /**
   * A random entry of the speed table with random signs; when a direction is
   * required the vertical speed points that way (a zero one becomes the fast speed).
   */
  function RandomVel(kind: Kind, dr: DirRequired, row: nat, xFlip: bool, yFlip: bool): (v: (real, real))
    requires row < 3
    ensures Abs(v.0) == Speed(kind, row).0
    ensures dr == Down ==> 0.0 < v.1 <= SpeedFast
    ensures dr == Up ==> -SpeedFast <= v.1 < 0.0
    ensures dr == Any ==> Abs(v.1) == Speed(kind, row).1
  {
    var (xv, yv) := Speed(kind, row);
    match dr
    case Down => (RandomSign(xv, xFlip), if yv == 0.0 then SpeedFast else yv)
    case Up => (RandomSign(xv, xFlip), -(if yv == 0.0 then SpeedFast else yv))
    case Any => (RandomSign(xv, xFlip), RandomSign(yv, yFlip))
  }

  function DrawnVel(kind: Kind, dr: DirRequired, d: Draws): (real, real)
    requires d.Valid()
  {
    RandomVel(kind, dr, d.velRow, d.xFlip, d.yFlip)
  }

  function Spin(flip: bool): real
  {
    if flip then -1.0 else 1.0
  }

  // ---------------------------------------------------------------------------
  // Wandering

  datatype Course = Course(xVel: real, yVel: real, nextDirChange: nat)

  /**
   * `aimless_wandering`: counts the direction timer down (re-arming it when it is
   * 0), picks a new random direction when it runs out, and turns round on an axis
   * whose step would leave the flight band.
   */
  function Wander(s: Spider, xVel: real, yVel: real, d: Draws): (c: Course)
    requires d.Valid()
    ensures c.nextDirChange + 1 == if s.nextDirChange == 0 then d.dirChange else s.nextDirChange
    ensures c.nextDirChange != s.nextDirChange
  {
    var counter := (if s.nextDirChange == 0 then d.dirChange else s.nextDirChange) - 1;
    var v := if counter == 0 then DrawnVel(s.kind, Any, d) else (xVel, yVel);
    var xv := if (s.x + v.0 > ScreenWidth as real - SpiderWidth && v.0 > 0.0) || (s.x + v.0 < 0.0 && v.0 < 0.0)
      then -v.0 else v.0;
    var yv := if (s.y + v.1 > FlightSpiderYMax - SpiderHeight && v.1 > 0.0) ||
                 (s.y + v.1 < FlightSpiderYMin && v.1 < 0.0)
      then -v.1 else v.1;
    Course(xv, yv, counter)
  }

  /**
   * A wandering spider inside the flight band (x in [0, 570], y in [200, 440])
   * stays inside it, as long as it moves no faster than the speed table allows.
   */
  lemma WanderStaysInBand(s: Spider, xVel: real, yVel: real, d: Draws)
    requires d.Valid()
    requires 0.0 <= s.x <= ScreenWidth as real - SpiderWidth
    requires FlightSpiderYMin <= s.y <= FlightSpiderYMax - SpiderHeight
    requires Abs(xVel) <= SpeedFast && Abs(yVel) <= SpeedFast
    ensures var c := Wander(s, xVel, yVel, d);
      0.0 <= s.x + c.xVel <= ScreenWidth as real - SpiderWidth &&
      FlightSpiderYMin <= s.y + c.yVel <= FlightSpiderYMax - SpiderHeight
  {
  }

  // ---------------------------------------------------------------------------
  // Trajectories

  /**
   * `trajectory_reaches_target`: the velocity heads towards the target's side
   * vertically, is not too shallow when going down, and the straight line it
   * follows passes the target within one vertical step. A zero horizontal
   * velocity never reaches (the Rust test divides by it, giving no finite slope).
   */
  predicate Reaches(s: Spider, xTarget: real, yTarget: real, xVel: real, yVel: real)
  {
    Signum(yTarget - s.y) == Signum(yVel) &&
    (yVel < 0.0 || Abs(xVel) <= Abs(yVel)) &&
    xVel != 0.0 &&
    Abs(((xTarget - s.x) / xVel) * yVel + s.y - yTarget) < Abs(yVel)
  }

  /** The sign order tried in each row: (+,+), (-,+), (-,-), (+,-). */
  function Candidate(kind: Kind, row: nat, signs: nat): (real, real)
    requires row < 3 && signs < 4
  {
    var (xv, yv) := Speed(kind, row);
    if signs == 0 then (xv, yv)
    else if signs == 1 then (-xv, yv)
    else if signs == 2 then (-xv, -yv)
    else (xv, -yv)
  }

  predicate ReachesBy(s: Spider, xTarget: real, yTarget: real, row: nat, signs: nat)
    requires row < 3 && signs < 4
  {
    var v := Candidate(s.kind, row, signs);
    Reaches(s, xTarget, yTarget, v.0, v.1)
  }

  /** Candidate (row, signs) reaches, and no candidate tried before it from row `from` on does. */
  ghost predicate FirstReaching(s: Spider, xTarget: real, yTarget: real, from: nat, row: nat, signs: nat)
    requires row < 3 && signs < 4
  {
    ReachesBy(s, xTarget, yTarget, row, signs) &&
    forall r: nat, j: nat :: from <= r < 3 && j < 4 && (r < row || (r == row && j < signs)) ==>
      !ReachesBy(s, xTarget, yTarget, r, j)
  }

  /** The search of `new_trajectory_for_target` from table row `row` on. */
  function NewTrajectoryFrom(s: Spider, xTarget: real, yTarget: real, row: nat): (r: Option<(real, real)>)
    requires row <= 3
    ensures r.Some? ==> Reaches(s, xTarget, yTarget, r.value.0, r.value.1)
    decreases 3 - row
  {
    if row == 3 then None
    else if ReachesBy(s, xTarget, yTarget, row, 0) then Some(Candidate(s.kind, row, 0))
    else if ReachesBy(s, xTarget, yTarget, row, 1) then Some(Candidate(s.kind, row, 1))
    else if ReachesBy(s, xTarget, yTarget, row, 2) then Some(Candidate(s.kind, row, 2))
    else if ReachesBy(s, xTarget, yTarget, row, 3) then Some(Candidate(s.kind, row, 3))
    else NewTrajectoryFrom(s, xTarget, yTarget, row + 1)
  }

  function NewTrajectory(s: Spider, xTarget: real, yTarget: real): Option<(real, real)>
  {
    NewTrajectoryFrom(s, xTarget, yTarget, 0)
  }

  /** Scans one table row: `j` is the first sign order in it that reaches, or 4. */
  lemma RowScan(s: Spider, xTarget: real, yTarget: real, row: nat) returns (j: nat)
    requires row < 3
    ensures j <= 4
    ensures forall k: nat :: k < j ==> !ReachesBy(s, xTarget, yTarget, row, k)
    ensures j < 4 ==> ReachesBy(s, xTarget, yTarget, row, j)
    ensures j < 4 ==> NewTrajectoryFrom(s, xTarget, yTarget, row) == Some(Candidate(s.kind, row, j))
    ensures j == 4 ==> NewTrajectoryFrom(s, xTarget, yTarget, row) == NewTrajectoryFrom(s, xTarget, yTarget, row + 1)
  {
    j := 0;
    while j < 4 && !ReachesBy(s, xTarget, yTarget, row, j)
      invariant j <= 4
      invariant forall k: nat :: k < j ==> !ReachesBy(s, xTarget, yTarget, row, k)
    {
      j := j + 1;
    }
  }

  /** A first match from row `row + 1` on is also the first from `row` on when row `row` has none. */
  lemma FirstReachingExtends(s: Spider, xTarget: real, yTarget: real, row: nat, r: nat, k: nat)
    requires row < 3 && r < 3 && k < 4
    requires FirstReaching(s, xTarget, yTarget, row + 1, r, k) && row + 1 <= r
    requires forall j: nat :: j < 4 ==> !ReachesBy(s, xTarget, yTarget, row, j)
    ensures FirstReaching(s, xTarget, yTarget, row, r, k)
  {
  }

  lemma {:induction false} NewTrajectoryFromFirstMatch(s: Spider, xTarget: real, yTarget: real, row: nat)
    requires row <= 3
    ensures NewTrajectoryFrom(s, xTarget, yTarget, row).None? <==>
      forall r: nat, j: nat :: row <= r < 3 && j < 4 ==> !ReachesBy(s, xTarget, yTarget, r, j)
    ensures NewTrajectoryFrom(s, xTarget, yTarget, row).Some? ==>
      exists r: nat, j: nat :: row <= r < 3 && j < 4 && FirstReaching(s, xTarget, yTarget, row, r, j) &&
        NewTrajectoryFrom(s, xTarget, yTarget, row).value == Candidate(s.kind, r, j)
    decreases 3 - row
  {
    if row < 3 {
      var res := NewTrajectoryFrom(s, xTarget, yTarget, row);
      var j := RowScan(s, xTarget, yTarget, row);
      if j < 4 {
        assert FirstReaching(s, xTarget, yTarget, row, row, j);
      } else {
        NewTrajectoryFromFirstMatch(s, xTarget, yTarget, row + 1);
        if res.Some? {
          var r: nat, k: nat :| row + 1 <= r < 3 && k < 4 && FirstReaching(s, xTarget, yTarget, row + 1, r, k) &&
            res.value == Candidate(s.kind, r, k);
          FirstReachingExtends(s, xTarget, yTarget, row, r, k);
        }
      }
    }
  }

  /**
   * `new_trajectory_for_target` returns the first velocity of the kind's table,
   * in row order and sign order (+,+), (-,+), (-,-), (+,-), that reaches the
   * target, and None exactly when none does.
   */
  lemma NewTrajectoryFirstMatch(s: Spider, xTarget: real, yTarget: real)
    ensures NewTrajectory(s, xTarget, yTarget).None? <==>
      forall r: nat, j: nat :: r < 3 && j < 4 ==> !ReachesBy(s, xTarget, yTarget, r, j)
    ensures NewTrajectory(s, xTarget, yTarget).Some? ==>
      exists r: nat, j: nat :: r < 3 && j < 4 && FirstReaching(s, xTarget, yTarget, 0, r, j) &&
        NewTrajectory(s, xTarget, yTarget).value == Candidate(s.kind, r, j)
  {
    NewTrajectoryFromFirstMatch(s, xTarget, yTarget, 0);
  }

  datatype Heading = Arrive | Head(course: Course)

  /** The spider is within one step of the point on both axes. */
  predicate Close(s: Spider, xTarget: real, yTarget: real, xVel: real, yVel: real)
  {
    Abs(s.x - xTarget) < Abs(xVel) && Abs(s.y - yTarget) < Abs(yVel)
  }

  /**
   * How a spider holding a claim moves towards the adjusted target point: under
   * restriction it wanders; otherwise it arrives when close, keeps a course that
   * reaches, adopts the first table course that reaches, or else wanders.
   */
  function Approach(s: Spider, xVel: real, yVel: real, xTarget: real, yTarget: real,
                    restrict: bool, d: Draws): (h: Heading)
    requires d.Valid()
    ensures h.Arrive? <==> !restrict && Close(s, xTarget, yTarget, xVel, yVel)
    ensures h.Head? && h.course.nextDirChange == s.nextDirChange ==>
      !restrict && Reaches(s, xTarget, yTarget, h.course.xVel, h.course.yVel)
    ensures h.Head? && h.course.nextDirChange != s.nextDirChange ==>
      h.course == Wander(s, xVel, yVel, d) &&
      (restrict || (!Reaches(s, xTarget, yTarget, xVel, yVel) && NewTrajectory(s, xTarget, yTarget).None?))
    ensures !restrict && !Close(s, xTarget, yTarget, xVel, yVel) && Reaches(s, xTarget, yTarget, xVel, yVel) ==>
      h == Head(Course(xVel, yVel, s.nextDirChange))
  {
    if restrict then Head(Wander(s, xVel, yVel, d))
    else if Close(s, xTarget, yTarget, xVel, yVel) then Arrive
    else if Reaches(s, xTarget, yTarget, xVel, yVel) then Head(Course(xVel, yVel, s.nextDirChange))
    else match NewTrajectory(s, xTarget, yTarget)
      case Some(v) => Head(Course(v.0, v.1, s.nextDirChange))
      case None => Head(Wander(s, xVel, yVel, d))
  }

  /** The spider after one move along `c`. */
  function MoveAlong(s: Spider, c: Course): Spider
  {
    s.(x := s.x + c.xVel, y := s.y + c.yVel, nextDirChange := c.nextDirChange)
  }

  // ---------------------------------------------------------------------------
  // Claims

  /** The base brick a spider has claimed: while seeking it or descending onto it. */
  function BaseClaim(s: Spider): Option<nat>
  {
    match s.state
    case Seek(_, _, Some(t)) => Some(t.brickId)
    case Descend(t) => Some(t.brickId)
    case _ => None
  }

  /** The letter brick a carrying spider has claimed. */
  function LetterClaim(s: Spider): Option<nat>
  {
    match s.state
    case Carry(_, _, Some(t)) => Some(t.brickId)
    case _ => None
  }

  /** The claims of one spider are marked in the grids. */
  ghost predicate ClaimMarked(s: Spider, bt: seq<bool>, lb: seq<LetterBricks.LetterBrick>)
  {
    (BaseClaim(s).Some? ==> BaseClaim(s).value < |bt| && bt[BaseClaim(s).value]) &&
    (LetterClaim(s).Some? ==> LetterClaim(s).value < |lb| && lb[LetterClaim(s).value].targetted)
  }

  // ---------------------------------------------------------------------------
  // One spider, one tick

  /** The states whose tick touches neither grid nor the bombs. */
  predicate Unattached(st: SpiderState)
  {
    st.Nestle? || st.Swoop? || st.Grab? || st.Ascend? || st.Release? || st.Dead?
  }

  /**
   * One tick of a spider in a state that touches no grid: the swoop follows its
   * arc (the draw gives the step) and then seeks downwards; grab and release
   * rotate, then ascend or seek downwards; an ascending spider rises at its
   * kind's speed and starts carrying upwards once above y = 510.
   */
  function Tick(s: Spider, d: Draws): (r: Spider)
    requires d.Valid() && Unattached(s.state)
    ensures r.kind == s.kind && BaseClaim(r) == None && LetterClaim(r) == None
    ensures r.state.Nestle? <==> s.state.Nestle?
    ensures r.state.Dead? <==> s.state.Dead?
    ensures r.state.Seek? ==> 0.0 < r.state.yVel && (s.state.Swoop? || s.state.Release?)
    ensures r.state.Carry? ==> r.state.yVel < 0.0 && s.state.Ascend? && r.y <= SpiderAscendY
    ensures s.state.Ascend? ==> r.y == s.y - s.kind.AscendSpeed()
  {
    match s.state
    case Swoop(n, dir) =>
      if n < RotateSteps then
        s.(state := Swoop(n + 1, dir), x := s.x + d.swoopDx, y := s.y + d.swoopDy)
      else
        var v := DrawnVel(s.kind, Down, d);
        s.(x := (s.x - SpiderWidth * 0.5).Floor as real, y := (s.y - SpiderHeight * 0.5).Floor as real,
           state := Seek(v.0, v.1, None))
    case Grab(n, spin) =>
      if n < RotateSteps then s.(state := Grab(n + 1, spin)) else s.(state := Ascend)
    case Ascend =>
      var y := s.y - s.kind.AscendSpeed();
      if y <= SpiderAscendY then
        var v := DrawnVel(s.kind, Up, d);
        s.(y := y, state := Carry(v.0, v.1, None))
      else
        s.(y := y)
    case Release(n, spin) =>
      if n < RotateSteps then s.(state := Release(n + 1, spin))
      else
        var v := DrawnVel(s.kind, Down, d);
        s.(state := Seek(v.0, v.1, None))
    case Nestle => s
    case Dead => s
  }

  /** `k` ticks, stopping early once the spider reaches a state that touches a grid. */
  function Ticks(s: Spider, d: Draws, k: nat): Spider
    requires d.Valid()
    decreases k
  {
    if k == 0 || !Unattached(s.state) then s else Ticks(Tick(s, d), d, k - 1)
  }

  /** A grab that has rotated `n` steps ends in the ascent after 21 - n further ticks. */
  lemma {:induction false} GrabEndsInAscent(s: Spider, d: Draws, n: nat, spin: real)
    requires d.Valid() && s.state == Grab(n, spin) && n <= RotateSteps
    ensures Ticks(s, d, RotateSteps + 1 - n).state == Ascend
    ensures Ticks(s, d, RotateSteps + 1 - n).x == s.x && Ticks(s, d, RotateSteps + 1 - n).y == s.y
    decreases RotateSteps - n
  {
    if n < RotateSteps {
      GrabEndsInAscent(Tick(s, d), d, n + 1, spin);
    }
  }

  /** The bomb timer after this tick: it runs only above y = 410, re-armed from the draw at 0. */
  function NextBombRelease(s: Spider, d: Draws): nat
    requires d.Valid()
  {
    if s.y < BombReleaseMaxY then (if s.nextBombRelease == 0 then d.bombDelay else s.nextBombRelease) - 1
    else s.nextBombRelease
  }

  /** The timer runs out in this tick, so a bomb is dropped. */
  predicate DropsBomb(s: Spider, d: Draws)
    requires d.Valid()
  {
    s.y < BombReleaseMaxY && NextBombRelease(s, d) == 0
  }

  /** Between two drops a spider spends at least 50 ticks above y = 410. */
  lemma BombTimerRearms(s: Spider, d: Draws)
    requires d.Valid() && DropsBomb(s, d)
    ensures var s' := s.(nextBombRelease := NextBombRelease(s, d));
      49 <= NextBombRelease(s', d) < 199
    ensures s.nextBombRelease <= 1
  {
  }

  /** `drop_bomb`. */
  method DropBomb(s: Spider, bombs: Bombs.Bombs, d: Draws) returns (s': Spider)
    requires bombs.Valid() && d.Valid()
    modifies bombs.bomb
    ensures s' == s.(nextBombRelease := NextBombRelease(s, d))
    ensures DropsBomb(s, d) ==> Bombs.ReleaseOutcome(old(bombs.bomb[..]), bombs.bomb[..],
      TruncToInt(s.x + SpiderWidth / 2.0), TruncToInt(s.y + SpiderHeight))
    ensures !DropsBomb(s, d) ==> bombs.bomb[..] == old(bombs.bomb[..])
    ensures bombs.Valid()
  {
    s' := s;
    if s.y < BombReleaseMaxY {
      var counter := if s.nextBombRelease == 0 then d.bombDelay else s.nextBombRelease;
      counter := counter - 1;
      s' := s.(nextBombRelease := counter);
      if counter == 0 {
        var _ := bombs.Release(TruncToInt(s.x + SpiderWidth / 2.0), TruncToInt(s.y + SpiderHeight));
      }
    }
  }

  // ---------------------------------------------------------------------------
  // The claim protocol as seen from the grids

  /**
   * What one tick does to the base grid's targetted flags, given the spider's
   * base claim before (`c`) and after (`c'`): nothing when the claim is kept, one
   * fresh flag set when a claim is made, the claimed flag cleared when it is dropped.
   */
  ghost predicate BaseEffect(c: Option<nat>, c': Option<nat>, bt: seq<bool>, bt': seq<bool>)
  {
    |bt'| == |bt| &&
    ((c' == c && bt' == bt) ||
     (c.None? && c'.Some? && c'.value < |bt| && !bt[c'.value] && bt' == bt[c'.value := true]) ||
     (c.Some? && c'.None? && c.value < |bt| && bt' == bt[c.value := false]))
  }

  /** The same for the letter grid: a claim is made on an untargetted brick, and dropped by filling it. */
  ghost predicate LetterEffect(c: Option<nat>, c': Option<nat>,
                               lb: seq<LetterBricks.LetterBrick>, lb': seq<LetterBricks.LetterBrick>)
  {
    |lb'| == |lb| &&
    ((c' == c && lb' == lb) ||
     (c.None? && c'.Some? && c'.value < |lb| && !lb[c'.value].targetted &&
      lb' == lb[c'.value := lb[c'.value].(targetted := true)]) ||
     (c.Some? && c'.None? && c.value < |lb| &&
      lb' == lb[c.value := lb[c.value].(filled := true, targetted := false)]))
  }

  /**
   * Every spider's claims are marked in the grids, and no two spiders claim the
   * same brick of either grid.
   */
  ghost predicate ClaimsHeld(ss: seq<Spider>, bt: seq<bool>, lb: seq<LetterBricks.LetterBrick>)
  {
    (forall i :: 0 <= i < |ss| ==> ClaimMarked(ss[i], bt, lb)) &&
    (forall i, j :: 0 <= i < |ss| && 0 <= j < |ss| && i != j && BaseClaim(ss[i]).Some? ==>
      BaseClaim(ss[i]) != BaseClaim(ss[j])) &&
    (forall i, j :: 0 <= i < |ss| && 0 <= j < |ss| && i != j && LetterClaim(ss[i]).Some? ==>
      LetterClaim(ss[i]) != LetterClaim(ss[j]))
  }

  /**
   * A tick of spider `i` that affects the grids as `BaseEffect` and `LetterEffect`
   * allow keeps every claim of every spider marked and all claims distinct.
   */
  lemma ClaimsStep(ss: seq<Spider>, i: nat, s': Spider, bt: seq<bool>, bt': seq<bool>,
                   lb: seq<LetterBricks.LetterBrick>, lb': seq<LetterBricks.LetterBrick>)
    requires ClaimsHeld(ss, bt, lb) && i < |ss|
    requires BaseEffect(BaseClaim(ss[i]), BaseClaim(s'), bt, bt')
    requires LetterEffect(LetterClaim(ss[i]), LetterClaim(s'), lb, lb')
    ensures ClaimsHeld(ss[i := s'], bt', lb')
  {
    var ss' := ss[i := s'];
    forall j | 0 <= j < |ss'|
      ensures ClaimMarked(ss'[j], bt', lb')
    {
      if j != i {
        assert ClaimMarked(ss[j], bt, lb);
        if BaseClaim(ss[j]).Some? {
          assert BaseClaim(ss[j]) != BaseClaim(ss[i]);
        }
        if LetterClaim(ss[j]).Some? {
          assert LetterClaim(ss[j]) != LetterClaim(ss[i]);
        }
      } else {
        assert ClaimMarked(ss[i], bt, lb);
      }
    }
    forall j, k | 0 <= j < |ss'| && 0 <= k < |ss'| && j != k && BaseClaim(ss'[j]).Some?
      ensures BaseClaim(ss'[j]) != BaseClaim(ss'[k])
    {
      if j == i && BaseClaim(s') != BaseClaim(ss[i]) {
        assert ClaimMarked(ss[k], bt, lb);
      } else if k == i && BaseClaim(s') != BaseClaim(ss[i]) {
        assert ClaimMarked(ss[j], bt, lb);
      }
    }
    forall j, k | 0 <= j < |ss'| && 0 <= k < |ss'| && j != k && LetterClaim(ss'[j]).Some?
      ensures LetterClaim(ss'[j]) != LetterClaim(ss'[k])
    {
      if j == i && LetterClaim(s') != LetterClaim(ss[i]) {
        assert ClaimMarked(ss[k], bt, lb);
      } else if k == i && LetterClaim(s') != LetterClaim(ss[i]) {
        assert ClaimMarked(ss[j], bt, lb);
      }
    }
  }

  // ---------------------------------------------------------------------------
  // Moves towards a claimed brick

  /** Claims stay held when no marker is taken away from either grid. */
  lemma ClaimsHeldWeaken(ss: seq<Spider>, bt: seq<bool>, lb: seq<LetterBricks.LetterBrick>,
                         bt': seq<bool>, lb': seq<LetterBricks.LetterBrick>)
    requires ClaimsHeld(ss, bt, lb) && |bt'| == |bt| && |lb'| == |lb|
    requires forall k :: 0 <= k < |bt| && bt[k] ==> bt'[k]
    requires forall k :: 0 <= k < |lb| && lb[k].targetted ==> lb'[k].targetted
    ensures ClaimsHeld(ss, bt', lb')
  {
    forall i | 0 <= i < |ss|
      ensures ClaimMarked(ss[i], bt', lb')
    {
      assert ClaimMarked(ss[i], bt, lb);
    }
  }

  /**
   * A spider that is killed gives up its claim: once it is dead, the markers of
   * its own claim may go, and every other spider's claim is still held.
   */
  lemma ClaimReleased(ss: seq<Spider>, i: nat, bt: seq<bool>, lb: seq<LetterBricks.LetterBrick>,
                      bt': seq<bool>, lb': seq<LetterBricks.LetterBrick>)
    requires ClaimsHeld(ss, bt, lb) && i < |ss| && |bt'| == |bt| && |lb'| == |lb|
    requires forall k :: 0 <= k < |bt| && bt[k] && BaseClaim(ss[i]) != Some(k) ==> bt'[k]
    requires forall k :: 0 <= k < |lb| && lb[k].targetted && LetterClaim(ss[i]) != Some(k) ==> lb'[k].targetted
    ensures ClaimsHeld(ss[i := ss[i].(state := Dead)], bt', lb')
  {
    var ss' := ss[i := ss[i].(state := Dead)];
    forall j | 0 <= j < |ss'|
      ensures ClaimMarked(ss'[j], bt', lb')
    {
      if j != i {
        assert ClaimMarked(ss[j], bt, lb);
        if BaseClaim(ss[j]).Some? {
          assert BaseClaim(ss[j]) != BaseClaim(ss[i]);
        }
        if LetterClaim(ss[j]).Some? {
          assert LetterClaim(ss[j]) != LetterClaim(ss[i]);
        }
      }
    }
  }

  /** A roster in which nobody holds a claim holds its claims trivially. */
  lemma NoClaimsHeld(ss: seq<Spider>, bt: seq<bool>, lb: seq<LetterBricks.LetterBrick>)
    requires forall i :: 0 <= i < |ss| ==> BaseClaim(ss[i]).None? && LetterClaim(ss[i]).None?
    ensures ClaimsHeld(ss, bt, lb)
  {
  }

  /**
   * `update` in Seek with a target: the point aimed at is 9 left of and 40 above
   * the brick; on arrival the spider is placed there and starts its descent.
   */
  function SeekToward(s: Spider, xVel: real, yVel: real, tb: TargetBrick, restrict: bool, d: Draws): (r: Spider)
    requires d.Valid()
    ensures r.kind == s.kind
    ensures r.state.Descend? <==> !restrict && Close(s, tb.x as real - 9.0, tb.y as real - 40.0, xVel, yVel)
    ensures r.state.Descend? ==> r.state.brick == tb && r.x == tb.x as real - 9.0 && r.y == tb.y as real - 40.0
    ensures !r.state.Descend? ==> r.state.Seek? && r.state.target == Some(tb)
    ensures BaseClaim(r) == Some(tb.brickId) && LetterClaim(r) == None
  {
    var adjX, adjY := tb.x as real - 9.0, tb.y as real - 40.0;
    match Approach(s, xVel, yVel, adjX, adjY, restrict, d)
    case Arrive => s.(x := adjX, y := adjY, state := Descend(tb))
    case Head(c) => MoveAlong(s, c).(state := Seek(c.xVel, c.yVel, Some(tb)))
  }

  /**
   * `update` in Carry with a target: the point aimed at is 9 left of the brick at
   * its height; on arrival the spider is placed there and starts to rotate away.
   */
  function CarryToward(s: Spider, xVel: real, yVel: real, tb: TargetBrick, restrict: bool, d: Draws): (r: Spider)
    requires d.Valid()
    ensures r.kind == s.kind
    ensures r.state.Release? <==> !restrict && Close(s, tb.x as real - 9.0, tb.y as real, xVel, yVel)
    ensures r.state.Release? ==> r.state == Release(0, Spin(d.spin)) && r.x == tb.x as real - 9.0 && r.y == tb.y as real
    ensures !r.state.Release? ==> r.state.Carry? && r.state.target == Some(tb)
    ensures BaseClaim(r) == None
    ensures LetterClaim(r) == if r.state.Release? then None else Some(tb.brickId)
  {
    var adjX, adjY := tb.x as real - 9.0, tb.y as real;
    match Approach(s, xVel, yVel, adjX, adjY, restrict, d)
    case Arrive => s.(x := adjX, y := adjY, state := Release(0, Spin(d.spin)))
    case Head(c) => MoveAlong(s, c).(state := Carry(c.xVel, c.yVel, Some(tb)))
  }

  /** The descent onto a claimed brick: one pixel a tick, grabbing it 32 above its top. */
  function DescendMove(s: Spider, tb: TargetBrick, d: Draws): (r: Spider)
    ensures r.kind == s.kind && r.x == s.x && r.y == s.y + 1.0
    ensures r.state.Grab? <==> s.y + 1.0 >= tb.y as real - SpiderHeight + 8.0
    ensures r.state.Grab? ==> r.state == Grab(0, Spin(d.spin))
    ensures !r.state.Grab? ==> r.state == Descend(tb)
  {
    var y := s.y + 1.0;
    if y >= tb.y as real - SpiderHeight + 8.0 then s.(y := y, state := Grab(0, Spin(d.spin)))
    else s.(y := y, state := Descend(tb))
  }

  /** The bomb timer runs only in unrestricted ticks. */
  function BombTimed(s: Spider, restrict: bool, d: Draws): Spider
    requires d.Valid()
  {
    if restrict then s else s.(nextBombRelease := NextBombRelease(s, d))
  }

  /** Seek without a claim: one wandering move, then the claim `t` the base granted, if any. */
  function WanderingSeek(s: Spider, xVel: real, yVel: real, t: Option<TargetBrick>, d: Draws): (r: Spider)
    requires d.Valid()
    ensures r.kind == s.kind && r.state.Seek? && r.state.target == t
    ensures r.nextDirChange != s.nextDirChange && r.nextBombRelease == s.nextBombRelease
  {
    var c := Wander(s, xVel, yVel, d);
    MoveAlong(s, c).(state := Seek(c.xVel, c.yVel, t))
  }

  /** Carry without a claim: one wandering move, then the claim `t` the letters granted, if any. */
  function WanderingCarry(s: Spider, xVel: real, yVel: real, t: Option<TargetBrick>, d: Draws): (r: Spider)
    requires d.Valid()
    ensures r.kind == s.kind && r.state.Carry? && r.state.target == t
    ensures r.nextDirChange != s.nextDirChange && r.nextBombRelease == s.nextBombRelease
  {
    var c := Wander(s, xVel, yVel, d);
    MoveAlong(s, c).(state := Carry(c.xVel, c.yVel, t))
  }

  /**
   * `s'` is what one tick makes of `s` for some state of the grids: every state
   * follows its own definition, and a seeking or carrying spider without a claim
   * wanders and keeps whatever claim its grid granted.
   */
  ghost predicate Stepped(s: Spider, s': Spider, restrict: bool, d: Draws)
    requires d.Valid()
  {
    match s.state
    case Seek(xv, yv, target) =>
      if target.Some? then s' == BombTimed(SeekToward(s, xv, yv, target.value, restrict, d), restrict, d)
      else s'.state.Seek? && s' == BombTimed(WanderingSeek(s, xv, yv, s'.state.target, d), restrict, d)
    case Descend(tb) => s' == DescendMove(s, tb, d)
    case Carry(xv, yv, target) =>
      if target.Some? then s' == BombTimed(CarryToward(s, xv, yv, target.value, restrict, d), restrict, d)
      else s'.state.Carry? && s' == BombTimed(WanderingCarry(s, xv, yv, s'.state.target, d), restrict, d)
    case _ => s' == Tick(s, d)
  }

  /** A spider in a state that touches no grid steps by its tick. */
  lemma SteppedUnattached(s: Spider, s': Spider, restrict: bool, d: Draws)
    requires d.Valid() && Unattached(s.state) && Stepped(s, s', restrict, d)
    ensures s' == Tick(s, d)
  {
  }

  /** Seek: head for the claim, or wander and ask the base bricks for one; then the bomb timer. */
  method SeekStep(s: Spider, xVel: real, yVel: real, target: Option<TargetBrick>,
                  base: BaseBricks.BaseBricks, bombs: Bombs.Bombs, restrict: bool, d: Draws) returns (s': Spider)
    requires d.Valid() && base.Valid() && bombs.Valid()
    requires s.state == Seek(xVel, yVel, target)
    requires target.Some? ==> target.value.brickId < BaseBricks.BrickQty && base.targetted[target.value.brickId]
    modifies base.targetted, bombs.bomb
    ensures base.Valid() && bombs.Valid()
    ensures s'.kind == s.kind && (s'.state.Seek? || s'.state.Descend?)
    ensures BaseEffect(BaseClaim(s), BaseClaim(s'), old(base.targetted[..]), base.targetted[..])
    ensures BaseClaim(s').Some? ==> BaseClaim(s').value < BaseBricks.BrickQty && base.targetted[BaseClaim(s').value]
    ensures LetterClaim(s') == None
    ensures restrict ==> unchanged(bombs.bomb)
    ensures target.Some? ==> s' == BombTimed(SeekToward(s, xVel, yVel, target.value, restrict, d), restrict, d)
    ensures target.None? ==> s' == BombTimed(WanderingSeek(s, xVel, yVel,
      BaseBricks.PickedTarget(old(base.filled[..]), old(base.targetted[..]), old(base.qtyFilled), old(base.x), d.basePick),
      d), restrict, d)
  {
    var moved: Spider;
    if target.Some? {
      moved := SeekToward(s, xVel, yVel, target.value, restrict, d);
    } else {
      ghost var f, tg := base.filled[..], base.targetted[..];
      var t := base.RequestTarget(d.basePick);
      assert t == BaseBricks.PickedTarget(f, tg, base.qtyFilled, base.x, d.basePick);
      moved := WanderingSeek(s, xVel, yVel, t, d);
    }
    if restrict {
      s' := moved;
    } else {
      s' := DropBomb(moved, bombs, d);
    }
  }

  /** Descend: one pixel down; at the grab height the claimed brick is taken from the base. */
  method DescendStep(s: Spider, tb: TargetBrick, base: BaseBricks.BaseBricks, d: Draws) returns (s': Spider)
    requires base.Valid() && s.state == Descend(tb)
    requires tb.brickId < BaseBricks.BrickQty && base.targetted[tb.brickId]
    modifies base, base.filled, base.targetted
    ensures base.Valid()
    ensures s' == DescendMove(s, tb, d)
    ensures BaseEffect(BaseClaim(s), BaseClaim(s'), old(base.targetted[..]), base.targetted[..])
    ensures BaseClaim(s').Some? ==> base.targetted[tb.brickId]
    ensures s'.state.Grab? ==> (base.qtyFilled == old(base.qtyFilled) - 1 &&
      base.filled[..] == old(base.filled[..])[tb.brickId := false])
    ensures !s'.state.Grab? ==> unchanged(base, base.filled, base.targetted)
  {
    s' := DescendMove(s, tb, d);
    if s'.state.Grab? {
      BaseBricks.CountTruePositive(base.filled[..], tb.brickId);
      base.TakeTarget(tb.brickId);
    }
  }

  /** Carry: head for the claim and fill it on arrival, or wander and ask the letters for one; then the bomb timer. */
  method CarryStep(s: Spider, xVel: real, yVel: real, target: Option<TargetBrick>,
                   letters: LetterBricks.LetterBricks, bombs: Bombs.Bombs, restrict: bool, d: Draws) returns (s': Spider)
    requires d.Valid() && letters.Valid() && bombs.Valid()
    requires s.state == Carry(xVel, yVel, target)
    requires target.Some? ==> target.value.brickId < LetterBricks.BricksQty && letters.brick[target.value.brickId].targetted
    modifies letters`qtyFilled, letters.brick, bombs.bomb
    ensures letters.Valid() && bombs.Valid()
    ensures s'.kind == s.kind && (s'.state.Carry? || s'.state.Release?)
    ensures LetterEffect(LetterClaim(s), LetterClaim(s'), old(letters.brick[..]), letters.brick[..])
    ensures LetterClaim(s').Some? ==> LetterClaim(s').value < LetterBricks.BricksQty && letters.brick[LetterClaim(s').value].targetted
    ensures BaseClaim(s') == None
    ensures restrict ==> unchanged(bombs.bomb)
    ensures target.Some? ==> s' == BombTimed(CarryToward(s, xVel, yVel, target.value, restrict, d), restrict, d)
    ensures target.None? ==> s' == BombTimed(WanderingCarry(s, xVel, yVel,
      LetterBricks.PickedTarget(old(letters.brick[..]), old(letters.qtyFilled), d.letterPick), d), restrict, d)
  {
    var moved: Spider;
    if target.Some? {
      moved := CarryToward(s, xVel, yVel, target.value, restrict, d);
      if moved.state.Release? {
        letters.FillTarget(target.value.brickId);
      }
    } else {
      ghost var lb := letters.brick[..];
      var t := letters.RequestTarget(d.letterPick);
      assert t == LetterBricks.PickedTarget(lb, letters.qtyFilled, d.letterPick);
      moved := WanderingCarry(s, xVel, yVel, t, d);
    }
    if restrict {
      s' := moved;
    } else {
      s' := DropBomb(moved, bombs, d);
    }
  }

  /**
   * `Spider::update` for one spider. Seek and Carry without a target wander and
   * ask their own grid for a claim; with one they head for it. Seek and Carry
   * then run the bomb timer unless restricted. The other states do not touch
   * the grids.
   */
  method Step(s: Spider, base: BaseBricks.BaseBricks, letters: LetterBricks.LetterBricks,
              bombs: Bombs.Bombs, restrict: bool, d: Draws) returns (s': Spider)
    requires d.Valid() && base.Valid() && letters.Valid() && bombs.Valid()
    requires ClaimMarked(s, base.targetted[..], letters.brick[..])
    modifies base, base.filled, base.targetted, letters`qtyFilled, letters.brick, bombs.bomb
    ensures base.Valid() && letters.Valid() && bombs.Valid()
    ensures ClaimMarked(s', base.targetted[..], letters.brick[..])
    ensures BaseEffect(BaseClaim(s), BaseClaim(s'), old(base.targetted[..]), base.targetted[..])
    ensures LetterEffect(LetterClaim(s), LetterClaim(s'), old(letters.brick[..]), letters.brick[..])
    ensures s'.kind == s.kind
    ensures s'.state.Nestle? <==> s.state.Nestle?
    ensures s'.state.Dead? <==> s.state.Dead?
    ensures Unattached(s.state) ==> (s' == Tick(s, d) && unchanged(base, base.filled, base.targetted) &&
      unchanged(letters, letters.brick) && unchanged(bombs.bomb))
    ensures restrict || !(s.state.Seek? || s.state.Carry?) ==> unchanged(bombs.bomb)
    ensures s.state.Seek? && s.state.target.Some? ==>
      s' == BombTimed(SeekToward(s, s.state.xVel, s.state.yVel, s.state.target.value, restrict, d), restrict, d)
    ensures s.state.Carry? && s.state.target.Some? ==>
      s' == BombTimed(CarryToward(s, s.state.xVel, s.state.yVel, s.state.target.value, restrict, d), restrict, d)
    ensures s.state.Descend? ==> (s' == DescendMove(s, s.state.brick, d) &&
      (s'.state.Grab? ==> (base.qtyFilled == old(base.qtyFilled) - 1 &&
        base.filled[..] == old(base.filled[..])[s.state.brick.brickId := false])))
    ensures s.state.Seek? && s.state.target.None? ==> s' == BombTimed(WanderingSeek(s, s.state.xVel, s.state.yVel,
      BaseBricks.PickedTarget(old(base.filled[..]), old(base.targetted[..]), old(base.qtyFilled), old(base.x), d.basePick),
      d), restrict, d)
    ensures s.state.Carry? && s.state.target.None? ==> s' == BombTimed(WanderingCarry(s, s.state.xVel, s.state.yVel,
      LetterBricks.PickedTarget(old(letters.brick[..]), old(letters.qtyFilled), d.letterPick), d), restrict, d)
    ensures Stepped(s, s', restrict, d)
  {
    match s.state {
      case Seek(xv, yv, target) =>
        s' := SeekStep(s, xv, yv, target, base, bombs, restrict, d);
      case Descend(tb) =>
        s' := DescendStep(s, tb, base, d);
      case Carry(xv, yv, target) =>
        s' := CarryStep(s, xv, yv, target, letters, bombs, restrict, d);
      case _ =>
        s' := Tick(s, d);
    }
  }

  // ---------------------------------------------------------------------------
  // The roster

  predicate Alive(s: Spider)
  {
    !s.state.Dead?
  }

  function AliveCount(ss: seq<Spider>): (n: nat)
    ensures n <= |ss|
  {
    if ss == [] then 0 else AliveCount(ss[..|ss| - 1]) + (if Alive(ss[|ss| - 1]) then 1 else 0)
  }

  lemma {:induction false} AliveCountUpdate(ss: seq<Spider>, k: nat, s: Spider)
    requires k < |ss|
    ensures AliveCount(ss[k := s]) ==
      AliveCount(ss) - (if Alive(ss[k]) then 1 else 0) + (if Alive(s) then 1 else 0)
    decreases |ss|
  {
    var ss' := ss[k := s];
    if k < |ss| - 1 {
      assert ss'[..|ss'| - 1] == ss[..|ss| - 1][k := s];
      AliveCountUpdate(ss[..|ss| - 1], k, s);
    } else {
      assert ss'[..|ss'| - 1] == ss[..|ss| - 1];
    }
  }

  lemma {:induction false} AliveCountSame(a: seq<Spider>, b: seq<Spider>)
    requires |a| == |b|
    requires forall i :: 0 <= i < |a| ==> (Alive(a[i]) <==> Alive(b[i]))
    ensures AliveCount(a) == AliveCount(b)
    decreases |a|
  {
    if a != [] {
      AliveCountSame(a[..|a| - 1], b[..|b| - 1]);
    }
  }

  lemma {:induction false} AliveCountZero(ss: seq<Spider>)
    ensures AliveCount(ss) == 0 <==> forall i :: 0 <= i < |ss| ==> !Alive(ss[i])
    decreases |ss|
  {
    if ss != [] {
      AliveCountZero(ss[..|ss| - 1]);
      assert forall i :: 0 <= i < |ss| - 1 ==> ss[..|ss| - 1][i] == ss[i];
    }
  }

  /** A tick keeps a spider's kind, and whether it is in the nest and whether it is dead. */
  predicate SameStatus(s: Spider, s0: Spider)
  {
    s.kind == s0.kind && (s.state.Nestle? <==> s0.state.Nestle?) && (s.state.Dead? <==> s0.state.Dead?)
  }

  /** Spider `i` waits in the mother at column `i % 15` and row `i / 15` of the nest, relative to her. */
  function NestleX(i: nat): real
  {
    ((i % 15) * 6 + 5) as real
  }

  function NestleY(i: nat): real
  {
    ((i / 15) * 8) as real - 16.0
  }

  /** The states in which a missile or the ship can hit a spider. */
  predicate Hittable(st: SpiderState)
  {
    st.Seek? || st.Ascend? || st.Carry? || st.Release?
  }

  function HitBox(s: Spider): Area
  {
    NewArea(TruncToInt(s.x), TruncToInt(s.y), 30, 40)
  }

  /** `Spider::collision`. */
  predicate SpiderHit(s: Spider, area: Area)
  {
    Hittable(s.state) && area.Collides(HitBox(s))
  }

  /** Spider `i` of `ss` is the first one that `area` hits. */
  predicate FirstSpiderHit(ss: seq<Spider>, area: Area, i: nat)
  {
    i < |ss| && SpiderHit(ss[i], area) &&
    forall j :: 0 <= j < i ==> !SpiderHit(ss[j], area)
  }

  /** No spider of `ss` is hit by `area`. */
  predicate NoSpiderHit(ss: seq<Spider>, area: Area)
  {
    forall j :: 0 <= j < |ss| ==> !SpiderHit(ss[j], area)
  }

  /** `Spider::launch` once the mother gives a direction: from nest coordinates to the screen, centred, swooping. */
  function Launch(s: Spider, motherX: int, motherY: int, dir: int): (r: Spider)
    ensures r.kind == s.kind && r.state == Swoop(0, dir)
    ensures r.x == s.x + motherX as real + LaunchOffset && r.y == s.y + motherY as real - LaunchOffset
  {
    s.(x := s.x + motherX as real + 0.5 * SpiderWidth * 0.2,
       y := s.y + motherY as real - 0.5 * SpiderWidth * 0.2,
       state := Swoop(0, dir))
  }

  /** The claim `target_brick_id` reports: the target of a seeking or carrying spider. */
  function ReportedClaim(s: Spider): (r: Option<nat>)
    ensures s.state.Seek? ==> r == BaseClaim(s)
    ensures s.state.Carry? ==> r == LetterClaim(s)
    ensures !s.state.Seek? && !s.state.Carry? ==> r == None
  {
    match s.state
    case Seek(_, _, target) => if target.Some? then Some(target.value.brickId) else None
    case Carry(_, _, target) => if target.Some? then Some(target.value.brickId) else None
    case _ => None
  }

  /**
   * A spider that can be hit holds no claim that `target_brick_id` does not
   * report: the only unreported claim is a descending spider's, and a
   * descending spider cannot be hit. A carrying spider's claim is a letter brick,
   * any other's a base brick.
   */
  lemma HitSpiderReportsItsClaim(s: Spider, area: Area)
    requires SpiderHit(s, area)
    ensures s.state.Carry? ==> ReportedClaim(s) == LetterClaim(s) && BaseClaim(s) == None
    ensures !s.state.Carry? ==> ReportedClaim(s) == BaseClaim(s) && LetterClaim(s) == None
  {
  }

  /** The rest countdown between waves, as `Spiders::update` advances it. */
  function NextWaveCountdown(inFlight: nat, maxInFlight: nat, countdown: nat, draw: nat): nat
  {
    if inFlight == maxInFlight && countdown == 0 then draw
    else if inFlight == 0 then 0
    else if countdown > 0 then countdown - 1
    else countdown
  }

  /**
   * The countdown stays below 400; a full wave arms it with a rest of at least
   * 200 ticks, and an empty sky (below a positive cap) clears it.
   */
  lemma WaveCountdownBounds(inFlight: nat, maxInFlight: nat, countdown: nat, draw: nat)
    requires 200 <= draw < 400 && countdown < 400
    ensures NextWaveCountdown(inFlight, maxInFlight, countdown, draw) < 400
    ensures inFlight == maxInFlight && countdown == 0 ==> NextWaveCountdown(inFlight, maxInFlight, countdown, draw) >= 200
    ensures inFlight == 0 < maxInFlight ==> NextWaveCountdown(inFlight, maxInFlight, countdown, draw) == 0
  {
  }

  class Spiders {
    const spider: array<Spider>
    var spidersLeft: nat
    var spidersInFlight: nat
    var nextSpiderLaunch: nat
    var lastLaunchFrame: nat
    var maxSpidersInFlight: nat
    var nextWaveCountdown: nat

    /**
     * Launching goes in roster order: the spiders before `nextSpiderLaunch` have
     * left the nest, the rest wait in it. The in-flight count is the number of
     * launched spiders still alive, never above the cap; every spider not yet
     * killed is left.
     */
    ghost predicate Valid()
      reads this, spider
    {
      spider.Length == NumberOfSpiders && nextSpiderLaunch <= NumberOfSpiders &&
      (forall i :: 0 <= i < NumberOfSpiders ==> spider[i].kind == KindOf(i)) &&
      (forall i :: 0 <= i < NumberOfSpiders ==> (spider[i].state.Nestle? <==> i >= nextSpiderLaunch)) &&
      spidersInFlight == AliveCount(spider[..nextSpiderLaunch]) &&
      spidersLeft == spidersInFlight + (NumberOfSpiders - nextSpiderLaunch) &&
      spidersInFlight <= maxSpidersInFlight
    }

    constructor ()
      ensures Valid() && fresh(spider)
      ensures spidersLeft == NumberOfSpiders && spidersInFlight == 0 && nextSpiderLaunch == 0
      ensures maxSpidersInFlight == 10 && nextWaveCountdown == 0 && lastLaunchFrame == 0
      ensures forall i :: 0 <= i < NumberOfSpiders ==>
        spider[i] == Spider(KindOf(i), Nestle, NestleX(i), NestleY(i), 0, 0)
    {
      var a := new Spider[NumberOfSpiders](_ => Spider(Medium, Nestle, 0.0, 0.0, 0, 0));
      for i := 0 to NumberOfSpiders
        invariant forall j :: 0 <= j < i ==> a[j] == Spider(KindOf(j), Nestle, NestleX(j), NestleY(j), 0, 0)
        invariant forall j :: i <= j < NumberOfSpiders ==> a[j] == Spider(Medium, Nestle, 0.0, 0.0, 0, 0)
      {
        var kind := a[i].kind;
        if i < 11 {
          kind := Slow;
        } else if i > 35 {
          kind := Fast;
        }
        a[i] := a[i].(kind := kind, y := ((i / 15) * 8) as real - 16.0, x := ((i % 15) * 6 + 5) as real);
      }
      spider := a;
      spidersLeft := NumberOfSpiders;
      spidersInFlight := 0;
      nextSpiderLaunch := 0;
      lastLaunchFrame := 0;
      maxSpidersInFlight := 10;
      nextWaveCountdown := 0;
    }

    /**
     * A new screen: every spider back in the nest with both timers cleared, the
     * counters restarted and a cap of 7 + screen - 1, at most 18.
     */
    method Reset(screen: nat)
      requires spider.Length == NumberOfSpiders
      modifies this, spider
      ensures forall i :: 0 <= i < NumberOfSpiders ==>
        spider[i] == old(spider[i]).(state := Nestle, x := NestleX(i), y := NestleY(i),
                                     nextDirChange := 0, nextBombRelease := 0)
      ensures spidersLeft == NumberOfSpiders && spidersInFlight == 0 && nextSpiderLaunch == 0
      ensures lastLaunchFrame == 0 && nextWaveCountdown == 0
      ensures maxSpidersInFlight == if InitInFlight + screen - 1 < MaxInFlight then InitInFlight + screen - 1 else MaxInFlight
      ensures (forall i :: 0 <= i < NumberOfSpiders ==> old(spider[i]).kind == KindOf(i)) ==> Valid()
    {
      for i := 0 to NumberOfSpiders
        invariant forall j :: 0 <= j < i ==>
          spider[j] == old(spider[j]).(state := Nestle, x := NestleX(j), y := NestleY(j),
                                       nextDirChange := 0, nextBombRelease := 0)
        invariant forall j :: i <= j < NumberOfSpiders ==> spider[j] == old(spider[j])
      {
        spider[i] := spider[i].(y := ((i / 15) * 8) as real - 16.0, x := ((i % 15) * 6 + 5) as real,
                                state := Nestle, nextDirChange := 0, nextBombRelease := 0);
      }
      spidersLeft := NumberOfSpiders;
      spidersInFlight := 0;
      nextSpiderLaunch := 0;
      lastLaunchFrame := 0;
      var cap := InitInFlight + screen - 1;
      maxSpidersInFlight := if cap < MaxInFlight then cap else MaxInFlight;
      nextWaveCountdown := 0;
      assert spider[..0] == [];
    }

    /** All conditions but the mother's direction under which the next spider may launch. */
    predicate LaunchReady(restrict: bool, frameCount: nat)
      reads this
    {
      spidersInFlight < maxSpidersInFlight && nextWaveCountdown == 0 &&
      nextSpiderLaunch < NumberOfSpiders && frameCount > FirstLaunch &&
      frameCount - lastLaunchFrame >= FramesBetweenLaunches as int && !restrict
    }

    /** The countdown step and at most one launch, the first half of `Spiders::update`. */
    method Launching(mother: Mother.Mother, restrict: bool, frameCount: nat, waveDraw: nat)
      requires Valid() && 200 <= waveDraw < 400 && lastLaunchFrame <= frameCount
      modifies this, spider
      ensures Valid() && lastLaunchFrame <= frameCount
      ensures nextWaveCountdown ==
        NextWaveCountdown(old(spidersInFlight), old(maxSpidersInFlight), old(nextWaveCountdown), waveDraw)
      ensures spidersLeft == old(spidersLeft) && maxSpidersInFlight == old(maxSpidersInFlight)
      ensures var go := old(spidersInFlight) < old(maxSpidersInFlight) && nextWaveCountdown == 0 &&
                        old(nextSpiderLaunch) < NumberOfSpiders && frameCount > FirstLaunch &&
                        frameCount - old(lastLaunchFrame) >= FramesBetweenLaunches as int && !restrict &&
                        mother.LaunchDir().Some?;
        if go then
          nextSpiderLaunch == old(nextSpiderLaunch) + 1 && spidersInFlight == old(spidersInFlight) + 1 &&
          lastLaunchFrame == frameCount &&
          spider[..] == old(spider[..])[old(nextSpiderLaunch) :=
            Launch(old(spider[nextSpiderLaunch]), mother.Location().0, mother.Location().1, mother.LaunchDir().value)]
        else
          nextSpiderLaunch == old(nextSpiderLaunch) && spidersInFlight == old(spidersInFlight) &&
          lastLaunchFrame == old(lastLaunchFrame) && spider[..] == old(spider[..])
    {
      nextWaveCountdown := NextWaveCountdown(spidersInFlight, maxSpidersInFlight, nextWaveCountdown, waveDraw);
      if LaunchReady(restrict, frameCount) {
        var dir := mother.LaunchDir();
        if dir.Some? {
          var n := nextSpiderLaunch;
          var (mx, my) := mother.Location();
          ghost var before := spider[..];
          spider[n] := Launch(spider[n], mx, my, dir.value);
          assert spider[..n + 1] == before[..n] + [spider[n]];
          assert spider[..n + 1][..n] == before[..n];
          nextSpiderLaunch := n + 1;
          spidersInFlight := spidersInFlight + 1;
          lastLaunchFrame := frameCount;
        }
      }
    }

    /** The tick of spider `i`, unless it is dead. */
    method StepOne(i: nat, base: BaseBricks.BaseBricks, letters: LetterBricks.LetterBricks, bombs: Bombs.Bombs,
                   restrict: bool, d: Draws)
      requires spider.Length == NumberOfSpiders && i < NumberOfSpiders && d.Valid()
      requires base.Valid() && letters.Valid() && bombs.Valid()
      requires ClaimsHeld(spider[..], base.targetted[..], letters.brick[..])
      modifies spider, base, base.filled, base.targetted, letters`qtyFilled, letters.brick, bombs.bomb
      ensures base.Valid() && letters.Valid() && bombs.Valid()
      ensures ClaimsHeld(spider[..], base.targetted[..], letters.brick[..])
      ensures spider[..] == old(spider[..])[i := spider[i]]
      ensures SameStatus(spider[i], old(spider[i]))
      ensures Unattached(old(spider[i]).state) ==> spider[i] == Tick(old(spider[i]), d)
      ensures Stepped(old(spider[i]), spider[i], restrict, d)
      ensures old(spider[i]).state.Seek? && old(spider[i]).state.target.None? ==>
        spider[i].state.target == BaseBricks.PickedTarget(old(base.filled[..]), old(base.targetted[..]),
                                                          old(base.qtyFilled), old(base.x), d.basePick)
      ensures old(spider[i]).state.Carry? && old(spider[i]).state.target.None? ==>
        spider[i].state.target == LetterBricks.PickedTarget(old(letters.brick[..]), old(letters.qtyFilled), d.letterPick)
      ensures old(spider[i]).state.Descend? && spider[i].state.Grab? ==>
        base.qtyFilled == old(base.qtyFilled) - 1 &&
        base.filled[..] == old(base.filled[..])[old(spider[i]).state.brick.brickId := false]
      ensures restrict ==> unchanged(bombs.bomb)
    {
      if !spider[i].state.Dead? {
        ghost var ss, bt, lb := spider[..], base.targetted[..], letters.brick[..];
        assert ClaimMarked(ss[i], bt, lb);
        var s' := Step(spider[i], base, letters, bombs, restrict, d);
        ClaimsStep(ss, i, s', bt, base.targetted[..], lb, letters.brick[..]);
        spider[i] := s';
        assert spider[..] == ss[i := s'];
      } else {
        assert spider[..] == old(spider[..])[i := spider[i]];
      }
    }

    /** The second half of `Spiders::update`: every spider not dead takes its tick, in roster order. */
    method StepAll(base: BaseBricks.BaseBricks, letters: LetterBricks.LetterBricks, bombs: Bombs.Bombs,
                   restrict: bool, draws: seq<Draws>)
      requires Valid() && base.Valid() && letters.Valid() && bombs.Valid()
      requires |draws| == NumberOfSpiders && forall i :: 0 <= i < |draws| ==> draws[i].Valid()
      requires ClaimsHeld(spider[..], base.targetted[..], letters.brick[..])
      modifies spider, base, base.filled, base.targetted, letters`qtyFilled, letters.brick, bombs.bomb
      ensures Valid() && base.Valid() && letters.Valid() && bombs.Valid()
      ensures ClaimsHeld(spider[..], base.targetted[..], letters.brick[..])
      ensures forall i :: 0 <= i < NumberOfSpiders && Unattached(old(spider[i]).state) ==>
        spider[i] == Tick(old(spider[i]), draws[i])
      ensures forall i :: 0 <= i < NumberOfSpiders ==> Stepped(old(spider[i]), spider[i], restrict, draws[i])
      ensures restrict ==> unchanged(bombs.bomb)
    {
      ghost var start := spider[..];
      for i := 0 to NumberOfSpiders
        invariant base.Valid() && letters.Valid() && bombs.Valid()
        invariant ClaimsHeld(spider[..], base.targetted[..], letters.brick[..])
        invariant forall j :: 0 <= j < NumberOfSpiders ==> SameStatus(spider[j], start[j])
        invariant forall j :: i <= j < NumberOfSpiders ==> spider[j] == start[j]
        invariant forall j :: 0 <= j < i ==> Stepped(start[j], spider[j], restrict, draws[j])
        invariant restrict ==> unchanged(bombs.bomb)
      {
        StepOne(i, base, letters, bombs, restrict, draws[i]);
      }
      AliveCountSame(spider[..nextSpiderLaunch], start[..nextSpiderLaunch]);
      forall j | 0 <= j < NumberOfSpiders && Unattached(start[j].state)
        ensures spider[j] == Tick(start[j], draws[j])
      {
        SteppedUnattached(start[j], spider[j], restrict, draws[j]);
      }
    }

    /**
     * `Spiders::update`: the countdown, at most one launch, then a tick of every
     * spider still alive.
     */
    method Update(mother: Mother.Mother, base: BaseBricks.BaseBricks, letters: LetterBricks.LetterBricks,
                  bombs: Bombs.Bombs, restrict: bool, frameCount: nat, waveDraw: nat, draws: seq<Draws>)
      requires Valid() && base.Valid() && letters.Valid() && bombs.Valid()
      requires 200 <= waveDraw < 400 && lastLaunchFrame <= frameCount
      requires |draws| == NumberOfSpiders && forall i :: 0 <= i < |draws| ==> draws[i].Valid()
      requires ClaimsHeld(spider[..], base.targetted[..], letters.brick[..])
      modifies this, spider, base, base.filled, base.targetted, letters`qtyFilled, letters.brick, bombs.bomb
      ensures Valid() && base.Valid() && letters.Valid() && bombs.Valid()
      ensures ClaimsHeld(spider[..], base.targetted[..], letters.brick[..])
      ensures lastLaunchFrame <= frameCount
      ensures nextWaveCountdown ==
        NextWaveCountdown(old(spidersInFlight), old(maxSpidersInFlight), old(nextWaveCountdown), waveDraw)
      ensures spidersLeft == old(spidersLeft) && maxSpidersInFlight == old(maxSpidersInFlight)
      ensures nextSpiderLaunch <= old(nextSpiderLaunch) + 1
      ensures nextSpiderLaunch == old(nextSpiderLaunch) + 1 <==>
        old(spidersInFlight) < old(maxSpidersInFlight) && nextWaveCountdown == 0 &&
        old(nextSpiderLaunch) < NumberOfSpiders && frameCount > FirstLaunch &&
        frameCount - old(lastLaunchFrame) >= FramesBetweenLaunches as int && !restrict &&
        mother.LaunchDir().Some?
      ensures nextSpiderLaunch == old(nextSpiderLaunch) + 1 ==>
        spidersInFlight == old(spidersInFlight) + 1 && lastLaunchFrame == frameCount
      ensures nextSpiderLaunch == old(nextSpiderLaunch) ==>
        spidersInFlight == old(spidersInFlight) && lastLaunchFrame == old(lastLaunchFrame)
      ensures nextSpiderLaunch == old(nextSpiderLaunch) + 1 ==>
        Stepped(Launch(old(spider[..])[nextSpiderLaunch - 1], mother.Location().0, mother.Location().1,
                       mother.LaunchDir().value),
                spider[nextSpiderLaunch - 1], restrict, draws[nextSpiderLaunch - 1])
      ensures forall i :: 0 <= i < NumberOfSpiders && (i != old(nextSpiderLaunch) || nextSpiderLaunch == old(nextSpiderLaunch)) ==>
        Stepped(old(spider[i]), spider[i], restrict, draws[i])
      ensures forall i :: 0 <= i < NumberOfSpiders && Unattached(old(spider[i]).state) &&
                          (i != old(nextSpiderLaunch) || nextSpiderLaunch == old(nextSpiderLaunch)) ==>
        spider[i] == Tick(old(spider[i]), draws[i])
      ensures restrict ==> unchanged(bombs.bomb)
    {
      ghost var s0, n0 := spider[..], nextSpiderLaunch;
      Launching(mother, restrict, frameCount, waveDraw);
      ghost var s1 := spider[..];
      if nextSpiderLaunch == n0 + 1 {
        assert s1 == s0[n0 := s1[n0]] && s1[n0].state.Swoop?;
        assert BaseClaim(s1[n0]) == None && LetterClaim(s1[n0]) == None;
        ClaimsStep(s0, n0, s1[n0], base.targetted[..], base.targetted[..], letters.brick[..], letters.brick[..]);
      }
      assert forall i :: 0 <= i < NumberOfSpiders && (i != n0 || nextSpiderLaunch == n0) ==> s1[i] == s0[i];
      StepAll(base, letters, bombs, restrict, draws);
    }

    /** `Spiders::collision`: the lowest-numbered spider that can be hit and overlaps the area. */
    method Collision(area: Area) returns (hit: Option<nat>)
      requires spider.Length == NumberOfSpiders
      ensures hit.None? <==> NoSpiderHit(spider[..], area)
      ensures hit.Some? ==> FirstSpiderHit(spider[..], area, hit.value)
    {
      for i := 0 to NumberOfSpiders
        invariant forall j :: 0 <= j < i ==> !SpiderHit(spider[j], area)
      {
        if SpiderHit(spider[i], area) {
          return Some(i);
        }
      }
      return None;
    }

    /** `target_brick_id`. */
    function TargetBrickId(spiderId: nat): (r: Option<nat>)
      requires spiderId < spider.Length
      reads spider
      ensures r == ReportedClaim(spider[spiderId])
    {
      match spider[spiderId].state
      case Seek(_, _, target) => if target.Some? then Some(target.value.brickId) else None
      case Carry(_, _, target) => if target.Some? then Some(target.value.brickId) else None
      case _ => None
    }

    predicate Carrying(spiderId: nat)
      requires spiderId < spider.Length
      reads spider
    {
      spider[spiderId].state.Carry?
    }

    function SpiderType(spiderId: nat): (k: nat)
      requires spiderId < spider.Length
      reads spider
      ensures k < 3
    {
      spider[spiderId].kind.Index()
    }

    /** `kill`: the spider is dead, both counters drop by one, and its explosion is shown. */
    method Kill(spiderId: nat, animations: Animation.Animations)
      requires spiderId < spider.Length && spidersInFlight >= 1 && spidersLeft >= 1 && animations.Valid()
      modifies this, spider, animations
      ensures spider[..] == old(spider[..])[spiderId := old(spider[spiderId]).(state := Dead)]
      ensures spidersInFlight == old(spidersInFlight) - 1 && spidersLeft == old(spidersLeft) - 1
      ensures nextSpiderLaunch == old(nextSpiderLaunch) && lastLaunchFrame == old(lastLaunchFrame)
      ensures maxSpidersInFlight == old(maxSpidersInFlight) && nextWaveCountdown == old(nextWaveCountdown)
      ensures animations.Valid()
      ensures animations.animation == old(animations.animation) +
        [Animation.NewAnimation(Animation.SpiderExplosion(TruncToInt(old(spider[spiderId]).x), TruncToInt(old(spider[spiderId]).y)))]
      ensures old(Valid()) && Hittable(old(spider[spiderId]).state) ==> Valid()
    {
      ghost var wasValid := Valid();
      ghost var before := spider[..];
      spider[spiderId] := spider[spiderId].(state := Dead);
      spidersInFlight := spidersInFlight - 1;
      spidersLeft := spidersLeft - 1;
      var x := TruncToInt(spider[spiderId].x);
      var y := TruncToInt(spider[spiderId].y);
      animations.Register(Animation.NewAnimation(Animation.SpiderExplosion(x, y)));
      if wasValid && Hittable(before[spiderId].state) {
        var n := nextSpiderLaunch;
        assert spiderId < n;
        assert spider[..n] == before[..n][spiderId := spider[spiderId]];
        AliveCountUpdate(before[..n], spiderId, spider[spiderId]);
      }
    }

    predicate SpidersRemain()
      reads this
    {
      spidersLeft > 0
    }

    /** No spider still alive is below the flight band. */
    predicate Clear()
      reads this, spider
    {
      forall i :: 0 <= i < spider.Length ==> !(Alive(spider[i]) && spider[i].y > FlightSpiderYMax)
    }
  }

  /** In a valid roster, spiders remain exactly when some spider is not dead. */
  lemma SpidersRemainIffAlive(r: Spiders)
    requires r.Valid()
    ensures r.SpidersRemain() <==> exists i :: 0 <= i < NumberOfSpiders && Alive(r.spider[i])
  {
    var n := r.nextSpiderLaunch;
    if n < NumberOfSpiders {
      assert r.spider[n].state.Nestle?;
    } else {
      assert r.spider[..n] == r.spider[..];
      AliveCountZero(r.spider[..]);
    }
  }

  /** A spider that can be hit is one of those in flight, so the counters allow its kill. */
  lemma HitSpiderIsCounted(r: Spiders, i: nat)
    requires r.Valid() && i < NumberOfSpiders && Hittable(r.spider[i].state)
    ensures i < r.nextSpiderLaunch
    ensures r.spidersInFlight >= 1 && r.spidersLeft >= 1
  {
    var n := r.nextSpiderLaunch;
    var s := r.spider[..n];
    assert s[i] == r.spider[i];
    AliveCountUpdate(s, i, s[i].(state := Dead));
  }
}
