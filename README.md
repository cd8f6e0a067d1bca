# Spider arcade game: a verified model of the game core

The game is a fixed-shooter. A mother ship bounces along the top of a 600 x 700
screen and launches a roster of 45 spiders in waves. Spiders swoop down and fly
at the player's base, a pile of 48 base bricks in three piles of 4 x 4. They
seek and grab a brick, carry it up and drop it into a gap in three letters at
the top of the screen (86 letter bricks). While they seek or carry, they drop
bombs. The player's ship moves along the bottom and fires one missile at a time.
Shooting a spider scores 40/80/200 points by type, doubled while it carries a
brick. Shooting the bonus bomb that the mother drops once per screen scores
200/600/1000 points and removes 10/30/50 letter bricks, one every 15 ticks.
An extra life is awarded every 6000 points. The game is over when the letters
are complete or the last life is lost. A screen is over when no spider remains
and no bomb is in flight.

The project is one Dafny module per source file of the core:

- `Common`: screen areas and their collision test.
- `Animation`: the timed animation list.
- `Background`: the scrolling backdrop.
- `Missile`: the player's missile.
- `BonusBomb`: the mother's bonus bomb.
- `SoundFx`: the volume control.
- `Ship`: the player's ship and its life cycle.
- `Mother`: the mother ship.
- `BaseBricks`: the base grid and how a spider claims one of its bricks.
- `LetterBricks`: the letter grid and how a spider claims a gap in it.
- `Bombs`: the four-slot bomb pool.
- `Spiders`: the spider state machine and the roster.
- `Game`: the input latch, the collision referee and the per-frame update.

Objects whose fields the source updates in place are classes with `modifies`
frames: the grids, the roster, the ship, the missile and so on. Fixed-size
arrays stay arrays: the base grid's two flag arrays, the letter grid, the
roster, the bomb pool and the target lists. The copy structs kept in those
arrays (a spider, a bomb, a letter brick, an animation) are datatypes. Their
`&mut self` methods become functions that return the new value.

Randomness is an oracle. Every call to the random number generator becomes a
parameter, with a `requires` that holds it to the range the source draws from.
A `gen_range(0, len)` pick over a target list becomes `pick % len`. The
per-frame draws travel in `Game.TickDraws` and, per spider, in `Spiders.Draws`.

The central invariant of the whole game is the claim protocol,
`Spiders.ClaimsHeld`. Every brick a spider is heading for is marked as
targetted in its grid. While a spider holds such a claim, no other spider and
no removal can take that brick. Each spider step, each kill and each grid update
is proved to keep this invariant: `Spiders.Spiders.Update`,
`Game.Game.ShootSpider`, `Game.Game.SpiderCollision`, and `Game.Game.Consistent`
at every frame.

A second game-level invariant is the bonus pacing, `Game.QueuePaced`. The
bonus bomb never launches while an earlier removal queue is still draining.
Because of it, every removal starts from an empty queue.

## Model

| member | source | states |
|---|---|---|
| `Common.NewArea` | src/common.rs:23-25 | the area's top-left corner is (x, y) and its extent is exactly w by h |
| `Common.TruncToInt` | src/spiders.rs:353-356 | `f64 as i32` truncates toward zero: the result is within one of r on r's side of zero |
| `Common.CollidesSymmetric` | src/common.rs:27-30 | collision is symmetric |
| `Common.EdgeContactIsNoCollision` | src/common.rs:28-29 | areas that only touch along an edge do not collide (strict comparisons) |
| `Common.NonEmptyAreaCollidesWithItself` | src/common.rs:27-30 | a non-empty area collides with itself |
| `Common.DisjointColumnsNeverCollide` | src/common.rs:28 | areas whose x ranges do not overlap never collide |
| `Animation.NewAnimation` | src/animation.rs:28-41 | a new animation keeps its sequence, is running and not finished, and gets that sequence's frame budget (20 to 100) |
| `Animation.Unfinished` | src/animation.rs:82-84 | an animation survives the retain exactly when it was present and not finished |
| `Animation.WithoutVolumeChange` | src/animation.rs:89-95 | an animation survives exactly when it was present and is not a volume change |
| `Animation.UnfinishedDistributes` | src/animation.rs:82-84 | the retain of a concatenation is the concatenation of the retains |
| `Animation.NoVolumeChangeLeft` | src/animation.rs:89-95 | after a volume change is registered, none of the older volume changes remains |
| `Animation.VolumeChangeCountAppend` | src/animation.rs:96 | pushing an animation adds one volume change exactly when it is one |
| `Animation.VolumeChangeCountShrinks` | src/animation.rs:82-84 | dropping finished animations never adds a volume change |
| `Animation.DecrementedKeepsVolumeChanges` | src/animation.rs:125-127 | counting frames down keeps every volume change |
| `Animation.ShipExplosionFrame` | src/animation.rs:131-133 | the ship-explosion image index is always one of the four images |
| `Animation.SpiderExplosionFrame` | src/animation.rs:135-137 | the spider-explosion image index is always one of the four images |
| `Animation.Animations.constructor` | src/animation.rs:57-80 | the list starts empty |
| `Animation.Animations.UnregisterFinished` | src/animation.rs:82-84 | the list becomes the unfinished part of the old list |
| `Animation.Animations.Register` | src/animation.rs:86-97 | a volume change replaces any older one; any other animation is appended; at most one volume change is kept |
| `Animation.Animations.Update` | src/animation.rs:124-129 | every animation loses one frame and the finished ones are dropped; the list stays valid |
| `Background.FrameIndex` | src/background.rs:42 | the backdrop image index is below the six frames |
| `Background.Background.constructor` | src/background.rs:18-31 | the backdrop starts at frame 0, offset 0 |
| `Background.Background.Update` | src/background.rs:33-39 | the frame advances by one and the offset scrolls by one, modulo the screen height |
| `Missile.Missile.constructor` | src/missile.rs:21-25 | the missile starts at (0, 0), not flying |
| `Missile.Missile.Reset` | src/missile.rs:27-29 | only the in-flight flag is cleared |
| `Missile.Missile.Launch` | src/missile.rs:31-38 | a resting missile starts centred on the launch point, one missile height above it, and flies; a flying missile is left alone |
| `Missile.Missile.Update` | src/missile.rs:40-47 | a flying missile rises 12 pixels; it stays in flight exactly when it was flying and has not passed the top |
| `Missile.Missile.Area` | src/missile.rs:49-51 | the missile's collision box is 3 x 15 at its position |
| `Missile.Missile.TerminateFlight` | src/missile.rs:57-59 | only the in-flight flag is cleared |
| `BonusBomb.TypeOfDraw` | src/bonus_bomb.rs:82-87 | a draw in 0..2 selects the type with that index |
| `BonusBomb.BonusBomb.constructor` | src/bonus_bomb.rs:44-60 | the bomb starts dormant, a 10-brick bomb, at (0, 0) |
| `BonusBomb.BonusBomb.Area` | src/bonus_bomb.rs:62-65 | only the middle 30 of the 50 pixels collide |
| `BonusBomb.BonusBomb.Reset` | src/bonus_bomb.rs:74-76 | the bomb becomes dormant and nothing else changes |
| `BonusBomb.BonusBomb.Launch` | src/bonus_bomb.rs:78-88 | the bomb is centred on x at height 120, in flight, of the drawn type |
| `BonusBomb.BonusBomb.Score` | src/bonus_bomb.rs:106-108 | a hit scores 20 times the bricks it removes: 200, 600 or 1000 |
| `BonusBomb.BonusBomb.AchieveBonus` | src/bonus_bomb.rs:94-104 | the bomb goes dormant, the letter grid queues the removal of its brick count, and a hit animation at the bomb's centre is registered |
| `BonusBomb.BonusBomb.Update` | src/bonus_bomb.rs:118-131 | a falling bomb drops 2 pixels and goes dormant once below the screen; a dormant one is unchanged |
| `BonusBomb.CollisionMeansCentralHit` | src/bonus_bomb.rs:62-65 | a collision means the area overlaps the bomb's central part |
| `SoundFx.InitialChannelVolumeDiffers` | src/soundfx.rs:16-17 | as written, the initial mixer volume is 50, not the 60 that volume 5 maps to everywhere else |
| `SoundFx.SoundControl.constructor` | src/soundfx.rs:15-19 | the volume starts at 5 and the mixer volume agrees with it |
| `SoundFx.SoundControl.IncreaseVolume` | src/soundfx.rs:26-33 | the volume rises by one up to 10; the mixer follows the volume and is not touched at the limit; a volume animation is always registered |
| `SoundFx.SoundControl.DecreaseVolume` | src/soundfx.rs:35-42 | the volume falls by one down to 0; the mixer follows the volume and is not touched at the limit; a volume animation is always registered |
| `Ship.Ship.constructor` | src/ship.rs:37-46 | the ship starts alive at x 285 with 4 lives |
| `Ship.Ship.Reset` | src/ship.rs:52-56 | the ship is back alive at x 285 with 4 lives |
| `Ship.Ship.MoveLeft` | src/ship.rs:58-64 | a live ship not at the left edge moves 5 pixels left; nothing else changes; the ship stays on screen |
| `Ship.Ship.MoveRight` | src/ship.rs:66-72 | a live ship not at the right edge moves 5 pixels right; nothing else changes; the ship stays on screen |
| `Ship.Ship.Kill` | src/ship.rs:74-83 | a live ship explodes where it was, returns home and waits 90 frames; a ship that is not alive is unaffected |
| `Ship.Ship.AwardExtraLife` | src/ship.rs:85-90 | one more life and an extra-life animation |
| `Ship.Ship.Area` | src/ship.rs:105-107 | the ship's collision box is 30 x 40 at (x, 565) |
| `Ship.Ship.Update` | src/ship.rs:109-130 | the state advances by one tick of the ship's life cycle; position and lives are kept |
| `Ship.Ship.LaunchMissile` | src/ship.rs:132-136 | a live ship launches a resting missile from its nose; otherwise the missile is untouched |
| `Ship.Ship.ProceedWithChangeover` | src/ship.rs:160-165 | with a life left, a life is spent and the change-over starts; with none, nothing changes |
| `Ship.StateQueries` | src/ship.rs:92-172 | the state queries agree: alive exactly when not in change-over, protected implies alive, and no life left exactly when 0 lives remain while waiting |
| `Ship.WaitCountsDown` | src/ship.rs:111-115 | k ticks of waiting take the counter down by k, stopping at 0 |
| `Ship.ChangeOverEndsProtected` | src/ship.rs:116-123 | the change-over lasts its 20 steps and then the ship is alive with the 60-frame grace period |
| `Ship.GraceRunsOut` | src/ship.rs:124-128 | k ticks of a live ship take the grace counter down by k, stopping at 0 |
| `Mother.Mother.constructor` | src/mother.rs:25-32 | the mother starts centred (x 250), heading right |
| `Mother.Mother.Reset` | src/mother.rs:40-43 | the bonus bomb is scheduled between 1200 and 2399 frames in |
| `Mother.Mother.FullReset` | src/mother.rs:34-38 | re-centred, heading right, with a fresh bonus-bomb frame |
| `Mother.Mother.Update` | src/mother.rs:45-59 | the mother moves one step and turns near either edge, staying on screen; on the bonus frame the bomb is postponed by 100 to 299 frames when restricted and launched from the mother's centre otherwise |
| `Mother.Mother.Location` | src/mother.rs:61-63 | the mother flies at height 100 |
| `Mother.Mother.LaunchDir` | src/mother.rs:65-76 | a spider may be launched exactly when there are more than 50 pixels of room behind the mother; it swoops against the mother's heading |
| `BaseBricks.BrickIdDecodes` | src/base_bricks.rs:34-36 | a brick id encodes pile, row and column, and each can be read back |
| `BaseBricks.BrickIdInjective` | src/base_bricks.rs:34-36 | different positions have different ids |
| `BaseBricks.CountTrue` | src/base_bricks.rs:18-21 | the filled count never exceeds the number of bricks |
| `BaseBricks.CountTrueUpdate` | src/base_bricks.rs:103-107 | changing one flag changes the count by that flag's difference |
| `BaseBricks.CountTrueAllSet` | src/base_bricks.rs:43-53 | a fully filled grid counts all 48 bricks |
| `BaseBricks.CountTruePositive` | src/base_bricks.rs:103-107 | a grid with a filled brick has a positive count |
| `BaseBricks.NoneSetCountsZero` | src/base_bricks.rs:30-32 | an empty grid counts zero |
| `BaseBricks.PushIfAppend` | src/base_bricks.rs:70-74 | a conditional push onto a list with a prefix acts on the part after the prefix |
| `BaseBricks.PushTarget` | src/base_bricks.rs:70-74 | the target list grows by the brick exactly when it is eligible |
| `BaseBricks.PushRow` | src/base_bricks.rs:66-80 | scanning a row appends its eligible bricks, left to right |
| `BaseBricks.RowCandidatesProps` | src/base_bricks.rs:63-85 | a pile's top row yields at most 4 candidates, each claimable |
| `BaseBricks.PileCandidatesProps` | src/base_bricks.rs:62-87 | the scan stops at a pile's first non-empty row; at most 4 candidates, each claimable |
| `BaseBricks.CandidatePrefixProps` | src/base_bricks.rs:62-88 | the first piles yield at most 4 candidates each, each claimable |
| `BaseBricks.CandidatesAreClaimable` | src/base_bricks.rs:58-89 | every candidate is filled, not targetted, in its pile's top row, with no targetted neighbour in that row |
| `BaseBricks.ClaimKeepsTargetsApart` | src/base_bricks.rs:95 | claiming a candidate keeps every target on a filled brick and keeps targets apart |
| `BaseBricks.SlideReachesHome` | src/base_bricks.rs:43-53 | a refilled base slides in two pixels a tick and stops at its home position 60 |
| `BaseBricks.BaseBricks.constructor` | src/base_bricks.rs:25-28 | the base starts empty at x 60, with nothing targetted |
| `BaseBricks.BaseBricks.Reset` | src/base_bricks.rs:30-32 | only the filled count is zeroed, so the next update refills the base |
| `BaseBricks.BaseBricks.Update` | src/base_bricks.rs:43-53 | an empty base is refilled at x -600 with nothing targetted; otherwise it slides toward home and nothing else changes |
| `BaseBricks.BaseBricks.AppendRowTargets` | src/base_bricks.rs:63-85 | the list grows by exactly that row's candidates |
| `BaseBricks.BaseBricks.AppendPileTargets` | src/base_bricks.rs:62-87 | the list grows by exactly that pile's candidates |
| `BaseBricks.BaseBricks.BuildTargetList` | src/base_bricks.rs:58-89 | the list is exactly the candidate list: there is none while the base is empty or still sliding in |
| `BaseBricks.BaseBricks.RequestTarget` | src/base_bricks.rs:55-101 | no target while empty or sliding in; otherwise the picked candidate, which is filled, untargetted and claimable, is marked and returned with its screen position; the grid stays valid |
| `BaseBricks.PickedTarget` | src/base_bricks.rs:90-100 | the claim granted for a pick: none exactly when there is no candidate; otherwise a claimable candidate at its screen position |
| `BaseBricks.BaseBricks.TakeTarget` | src/base_bricks.rs:103-107 | the brick is removed from the base, un-targetted, and the count drops by one |
| `BaseBricks.BaseBricks.Untarget` | src/base_bricks.rs:109-111 | only that brick's targetted flag is cleared |
| `BaseBricks.RequestThenUntarget` | src/base_bricks.rs:95-111 | a request followed by giving the target back leaves the base as it was |
| `LetterBricks.BrickRow` | src/letter_bricks.rs:45-133 | every letter brick sits in one of six rows |
| `LetterBricks.LayoutInReadingOrder` | src/letter_bricks.rs:45-133 | brick ids follow reading order: by row, then column |
| `LetterBricks.LetterRangeContiguous` | src/letter_bricks.rs:134-136 | the per-letter per-row id ranges tile 0..85 in row order, letter by letter |
| `LetterBricks.RangeInRow` | src/letter_bricks.rs:134-136 | every brick of a range lies in that range's row |
| `LetterBricks.EachBrickInSomeRange` | src/letter_bricks.rs:134-136 | every brick belongs to some letter's row range |
| `LetterBricks.RangesDisjoint` | src/letter_bricks.rs:134-136 | no brick belongs to two ranges |
| `LetterBricks.RangeWidthBound` | src/letter_bricks.rs:15 | no letter contributes more than its widest row, so the widths sum to the 23-entry target list |
| `LetterBricks.CountFilled` | src/letter_bricks.rs:29-33 | the filled count never exceeds the number of bricks |
| `LetterBricks.CountFilledUpdate` | src/letter_bricks.rs:174-178 | changing one brick changes the count by its filled difference |
| `LetterBricks.CountFilledNone` | src/letter_bricks.rs:144-153 | an empty grid counts zero |
| `LetterBricks.CountFilledAll` | src/letter_bricks.rs:234-236 | the count is 86 exactly when every brick is filled |
| `LetterBricks.TargettedToLeftMeaning` | src/letter_bricks.rs:164-167 | the test finds exactly a targetted brick in the same row, one column to the left |
| `LetterBricks.TargettedToRightMeaning` | src/letter_bricks.rs:169-172 | the test finds exactly a targetted brick in the same row, one column to the right |
| `LetterBricks.RangeCandidatesProps` | src/letter_bricks.rs:196-202 | a scanned range yields only its own eligible bricks |
| `LetterBricks.LetterCandidatesProps` | src/letter_bricks.rs:190-206 | a letter yields at most its widest row, and only eligible bricks of its topmost row that still has a gap (the lowest-numbered one) |
| `LetterBricks.CandidatePrefixBound` | src/letter_bricks.rs:190-207 | the letters scanned so far fit in the 23-entry list |
| `LetterBricks.CandidatePrefixClaimable` | src/letter_bricks.rs:190-207 | each candidate is eligible and in its letter's first row with a gap |
| `LetterBricks.CandidatesAreClaimable` | src/letter_bricks.rs:190-212 | every candidate is unfilled, untargetted, has no targetted neighbour, and lies in its letter's first row with a gap |
| `LetterBricks.Reverse` | src/letter_bricks.rs:231 | the queue's reversal holds the same ids in the opposite order |
| `LetterBricks.RemovalScanDescends` | src/letter_bricks.rs:221-230 | the scan from the top collects filled bricks in strictly descending id order |
| `LetterBricks.RemovalScanSkipsNone` | src/letter_bricks.rs:221-230 | no filled brick above the last collected one is skipped |
| `LetterBricks.RemovalScanLength` | src/letter_bricks.rs:221-230 | the scan collects the requested number of bricks, or all filled ones if there are fewer |
| `LetterBricks.RemovalQueueFromEmpty` | src/letter_bricks.rs:221-232 | starting from an empty queue, the removal queue lists distinct filled bricks, takes the topmost ones, and is as long as the request allows |
| `LetterBricks.LetterBricks.constructor` | src/letter_bricks.rs:43-142 | all 86 bricks start empty and untargetted and the queue is empty |
| `LetterBricks.LetterBricks.Reset` | src/letter_bricks.rs:144-153 | every brick is emptied and untargetted, the count is zero and the queue is empty |
| `LetterBricks.LetterBricks.RowHasGaps` | src/letter_bricks.rs:155-162 | a letter's row has a gap exactly when one of its bricks is unfilled |
| `LetterBricks.LetterBricks.FillTarget` | src/letter_bricks.rs:174-178 | the brick becomes filled and untargetted and the count grows by one; the grid stays valid when the brick was a claimed target |
| `LetterBricks.LetterBricks.Untarget` | src/letter_bricks.rs:180-182 | only that brick's targetted flag is cleared |
| `LetterBricks.LetterBricks.AppendRowTargets` | src/letter_bricks.rs:196-202 | the list grows by exactly that range's eligible bricks |
| `LetterBricks.LetterBricks.BuildTargetList` | src/letter_bricks.rs:190-207 | the list is exactly the candidate list |
| `LetterBricks.LetterBricks.RequestTarget` | src/letter_bricks.rs:184-219 | nothing when the letters are complete or have no candidate; otherwise the picked candidate, which is unfilled and untargetted, is marked and returned with its screen position |
| `LetterBricks.PickedTarget` | src/letter_bricks.rs:208-218 | the claim granted for a pick: none exactly when there is no candidate; otherwise an unfilled, untargetted candidate at its screen position |
| `LetterBricks.LetterBricks.InitiateRemoval` | src/letter_bricks.rs:221-232 | the queue becomes the old queue plus the scan from the top, reversed; from an empty queue the grid stays valid |
| `LetterBricks.LetterBricks.Update` | src/letter_bricks.rs:243-250 | every 15 frames the queue's next brick is emptied and popped; otherwise nothing changes |
| `LetterBricks.CompleteMeansAllFilled` | src/letter_bricks.rs:234-236 | the letters are complete exactly when every brick is filled |
| `Bombs.Bomb.Updated` | src/bombs.rs:24-29 | a falling bomb drops 4 pixels and stays in flight exactly while on screen; a resting one is unchanged |
| `Bombs.Bombs.constructor` | src/bombs.rs:38-41 | four resting slots |
| `Bombs.Bombs.Reset` | src/bombs.rs:43-47 | every slot rests and keeps its position |
| `Bombs.Bombs.Release` | src/bombs.rs:49-57 | a bomb is released exactly when some slot rests; the lowest resting slot takes it, centred at (x - 1, y); otherwise nothing changes |
| `Bombs.Bombs.Collision` | src/bombs.rs:59-68 | a hit is reported exactly when some falling bomb overlaps the area; the lowest such slot is freed; otherwise nothing changes |
| `Bombs.Bombs.Update` | src/bombs.rs:74-78 | every slot advances one tick |
| `Spiders.Speed` | src/spiders.rs:32-35 | speed table entries are between 0 and 4, and only the fast spider's first row has no vertical speed |
| `Spiders.RandomVel` | src/spiders.rs:134-149 | the horizontal speed comes from the table; the vertical one points down, up or either way as requested |
| `Spiders.Wander` | src/spiders.rs:151-169 | the direction counter is re-armed from its draw when it has run out and counts down otherwise |
| `Spiders.WanderStaysInBand` | src/spiders.rs:151-169 | a wandering spider inside the flight band stays inside it |
| `Spiders.NewTrajectoryFrom` | src/spiders.rs:110-128 | any velocity found from a given table row on reaches the target |
| `Spiders.RowScan` | src/spiders.rs:113-125 | the scan of one table row stops at its first velocity that reaches the target, or moves on to the next row |
| `Spiders.FirstReachingExtends` | src/spiders.rs:110-128 | a first match in the later rows is the first match overall when the earlier row has none |
| `Spiders.NewTrajectoryFromFirstMatch` | src/spiders.rs:110-128 | the search fails exactly when no candidate reaches the target, and otherwise returns the first one that does |
| `Spiders.NewTrajectoryFirstMatch` | src/spiders.rs:110-128 | the trajectory search over all nine speeds and four sign combinations returns the first one that reaches the target, and fails only when none does |
| `Spiders.Approach` | src/spiders.rs:210-241 | a spider arrives exactly when unrestricted and close; it keeps its course when that course reaches the target; it takes a new reaching course when one exists; otherwise it wanders |
| `Spiders.Tick` | src/spiders.rs:183-351 | one tick for a spider that holds no claim: it keeps its kind and claims nothing; nestling and dead spiders stay so; seeking starts downwards and carrying starts upwards below the ascent line |
| `Spiders.GrabEndsInAscent` | src/spiders.rs:265-272 | a grab lasts its rotation steps and ends in the ascent, in place |
| `Spiders.BombTimerRearms` | src/spiders.rs:171-181 | after a bomb the timer is re-armed to between 49 and 198 frames |
| `Spiders.DropBomb` | src/spiders.rs:171-181 | when the timer runs out inside the bombing band, a bomb is released from the spider's centre; the timer is re-armed or counts down |
| `Spiders.ClaimsStep` | src/spiders.rs:183-351 | a spider step that changes its own claims consistently keeps every claim on a marked brick |
| `Spiders.ClaimsHeldWeaken` | src/spiders.rs:183-351 | marking more bricks never breaks the claim invariant |
| `Spiders.ClaimReleased` | src/game.rs:227-235 | a dead spider's released claim leaves the invariant intact |
| `Spiders.NoClaimsHeld` | src/spiders.rs:441-456 | a roster that claims nothing satisfies the invariant |
| `Spiders.SeekToward` | src/spiders.rs:203-242 | a seeking spider switches to descending exactly when it arrives above its brick, and keeps claiming that brick |
| `Spiders.CarryToward` | src/spiders.rs:285-327 | a carrying spider releases exactly when it arrives at its gap, and holds the letter claim until it does |
| `Spiders.DescendMove` | src/spiders.rs:255-264 | a descending spider drops one pixel and grabs once it reaches its brick |
| `Spiders.WanderingSeek` | src/spiders.rs:243-248 | a seeking spider without a claim wanders one step, re-arms its direction counter, keeps its bomb timer and holds the claim the base granted |
| `Spiders.WanderingCarry` | src/spiders.rs:328-333 | a carrying spider without a claim wanders one step, re-arms its direction counter, keeps its bomb timer and holds the claim the letters granted |
| `Spiders.SeekStep` | src/spiders.rs:201-254 | with a target: `SeekToward` then the bomb timer; without one: the wandering move holding exactly the base's pick (`BaseBricks.PickedTarget` of the base before the call), then the bomb timer; the claim it holds is marked in the base, which stays valid |
| `Spiders.DescendStep` | src/spiders.rs:255-264 | on the grab the brick leaves the base and the count drops by one; otherwise the base is untouched |
| `Spiders.CarryStep` | src/spiders.rs:283-339 | with a target: `CarryToward`, filling the brick on release, then the bomb timer; without one: the wandering move holding exactly the letters' pick (`LetterBricks.PickedTarget` of the letters before the call), then the bomb timer; the claim it holds is marked |
| `Spiders.Step` | src/spiders.rs:183-351 | one tick of any spider keeps its claim marked, keeps the grids and the bomb pool valid, and gives the new spider of every state: the tick, `SeekToward`, `CarryToward`, `DescendMove`, or the wandering move with the grid's pick, each followed by the bomb timer where the source runs it (`Spiders.Stepped`) |
| `Spiders.SteppedUnattached` | src/spiders.rs:183-351 | a spider in a state that touches no grid steps by `Spiders.Tick` |
| `Spiders.AliveCount` | src/spiders.rs:82-87 | the live count is at most the roster size |
| `Spiders.AliveCountUpdate` | src/spiders.rs:82-87 | replacing one spider changes the live count by its liveness difference |
| `Spiders.AliveCountSame` | src/spiders.rs:82-87 | rosters with the same liveness have the same count |
| `Spiders.AliveCountZero` | src/spiders.rs:543-545 | the count is zero exactly when no spider is alive |
| `Spiders.Launch` | src/spiders.rs:89-102 | a launched spider starts its swoop, in the given direction, from its nest position relative to the mother |
| `Spiders.ReportedClaim` | src/spiders.rs:497-517 | a seeking spider reports its base brick, a carrying one its letter brick, every other spider none |
| `Spiders.HitSpiderReportsItsClaim` | src/spiders.rs:353-364 | a spider that can be hit reports exactly the claim it holds |
| `Spiders.WaveCountdownBounds` | src/spiders.rs:461-470 | the wave countdown stays below 400, restarts from 200 to 399 when the wave is full, and is cleared when no spider flies |
| `Spiders.Spiders.constructor` | src/spiders.rs:384-439 | 11 slow, 25 medium and 9 fast spiders, all nestled in their nest positions; 45 left, none in flight |
| `Spiders.Spiders.Reset` | src/spiders.rs:441-456 | every spider nestles back home with its timers cleared; 45 left; the wave cap is min(7 + screen - 1, 18) |
| `Spiders.Spiders.Launching` | src/spiders.rs:461-481 | the countdown follows its rule; the next spider is launched exactly when the wave has room, the countdown is over, spiders remain, the launch gap has passed, play is unrestricted and the mother can launch |
| `Spiders.Spiders.StepOne` | src/spiders.rs:482-485 | spider `i` becomes its stepped value (`Spiders.Stepped`); a target-less seeker or carrier holds exactly its grid's pick; a grab removes the brick from the base; the others are untouched; the claim invariant is kept |
| `Spiders.Spiders.StepAll` | src/spiders.rs:482-485 | every spider becomes its stepped value, unattached ones by `Tick`; the claim invariant and the roster counts are kept |
| `Spiders.Spiders.Update` | src/spiders.rs:458-486 | the wave and launch rules hold; the launched spider steps from its launch position and every other spider from its old value, unattached ones by `Tick`; the claim invariant and the roster accounting are kept, and a restricted update drops no bomb |
| `Spiders.Spiders.Collision` | src/spiders.rs:488-495 | nothing is hit exactly when no spider in a hittable state overlaps the area; otherwise the first one that does is reported |
| `Spiders.Spiders.TargetBrickId` | src/spiders.rs:497-517 | the brick id reported is the spider's claim |
| `Spiders.Spiders.SpiderType` | src/spiders.rs:526-528 | the type is one of three |
| `Spiders.Spiders.Kill` | src/spiders.rs:530-541 | the spider dies, one fewer in flight and one fewer left, an explosion is registered where it was; the roster accounting is kept |
| `Spiders.SpidersRemainIffAlive` | src/spiders.rs:543-545 | spiders remain exactly when some spider is not dead |
| `Spiders.HitSpiderIsCounted` | src/spiders.rs:530-541 | a hittable spider has been launched and is counted in flight and left, so the counters cannot underflow |
| `Game.StateQueries` | src/game.rs:32-47 | the game is playing exactly when in progress, and a screen is in progress exactly then |
| `Game.ExtraLifeIffThresholdCrossed` | src/game.rs:197-203 | an extra life is due exactly when the score passes a multiple of 6000 |
| `Game.DoubleScoreSameLives` | src/game.rs:197-203 | scoring p twice awards the same lives as scoring 2p once when 2p is at most 6000 |
| `Game.SpiderPoints` | src/game.rs:237-241 | a spider scores its type's points, doubled while it carries |
| `Game.QueuePacedTick` | src/game.rs:369-373 | the pacing invariant survives a tick, and on the bonus frame the queue is empty and no bonus bomb flies |
| `Game.QueuePacedNewScreen` | src/game.rs:385-394 | a new screen starts paced |
| `Game.GameInput.constructor` | src/game.rs:60-70 | no key is latched |
| `Game.GameInput.Reset` | src/game.rs:72-80 | no key is latched |
| `Game.GameInput.UpdateInputs` | src/game.rs:82-108 | the movement and start keys follow their key-down/up events; fire, pause and the volume keys latch on key-down |
| `Game.GameInput.AcknowledgeFire` | src/game.rs:110-112 | the fire latch is cleared |
| `Game.GameInput.AcknowledgePause` | src/game.rs:114-116 | the pause latch is cleared |
| `Game.GameInput.AcknowledgeVolumeChange` | src/game.rs:118-121 | both volume latches are cleared |
| `Game.Game.NewParts` | src/game.rs:149-174 | every part is fresh and valid, and the bonus bomb rests |
| `Game.Game.NewGrids` | src/game.rs:149-174 | the grids and the roster are fresh, valid and claim-consistent |
| `Game.Game.constructor` | src/game.rs:149-174 | the game starts in start-up with score, frame and screen 0, not paused, and all invariants established |
| `Game.Game.IncreaseScore` | src/game.rs:197-203 | the score grows by the increment, and a life with its animation is awarded exactly when a multiple of 6000 is passed |
| `Game.Game.ScreenStart` | src/game.rs:210-214 | the screen-start animation for the current screen is registered |
| `Game.Game.ReleaseClaim` | src/game.rs:227-235 | the spider's claim is released in the grid it was claimed from |
| `Game.Game.ClaimsHeldAfterKill` | src/game.rs:226-243 | killing a spider whose claim is released keeps the claim invariant |
| `Game.Game.KillSpider` | src/game.rs:227-243 | the spider dies and its claim is released, keeping every invariant |
| `Game.Game.ScoreSpider` | src/game.rs:237-241 | the score grows by the spider's points, doubled when carrying, awarding lives at the thresholds |
| `Game.Game.ShootSpider` | src/game.rs:226-243 | the missile stops, the spider dies, its claim is released and its points are scored |
| `Game.Game.MissileStrike` | src/game.rs:224-245 | a flying missile hits the first hittable spider it overlaps, with the effects of a shot; when none is hit nothing changes |
| `Game.Game.MissileCollision` | src/game.rs:224-245 | a hit is made exactly when the missile flies and overlaps a hittable spider, with the effects of a shot; otherwise nothing changes |
| `Game.Game.KillShip` | src/game.rs:247-253 | a live ship is sent back to its home x and into its wait before change-over; otherwise it is unaffected |
| `Game.Game.BombCollision` | src/game.rs:247-253 | the ship is hit exactly when it is alive and a falling bomb overlaps it; on a hit the first overlapping bomb is retired and nothing else in the pool changes, and the ship goes home and waits; otherwise the ship and the bombs are unchanged |
| `Game.Game.RamSpider` | src/game.rs:258-268 | a ramming spider dies, its claim is released and the ship is killed, back at its home x |
| `Game.Game.SpiderCollision` | src/game.rs:255-271 | a live ship collides with the first hittable spider it overlaps, which dies and releases its claim while the ship is killed and sent home; otherwise nothing changes |
| `Game.Game.ShootBonusBomb` | src/game.rs:273-280 | the missile stops, the bonus bomb goes dormant, its score is added and the letters queue its removal |
| `Game.Game.BonusBombCollision` | src/game.rs:273-280 | the bonus bomb is hit exactly when the missile flies and overlaps its centre; otherwise nothing changes |
| `Game.Game.Changeover` | src/game.rs:340-345 | the change-over starts exactly when the ship has waited long enough, no spider flies and no bomb or missile is in flight |
| `Game.Game.CheckGameOver` | src/game.rs:349-353 | the game is over exactly when the letters are complete or no life is left |
| `Game.Game.AdvanceShip` | src/game.rs:355-356 | the missile rises 12 pixels while flying, keeping its x, and stays in flight while on screen; the ship's state takes one tick |
| `Game.Game.MoveShip` | src/game.rs:357-362 | left wins over right; a live ship moves 5 pixels within the screen |
| `Game.Game.FireControl` | src/game.rs:363-366 | a latched fire launches a resting missile from a live ship's nose (centred, one missile height above the ship), and the latch is cleared |
| `Game.Game.Shots` | src/game.rs:336-337 | the two missile collisions keep every invariant and never lower the score |
| `Game.Game.ShipHits` | src/game.rs:338-339 | the two ship collisions keep every invariant |
| `Game.Game.Collisions` | src/game.rs:336-339 | the four collisions keep every invariant and never lower the score |
| `Game.Game.Referee` | src/game.rs:340-353 | after change-over and game-over checks the game is in progress or over |
| `Game.Game.PlayerTick` | src/game.rs:355-366 | the ship, missile and fire control move on, keeping every invariant |
| `Game.Game.PlayingTick` | src/game.rs:335-367 | the playing part of a frame keeps every invariant, ends in progress or over and never lowers the score |
| `Game.Game.BaseTick` | src/game.rs:370 | an empty base is refilled; otherwise the base's bricks and targets are unchanged |
| `Game.Game.LettersTick` | src/game.rs:371 | the letters update keeps the pacing, so on the bonus frame the queue is empty and no bonus bomb flies |
| `Game.Game.GridsTick` | src/game.rs:370-371 | both grids update and the bonus frame finds the queue empty |
| `Game.Game.BombsTick` | src/game.rs:374 | every bomb slot advances one tick |
| `Game.Game.MotherTick` | src/game.rs:372-373 | the bonus bomb and the mother advance, keeping every invariant |
| `Game.Game.SpidersTick` | src/game.rs:375-382 | the roster update keeps every invariant |
| `Game.Game.WorldTick` | src/game.rs:369-383 | the world part of a frame keeps every invariant |
| `Game.Game.RefillRoster` | src/game.rs:388-391 | the roster is reset for the given screen: all nestled, 45 left, wave cap by screen |
| `Game.Game.RestartClock` | src/game.rs:389-392 | the frame count restarts at 0, the bonus bomb rests and it is scheduled 1200 to 2399 frames in |
| `Game.Game.SetUpScreen` | src/game.rs:388-393 | the screen is set up: roster reset, clock restarted, bonus bomb scheduled |
| `Game.Game.NextScreen` | src/game.rs:388-393 | the screen number grows by one and the screen is set up |
| `Game.Game.ScreenAdvance` | src/game.rs:385-394 | the next screen starts exactly when a screen was in progress, no spider remains and no bomb falls; otherwise the screen carries on |
| `Game.Game.ResetPlayer` | src/game.rs:182-193 | the score is zero, the ship has spent a life on its change-over, the missile rests and no key is latched |
| `Game.Game.ResetGrids` | src/game.rs:183-187 | the letters are empty with no queue and the base is full |
| `Game.Game.ResetBoard` | src/game.rs:183-188 | the grids and the bombs are reset, keeping every invariant |
| `Game.Game.ResetPlayfield` | src/game.rs:181-193 | the player and the board are reset together |
| `Game.Game.NewGame` | src/game.rs:176-195 | a new game is in progress on screen 1 with score 0, frame 0, 3 lives in reserve, empty letters, a full base and a full roster |
| `Game.Game.PauseControl` | src/game.rs:316-321 | a latched pause toggles pausing while playing and is cleared |
| `Game.Game.VolumeDownControl` | src/game.rs:323-326 | a latched volume-down lowers the volume by one down to 0 and clears both volume latches |
| `Game.Game.VolumeUpControl` | src/game.rs:327-330 | a latched volume-up raises the volume by one up to 10 and clears both volume latches |
| `Game.Game.Controls` | src/game.rs:316-330 | pause and volume are handled in source order: a latched volume-down wins over a latched volume-up |
| `Game.Game.UpdateInputs` | src/game.rs:311-313 | the game's input latch follows the event |
| `Game.Game.Scenery` | src/game.rs:399-400 | the animations and the backdrop advance, keeping every invariant |
| `Game.Game.StartControl` | src/game.rs:396-398 | a latched start outside play begins a new game; otherwise nothing changes |
| `Game.Game.ScreenOrGame` | src/game.rs:385-398 | a game that was over either restarts on screen 1 with score 0 or stays over with its score |
| `Game.Game.EndOfFrame` | src/game.rs:385-400 | the end of the frame: screen advance, start control and scenery |
| `Game.Game.Advance` | src/game.rs:335-383 | the play and world parts of a frame keep every invariant, and an over game stays over with its score |
| `Game.Game.CountAndAdvance` | src/game.rs:333-383 | the frame count grows by one and the frame advances |
| `Game.Game.Frame` | src/game.rs:332-401 | an unpaused frame keeps every invariant; the frame count grows by one or restarts with a new screen |
| `Game.Game.Update` | src/game.rs:315-402 | every update keeps every invariant; a paused game stays frozen; an unpaused one advances its frame count by one or restarts it |

## Left out

- Rendering is not part of this model: images, text, the `render` methods, the explosion and score drawing, and the spider `anim_offset` that only picks an animation frame.
- Audio playback is not part of this model: `SoundEffect`, the `play` calls, `turn_sound_on` and `turn_sound_off` with the `sound_on` flags. `SoundFx.SoundControl` keeps the mixer volume as a field.
- `src/main.rs`, the SDL event loop, window and timing, and `find_asset` are not part of this model. SDL events are reduced to the key events the game reads (`Game.Key`, `Game.Event`).
- Randomness becomes oracle parameters: `Spiders.Draws`, `Game.TickDraws`, `pick` and `delayDraw`. The distribution is not modelled, only the range.
- Spider coordinates and speeds are `f64` in the source and `real` here. Rounding, `-0.0` and NaN are not modelled. `Spiders.Signum` returns 1 at 0, as the source's `signum` does for `+0.0`.
- The swoop arc uses `sin` and `cos`. It is an oracle displacement bounded by the swoop speed. The swoop, grab and release progress counters (`+= 0.05` until 1.0) are step counters of 20 steps. The ship's change-over counter is handled the same way (`Ship.ChangeOverSteps`).
- `Common.TruncToInt`: truncation toward zero only. The saturation of out-of-range `f64 as i32` casts is not modelled, because coordinates stay on screen.
- `u32` wrap-around of `frame_count` and `score` is not modelled, because a game would need more than two years of frames or four billion points.
- `Spiders.Spiders.Launching`: `frame_count - last_launch_frame` is a `u32` subtraction. It is modelled under the requirement `lastLaunchFrame <= frameCount`, which `Game.Game.Consistent` maintains.
- `letter_bricks.rs` `initiate_expansion` and the expansion part of `update`, lines 238-241 and 251-260, only drive the game-over drawing and are not part of this model.
- `game.rs:373` calls `mother.update` with two arguments, while `mother.rs:45` takes three (`restrict`). `Mother.Mother.Update` follows `mother.rs`, and `Game.Game.MotherTick` passes the same restrict flag that the spiders get.
- Some parts of `game.rs` are done in a different order: the score is added before the claim is released (`ShootSpider`), and `NewGame` resets the screen, then the player, then the grids. The parts touched are disjoint objects, so the final state is the same.
- `BaseBricks.BaseBricks.TakeTarget`: requires `qtyFilled >= 1`, because the source's `u32` decrement would underflow otherwise, and keeps `Valid` only when the brick was filled. The claim invariant guarantees both whenever a spider grabs.
- `LetterBricks.LetterBricks.FillTarget`: keeps `Valid` only when the brick was a claimed target, the case in which the game calls it.
- `LetterBricks.LetterBricks.InitiateRemoval`: proved valid only from an empty queue. A second removal while the first still drains could queue a brick twice. In the game it is started only from an empty queue, which `Game.QueuePaced` proves.
- `Spiders.Tick`: states the state kinds and the claims after a tick of a spider that holds no claim, not its exact coordinates after a swoop.
- `Spiders.Spiders.StepAll`: for a seeking or carrying spider without a claim, states its wandering move but does not name the claim it got, because that claim depends on the grids as the earlier spiders of the same tick left them. `Spiders.Spiders.StepOne` names it for one spider.
- `Spiders.Spiders.Update`: the same as `StepAll` for the claims granted during the tick.
- `Spiders.Step`, `Spiders.SeekStep`, `Spiders.CarryStep`: the bomb pool after an unrestricted tick is stated only as valid; `Spiders.DropBomb` states the release itself.
- `Game.Game.ShipHits`: promises only the invariants. The two collisions it runs are stated by `BombCollision` and `SpiderCollision`.
- `Game.Game.PlayerTick`: promises only the invariants. Its parts are stated by `AdvanceShip`, `MoveShip` and `FireControl`.
- `Game.Game.MotherTick`: promises only the invariants. Its parts are stated by `BonusBomb.BonusBomb.Update` and `Mother.Mother.Update`.
- `Game.Game.SpidersTick`: promises only the invariants. The roster update is stated by `Spiders.Spiders.Update`.
- `Game.Game.WorldTick`: promises only the invariants. Its parts are stated by `GridsTick`, `BombsTick`, `MotherTick` and `SpidersTick`.
- `Game.Game.Scenery`: promises only the invariants. Its parts are stated by `Animation.Animations.Update` and `Background.Background.Update`.
- `Game.Game.Shots`: promises the invariants and a non-decreasing score. Its parts are stated by `BonusBombCollision` and `MissileCollision`.
- `Game.Game.Collisions`: promises the invariants and a non-decreasing score. Its parts are stated by `Shots` and `ShipHits`.
- `Game.Game.EndOfFrame`: states the game-over transitions only. Its parts are stated by `ScreenAdvance`, `StartControl` and `Scenery`.
- `Game.Game.Advance`: states the invariants and that an over game stays over. Its parts are stated by `PlayingTick` and `WorldTick`.

## Findings

| source | as written | input that shows it | evidently intended | confidence | as-written member | corrected member |
|---|---|---|---|---|---|---|
| src/soundfx.rs:17 | the initial mixer volume is `vol * VOL_STEPS` = 5 * 10 = 50 | a freshly constructed `SoundControl` | `vol * VOL_STEP` = 5 * 12 = 60, the value `update_channel_volume` (line 22) gives volume 5 | not executed | `SoundFx.InitialChannelVolumeDiffers` | `SoundFx.SoundControl.constructor` |
