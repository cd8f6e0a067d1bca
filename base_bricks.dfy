// The source grid at the bottom of the screen: three piles of 4 x 4 bricks.
// Spiders take bricks from the highest row that still has any; once the last
// brick is gone the piles refill off-screen and slide back in.
module BaseBricks {
  import opened Common

  const BaseBricksY: int := 630
  const BricksHomeX: int := 60
  const BricksSpeed: int := 2
  const BrickHeight: int := 10
  const BrickWidth: int := 15
  const BrickQty: nat := 4 * 4 * 3
  const PileSpacing: int := 210
  const RefillX: int := -600

  /** Index of the brick in column `col`, row `row` of pile `pile`. */
  function BrickId(pile: nat, col: nat, row: nat): nat
  {
    pile * 16 + row * 4 + col
  }

  /** The index determines pile, row and column, so distinct bricks have distinct ids. */
  lemma BrickIdDecodes(pile: nat, col: nat, row: nat)
    requires pile < 3 && col < 4 && row < 4
    ensures BrickId(pile, col, row) < BrickQty
    ensures BrickId(pile, col, row) / 16 == pile
    ensures BrickId(pile, col, row) % 16 / 4 == row
    ensures BrickId(pile, col, row) % 4 == col
  {
  }

  lemma BrickIdInjective(p: nat, c: nat, r: nat, p': nat, c': nat, r': nat)
    requires p < 3 && c < 4 && r < 4 && p' < 3 && c' < 4 && r' < 4
    requires BrickId(p, c, r) == BrickId(p', c', r')
    ensures p == p' && c == c' && r == r'
  {
    BrickIdDecodes(p, c, r);
    BrickIdDecodes(p', c', r');
  }

  function PileOf(id: nat): nat { id / 16 }
  function RowOf(id: nat): nat { id % 16 / 4 }
  function ColOf(id: nat): nat { id % 4 }

  // ---------------------------------------------------------------------------
  // Properties of the flag sequences

  function CountTrue(s: seq<bool>): (n: nat)
    ensures n <= |s|
  {
    if s == [] then 0 else CountTrue(s[..|s| - 1]) + (if s[|s| - 1] then 1 else 0)
  }

  lemma {:induction false} CountTrueUpdate(s: seq<bool>, k: nat, b: bool)
    requires k < |s|
    ensures CountTrue(s[k := b]) == CountTrue(s) - (if s[k] then 1 else 0) + (if b then 1 else 0)
  {
    var t := s[k := b];
    if k == |s| - 1 {
      assert t[..|t| - 1] == s[..|s| - 1];
    } else {
      assert t[..|t| - 1] == s[..|s| - 1][k := b];
      CountTrueUpdate(s[..|s| - 1], k, b);
    }
  }

  lemma {:induction false} CountTrueAllSet(s: seq<bool>)
    requires forall i :: 0 <= i < |s| ==> s[i]
    ensures CountTrue(s) == |s|
  {
    if s != [] {
      CountTrueAllSet(s[..|s| - 1]);
    }
  }

  lemma {:induction false} CountTruePositive(s: seq<bool>, k: nat)
    requires k < |s| && s[k]
    ensures CountTrue(s) >= 1
  {
    if k < |s| - 1 {
      CountTruePositive(s[..|s| - 1], k);
    }
  }

  /** Only filled bricks are claimed. */
  ghost predicate TargetsFilled(f: seq<bool>, t: seq<bool>)
    requires |f| == |t|
  {
    forall i :: 0 <= i < |t| ==> t[i] ==> f[i]
  }

  /** No two claimed bricks are side by side in a row of a pile. */
  ghost predicate NoAdjacentTargets(t: seq<bool>)
    requires |t| == BrickQty
  {
    forall pile: nat, row: nat, col: nat :: pile < 3 && row < 4 && col < 3 ==>
      !(t[BrickId(pile, col, row)] && t[BrickId(pile, col + 1, row)])
  }

  predicate RowHasBricks(f: seq<bool>, pile: nat, row: nat)
    requires |f| == BrickQty && pile < 3 && row < 4
  {
    f[BrickId(pile, 0, row)] || f[BrickId(pile, 1, row)] || f[BrickId(pile, 2, row)] || f[BrickId(pile, 3, row)]
  }

  /** `row` is the highest row of `pile` that still has bricks. */
  ghost predicate InTopRow(f: seq<bool>, pile: nat, row: nat)
    requires |f| == BrickQty && pile < 3 && row < 4
  {
    RowHasBricks(f, pile, row) && forall r: nat :: r < row ==> !RowHasBricks(f, pile, r)
  }

  /** Filled, unclaimed, and neither row neighbour is claimed. */
  predicate Eligible(f: seq<bool>, t: seq<bool>, pile: nat, row: nat, col: nat)
    requires |f| == |t| == BrickQty && pile < 3 && row < 4 && col < 4
  {
    var id := BrickId(pile, col, row);
    f[id] && !t[id] && (col == 0 || !t[id - 1]) && (col == 3 || !t[id + 1])
  }

  /** What a brick spiders may claim looks like: eligible, in the highest row of its pile with bricks. */
  ghost predicate Claimable(f: seq<bool>, t: seq<bool>, id: nat)
    requires |f| == |t| == BrickQty
  {
    exists pile: nat, row: nat, col: nat :: pile < 3 && row < 4 && col < 4 &&
      id == BrickId(pile, col, row) && Eligible(f, t, pile, row, col) && InTopRow(f, pile, row)
  }

  ghost function PushIf(list: seq<nat>, c: bool, id: nat): seq<nat>
  {
    if c then list + [id] else list
  }

  lemma PushIfAppend(prefix: seq<nat>, list: seq<nat>, c: bool, id: nat)
    ensures prefix + PushIf(list, c, id) == PushIf(prefix + list, c, id)
  {
    if c {
      assert prefix + (list + [id]) == (prefix + list) + [id];
    }
  }

  /** Stores `id` at position `len` of the list when `push` holds; `built` is what the list held so far. */
  method PushTarget(targetList: array<nat>, len: nat, push: bool, id: nat, ghost prefix: seq<nat>, ghost built: seq<nat>)
    returns (newLen: nat)
    requires len < targetList.Length && targetList[..len] == prefix + built
    modifies targetList
    ensures newLen <= len + 1
    ensures targetList[..newLen] == prefix + PushIf(built, push, id)
  {
    newLen := len;
    if push {
      targetList[len] := id;
      newLen := len + 1;
      assert targetList[..newLen] == targetList[..len] + [id];
    }
    PushIfAppend(prefix, built, push, id);
  }

  /** The list of ids among `id0` .. `id0 + 3` whose flag is set, in order. */
  ghost function RowPushes(e0: bool, e1: bool, e2: bool, e3: bool, id0: nat): seq<nat>
  {
    PushIf(PushIf(PushIf(PushIf([], e0, id0), e1, id0 + 1), e2, id0 + 2), e3, id0 + 3)
  }

  /** Appends the ids among `id0` .. `id0 + 3` whose flag is set, as the four tests of one row do. */
  method PushRow(targetList: array<nat>, len: nat, e0: bool, e1: bool, e2: bool, e3: bool, id0: nat)
    returns (newLen: nat)
    requires len + 4 <= targetList.Length
    modifies targetList
    ensures newLen <= len + 4
    ensures targetList[..newLen] == old(targetList[..len]) + RowPushes(e0, e1, e2, e3, id0)
  {
    ghost var prefix := targetList[..len];
    assert targetList[..len] == prefix + [];
    ghost var row0 := PushIf([], e0, id0);
    ghost var row1 := PushIf(row0, e1, id0 + 1);
    ghost var row2 := PushIf(row1, e2, id0 + 2);
    newLen := PushTarget(targetList, len, e0, id0, prefix, []);
    newLen := PushTarget(targetList, newLen, e1, id0 + 1, prefix, row0);
    newLen := PushTarget(targetList, newLen, e2, id0 + 2, prefix, row1);
    newLen := PushTarget(targetList, newLen, e3, id0 + 3, prefix, row2);
  }

  /** The eligible bricks of one row, left to right. */
  ghost function RowCandidates(f: seq<bool>, t: seq<bool>, pile: nat, row: nat): seq<nat>
    requires |f| == |t| == BrickQty && pile < 3 && row < 4
  {
    RowPushes(Eligible(f, t, pile, row, 0), Eligible(f, t, pile, row, 1),
              Eligible(f, t, pile, row, 2), Eligible(f, t, pile, row, 3), BrickId(pile, 0, row))
  }

  /** What pile `pile` offers: the candidates of its first row, from `row` on, that has bricks. */
  ghost function PileCandidates(f: seq<bool>, t: seq<bool>, pile: nat, row: nat): seq<nat>
    requires |f| == |t| == BrickQty && pile < 3 && row <= 4
    decreases 4 - row
  {
    if row == 4 then []
    else if RowHasBricks(f, pile, row) then RowCandidates(f, t, pile, row)
    else PileCandidates(f, t, pile, row + 1)
  }

  ghost function CandidatePrefix(f: seq<bool>, t: seq<bool>, pile: nat): seq<nat>
    requires |f| == |t| == BrickQty && pile <= 3
  {
    if pile == 0 then [] else CandidatePrefix(f, t, pile - 1) + PileCandidates(f, t, pile - 1, 0)
  }

  /** The list `request_target` chooses from; empty while the piles are empty or still sliding in. */
  ghost function Candidates(f: seq<bool>, t: seq<bool>, qtyFilled: nat, x: int): seq<nat>
    requires |f| == |t| == BrickQty
  {
    if qtyFilled > 0 && x >= BricksHomeX then CandidatePrefix(f, t, 3) else []
  }

  lemma RowCandidatesProps(f: seq<bool>, t: seq<bool>, pile: nat, row: nat)
    requires |f| == |t| == BrickQty && pile < 3 && row < 4
    requires InTopRow(f, pile, row)
    ensures |RowCandidates(f, t, pile, row)| <= 4
    ensures forall id :: id in RowCandidates(f, t, pile, row) ==> Claimable(f, t, id)
  {
  }

  lemma {:induction false} PileCandidatesProps(f: seq<bool>, t: seq<bool>, pile: nat, row: nat)
    requires |f| == |t| == BrickQty && pile < 3 && row <= 4
    requires forall r: nat :: r < row ==> !RowHasBricks(f, pile, r)
    ensures |PileCandidates(f, t, pile, row)| <= 4
    ensures forall id :: id in PileCandidates(f, t, pile, row) ==> Claimable(f, t, id)
    decreases 4 - row
  {
    if row < 4 {
      if RowHasBricks(f, pile, row) {
        RowCandidatesProps(f, t, pile, row);
      } else {
        PileCandidatesProps(f, t, pile, row + 1);
      }
    }
  }

  lemma {:induction false} CandidatePrefixProps(f: seq<bool>, t: seq<bool>, pile: nat)
    requires |f| == |t| == BrickQty && pile <= 3
    ensures |CandidatePrefix(f, t, pile)| <= 4 * pile
    ensures forall id :: id in CandidatePrefix(f, t, pile) ==> Claimable(f, t, id)
  {
    if pile > 0 {
      CandidatePrefixProps(f, t, pile - 1);
      PileCandidatesProps(f, t, pile - 1, 0);
    }
  }

  /**
   * Every candidate is filled, unclaimed, has no claimed row neighbour, and lies in
   * the highest row of its pile that still has bricks.
   */
  lemma CandidatesAreClaimable(f: seq<bool>, t: seq<bool>, qtyFilled: nat, x: int, id: nat)
    requires |f| == |t| == BrickQty
    requires id in Candidates(f, t, qtyFilled, x)
    ensures id < BrickQty && f[id] && !t[id] && Claimable(f, t, id)
  {
    CandidatePrefixProps(f, t, 3);
  }

  /**
   * The claim `request_target` grants when its random index is `pick`: none when
   * there is no candidate, otherwise the chosen candidate with its screen position.
   */
  ghost function PickedTarget(f: seq<bool>, t: seq<bool>, qtyFilled: nat, x: int, pick: nat): (r: Option<TargetBrick>)
    requires |f| == |t| == BrickQty
    ensures r.None? <==> Candidates(f, t, qtyFilled, x) == []
    ensures r.Some? ==> r.value.brickId in Candidates(f, t, qtyFilled, x)
    ensures r.Some? ==> r.value.brickId < BrickQty && Claimable(f, t, r.value.brickId)
    ensures r.Some? ==> r.value == TargetOf(x, r.value.brickId)
  {
    var c := Candidates(f, t, qtyFilled, x);
    if c == [] then None
    else
      var id := c[pick % |c|];
      CandidatesAreClaimable(f, t, qtyFilled, x, id);
      Some(TargetOf(x, id))
  }

  /** Claiming a claimable brick keeps claims filled and apart. */
  lemma ClaimKeepsTargetsApart(f: seq<bool>, t: seq<bool>, id: nat)
    requires |f| == |t| == BrickQty && id < BrickQty
    requires TargetsFilled(f, t) && NoAdjacentTargets(t) && Claimable(f, t, id)
    ensures TargetsFilled(f, t[id := true]) && NoAdjacentTargets(t[id := true])
  {
    var p0: nat, r0: nat, c0: nat :| p0 < 3 && r0 < 4 && c0 < 4 &&
      id == BrickId(p0, c0, r0) && Eligible(f, t, p0, r0, c0) && InTopRow(f, p0, r0);
    var t' := t[id := true];
    forall pile: nat, row: nat, col: nat | pile < 3 && row < 4 && col < 3
      ensures !(t'[BrickId(pile, col, row)] && t'[BrickId(pile, col + 1, row)])
    {
      if BrickId(pile, col, row) == id {
        BrickIdInjective(pile, col, row, p0, c0, r0);
      } else if BrickId(pile, col + 1, row) == id {
        BrickIdInjective(pile, col + 1, row, p0, c0, r0);
      }
    }
  }

  /** The position `update` moves the piles to while they are not empty. */
  function Slid(x: int): int
  {
    if x < BricksHomeX then x + BricksSpeed else x
  }

  function SlidTimes(x: int, k: nat): int
    decreases k
  {
    if k == 0 then x else SlidTimes(Slid(x), k - 1)
  }

  /** From the refill position -600 the piles arrive at exactly 60 after 330 ticks and stay there. */
  lemma {:induction false} SlideReachesHome(x: int, k: nat)
    requires RefillX <= x <= BricksHomeX && x % 2 == 0
    ensures SlidTimes(x, k) == if x + 2 * k <= BricksHomeX then x + 2 * k else BricksHomeX
    decreases k
  {
    if k > 0 {
      SlideReachesHome(Slid(x), k - 1);
    }
  }

  // ---------------------------------------------------------------------------
  // The piles

  /** The claim record for brick `id` of a grid whose left edge is at `x`: the brick's top-left corner. */
  function TargetOf(x: int, id: nat): TargetBrick
  {
    TargetBrick(x + PileOf(id) * PileSpacing + ColOf(id) * BrickWidth, BaseBricksY + RowOf(id) * BrickHeight, id)
  }

  class BaseBricks {
    var x: int
    const filled: array<bool>
    const targetted: array<bool>
    var qtyFilled: nat

    ghost predicate Valid()
      reads this, filled, targetted
    {
      filled.Length == targetted.Length == BrickQty && filled != targetted &&
      RefillX <= x <= BricksHomeX && x % 2 == 0 &&
      qtyFilled == CountTrue(filled[..]) &&
      TargetsFilled(filled[..], targetted[..]) &&
      NoAdjacentTargets(targetted[..])
    }

    constructor ()
      ensures Valid() && fresh(filled) && fresh(targetted)
      ensures x == 60 && qtyFilled == 0
      ensures forall i :: 0 <= i < BrickQty ==> !filled[i] && !targetted[i]
    {
      x := BricksHomeX;
      filled := new bool[BrickQty](_ => false);
      targetted := new bool[BrickQty](_ => false);
      qtyFilled := 0;
      new;
      assert forall i :: 0 <= i < BrickQty ==> !filled[..][i];
      assert CountTrue(filled[..]) == 0 by {
        CountTrueUpdate(filled[..], 0, false);
        NoneSetCountsZero(filled[..]);
      }
    }

    /** Marks the piles as empty; the next `Update` refills them. The flags are left as they are. */
    method Reset()
      modifies this
      ensures qtyFilled == 0 && x == old(x)
    {
      qtyFilled := 0;
    }

    /** Refills empty piles off-screen to the left, and otherwise slides them home. */
    method Update()
      requires filled.Length == targetted.Length == BrickQty && filled != targetted
      modifies this, filled, targetted
      ensures old(qtyFilled) == 0 ==>
        x == RefillX && qtyFilled == BrickQty &&
        (forall i :: 0 <= i < BrickQty ==> filled[i] && !targetted[i])
      ensures old(qtyFilled) != 0 ==>
        x == Slid(old(x)) && qtyFilled == old(qtyFilled) &&
        filled[..] == old(filled[..]) && targetted[..] == old(targetted[..])
      ensures old(qtyFilled) == 0 || old(Valid()) ==> Valid()
    {
      if qtyFilled == 0 {
        x := RefillX;
        forall i | 0 <= i < BrickQty {
          filled[i] := true;
        }
        forall i | 0 <= i < BrickQty {
          targetted[i] := false;
        }
        qtyFilled := BrickQty;
        assert forall i :: 0 <= i < BrickQty ==> filled[..][i];
        CountTrueAllSet(filled[..]);
      } else if x < BricksHomeX {
        x := x + BricksSpeed;
      }
    }

    /** Appends the eligible bricks of one row, in the order and under the conditions `request_target` uses. */
    method AppendRowTargets(targetList: array<nat>, listLen: nat, pile: nat, row: nat) returns (newLen: nat)
      requires filled.Length == targetted.Length == BrickQty
      requires targetList.Length == 12 && listLen + 4 <= 12 && pile < 3 && row < 4
      modifies targetList
      ensures newLen <= listLen + 4
      ensures targetList[..newLen] == old(targetList[..listLen]) + RowCandidates(filled[..], targetted[..], pile, row)
    {
      ghost var f, tg := filled[..], targetted[..];
      var id0 := pile * 16 + row * 4;
      assert id0 == BrickId(pile, 0, row) && id0 + 1 == BrickId(pile, 1, row);
      assert id0 + 2 == BrickId(pile, 2, row) && id0 + 3 == BrickId(pile, 3, row);
      var t0, t1, t2, t3 := targetted[id0], targetted[id0 + 1], targetted[id0 + 2], targetted[id0 + 3];
      var e0 := !t0 && !t1 && filled[id0];
      var e1 := !t0 && !t1 && !t2 && filled[id0 + 1];
      var e2 := !t1 && !t2 && !t3 && filled[id0 + 2];
      var e3 := !t2 && !t3 && filled[id0 + 3];
      assert e0 == Eligible(f, tg, pile, row, 0) && e1 == Eligible(f, tg, pile, row, 1);
      assert e2 == Eligible(f, tg, pile, row, 2) && e3 == Eligible(f, tg, pile, row, 3);
      assert RowPushes(e0, e1, e2, e3, id0) == RowCandidates(f, tg, pile, row);
      newLen := PushRow(targetList, listLen, e0, e1, e2, e3, id0);
    }

    /** The inner loop of `request_target`: the candidates of the first row of `pile` that has bricks. */
    method AppendPileTargets(targetList: array<nat>, listLen: nat, pile: nat) returns (newLen: nat)
      requires filled.Length == targetted.Length == BrickQty
      requires targetList.Length == 12 && listLen + 4 <= 12 && pile < 3
      modifies targetList
      ensures newLen <= listLen + 4
      ensures targetList[..newLen] == old(targetList[..listLen]) + PileCandidates(filled[..], targetted[..], pile, 0)
    {
      ghost var f, tg := filled[..], targetted[..];
      newLen := listLen;
      var j := 0;
      while j < 4
        invariant j <= 4 && newLen == listLen
        invariant targetList[..listLen] == old(targetList[..listLen])
        invariant PileCandidates(f, tg, pile, 0) == PileCandidates(f, tg, pile, j)
      {
        if RowHasBricks(filled[..], pile, j) {
          newLen := AppendRowTargets(targetList, listLen, pile, j);
          return;
        }
        j := j + 1;
      }
    }

    method BuildTargetList() returns (targetList: array<nat>, listLen: nat)
      requires filled.Length == targetted.Length == BrickQty
      ensures fresh(targetList) && listLen <= targetList.Length == 12
      ensures targetList[..listLen] == Candidates(filled[..], targetted[..], qtyFilled, x)
    {
      ghost var f, tg := filled[..], targetted[..];
      targetList := new nat[12];
      listLen := 0;
      if qtyFilled > 0 && x >= BricksHomeX {
        for i := 0 to 3
          invariant listLen <= 4 * i
          invariant targetList[..listLen] == CandidatePrefix(f, tg, i)
        {
          listLen := AppendPileTargets(targetList, listLen, i);
        }
      }
    }

    /**
     * Claims one of the candidates, chosen by `pick` (standing for the random index
     * into the list), and returns its position on screen.
     */
    method RequestTarget(pick: nat) returns (t: Option<TargetBrick>)
      requires Valid()
      modifies targetted
      ensures Valid()
      ensures old(qtyFilled) == 0 || old(x) < BricksHomeX ==> t == None
      ensures t.Some? ==> t.value.brickId < BrickQty && Claimable(filled[..], old(targetted[..]), t.value.brickId)
      ensures t.Some? ==> filled[t.value.brickId] && !old(targetted[t.value.brickId])
      ensures Candidates(filled[..], old(targetted[..]), qtyFilled, x) == [] ==>
        t == None && targetted[..] == old(targetted[..])
      ensures Candidates(filled[..], old(targetted[..]), qtyFilled, x) != [] ==> (t.Some? &&
        t.value.brickId == Candidates(filled[..], old(targetted[..]), qtyFilled, x)[
          pick % |Candidates(filled[..], old(targetted[..]), qtyFilled, x)|])
      ensures t.Some? ==> t.value == TargetOf(x, t.value.brickId)
      ensures t.Some? ==> targetted[..] == old(targetted[..])[t.value.brickId := true]
    {
      ghost var f, tg := filled[..], targetted[..];
      var targetList, listLen := BuildTargetList();
      assert targetList[..listLen] == Candidates(f, tg, qtyFilled, x);
      if listLen > 0 {
        var id := targetList[pick % listLen];
        ghost var c := Candidates(f, tg, qtyFilled, x);
        assert id == c[pick % |c|] && id in c;
        CandidatesAreClaimable(f, tg, qtyFilled, x, id);
        ClaimKeepsTargetsApart(f, tg, id);
        targetted[id] := true;
        t := Some(TargetOf(x, id));
        assert filled[..] == f && targetted[..] == tg[id := true];
      } else {
        t := None;
      }
    }

    /** A spider grabs its claimed brick. */
    method TakeTarget(brickId: nat)
      requires filled.Length == targetted.Length == BrickQty
      requires brickId < BrickQty && qtyFilled >= 1
      modifies this, filled, targetted
      ensures x == old(x) && qtyFilled == old(qtyFilled) - 1
      ensures filled[..] == old(filled[..])[brickId := false]
      ensures targetted[..] == old(targetted[..])[brickId := false]
      ensures old(Valid()) && old(filled[brickId]) ==> Valid()
    {
      filled[brickId] := false;
      targetted[brickId] := false;
      qtyFilled := qtyFilled - 1;
      CountTrueUpdate(old(filled[..]), brickId, false);
    }

    /** Gives a claim back. */
    method Untarget(brickId: nat)
      requires filled.Length == targetted.Length == BrickQty && brickId < BrickQty
      modifies targetted
      ensures targetted[..] == old(targetted[..])[brickId := false]
      ensures old(Valid()) ==> Valid()
    {
      targetted[brickId] := false;
    }
  }

  lemma {:induction false} NoneSetCountsZero(s: seq<bool>)
    requires forall i :: 0 <= i < |s| ==> !s[i]
    ensures CountTrue(s) == 0
  {
    if s != [] {
      NoneSetCountsZero(s[..|s| - 1]);
    }
  }

  /** Claiming a brick and giving the claim back restores both flag arrays and the count. */
  method RequestThenUntarget(b: BaseBricks, pick: nat) returns (t: Option<TargetBrick>)
    requires b.Valid()
    modifies b.targetted
    ensures b.Valid()
    ensures b.filled[..] == old(b.filled[..]) && b.targetted[..] == old(b.targetted[..])
    ensures b.qtyFilled == old(b.qtyFilled)
  {
    t := b.RequestTarget(pick);
    if t.Some? {
      b.Untarget(t.value.brickId);
    }
  }
}
