// The destination grid: 86 bricks spelling three letters. Spiders claim an
// empty brick in the lowest-numbered row with gaps of a letter and later fill
// it; a bonus queues filled bricks that are then removed one every 15 ticks.
module LetterBricks {
  import opened Common

  const LetterBricksX: int := 97
  const LetterBricksY: int := 140
  const BrickHeight: int := 10
  const BrickWidth: int := 15
  const BricksQty: nat := 86
  const MaxCombinedRowBricks: nat := 23
  const RemovePeriod: nat := 15

  /**
   * A brick's flags. Its row and column never change after construction, so they
   * are given by its index through `BrickRow` and `BrickCol`.
   */
  datatype LetterBrick = LetterBrick(filled: bool, targetted: bool)

  // ---------------------------------------------------------------------------
  // The fixed layout

  /** Grid row of brick `i`: the bricks are listed row by row. */
  function BrickRow(i: nat): (r: nat)
    requires i < BricksQty
    ensures r < 6
  {
    if i < 20 then 0 else if i < 30 then 1 else if i < 47 then 2
    else if i < 64 then 3 else if i < 74 then 4 else 5
  }

  /** Grid column of brick `i`: runs of consecutive columns separated by the gaps between strokes. */
  function BrickCol(i: nat): int
    requires i < BricksQty
  {
    if i < 10 then i else if i < 16 then i + 1 else if i < 18 then i + 2 else if i < 20 then i + 7
    else if i < 22 then i - 20 else if i < 24 then i - 9 else if i < 28 then i - 6 else if i < 30 then i - 3
    else if i < 38 then i - 30 else if i < 40 then i - 25 else if i < 45 then i - 22 else if i < 47 then i - 20
    else if i < 55 then i - 47 else if i < 57 then i - 42 else if i < 59 then i - 39 else if i < 64 then i - 37
    else if i < 66 then i - 64 else if i < 68 then i - 53 else if i < 70 then i - 50 else if i < 74 then i - 47
    else if i < 76 then i - 74 else if i < 82 then i - 65 else if i < 84 then i - 64 else i - 59
  }

  /** First brick index of row r of letter l in the `letter_range` table. */
  function RangeFrom(l: nat, r: nat): nat
    requires l < 3 && r < 6
  {
    if l == 0 then (if r == 0 then 0 else if r == 1 then 20 else if r == 2 then 30 else if r == 3 then 47 else if r == 4 then 64 else 74)
    else if l == 1 then (if r == 0 then 10 else if r == 1 then 22 else if r == 2 then 38 else if r == 3 then 55 else if r == 4 then 66 else 76)
    else (if r == 0 then 16 else if r == 1 then 24 else if r == 2 then 40 else if r == 3 then 57 else if r == 4 then 68 else 82)
  }

  /** Last brick index (inclusive) of row r of letter l in the `letter_range` table. */
  function RangeTo(l: nat, r: nat): nat
    requires l < 3 && r < 6
  {
    if l == 0 then (if r == 0 then 9 else if r == 1 then 21 else if r == 2 then 37 else if r == 3 then 54 else if r == 4 then 65 else 75)
    else if l == 1 then (if r == 0 then 15 else if r == 1 then 23 else if r == 2 then 39 else if r == 3 then 56 else if r == 4 then 67 else 81)
    else (if r == 0 then 19 else if r == 1 then 29 else if r == 2 then 46 else if r == 3 then 63 else if r == 4 then 73 else 85)
  }

  /** The widest row of each letter. */
  function MaxRowWidth(l: nat): nat
    requires l < 3
  {
    [10, 6, 7][l]
  }

  /** Room needed for the candidates of letters 0 .. l-1. */
  function PrefixWidth(l: nat): nat
    requires l <= 3
  {
    [0, 10, 16, 23][l]
  }

  /** Bricks are listed in reading order: by row, then by column. */
  lemma LayoutInReadingOrder(j: nat, k: nat)
    requires j < k < BricksQty
    ensures BrickRow(j) < BrickRow(k) || (BrickRow(j) == BrickRow(k) && BrickCol(j) < BrickCol(k))
  {
  }

  /**
   * The ranges tile 0..85 in order: within a row the three letters follow one
   * another, and each row follows the previous one.
   */
  lemma LetterRangeContiguous()
    ensures RangeFrom(0, 0) == 0 && RangeTo(2, 5) == BricksQty - 1
    ensures forall r :: 0 <= r < 6 ==>
      RangeFrom(0, r) <= RangeTo(0, r) && RangeTo(0, r) + 1 == RangeFrom(1, r) &&
      RangeFrom(1, r) <= RangeTo(1, r) && RangeTo(1, r) + 1 == RangeFrom(2, r) &&
      RangeFrom(2, r) <= RangeTo(2, r)
    ensures forall r :: 0 <= r < 5 ==> RangeTo(2, r) + 1 == RangeFrom(0, r + 1)
  {
  }

  /** Every brick of range (l, r) lies in grid row r. */
  lemma RangeInRow(l: nat, r: nat, i: nat)
    requires l < 3 && r < 6 && RangeFrom(l, r) <= i <= RangeTo(l, r)
    ensures BrickRow(i) == r
  {
  }

  /** Every brick index lies in some letter row range ... */
  lemma {:induction false} EachBrickInSomeRange(i: nat)
    requires i < BricksQty
    ensures exists l, r :: 0 <= l < 3 && 0 <= r < 6 && RangeFrom(l, r) <= i <= RangeTo(l, r)
  {
    LetterRangeContiguous();
    var r := BrickRow(i);
    if i <= RangeTo(0, r) {
      assert RangeFrom(0, r) <= i <= RangeTo(0, r);
    } else if i <= RangeTo(1, r) {
      assert RangeFrom(1, r) <= i <= RangeTo(1, r);
    } else {
      assert RangeFrom(2, r) <= i <= RangeTo(2, r);
    }
  }

  /** ... and in only one. */
  lemma {:induction false} RangesDisjoint(l: nat, r: nat, l': nat, r': nat, i: nat)
    requires l < 3 && r < 6 && RangeFrom(l, r) <= i <= RangeTo(l, r)
    requires l' < 3 && r' < 6 && RangeFrom(l', r') <= i <= RangeTo(l', r')
    ensures l == l' && r == r'
  {
    RangeInRow(l, r, i);
    RangeInRow(l', r', i);
    LetterRangeContiguous();
  }

  /** The rows a letter contributes fit in its share of the 23-entry target list. */
  lemma RangeWidthBound(l: nat, r: nat)
    requires l < 3 && r < 6
    ensures RangeTo(l, r) + 1 - RangeFrom(l, r) <= MaxRowWidth(l)
    ensures PrefixWidth(l) + MaxRowWidth(l) == PrefixWidth(l + 1)
    ensures PrefixWidth(3) == MaxCombinedRowBricks
  {
  }

  // ---------------------------------------------------------------------------
  // Properties of a brick sequence

  function CountFilled(s: seq<LetterBrick>): (n: nat)
    ensures n <= |s|
  {
    if s == [] then 0
    else CountFilled(s[..|s| - 1]) + (if s[|s| - 1].filled then 1 else 0)
  }

  /** A claimed brick is always an empty one. */
  ghost predicate TargetsUnfilled(s: seq<LetterBrick>)
  {
    forall i :: 0 <= i < |s| ==> s[i].targetted ==> !s[i].filled
  }

  predicate TargettedToLeft(s: seq<LetterBrick>, id: nat)
    requires id < |s| == BricksQty
  {
    id > 0 && s[id - 1].targetted && BrickCol(id - 1) == BrickCol(id) - 1
  }

  predicate TargettedToRight(s: seq<LetterBrick>, id: nat)
    requires id < |s| == BricksQty
  {
    id < BricksQty - 1 && s[id + 1].targetted && BrickCol(id + 1) == BrickCol(id) + 1
  }

  /** No two claimed bricks sit side by side. */
  ghost predicate NoAdjacentTargets(s: seq<LetterBrick>)
    requires |s| == BricksQty
  {
    forall i :: 0 <= i < BricksQty ==> !(s[i].targetted && TargettedToRight(s, i))
  }

  /** The removal queue holds distinct filled bricks in ascending order. */
  ghost predicate QueueSound(s: seq<LetterBrick>, q: seq<nat>)
  {
    (forall k :: 0 <= k < |q| ==> q[k] < |s| && s[q[k]].filled) &&
    (forall a, b :: 0 <= a < b < |q| ==> q[a] < q[b])
  }

  ghost predicate HasGap(s: seq<LetterBrick>, l: nat, r: nat)
    requires |s| == BricksQty && l < 3 && r < 6
  {
    exists k :: RangeFrom(l, r) <= k <= RangeTo(l, r) && !s[k].filled
  }

  /** A brick a spider may claim: empty, unclaimed, and with no claimed brick beside it. */
  predicate Eligible(s: seq<LetterBrick>, k: nat)
    requires k < |s| == BricksQty
  {
    !(s[k].filled || s[k].targetted) && !(TargettedToLeft(s, k) || TargettedToRight(s, k))
  }

  /** The eligible bricks among indices lo .. hi-1, in ascending order. */
  ghost function RangeCandidates(s: seq<LetterBrick>, lo: nat, hi: nat): (c: seq<nat>)
    requires hi <= |s| == BricksQty
    decreases hi
  {
    if hi <= lo then []
    else RangeCandidates(s, lo, hi - 1) + (if Eligible(s, hi - 1) then [hi - 1] else [])
  }

  /** The candidates letter l offers: those of its first row, from row r on, that has a gap. */
  ghost function LetterCandidates(s: seq<LetterBrick>, l: nat, r: nat): seq<nat>
    requires |s| == BricksQty && l < 3 && r <= 6
    decreases 6 - r
  {
    if r == 6 then []
    else if HasGap(s, l, r) then RangeCandidates(s, RangeFrom(l, r), RangeTo(l, r) + 1)
    else LetterCandidates(s, l, r + 1)
  }

  /** The candidates of letters 0 .. l-1, letter by letter. */
  ghost function CandidatePrefix(s: seq<LetterBrick>, l: nat): seq<nat>
    requires |s| == BricksQty && l <= 3
  {
    if l == 0 then [] else CandidatePrefix(s, l - 1) + LetterCandidates(s, l - 1, 0)
  }

  /** The list `request_target` chooses from; empty once every brick is filled. */
  ghost function Candidates(s: seq<LetterBrick>, qtyFilled: nat): seq<nat>
    requires |s| == BricksQty
  {
    if qtyFilled < BricksQty then CandidatePrefix(s, 3) else []
  }

  // ---------------------------------------------------------------------------
  // Lemmas about the sequence-level definitions

  /** Claiming or unclaiming leaves the count alone; emptying or filling moves it by one. */
  lemma {:induction false} CountFilledUpdate(s: seq<LetterBrick>, k: nat, b: LetterBrick)
    requires k < |s|
    ensures CountFilled(s[k := b]) ==
      CountFilled(s) - (if s[k].filled then 1 else 0) + (if b.filled then 1 else 0)
  {
    var t := s[k := b];
    if k == |s| - 1 {
      assert t[..|t| - 1] == s[..|s| - 1];
    } else {
      assert t[..|t| - 1] == s[..|s| - 1][k := b];
      CountFilledUpdate(s[..|s| - 1], k, b);
    }
  }

  lemma {:induction false} CountFilledNone(s: seq<LetterBrick>)
    requires forall i :: 0 <= i < |s| ==> !s[i].filled
    ensures CountFilled(s) == 0
  {
    if s != [] {
      CountFilledNone(s[..|s| - 1]);
    }
  }

  /** Some brick is empty exactly when fewer than all of them are filled. */
  lemma {:induction false} CountFilledAll(s: seq<LetterBrick>)
    ensures CountFilled(s) == |s| <==> forall i :: 0 <= i < |s| ==> s[i].filled
  {
    if s != [] {
      CountFilledAll(s[..|s| - 1]);
      assert forall i :: 0 <= i < |s| - 1 ==> s[..|s| - 1][i] == s[i];
    }
  }

  /**
   * A claimed neighbour is a grid neighbour: `TargettedToLeft` holds exactly when the
   * brick one column to the left in the same row exists and is claimed.
   */
  lemma TargettedToLeftMeaning(s: seq<LetterBrick>, id: nat)
    requires |s| == BricksQty && id < BricksQty
    ensures TargettedToLeft(s, id) <==>
      exists j :: 0 <= j < BricksQty && s[j].targetted &&
                  BrickRow(j) == BrickRow(id) && BrickCol(j) == BrickCol(id) - 1
  {
    if j :| 0 <= j < BricksQty && s[j].targetted &&
            BrickRow(j) == BrickRow(id) && BrickCol(j) == BrickCol(id) - 1 {
      if j < id - 1 {
        LayoutInReadingOrder(j, id - 1);
        LayoutInReadingOrder(id - 1, id);
      } else if j >= id {
        if j > id {
          LayoutInReadingOrder(id, j);
        }
      }
      assert j == id - 1;
    }
    if TargettedToLeft(s, id) {
      LayoutInReadingOrder(id - 1, id);
      assert s[id - 1].targetted && BrickRow(id - 1) == BrickRow(id);
    }
  }

  lemma TargettedToRightMeaning(s: seq<LetterBrick>, id: nat)
    requires |s| == BricksQty && id < BricksQty
    ensures TargettedToRight(s, id) <==>
      exists j :: 0 <= j < BricksQty && s[j].targetted &&
                  BrickRow(j) == BrickRow(id) && BrickCol(j) == BrickCol(id) + 1
  {
    if j :| 0 <= j < BricksQty && s[j].targetted &&
            BrickRow(j) == BrickRow(id) && BrickCol(j) == BrickCol(id) + 1 {
      if j > id + 1 {
        LayoutInReadingOrder(id, id + 1);
        LayoutInReadingOrder(id + 1, j);
      } else if j <= id {
        if j < id {
          LayoutInReadingOrder(j, id);
        }
      }
      assert j == id + 1;
    }
    if TargettedToRight(s, id) {
      LayoutInReadingOrder(id, id + 1);
      assert s[id + 1].targetted && BrickRow(id + 1) == BrickRow(id);
    }
  }

  lemma {:induction false} RangeCandidatesProps(s: seq<LetterBrick>, lo: nat, hi: nat)
    requires hi <= |s| == BricksQty
    ensures |RangeCandidates(s, lo, hi)| <= if hi <= lo then 0 else hi - lo
    ensures forall k :: k in RangeCandidates(s, lo, hi) ==> lo <= k < hi && Eligible(s, k)
  {
    if lo < hi {
      RangeCandidatesProps(s, lo, hi - 1);
    }
  }

  lemma {:induction false} LetterCandidatesProps(s: seq<LetterBrick>, l: nat, r: nat)
    requires |s| == BricksQty && l < 3 && r <= 6
    ensures |LetterCandidates(s, l, r)| <= MaxRowWidth(l)
    ensures forall k :: k in LetterCandidates(s, l, r) ==>
      k < BricksQty && Eligible(s, k) &&
      exists r' :: r <= r' < 6 && RangeFrom(l, r') <= k <= RangeTo(l, r') && HasGap(s, l, r') &&
                   forall r'' :: r <= r'' < r' ==> !HasGap(s, l, r'')
    decreases 6 - r
  {
    if r < 6 {
      if HasGap(s, l, r) {
        RangeCandidatesProps(s, RangeFrom(l, r), RangeTo(l, r) + 1);
        RangeWidthBound(l, r);
        forall k | k in LetterCandidates(s, l, r)
          ensures RangeFrom(l, r) <= k <= RangeTo(l, r)
        {
        }
      } else {
        LetterCandidatesProps(s, l, r + 1);
        forall k | k in LetterCandidates(s, l, r)
          ensures exists r' :: r <= r' < 6 && RangeFrom(l, r') <= k <= RangeTo(l, r') && HasGap(s, l, r') &&
                               forall r'' :: r <= r'' < r' ==> !HasGap(s, l, r'')
        {
          var r' :| r + 1 <= r' < 6 && RangeFrom(l, r') <= k <= RangeTo(l, r') && HasGap(s, l, r') &&
                    forall r'' :: r + 1 <= r'' < r' ==> !HasGap(s, l, r'');
          assert forall r'' :: r <= r'' < r' ==> !HasGap(s, l, r'');
        }
      }
    }
  }

  lemma {:induction false} CandidatePrefixBound(s: seq<LetterBrick>, l: nat)
    requires |s| == BricksQty && l <= 3
    ensures |CandidatePrefix(s, l)| <= PrefixWidth(l)
    ensures forall k :: k in CandidatePrefix(s, l) ==> k < BricksQty
  {
    if l > 0 {
      CandidatePrefixBound(s, l - 1);
      LetterCandidatesProps(s, l - 1, 0);
      RangeWidthBound(l - 1, 0);
    }
  }

  /** Brick `id` lies in the first row of letter `l` that has a gap. */
  ghost predicate InFirstGapRow(s: seq<LetterBrick>, l: nat, id: nat)
    requires |s| == BricksQty && l < 3
  {
    exists r :: 0 <= r < 6 && RangeFrom(l, r) <= id <= RangeTo(l, r) &&
      HasGap(s, l, r) && forall r' :: 0 <= r' < r ==> !HasGap(s, l, r')
  }

  lemma {:induction false} CandidatePrefixClaimable(s: seq<LetterBrick>, l: nat, id: nat)
    requires |s| == BricksQty && l <= 3
    requires id in CandidatePrefix(s, l)
    ensures id < BricksQty && Eligible(s, id)
    ensures exists l' :: 0 <= l' < l && InFirstGapRow(s, l', id)
  {
    assert l > 0;
    assert CandidatePrefix(s, l) == CandidatePrefix(s, l - 1) + LetterCandidates(s, l - 1, 0);
    if id in CandidatePrefix(s, l - 1) {
      CandidatePrefixClaimable(s, l - 1, id);
      var l' :| 0 <= l' < l - 1 && InFirstGapRow(s, l', id);
      assert 0 <= l' < l;
    } else {
      var lp := l - 1;
      assert id in LetterCandidates(s, lp, 0);
      LetterCandidatesProps(s, lp, 0);
      var r :| 0 <= r < 6 && RangeFrom(lp, r) <= id <= RangeTo(lp, r) && HasGap(s, lp, r) &&
               forall r'' :: 0 <= r'' < r ==> !HasGap(s, lp, r'');
      assert InFirstGapRow(s, lp, id);
    }
  }

  /**
   * Every candidate is empty, unclaimed, has no claimed brick beside it, and lies in
   * the first row of its letter that has a gap.
   */
  lemma CandidatesAreClaimable(s: seq<LetterBrick>, qtyFilled: nat, id: nat)
    requires |s| == BricksQty
    requires id in Candidates(s, qtyFilled)
    ensures id < BricksQty && !s[id].filled && !s[id].targetted
    ensures !TargettedToLeft(s, id) && !TargettedToRight(s, id)
    ensures exists l :: 0 <= l < 3 && InFirstGapRow(s, l, id)
  {
    CandidatePrefixClaimable(s, 3, id);
  }

  /**
   * The claim `request_target` grants when its random index is `pick`: none when
   * there is no candidate, otherwise the chosen candidate with its screen position.
   */
  ghost function PickedTarget(s: seq<LetterBrick>, qtyFilled: nat, pick: nat): (r: Option<TargetBrick>)
    requires |s| == BricksQty
    ensures r.None? <==> Candidates(s, qtyFilled) == []
    ensures r.Some? ==> r.value.brickId in Candidates(s, qtyFilled)
    ensures r.Some? ==> r.value.brickId < BricksQty && !s[r.value.brickId].filled && !s[r.value.brickId].targetted
    ensures r.Some? ==> r.value == TargetOf(r.value.brickId)
  {
    var c := Candidates(s, qtyFilled);
    if c == [] then None
    else
      var id := c[pick % |c|];
      CandidatesAreClaimable(s, qtyFilled, id);
      Some(TargetOf(id))
  }

  // ---------------------------------------------------------------------------
  // The removal scan

  /**
   * The ids `initiate_removal` pushes when it scans indices i-1 down to 0 with
   * `have` entries already queued: each filled index, stopping right after the
   * push that brings the queue to `qty`.
   */
  function RemovalScan(s: seq<LetterBrick>, i: nat, have: nat, qty: nat): seq<nat>
    requires i <= |s|
  {
    if i == 0 then []
    else if s[i - 1].filled then
      if have + 1 >= qty then [i - 1] else [i - 1] + RemovalScan(s, i - 1, have + 1, qty)
    else RemovalScan(s, i - 1, have, qty)
  }

  function Reverse(q: seq<nat>): (r: seq<nat>)
    ensures |r| == |q|
    ensures forall k :: 0 <= k < |q| ==> r[k] == q[|q| - 1 - k]
  {
    if q == [] then [] else Reverse(q[1..]) + [q[0]]
  }

  function Min(a: int, b: int): int
  {
    if a <= b then a else b
  }

  /** The scan yields filled ids below i in strictly descending order. */
  lemma {:induction false} RemovalScanDescends(s: seq<LetterBrick>, i: nat, have: nat, qty: nat)
    requires i <= |s|
    ensures forall k :: 0 <= k < |RemovalScan(s, i, have, qty)| ==>
      RemovalScan(s, i, have, qty)[k] < i && s[RemovalScan(s, i, have, qty)[k]].filled
    ensures forall a, b :: 0 <= a < b < |RemovalScan(s, i, have, qty)| ==>
      RemovalScan(s, i, have, qty)[a] > RemovalScan(s, i, have, qty)[b]
  {
    if i > 0 {
      var q := RemovalScan(s, i, have, qty);
      if s[i - 1].filled {
        if have + 1 < qty {
          var rest := RemovalScan(s, i - 1, have + 1, qty);
          RemovalScanDescends(s, i - 1, have + 1, qty);
          assert forall k :: 0 <= k < |rest| ==> rest[k] < i - 1 && s[rest[k]].filled;
          assert q == [i - 1] + rest;
        }
      } else {
        RemovalScanDescends(s, i - 1, have, qty);
        assert q == RemovalScan(s, i - 1, have, qty);
      }
    }
  }

  /** No filled id above the last one pushed is skipped. */
  lemma {:induction false} RemovalScanSkipsNone(s: seq<LetterBrick>, i: nat, have: nat, qty: nat)
    requires i <= |s|
    ensures var q := RemovalScan(s, i, have, qty);
      forall j :: 0 <= j < i && s[j].filled && (q == [] || j > q[|q| - 1]) ==> j in q
  {
    if i > 0 {
      if s[i - 1].filled {
        if have + 1 < qty {
          RemovalScanSkipsNone(s, i - 1, have + 1, qty);
          RemovalScanDescends(s, i - 1, have + 1, qty);
        }
      } else {
        RemovalScanSkipsNone(s, i - 1, have, qty);
      }
    }
  }

  /** The scan pushes as many ids as are still needed, or every filled one when there are fewer. */
  lemma {:induction false} RemovalScanLength(s: seq<LetterBrick>, i: nat, have: nat, qty: nat)
    requires i <= |s| && have < qty
    ensures |RemovalScan(s, i, have, qty)| == Min(qty - have, CountFilled(s[..i]))
  {
    if i > 0 {
      assert s[..i][..i - 1] == s[..i - 1];
      if s[i - 1].filled {
        if have + 1 < qty {
          RemovalScanLength(s, i - 1, have + 1, qty);
        }
      } else {
        RemovalScanLength(s, i - 1, have, qty);
      }
    }
  }

  /**
   * From an empty queue, `initiate_removal` queues distinct filled bricks in
   * ascending order which are exactly the highest filled ones, as many as asked
   * for or all of them when there are fewer.
   */
  lemma RemovalQueueFromEmpty(s: seq<LetterBrick>, qty: nat)
    requires |s| == BricksQty
    ensures var q := Reverse(RemovalScan(s, BricksQty, 0, qty));
      QueueSound(s, q) &&
      (forall j :: 0 <= j < BricksQty && s[j].filled && (q == [] || q[0] < j) ==> j in q) &&
      (qty >= 1 ==> |q| == Min(qty, CountFilled(s)))
  {
    var scan := RemovalScan(s, BricksQty, 0, qty);
    var q := Reverse(scan);
    RemovalScanDescends(s, BricksQty, 0, qty);
    RemovalScanSkipsNone(s, BricksQty, 0, qty);
    if qty >= 1 {
      RemovalScanLength(s, BricksQty, 0, qty);
      assert s[..BricksQty] == s;
    }
    forall j | 0 <= j < BricksQty && s[j].filled && (q == [] || q[0] < j)
      ensures j in q
    {
      assert j in scan;
      var k :| 0 <= k < |scan| && scan[k] == j;
      assert q[|scan| - 1 - k] == j;
    }
  }

  // ---------------------------------------------------------------------------
  // The grid

  /** The claim record for brick `id`: its top-left corner on screen. */
  function TargetOf(id: nat): TargetBrick
    requires id < BricksQty
  {
    TargetBrick(LetterBricksX + BrickCol(id) * BrickWidth, LetterBricksY + BrickRow(id) * BrickHeight, id)
  }

  class LetterBricks {
    const brick: array<LetterBrick>
    var toRemove: seq<nat>
    var qtyFilled: nat

    ghost predicate Valid()
      reads this, brick
    {
      brick.Length == BricksQty &&
      qtyFilled == CountFilled(brick[..]) &&
      TargetsUnfilled(brick[..]) &&
      NoAdjacentTargets(brick[..]) &&
      QueueSound(brick[..], toRemove)
    }

    constructor ()
      ensures Valid() && fresh(brick)
      ensures toRemove == [] && qtyFilled == 0
      ensures forall i :: 0 <= i < BricksQty ==> !brick[i].filled && !brick[i].targetted
    {
      brick := new LetterBrick[BricksQty](_ => LetterBrick(false, false));
      toRemove := [];
      qtyFilled := 0;
      new;
      CountFilledNone(brick[..]);
    }

    /** Empties and unclaims every brick and clears the removal queue. */
    method Reset()
      requires Valid()
      modifies this, brick
      ensures Valid()
      ensures toRemove == [] && qtyFilled == 0
      ensures forall i :: 0 <= i < BricksQty ==>
        brick[i] == old(brick[i]).(filled := false, targetted := false)
    {
      for i := 0 to BricksQty
        invariant forall k :: 0 <= k < i ==> brick[k] == old(brick[k]).(filled := false, targetted := false)
        invariant forall k :: i <= k < BricksQty ==> brick[k] == old(brick[k])
      {
        brick[i] := brick[i].(filled := false, targetted := false);
      }
      toRemove := [];
      qtyFilled := 0;
      assert forall k :: 0 <= k < BricksQty ==> !brick[..][k].filled;
      CountFilledNone(brick[..]);
    }

    /** Whether row `row` of letter `letter` has an empty brick. */
    method RowHasGaps(letter: nat, row: nat) returns (gaps: bool)
      requires brick.Length == BricksQty && letter < 3 && row < 6
      ensures gaps <==> HasGap(brick[..], letter, row)
    {
      for i := RangeFrom(letter, row) to RangeTo(letter, row) + 1
        invariant forall k :: RangeFrom(letter, row) <= k < i ==> brick[k].filled
      {
        if !brick[i].filled {
          return true;
        }
      }
      return false;
    }

    /** A carrying spider delivered its brick. */
    method FillTarget(brickId: nat)
      requires Valid() && brickId < BricksQty
      modifies this`qtyFilled, brick
      ensures brick[..] == old(brick[..])[brickId := old(brick[brickId]).(filled := true, targetted := false)]
      ensures qtyFilled == old(qtyFilled) + 1 && toRemove == old(toRemove)
      ensures old(brick[brickId]).targetted ==> Valid()
    {
      brick[brickId] := brick[brickId].(filled := true, targetted := false);
      qtyFilled := qtyFilled + 1;
      if old(brick[brickId]).targetted {
        CountFilledUpdate(old(brick[..]), brickId, brick[brickId]);
      }
    }

    /** Gives a claim back. */
    method Untarget(brickId: nat)
      requires Valid() && brickId < BricksQty
      modifies brick
      ensures brick[..] == old(brick[..])[brickId := old(brick[brickId]).(targetted := false)]
      ensures Valid()
    {
      brick[brickId] := brick[brickId].(targetted := false);
      CountFilledUpdate(old(brick[..]), brickId, brick[brickId]);
    }

    /**
     * The innermost loop of `request_target`: appends the claimable bricks among
     * `from` .. `to` to the target list.
     */
    method AppendRowTargets(targetList: array<nat>, listLen: nat, from: nat, to: nat)
      returns (newLen: nat)
      requires brick.Length == BricksQty && from <= to < BricksQty
      requires listLen + (to + 1 - from) <= targetList.Length
      modifies targetList
      ensures newLen <= listLen + (to + 1 - from)
      ensures targetList[..newLen] == old(targetList[..listLen]) + RangeCandidates(brick[..], from, to + 1)
    {
      ghost var s := brick[..];
      ghost var prefix := targetList[..listLen];
      newLen := listLen;
      for k := from to to + 1
        invariant newLen <= listLen + (k - from)
        invariant targetList[..newLen] == prefix + RangeCandidates(s, from, k)
      {
        assert RangeCandidates(s, from, k + 1) == RangeCandidates(s, from, k) + (if Eligible(s, k) then [k] else []);
        if !(brick[k].filled || brick[k].targetted) &&
           !(TargettedToLeft(brick[..], k) || TargettedToRight(brick[..], k)) {
          ghost var before := targetList[..newLen];
          targetList[newLen] := k;
          newLen := newLen + 1;
          assert targetList[..newLen] == before + [k];
        }
      }
      assert brick[..] == s;
    }

    /**
     * The first half of `request_target`: lists the claimable bricks of the first
     * row with gaps of each letter, letter by letter.
     */
    method BuildTargetList() returns (targetList: array<nat>, listLen: nat)
      requires brick.Length == BricksQty
      ensures fresh(targetList) && listLen <= targetList.Length == MaxCombinedRowBricks
      ensures targetList[..listLen] == Candidates(brick[..], qtyFilled)
    {
      ghost var s := brick[..];
      targetList := new nat[MaxCombinedRowBricks];
      listLen := 0;
      if qtyFilled < BricksQty {
        for i := 0 to 3
          invariant listLen <= PrefixWidth(i)
          invariant targetList[..listLen] == CandidatePrefix(s, i)
        {
          var j := 0;
          while j < 6
            invariant j <= 6
            invariant LetterCandidates(s, i, 0) == LetterCandidates(s, i, j)
            invariant listLen <= PrefixWidth(i)
            invariant targetList[..listLen] == CandidatePrefix(s, i)
          {
            var gaps := RowHasGaps(i, j);
            if gaps {
              RangeWidthBound(i, j);
              listLen := AppendRowTargets(targetList, listLen, RangeFrom(i, j), RangeTo(i, j));
              break;
            }
            j := j + 1;
          }
        }
      }
    }

    /**
     * Claims one of the candidates, chosen by `pick` (standing for the random index
     * into the list), and returns its position on screen.
     */
    method RequestTarget(pick: nat) returns (t: Option<TargetBrick>)
      requires Valid()
      modifies brick
      ensures Valid()
      ensures old(qtyFilled) == BricksQty ==> t == None
      ensures t.Some? ==> (t.value.brickId < BricksQty &&
        !old(brick[t.value.brickId]).filled && !old(brick[t.value.brickId]).targetted)
      ensures Candidates(old(brick[..]), old(qtyFilled)) == [] ==> t == None && brick[..] == old(brick[..])
      ensures Candidates(old(brick[..]), old(qtyFilled)) != [] ==> (t.Some? &&
        t.value.brickId == Candidates(old(brick[..]), old(qtyFilled))[pick % |Candidates(old(brick[..]), old(qtyFilled))|])
      ensures t.Some? ==> t.value == TargetOf(t.value.brickId)
      ensures t.Some? ==> brick[..] == old(brick[..])[t.value.brickId := old(brick[t.value.brickId]).(targetted := true)]
    {
      ghost var s := brick[..];
      var targetList, listLen := BuildTargetList();
      if listLen > 0 {
        var id := targetList[pick % listLen];
        ghost var c := Candidates(s, qtyFilled);
        assert id == c[pick % |c|] && id in c;
        CandidatesAreClaimable(s, qtyFilled, id);
        brick[id] := brick[id].(targetted := true);
        CountFilledUpdate(s, id, brick[id]);
        t := Some(TargetOf(id));
        assert brick[..] == s[id := s[id].(targetted := true)];
      } else {
        t := None;
      }
    }

    /**
     * Queues up to `qty` filled bricks for removal, scanning from the last brick
     * down, behind whatever is already queued (the queue is then reversed). From
     * an empty queue the result is the `qty` highest filled bricks, lowest first,
     * so removals pop the highest one first.
     */
    method InitiateRemoval(qty: nat)
      requires Valid()
      modifies this
      ensures toRemove == Reverse(old(toRemove) + RemovalScan(brick[..], BricksQty, |old(toRemove)|, qty))
      ensures qtyFilled == old(qtyFilled)
      ensures old(toRemove) == [] ==> Valid()
    {
      ghost var s := brick[..];
      ghost var scan := RemovalScan(s, BricksQty, |toRemove|, qty);
      var i: nat := BricksQty;
      while i > 0
        invariant i <= BricksQty && qtyFilled == old(qtyFilled)
        invariant old(toRemove) + scan == toRemove + RemovalScan(s, i, |toRemove|, qty)
      {
        i := i - 1;
        if brick[i].filled {
          toRemove := toRemove + [i];
          if |toRemove| >= qty {
            assert toRemove == old(toRemove) + scan;
            break;
          }
        }
      }
      assert toRemove == old(toRemove) + scan;
      toRemove := Reverse(toRemove);
      if old(toRemove) == [] {
        assert old(toRemove) + scan == scan;
        RemovalQueueFromEmpty(s, qty);
      }
    }

    /** Every 15th tick, removes the brick at the back of the queue. */
    method Update(frameCount: nat)
      requires Valid()
      modifies this, brick
      ensures Valid()
      ensures if frameCount % RemovePeriod == 0 && old(toRemove) != [] then
          var i := old(toRemove)[|old(toRemove)| - 1];
          brick[..] == old(brick[..])[i := old(brick[i]).(filled := false)] &&
          qtyFilled == old(qtyFilled) - 1 &&
          toRemove == old(toRemove)[..|old(toRemove)| - 1]
        else
          brick[..] == old(brick[..]) && qtyFilled == old(qtyFilled) && toRemove == old(toRemove)
    {
      if frameCount % RemovePeriod == 0 && toRemove != [] {
        var i := toRemove[|toRemove| - 1];
        toRemove := toRemove[..|toRemove| - 1];
        brick[i] := brick[i].(filled := false);
        CountFilledUpdate(old(brick[..]), i, brick[i]);
        qtyFilled := qtyFilled - 1;
      }
    }

    /** Every brick is filled: the letters are spelt out. */
    predicate Complete()
      reads this
    {
      qtyFilled == BricksQty
    }
  }

  /** `complete` holds exactly when every brick is filled. */
  lemma CompleteMeansAllFilled(b: LetterBricks)
    requires b.Valid()
    ensures b.Complete() <==> forall i :: 0 <= i < BricksQty ==> b.brick[i].filled
  {
    CountFilledAll(b.brick[..]);
  }
}
