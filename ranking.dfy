/**
 * Ranking and the diversity filter of `getGems` (miner/miner.js:459-477):
 * the scored gems are sorted by descending `gem_score`, then one pass
 * admits gems in that order, hype gems only while fewer than the hype
 * limit have been admitted, and stops at the total limit.
 */
module Ranking {
  import opened Types
  import opened Sorting

  function GemScore(g: ScoredGem): real
  {
    g.gemScore
  }

  /** The hype gems of `s`, in order. */
  function HypeOf(s: seq<ScoredGem>): (r: seq<ScoredGem>)
    ensures |r| <= |s|
    ensures forall i :: 0 <= i < |r| ==> r[i].isHype
  {
    if s == [] then []
    else (if s[0].isHype then [s[0]] else []) + HypeOf(s[1..])
  }

  /** The gems of `s` that are not hype, in order. */
  function NonHypeOf(s: seq<ScoredGem>): (r: seq<ScoredGem>)
    ensures |r| <= |s|
    ensures forall i :: 0 <= i < |r| ==> !r[i].isHype
  {
    if s == [] then []
    else (if s[0].isHype then [] else [s[0]]) + NonHypeOf(s[1..])
  }

  lemma {:induction false} SplitCounts(s: seq<ScoredGem>)
    ensures |HypeOf(s)| + |NonHypeOf(s)| == |s|
  {
    if s != [] {
      SplitCounts(s[1..]);
    }
  }

  lemma {:induction false} HypeOfAppend(s: seq<ScoredGem>, t: seq<ScoredGem>)
    ensures HypeOf(s + t) == HypeOf(s) + HypeOf(t)
    ensures NonHypeOf(s + t) == NonHypeOf(s) + NonHypeOf(t)
  {
    if s == [] {
      assert s + t == t;
    } else {
      assert (s + t)[1..] == s[1..] + t;
      HypeOfAppend(s[1..], t);
    }
  }

  function Min(a: int, b: int): int
  {
    if a < b then a else b
  }

  /**
   * The selection pass, stated gem by gem: `room` places are left, of which
   * at most `hypeRoom` may go to hype gems.
   */
  function Select(s: seq<ScoredGem>, hypeRoom: nat, room: nat): seq<ScoredGem>
  {
    if s == [] || room == 0 then []
    else if s[0].isHype then
      if hypeRoom > 0 then [s[0]] + Select(s[1..], hypeRoom - 1, room - 1)
      else Select(s[1..], hypeRoom, room)
    else [s[0]] + Select(s[1..], hypeRoom, room - 1)
  }

  /** At most `room` gems are selected, and at most `hypeRoom` of them are hype. */
  lemma {:induction false} SelectBounds(s: seq<ScoredGem>, hypeRoom: nat, room: nat)
    ensures |Select(s, hypeRoom, room)| <= room
    ensures |HypeOf(Select(s, hypeRoom, room))| <= hypeRoom
  {
    if s != [] && room > 0 {
      var r := Select(s, hypeRoom, room);
      if s[0].isHype && hypeRoom > 0 {
        SelectBounds(s[1..], hypeRoom - 1, room - 1);
        HypeOfAppend([s[0]], Select(s[1..], hypeRoom - 1, room - 1));
      } else if s[0].isHype {
        SelectBounds(s[1..], hypeRoom, room);
      } else {
        SelectBounds(s[1..], hypeRoom, room - 1);
        HypeOfAppend([s[0]], Select(s[1..], hypeRoom, room - 1));
      }
    }
  }

  /**
   * The reference the selection is measured against: every non-hype gem and
   * the first `hypeRoom` hype gems, in order, without the total limit.
   */
  function Uncapped(s: seq<ScoredGem>, hypeRoom: nat): seq<ScoredGem>
  {
    if s == [] then []
    else if s[0].isHype then
      if hypeRoom > 0 then [s[0]] + Uncapped(s[1..], hypeRoom - 1)
      else Uncapped(s[1..], hypeRoom)
    else [s[0]] + Uncapped(s[1..], hypeRoom)
  }

  /** The total limit only cuts the reference short: the selection is its first `room` gems. */
  lemma {:induction false} SelectIsCappedUncapped(s: seq<ScoredGem>, hypeRoom: nat, room: nat)
    ensures Select(s, hypeRoom, room) == Uncapped(s, hypeRoom)[..Min(room, |Uncapped(s, hypeRoom)|)]
  {
    if s != [] && room > 0 {
      if s[0].isHype {
        if hypeRoom > 0 {
          SelectIsCappedUncapped(s[1..], hypeRoom - 1, room - 1);
        } else {
          SelectIsCappedUncapped(s[1..], hypeRoom, room);
        }
      } else {
        SelectIsCappedUncapped(s[1..], hypeRoom, room - 1);
      }
    }
  }

  /** The reference keeps every non-hype gem and exactly the first `hypeRoom` hype gems. */
  lemma {:induction false} UncappedParts(s: seq<ScoredGem>, hypeRoom: nat)
    ensures NonHypeOf(Uncapped(s, hypeRoom)) == NonHypeOf(s)
    ensures HypeOf(Uncapped(s, hypeRoom)) == HypeOf(s)[..Min(hypeRoom, |HypeOf(s)|)]
  {
    if s != [] {
      var rest := s[1..];
      if s[0].isHype && hypeRoom > 0 {
        UncappedParts(rest, hypeRoom - 1);
        HypeOfAppend([s[0]], Uncapped(rest, hypeRoom - 1));
      } else if s[0].isHype {
        UncappedParts(rest, hypeRoom);
      } else {
        UncappedParts(rest, hypeRoom);
        HypeOfAppend([s[0]], Uncapped(rest, hypeRoom));
      }
    }
  }

  /**
   * The number of gems emitted: the total limit, or every non-hype gem
   * plus as many hype gems as the hype limit allows, whichever is smaller.
   */
  lemma SelectLength(s: seq<ScoredGem>, hypeRoom: nat, room: nat)
    ensures |Select(s, hypeRoom, room)| == Min(room, |NonHypeOf(s)| + Min(hypeRoom, |HypeOf(s)|))
  {
    SelectIsCappedUncapped(s, hypeRoom, room);
    UncappedParts(s, hypeRoom);
    SplitCounts(Uncapped(s, hypeRoom));
  }

  /**
   * When the total limit is not reached, no non-hype gem is turned away:
   * the non-hype gems emitted are exactly those of the input.
   */
  lemma AllNonHypeAdmittedBelowCap(s: seq<ScoredGem>, hypeRoom: nat, room: nat)
    requires |NonHypeOf(s)| + Min(hypeRoom, |HypeOf(s)|) <= room
    ensures NonHypeOf(Select(s, hypeRoom, room)) == NonHypeOf(s)
  {
    SelectIsCappedUncapped(s, hypeRoom, room);
    UncappedParts(s, hypeRoom);
    SplitCounts(Uncapped(s, hypeRoom));
    assert Uncapped(s, hypeRoom)[..|Uncapped(s, hypeRoom)|] == Uncapped(s, hypeRoom);
  }

  lemma {:induction false} SelectSubsequence(s: seq<ScoredGem>, hypeRoom: nat, room: nat)
    ensures SubsequenceOf(Select(s, hypeRoom, room), s)
  {
    if s != [] && room > 0 {
      var r := Select(s, hypeRoom, room);
      if s[0].isHype && hypeRoom > 0 {
        SelectSubsequence(s[1..], hypeRoom - 1, room - 1);
        assert r[1..] == Select(s[1..], hypeRoom - 1, room - 1);
      } else if s[0].isHype {
        SelectSubsequence(s[1..], hypeRoom, room);
      } else {
        SelectSubsequence(s[1..], hypeRoom, room - 1);
        assert r[1..] == Select(s[1..], hypeRoom, room - 1);
      }
    }
  }

  /**
   * `for (const gem of sortedGems)` with its `break` on the total limit
   * and the hype quota: `finalGems` grows by `push`, `hypeCount` counts the
   * hype gems admitted.
   */
  method SelectGems(sortedGems: seq<ScoredGem>, hypeLimit: nat, totalLimit: nat)
    returns (finalGems: seq<ScoredGem>, hypeCount: nat)
    ensures finalGems == Select(sortedGems, hypeLimit, totalLimit)
    ensures hypeCount == |HypeOf(finalGems)| <= hypeLimit
    ensures |finalGems| <= totalLimit
  {
    finalGems := [];
    hypeCount := 0;
    var i := 0;
    while i < |sortedGems|
      invariant 0 <= i <= |sortedGems|
      invariant hypeCount <= hypeLimit && |finalGems| <= totalLimit
      invariant hypeCount == |HypeOf(finalGems)|
      invariant finalGems + Select(sortedGems[i..], hypeLimit - hypeCount, totalLimit - |finalGems|)
                == Select(sortedGems, hypeLimit, totalLimit)
    {
      if |finalGems| >= totalLimit {
        break;
      }
      var gem := sortedGems[i];
      SelectStep(sortedGems, i, finalGems, hypeCount, hypeLimit, totalLimit);
      if gem.isHype {
        if hypeCount < hypeLimit {
          HypeOfAppend(finalGems, [gem]);
          finalGems := finalGems + [gem];
          hypeCount := hypeCount + 1;
        }
      } else {
        HypeOfAppend(finalGems, [gem]);
        finalGems := finalGems + [gem];
      }
      i := i + 1;
    }
  }

  /** One turn of the selection loop keeps the selected prefix plus the selection of the rest equal to the whole. */
  lemma SelectStep(s: seq<ScoredGem>, i: nat, f: seq<ScoredGem>, hc: nat, hypeLimit: nat, totalLimit: nat)
    requires i < |s| && hc <= hypeLimit && |f| < totalLimit
    requires f + Select(s[i..], hypeLimit - hc, totalLimit - |f|) == Select(s, hypeLimit, totalLimit)
    ensures s[i].isHype && hc < hypeLimit ==>
      (f + [s[i]]) + Select(s[i + 1..], hypeLimit - (hc + 1), totalLimit - (|f| + 1)) == Select(s, hypeLimit, totalLimit)
    ensures s[i].isHype && hc >= hypeLimit ==>
      f + Select(s[i + 1..], hypeLimit - hc, totalLimit - |f|) == Select(s, hypeLimit, totalLimit)
    ensures !s[i].isHype ==>
      (f + [s[i]]) + Select(s[i + 1..], hypeLimit - hc, totalLimit - (|f| + 1)) == Select(s, hypeLimit, totalLimit)
  {
    SelectUnfold(s, i, hypeLimit - hc, totalLimit - |f|);
    if s[i].isHype && hc < hypeLimit {
      assert (f + [s[i]]) + Select(s[i + 1..], hypeLimit - (hc + 1), totalLimit - (|f| + 1))
          == f + ([s[i]] + Select(s[i + 1..], hypeLimit - (hc + 1), totalLimit - (|f| + 1)));
    } else if !s[i].isHype {
      assert (f + [s[i]]) + Select(s[i + 1..], hypeLimit - hc, totalLimit - (|f| + 1))
          == f + ([s[i]] + Select(s[i + 1..], hypeLimit - hc, totalLimit - (|f| + 1)));
    }
  }

  lemma SelectUnfold(s: seq<ScoredGem>, i: nat, hypeRoom: nat, room: nat)
    requires i < |s| && room > 0
    ensures Select(s[i..], hypeRoom, room) ==
      if s[i].isHype then
        if hypeRoom > 0 then [s[i]] + Select(s[i + 1..], hypeRoom - 1, room - 1)
        else Select(s[i + 1..], hypeRoom, room)
      else [s[i]] + Select(s[i + 1..], hypeRoom, room - 1)
  {
    assert s[i..][0] == s[i] && s[i..][1..] == s[i + 1..];
  }

  lemma {:induction false} HypeCountSorted(s: seq<ScoredGem>)
    ensures |HypeOf(SortDesc(s, GemScore))| == |HypeOf(s)|
    ensures |NonHypeOf(SortDesc(s, GemScore))| == |NonHypeOf(s)|
  {
    if s != [] {
      var front, last := s[..|s| - 1], s[|s| - 1];
      HypeCountSorted(front);
      HypeCountInsert(SortDesc(front, GemScore), last);
      HypeOfAppend(front, [last]);
      assert front + [last] == s;
    }
  }

  lemma {:induction false} HypeCountInsert(s: seq<ScoredGem>, x: ScoredGem)
    ensures |HypeOf(Insert(s, x, GemScore))| == |HypeOf(s)| + (if x.isHype then 1 else 0)
    ensures |NonHypeOf(Insert(s, x, GemScore))| == |NonHypeOf(s)| + (if x.isHype then 0 else 1)
  {
    if s == [] {
    } else if GemScore(s[0]) >= GemScore(x) {
      HypeCountInsert(s[1..], x);
      HypeOfAppend([s[0]], Insert(s[1..], x, GemScore));
    } else {
      HypeOfAppend([x], s);
    }
  }

  /**
   * Sort and diversity filter together: the scored gems are copied into an
   * array, sorted in place by descending score, and selected.
   */
  method Rank(scored: seq<ScoredGem>, hypeLimit: nat, totalLimit: nat)
    returns (finalGems: seq<ScoredGem>, hypeCount: nat)
    ensures finalGems == Select(SortDesc(scored, GemScore), hypeLimit, totalLimit)
    ensures hypeCount == |HypeOf(finalGems)|
  {
    var sorted := new ScoredGem[|scored|](i requires 0 <= i < |scored| => scored[i]);
    assert sorted[..] == scored;
    SortDescInPlace(sorted, GemScore);
    finalGems, hypeCount := SelectGems(sorted[..], hypeLimit, totalLimit);
  }

  /** The ranked gems come out in non-increasing score order. */
  lemma RankedSorted(scored: seq<ScoredGem>, hypeLimit: nat, totalLimit: nat)
    ensures SortedDesc(Select(SortDesc(scored, GemScore), hypeLimit, totalLimit), GemScore)
  {
    var sorted := SortDesc(scored, GemScore);
    SelectSubsequence(sorted, hypeLimit, totalLimit);
    SortDescSorted(scored, GemScore);
    SubsequenceSorted(Select(sorted, hypeLimit, totalLimit), sorted, GemScore);
  }

  /** Gems with equal scores keep their discovery order. */
  lemma RankedTiesKeepOrder(scored: seq<ScoredGem>, hypeLimit: nat, totalLimit: nat, v: real)
    ensures SubsequenceOf(WithKey(Select(SortDesc(scored, GemScore), hypeLimit, totalLimit), GemScore, v),
                          WithKey(scored, GemScore, v))
  {
    var sorted := SortDesc(scored, GemScore);
    SelectSubsequence(sorted, hypeLimit, totalLimit);
    SubsequenceWithKey(Select(sorted, hypeLimit, totalLimit), sorted, GemScore, v);
    SortDescStable(scored, GemScore, v);
  }

  /**
   * Exactly `min(totalLimit, nonHype + min(hypeLimit, hype))` gems are
   * emitted, counted over the scored gems before sorting.
   */
  lemma RankedLength(scored: seq<ScoredGem>, hypeLimit: nat, totalLimit: nat)
    ensures |Select(SortDesc(scored, GemScore), hypeLimit, totalLimit)| ==
            Min(totalLimit, |NonHypeOf(scored)| + Min(hypeLimit, |HypeOf(scored)|))
  {
    var sorted := SortDesc(scored, GemScore);
    var n, h := |NonHypeOf(sorted)|, |HypeOf(sorted)|;
    SelectLength(sorted, hypeLimit, totalLimit);
    assert |Select(sorted, hypeLimit, totalLimit)| == Min(totalLimit, n + Min(hypeLimit, h));
    HypeCountSorted(scored);
    assert n == |NonHypeOf(scored)| && h == |HypeOf(scored)|;
  }

  /** Every ranked gem is one of the scored gems: the ranking adds and alters nothing. */
  lemma RankedFromInput(scored: seq<ScoredGem>, hypeLimit: nat, totalLimit: nat)
    ensures forall g :: g in Select(SortDesc(scored, GemScore), hypeLimit, totalLimit) ==> g in scored
  {
    var sorted := SortDesc(scored, GemScore);
    var r := Select(sorted, hypeLimit, totalLimit);
    SelectSubsequence(sorted, hypeLimit, totalLimit);
    SubsequenceElements(r, sorted);
    SortDescPermutes(scored, GemScore);
    forall g | g in r ensures g in scored {
      assert g in multiset(sorted);
    }
  }
}
