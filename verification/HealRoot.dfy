/** The search as it really starts: from the range of all ids, which has no upper bound.

    An unbounded range is split by halving bytes, not by an integer mean, and the topmost one,
    `[0xff00..00, end)`, cannot be split at all. */
module HealRoot {
  import opened Tags
  import opened Wrappers
  import opened HealRange
  import opened HealSearch

  /** Where the search can no longer split an unbounded range. */
  const TOP: Tag := [0xff] + Fill(0, TAG_LEN - 1)

  const ROOT: Range := Range(ZERO, INF)

  /** Unbounded ranges the search meets when it starts from the root: only the first byte is set. */
  predicate ZeroTail(lo: Tag) { forall i :: 1 <= i < TAG_LEN ==> lo[i] == 0 }

  /** Ranges the search meets when it starts from the root. */
  ghost predicate Honest(r: Range) {
    if IsInf(r.hi) then ZeroTail(r.lo) else Val(r.lo) < Val(r.hi)
  }

  lemma InfIsNot(t: Tag, i: nat)
    requires i < TAG_LEN && t[i] != 0xff
    ensures !IsInf(t)
  {
    assert INF[i] == 0xff;
  }

  /** Whatever an unbounded range splits at lies above its lower bound and is itself a bound, so the halves
      partition the range. It does split when its first byte is not `0xff`. */
  lemma UnboundedSplits(lo: Tag)
    ensures Mid(lo, INF).Some? ==>
              Mid(lo, INF).value == InfMid(lo) && !IsInf(InfMid(lo)) && Val(lo) < Val(InfMid(lo))
    ensures lo[0] != 0xff ==> Mid(lo, INF).Some?
  {
    var mid := InfMid(lo);
    InfMidEnds(lo);
    if lo[0] != 0xff {
      FirstByteLess(lo, mid);
    }
    LessIsValLess(lo, mid);
    InfIsNot(mid, TAG_LEN - 1);
  }

  /** Some ranges above `0xff00..00` split, although that one does not. */
  lemma HighRangeSplits()
    ensures var lo := [0xff, 0, 3] + Fill(0, TAG_LEN - 3);
            Mid(lo, INF).Some? && Val(lo) < Val(Mid(lo, INF).value)
  {
    var lo: Tag := [0xff, 0, 3] + Fill(0, TAG_LEN - 3);
    var mid := InfMid(lo);
    assert InfByte(lo, 0) == 0xff && InfByte(lo, 1) == 128 > lo[1];
    assert mid[0] == InfByte(lo, 0) && mid[1] == InfByte(lo, 1);
    assert lo[..1] == mid[..1];
    assert LessAt(lo, mid, 1);
    UnboundedSplits(lo);
  }

  lemma InfMidEnds(lo: Tag)
    ensures lo[0] != 0xff ==> InfMid(lo)[0] > lo[0]
    ensures InfMid(lo)[TAG_LEN - 1] <= 127
  {
    assert InfMid(lo)[0] == InfByte(lo, 0);
    assert InfMid(lo)[TAG_LEN - 1] == InfByte(lo, TAG_LEN - 1);
  }

  lemma FirstByteLess(a: Tag, b: Tag)
    requires a[0] < b[0]
    ensures Less(a, b)
  {
    assert a[..0] == b[..0];
    assert LessAt(a, b, 0);
  }

  lemma IsTop(lo: Tag)
    requires ZeroTail(lo)
    ensures lo == TOP <==> lo[0] == 0xff
  {
    if lo[0] == 0xff {
      assert lo == TOP;
    }
  }

  /** Below the topmost range, the split point keeps a zero tail and closes half the gap to the top. */
  lemma InfMidHalves(lo: Tag)
    requires ZeroTail(lo)
    ensures ZeroTail(InfMid(lo))
    ensures 2 * (255 - InfMid(lo)[0]) <= 255 - lo[0]
  {
    var mid := InfMid(lo);
    forall i | 0 <= i < TAG_LEN
      ensures mid[i] == InfByte(lo, i)
    {
    }
  }

  /** Among the unbounded ranges of a search from the root, only the topmost cannot be split. */
  lemma OnlyTopIsStuck(lo: Tag)
    requires ZeroTail(lo)
    ensures Mid(lo, INF).None? <==> lo == TOP
  {
    IsTop(lo);
    if lo[0] == 0xff {
      InfMidHalves(lo);
      IsTop(InfMid(lo));
      LessIsValLess(lo, InfMid(lo));
    } else {
      UnboundedSplits(lo);
    }
  }

  /** And none of them is ever taken for a range of one id. */
  lemma NeverSingle(lo: Tag)
    requires lo[TAG_LEN - 1] == 0
    ensures !Single(Range(lo, INF))
  {
    LowByte(lo);
    LowByte(INF);
  }

  lemma LowByte(t: Tag)
    ensures Val(t) == 256 * Val(t[..TAG_LEN - 1]) + t[TAG_LEN - 1]
  {
  }

  /** Splitting keeps to the ranges of a search from the root. */
  lemma HalvesAreHonest(r: Range, half: Range)
    requires Honest(r) && !Single(r) && IsHalf(r, half)
    ensures Honest(half)
  {
    if IsInf(r.hi) {
      OnlyTopIsStuck(r.lo);
      IsTop(r.lo);
      UnboundedSplits(r.lo);
      InfMidHalves(r.lo);
    } else {
      MidInside(r);
    }
  }

  /** Where an unbounded range below the topmost splits. */
  lemma UnboundedMid(lo: Tag, k: nat) returns (mid: Tag)
    requires ZeroTail(lo) && lo[0] != 0xff && 255 - lo[0] < Pow2(k)
    ensures Mid(lo, INF) == Some(mid) && !IsInf(mid) && Val(lo) < Val(mid) && ZeroTail(mid)
    ensures k > 0 && 255 - mid[0] < Pow2(k - 1)
  {
    mid := InfMid(lo);
    UnboundedSplits(lo);
    InfMidHalves(lo);
  }

  lemma SomeHalfOfUnbounded(a: seq<Tag>, b: seq<Tag>, lo: Tag, mid: Tag)
    requires !IsInf(mid) && Val(lo) < Val(mid) && Differ(a, b, Range(lo, INF))
    ensures Differ(a, b, Range(lo, mid)) || Differ(a, b, Range(mid, INF))
  {
    XorSplits(a, lo, mid, INF);
    XorSplits(b, lo, mid, INF);
  }

  /** How a search that starts at `r` can end: with one id that exactly one side holds, or at the
      topmost range, which the two still disagree about. */
  ghost predicate Ends(a: seq<Tag>, b: seq<Tag>, last: Range) {
    (Bounded(last) && Single(last) && (last.lo in a) != (last.lo in b)) || last == Range(TOP, INF)
  }

  lemma BoundedEnds(a: seq<Tag>, b: seq<Tag>, r: Range) returns (path: seq<Range>)
    requires Distinct(a) && Distinct(b) && Bounded(r) && Differ(a, b, r)
    ensures Descent(a, b, path) && path[0] == r && |path| <= 257
    ensures Ends(a, b, path[|path| - 1])
  {
    path := SearchFindsADifference(a, b, r);
  }

  lemma {:induction false} DescendUnbounded(a: seq<Tag>, b: seq<Tag>, lo: Tag, k: nat) returns (path: seq<Range>)
    requires Distinct(a) && Distinct(b) && ZeroTail(lo) && Differ(a, b, Range(lo, INF))
    requires 255 - lo[0] < Pow2(k)
    ensures Descent(a, b, path) && path[0] == Range(lo, INF) && |path| <= k + 258
    ensures Ends(a, b, path[|path| - 1])
    decreases k
  {
    if lo[0] == 0xff {
      IsTop(lo);
      path := [Range(lo, INF)];
    } else {
      var mid := UnboundedMid(lo, k);
      SomeHalfOfUnbounded(a, b, lo, mid);
      if Differ(a, b, Range(lo, mid)) {
        var rest := BoundedEnds(a, b, Range(lo, mid));
        path := FromUnbounded(a, b, lo, mid, rest);
      } else {
        var rest := DescendUnbounded(a, b, mid, k - 1);
        path := FromUnbounded(a, b, lo, mid, rest);
      }
    }
  }

  lemma FromUnbounded(a: seq<Tag>, b: seq<Tag>, lo: Tag, mid: Tag, rest: seq<Range>) returns (path: seq<Range>)
    requires ZeroTail(lo) && Mid(lo, INF) == Some(mid) && Differ(a, b, Range(lo, INF))
    requires Descent(a, b, rest) && Ends(a, b, rest[|rest| - 1])
    requires rest[0] == Range(lo, mid) || rest[0] == Range(mid, INF)
    ensures Descent(a, b, path) && path[0] == Range(lo, INF) && |path| == |rest| + 1
    ensures Ends(a, b, path[|path| - 1])
  {
    NeverSingle(lo);
    path := DescentFrom(a, b, Range(lo, INF), rest);
  }

  lemma DescentFrom(a: seq<Tag>, b: seq<Tag>, r: Range, rest: seq<Range>) returns (path: seq<Range>)
    requires Differ(a, b, r) && !Single(r) && Descent(a, b, rest) && IsHalf(r, rest[0])
    ensures Descent(a, b, path) && path[0] == r && |path| == |rest| + 1
    ensures path[|path| - 1] == rest[|rest| - 1]
  {
    path := [r] + rest;
    assert path[1..] == rest;
  }

  /** Two replicas whose fingerprints of everything differ reach, in at most 265 splits, one id that
      exactly one of them holds, unless their difference lies in the topmost range. */
  lemma RootSearchEnds(a: seq<Tag>, b: seq<Tag>) returns (path: seq<Range>)
    requires Distinct(a) && Distinct(b) && Differ(a, b, ROOT)
    ensures Descent(a, b, path) && path[0] == ROOT && |path| <= 266
    ensures Ends(a, b, path[|path| - 1])
  {
    var k := |ZERO| / 4;
    assert Pow2(k) == 256 by { Pow256IsPow2(1); assert Pow256(1) == 256 * Pow256(0); }
    path := DescendUnbounded(a, b, ZERO, k);
  }
}
