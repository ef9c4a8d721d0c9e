/** Fingerprints of id ranges, and the binary search that two differing fingerprints start. */
module HealSearch {
  import opened Tags
  import opened Wrappers
  import opened HealRange

  /** The fingerprint of a range: all its ids combined. */
  function RangeXorOf(ids: seq<Tag>, lo: Tag, hi: Tag): Tag {
    if ids == [] then ZERO
    else
      var n := |ids| - 1;
      var rest := RangeXorOf(ids[..n], lo, hi);
      if InRange(ids[n], lo, hi) then XorTag(rest, ids[n]) else rest
  }

  method RangeXor(ids: seq<Tag>, lo: Tag, hi: Tag) returns (xor: Tag)
    ensures xor == RangeXorOf(ids, lo, hi)
  {
    var acc := new Byte[TAG_LEN];
    forall i | 0 <= i < TAG_LEN { acc[i] := 0; }
    assert acc[..] == ZERO;
    for n := 0 to |ids|
      invariant acc[..] == RangeXorOf(ids[..n], lo, hi)
    {
      assert ids[..n + 1][..n] == ids[..n];
      if InRange(ids[n], lo, hi) {
        XorInto(acc, ids[n]);
      }
    }
    assert ids[..|ids|] == ids;
    xor := acc[..];
  }

  /** The inner loop over the bytes of one id. */
  method XorInto(acc: array<Byte>, id: Tag)
    requires acc.Length == TAG_LEN
    modifies acc
    ensures acc[..] == XorTag(old(acc[..]), id)
  {
    ghost var before: Tag := acc[..];
    for i := 0 to TAG_LEN
      invariant forall j :: 0 <= j < i ==> acc[j] == XorByte(before[j], id[j])
      invariant forall j :: i <= j < TAG_LEN ==> acc[j] == before[j]
    {
      acc[i] := XorByte(acc[i], id[i]);
    }
    assert acc[..] == XorTag(before, id);
  }

  // ---------------------------------------------------------------- ranges of numbers

  ghost predicate Within(id: Tag, lo: Tag, hi: Tag) {
    Val(lo) <= Val(id) && (IsInf(hi) || Val(id) < Val(hi))
  }

  lemma InRangeIsWithin(id: Tag, lo: Tag, hi: Tag)
    ensures InRange(id, lo, hi) <==> Within(id, lo, hi)
  {
    LessIsValLess(id, lo);
    LessIsValLess(id, hi);
  }

  ghost predicate Distinct(ids: seq<Tag>) {
    forall i, j :: 0 <= i < j < |ids| ==> ids[i] != ids[j]
  }

  /** Splitting a range splits its fingerprint. */
  lemma {:induction false} XorSplits(ids: seq<Tag>, lo: Tag, mid: Tag, hi: Tag)
    requires !IsInf(mid) && Val(lo) <= Val(mid) && (IsInf(hi) || Val(mid) <= Val(hi))
    ensures RangeXorOf(ids, lo, hi) == XorTag(RangeXorOf(ids, lo, mid), RangeXorOf(ids, mid, hi))
  {
    if ids == [] {
      XorLaws(ZERO, ZERO, ZERO);
    } else {
      var n := |ids| - 1;
      var id := ids[n];
      XorSplits(ids[..n], lo, mid, hi);
      InRangeIsWithin(id, lo, hi);
      InRangeIsWithin(id, lo, mid);
      InRangeIsWithin(id, mid, hi);
      var left, right := RangeXorOf(ids[..n], lo, mid), RangeXorOf(ids[..n], mid, hi);
      XorLaws(left, right, id);
      XorLaws(left, id, right);
      XorLaws(right, id, id);
    }
  }

  /** A range that holds one id has that id as its fingerprint, or zero when the id is absent. */
  lemma {:induction false} XorOfSingle(ids: seq<Tag>, lo: Tag, hi: Tag)
    requires Distinct(ids) && !IsInf(hi) && Val(hi) == Val(lo) + 1
    ensures RangeXorOf(ids, lo, hi) == if lo in ids then lo else ZERO
  {
    if ids != [] {
      var n := |ids| - 1;
      var id := ids[n];
      XorOfSingle(ids[..n], lo, hi);
      InRangeIsWithin(id, lo, hi);
      if Val(id) == Val(lo) {
        ValInjective(id, lo);
        assert lo !in ids[..n];
        XorLaws(ZERO, lo, ZERO);
        XorLaws(lo, ZERO, ZERO);
      }
      assert ids == ids[..n] + [id];
    }
  }

  // ---------------------------------------------------------------- the search

  datatype Range = Range(lo: Tag, hi: Tag)

  /** Only one id is left to ask about. */
  ghost predicate Single(r: Range) { Succ(r.lo) == Some(r.hi) }

  ghost predicate IsHalf(r: Range, half: Range) {
    var mid := Mid(r.lo, r.hi);
    mid.Some? && (half == Range(r.lo, mid.value) || half == Range(mid.value, r.hi))
  }

  ghost predicate Bounded(r: Range) { !IsInf(r.hi) && Val(r.lo) < Val(r.hi) }

  ghost predicate Differ(a: seq<Tag>, b: seq<Tag>, r: Range) {
    RangeXorOf(a, r.lo, r.hi) != RangeXorOf(b, r.lo, r.hi)
  }

  /** Every range on the path has differing fingerprints and is a half of the range before it,
      which was not yet down to a single id. */
  ghost predicate Descent(a: seq<Tag>, b: seq<Tag>, path: seq<Range>) {
    && path != []
    && Differ(a, b, path[0])
    && (|path| > 1 ==> !Single(path[0]) && IsHalf(path[0], path[1]) && Descent(a, b, path[1..]))
  }

  /** On a bounded range of more than one id the split point lies strictly inside. */
  lemma MidInside(r: Range)
    requires Bounded(r)
    ensures Single(r) <==> Val(r.hi) == Val(r.lo) + 1
    ensures !Single(r) ==> Mid(r.lo, r.hi).Some?
    ensures Mid(r.lo, r.hi).Some? ==>
              var mid := Mid(r.lo, r.hi).value;
              !IsInf(mid) && Val(mid) == (Val(r.lo) + Val(r.hi)) / 2 && Val(r.lo) < Val(mid) < Val(r.hi)
  {
    TagVal(r.hi);
    TagVal(r.lo);
    ValOfConstants();
    if Val(r.hi) == Val(r.lo) + 1 {
      ValInjective(r.hi, IdOf(Val(r.lo) + 1));
    }
  }

  /** One split of a bounded range halves its width, rounding up, and keeps it bounded. */
  lemma HalfIsSmaller(r: Range, half: Range)
    requires Bounded(r) && !Single(r) && IsHalf(r, half)
    ensures Bounded(half)
    ensures Val(r.lo) <= Val(half.lo) && Val(half.hi) <= Val(r.hi)
    ensures 2 * (Val(half.hi) - Val(half.lo)) <= Val(r.hi) - Val(r.lo) + 1
  {
    MidInside(r);
  }

  /** When two replicas' fingerprints of a range differ, they differ on one of its halves. */
  lemma SomeHalfDiffers(a: seq<Tag>, b: seq<Tag>, r: Range) returns (half: Range)
    requires Bounded(r) && !Single(r) && Differ(a, b, r)
    ensures IsHalf(r, half) && Differ(a, b, half)
  {
    MidInside(r);
    var mid := Mid(r.lo, r.hi).value;
    XorSplits(a, r.lo, mid, r.hi);
    XorSplits(b, r.lo, mid, r.hi);
    half := if Differ(a, b, Range(r.lo, mid)) then Range(r.lo, mid) else Range(mid, r.hi);
  }

  /** Following differing halves stops at a single id, and exactly one replica holds it. The
      holder's fingerprint of the range is the id itself, which is how it knows. */
  lemma SingleNamesTheId(a: seq<Tag>, b: seq<Tag>, r: Range)
    requires Distinct(a) && Distinct(b) && Bounded(r) && Single(r) && Differ(a, b, r)
    ensures (r.lo in a) != (r.lo in b)
    ensures RangeXorOf(a, r.lo, r.hi) == r.lo <==> r.lo in a
    ensures RangeXorOf(b, r.lo, r.hi) == r.lo <==> r.lo in b
  {
    MidInside(r);
    XorOfSingle(a, r.lo, r.hi);
    XorOfSingle(b, r.lo, r.hi);
  }

  /** No descent makes more than `n` splits from a range of width at most two to the `n`. */
  lemma {:induction false} DescentIsShort(a: seq<Tag>, b: seq<Tag>, path: seq<Range>, n: nat)
    requires Descent(a, b, path) && Bounded(path[0])
    requires Val(path[0].hi) - Val(path[0].lo) <= Pow2(n)
    ensures |path| <= n + 1
    decreases n
  {
    if |path| > 1 {
      assert !Single(path[0]) && IsHalf(path[0], path[1]) && Descent(a, b, path[1..]);
      HalfFits(path[0], path[1], n);
      DescentIsShort(a, b, path[1..], n - 1);
    }
  }

  lemma HalfFits(r: Range, half: Range, n: nat)
    requires Bounded(r) && !Single(r) && IsHalf(r, half) && Val(r.hi) - Val(r.lo) <= Pow2(n)
    ensures n > 0 && Bounded(half) && Val(half.hi) - Val(half.lo) <= Pow2(n - 1)
  {
    MidInside(r);
    HalfIsSmaller(r, half);
  }

  lemma WidthFits(r: Range)
    ensures Val(r.hi) - Val(r.lo) <= Pow2(8 * |ZERO|)
  {
    TagVal(r.hi);
    Pow256IsPow2(|ZERO|);
  }

  /** Every descent from a bounded range makes at most 256 splits, whatever halves it follows. */
  lemma AtMost256Splits(a: seq<Tag>, b: seq<Tag>, path: seq<Range>)
    requires Descent(a, b, path) && Bounded(path[0])
    ensures |path| <= 257
  {
    WidthFits(path[0]);
    DescentIsShort(a, b, path, 8 * |ZERO|);
  }

  /** `last` is down to one id, inside `r`, that exactly one of the two replicas holds. */
  ghost predicate NamesADifference(a: seq<Tag>, b: seq<Tag>, r: Range, last: Range) {
    && Bounded(last) && Single(last)
    && Val(r.lo) <= Val(last.lo) && Val(last.hi) <= Val(r.hi)
    && (last.lo in a) != (last.lo in b)
  }

  lemma {:induction false} Descend(a: seq<Tag>, b: seq<Tag>, r: Range) returns (path: seq<Range>)
    requires Distinct(a) && Distinct(b) && Bounded(r) && Differ(a, b, r)
    ensures Descent(a, b, path) && path[0] == r
    ensures NamesADifference(a, b, r, path[|path| - 1])
    decreases Val(r.hi) - Val(r.lo)
  {
    if Single(r) {
      path := [r];
      SingleNamesTheId(a, b, r);
    } else {
      var half := SomeHalfDiffers(a, b, r);
      HalfIsSmaller(r, half);
      MidInside(r);
      var rest := Descend(a, b, half);
      path := [r] + rest;
      assert path[1..] == rest;
    }
  }

  /** From any bounded range whose fingerprints differ, at most 256 splits reach one id that
      exactly one of the two replicas holds. */
  lemma SearchFindsADifference(a: seq<Tag>, b: seq<Tag>, r: Range) returns (path: seq<Range>)
    requires Distinct(a) && Distinct(b) && Bounded(r) && Differ(a, b, r)
    ensures Descent(a, b, path) && path[0] == r && |path| <= 257
    ensures NamesADifference(a, b, r, path[|path| - 1])
  {
    path := Descend(a, b, r);
    AtMost256Splits(a, b, path);
  }

  // ---------------------------------------------------------------- what a fingerprint can see

  /** One extra id changes the fingerprint of the whole set, except when it is the all-zero id. */
  lemma OneExtraIdShows(ids: seq<Tag>, extra: Tag)
    ensures RangeXorOf(ids + [extra], ZERO, INF) == RangeXorOf(ids, ZERO, INF) <==> extra == ZERO
  {
    assert (ids + [extra])[..|ids|] == ids;
    InRangeIsWithin(extra, ZERO, INF);
    ValOfConstants();
    var all := RangeXorOf(ids, ZERO, INF);
    XorLaws(all, ZERO, ZERO);
    if XorTag(all, extra) == all {
      XorCancel(all, extra, ZERO);
    }
  }

  /** Several ids can hide each other: any two ids together with their XOR leave no trace. */
  lemma ThreeIdsCanHide(ids: seq<Tag>, x: Tag, y: Tag)
    ensures RangeXorOf(ids + [x] + [y] + [XorTag(x, y)], ZERO, INF) == RangeXorOf(ids, ZERO, INF)
  {
    var all := RangeXorOf(ids, ZERO, INF);
    AppendShows(ids, x);
    AppendShows(ids + [x], y);
    AppendShows(ids + [x] + [y], XorTag(x, y));
    XorLaws(all, x, y);
    XorLaws(all, XorTag(x, y), XorTag(x, y));
    XorLaws(XorTag(x, y), ZERO, ZERO);
    XorLaws(all, ZERO, ZERO);
  }

  lemma AppendShows(ids: seq<Tag>, id: Tag)
    ensures RangeXorOf(ids + [id], ZERO, INF) == XorTag(RangeXorOf(ids, ZERO, INF), id)
  {
    assert (ids + [id])[..|ids|] == ids;
    InRangeIsWithin(id, ZERO, INF);
    ValOfConstants();
  }
}
