/** Ranges of the id space: where a range splits, which ids fall in it, and the XOR of those ids. */
module HealRange {
  import opened Tags
  import opened Wrappers

  /** The greatest id, used as an upper bound, stands for no bound at all. */
  predicate IsInf(hi: Tag) { hi == INF }

  /** `[lo, hi)`, where an unbounded `hi` also admits the last id. */
  predicate InRange(id: Tag, lo: Tag, hi: Tag) {
    !Less(id, lo) && (IsInf(hi) || Less(id, hi))
  }

  // ---------------------------------------------------------------- successor

  ghost function Succ(lo: Tag): (r: Option<Tag>) {
    if Val(lo) + 1 < IdSpace() then Some(IdOf(Val(lo) + 1)) else None
  }

  /** The bytes from `i` on have been cleared, and a carry of one is still owed to those before them. */
  ghost predicate Carrying(a: seq<Byte>, i: nat, lo: Tag) {
    |a| == TAG_LEN && i <= TAG_LEN && Val(a) + Pow256(|ZERO| - i) == Val(lo) + 1
    && forall j :: i <= j < TAG_LEN ==> a[j] == 0
  }

  /** One more, as a number. Only the greatest id has none. */
  method Successor(lo: Tag) returns (r: Option<Tag>)
    ensures r == Succ(lo)
  {
    var bytes := CopyBytes(lo);
    var i := TAG_LEN;
    StartsCarrying(lo);
    while i > 0
      invariant 0 <= i <= TAG_LEN == bytes.Length && fresh(bytes)
      invariant Carrying(bytes[..], i, lo)
    {
      i := i - 1;
      if bytes[i] != 0xff {
        Bumped(bytes[..], i, lo);
        bytes[i] := bytes[i] + 1;
        return Some(bytes[..]);
      }
      Carried(bytes[..], i, lo);
      bytes[i] := 0;
    }
    CarriedOut(bytes[..], lo);
    return None;
  }

  lemma StartsCarrying(lo: Tag)
    ensures Carrying(lo, TAG_LEN, lo)
  {
    assert Pow256(|ZERO| - TAG_LEN) == 1;
  }

  lemma CarriedOut(a: Tag, lo: Tag)
    requires Carrying(a, 0, lo)
    ensures Succ(lo) == None
  {
    ConstantZero(a);
  }

  lemma Bumped(a: Tag, i: nat, lo: Tag)
    requires i < TAG_LEN && a[i] != 0xff && Carrying(a, i + 1, lo)
    ensures Succ(lo) == Some(a[i := a[i] + 1])
  {
    ByteStep(a, i, a[i] + 1);
    SuccIsNext(lo, a[i := a[i] + 1]);
  }

  lemma Carried(a: Tag, i: nat, lo: Tag)
    requires i < TAG_LEN && a[i] == 0xff && Carrying(a, i + 1, lo)
    ensures Carrying(a[i := 0], i, lo)
  {
    ByteStep(a, i, 0);
  }

  method CopyBytes(t: Tag) returns (bytes: array<Byte>)
    ensures fresh(bytes) && bytes[..] == t
  {
    bytes := new Byte[TAG_LEN];
    forall i | 0 <= i < TAG_LEN { bytes[i] := t[i]; }
    assert bytes[..] == t;
  }

  lemma SuccIsNext(lo: Tag, next: Tag)
    ensures Val(next) == Val(lo) + 1 ==> Succ(lo) == Some(next)
  {
    TagVal(next);
  }

  /** Incrementing a byte adds its place value. Clearing a `0xff` byte removes 255 of them. */
  lemma {:induction false} ByteStep(a: seq<Byte>, i: nat, v: nat)
    requires i < |a| && v < 256 && (v == a[i] as int + 1 || (a[i] == 0xff && v == 0))
    ensures v == a[i] as int + 1 ==> Val(a[i := v]) == Val(a) + Pow256(|a| - 1 - i)
    ensures v == 0 ==> Val(a) == Val(a[i := v]) + 255 * Pow256(|a| - 1 - i)
  {
    var n := |a| - 1;
    var b := a[i := v];
    if i == n {
      assert b[..n] == a[..n];
    } else {
      ByteStep(a[..n], i, v);
      assert b[..n] == a[..n][i := v];
    }
  }

  // ---------------------------------------------------------------- midpoint

  /** A byte shifted right, with the low bit of its less significant neighbour in the top bit. */
  function Halved(v: Byte, neighbour: Byte): Byte {
    v / 2 + 128 * (neighbour % 2)
  }

  /** Split point of an unbounded range: every byte is halved, its low bit moves to the byte
      before it, and the result is forced into the upper half of the id space. */
  function InfMid(lo: Tag): Tag {
    seq(TAG_LEN, i requires 0 <= i < TAG_LEN => InfByte(lo, i))
  }

  function InfByte(lo: Tag, i: nat): Byte
    requires i < TAG_LEN
  {
    var halved := Halved(lo[i], if i + 1 < TAG_LEN then lo[i + 1] else 0);
    if i == 0 then SetTopBit(halved) else halved
  }

  function SetTopBit(v: Byte): Byte {
    if v < 0x80 then v + 0x80 else v
  }

  /** Where `[lo, hi)` splits. A finite range splits at the integer mean of its bounds. */
  ghost function Mid(lo: Tag, hi: Tag): (r: Option<Tag>) {
    if IsInf(hi) then
      if Less(lo, InfMid(lo)) then Some(InfMid(lo)) else None
    else
      var m := (Val(lo) + Val(hi)) / 2;
      TagVal(hi);
      if Val(lo) < m < Val(hi) then Some(IdOf(m)) else None
  }

  /** The loops over bytes compute exactly `Mid`. */
  method Midpoint(lo: Tag, hi: Tag) returns (r: Option<Tag>)
    ensures r == Mid(lo, hi)
  {
    var inf := IsInf(hi);
    var mid: Tag;
    if inf {
      mid := HalveUnbounded(lo);
    } else {
      mid := MeanBytes(lo, hi);
      MeanIsMid(lo, hi, mid);
    }
    r := if Less(lo, mid) && (inf || Less(mid, hi)) then Some(mid) else None;
  }

  lemma MeanIsMid(lo: Tag, hi: Tag, mid: Tag)
    requires !IsInf(hi) && Val(mid) == (Val(lo) + Val(hi)) / 2
    ensures Mid(lo, hi) == if Less(lo, mid) && Less(mid, hi) then Some(mid) else None
  {
    TagVal(mid);
    assert IdOf((Val(lo) + Val(hi)) / 2) == mid;
    LessIsValLess(lo, mid);
    LessIsValLess(mid, hi);
  }

  method HalveUnbounded(lo: Tag) returns (mid: Tag)
    ensures mid == InfMid(lo)
  {
    var out := new Byte[TAG_LEN];
    var carry: Byte := 0;
    var i := TAG_LEN;
    while i > 0
      invariant 0 <= i <= TAG_LEN
      invariant carry == if i < TAG_LEN then lo[i] % 2 else 0
      invariant forall j :: i <= j < TAG_LEN && j > 0 ==> out[j] == InfByte(lo, j)
      invariant i == 0 ==> SetTopBit(out[0]) == InfByte(lo, 0)
    {
      i := i - 1;
      var v := lo[i];
      out[i] := v / 2 + 128 * carry;
      carry := v % 2;
    }
    out[0] := SetTopBit(out[0]);
    mid := out[..];
    assert mid == InfMid(lo);
  }

  /** Big-endian sum of two equally long numbers, one byte longer than they are. */
  ghost function AddBytes(a: seq<Byte>, b: seq<Byte>, carry: nat): (s: seq<Byte>)
    requires |a| == |b| && carry <= 1
    ensures |s| == |a| + 1
  {
    if a == [] then [carry]
    else
      var n := |a| - 1;
      var sum := a[n] + b[n] + carry;
      AddBytes(a[..n], b[..n], sum / 256) + [sum % 256]
  }

  lemma {:induction false} AddBytesVal(a: seq<Byte>, b: seq<Byte>, carry: nat)
    requires |a| == |b| && carry <= 1
    ensures Val(AddBytes(a, b, carry)) == Val(a) + Val(b) + carry
    ensures AddBytes(a, b, carry)[0] <= 1
  {
    if a == [] {
      ValAppend([], carry);
    } else {
      var n := |a| - 1;
      var sum := a[n] + b[n] + carry;
      AddBytesVal(a[..n], b[..n], sum / 256);
      ValAppend(AddBytes(a[..n], b[..n], sum / 256), sum % 256);
    }
  }

  method MeanBytes(lo: Tag, hi: Tag) returns (mid: Tag)
    ensures Val(mid) == (Val(lo) + Val(hi)) / 2
  {
    var wide := new Byte[TAG_LEN + 1];
    var carry: nat := 0;
    var i := TAG_LEN;
    assert lo[..TAG_LEN] == lo && hi[..TAG_LEN] == hi;
    while i > 0
      invariant 0 <= i <= TAG_LEN && carry <= 1
      invariant AddBytes(lo[..i], hi[..i], carry) + wide[i + 1..] == AddBytes(lo, hi, 0)
    {
      i := i - 1;
      var sum := lo[i] + hi[i] + carry;
      ghost var tail := wide[i + 2..];
      wide[i + 1] := sum % 256;
      assert wide[i + 1..] == [sum % 256] + tail;
      assert lo[..i + 1][..i] == lo[..i] && hi[..i + 1][..i] == hi[..i];
      carry := sum / 256;
    }
    ghost var tail := wide[1..];
    wide[0] := carry;
    assert lo[..0] == [] && hi[..0] == [];
    assert wide[..] == [carry] + tail;
    AddBytesVal(lo, hi, 0);
    mid := HalveWide(wide[..]);
  }

  /** Shift a 33-byte number right by one bit, dropping the byte that becomes zero. */
  method HalveWide(wide: seq<Byte>) returns (half: Tag)
    requires |wide| == TAG_LEN + 1 && wide[0] <= 1
    ensures Val(half) == Val(wide) / 2
  {
    var out := new Byte[TAG_LEN];
    var bit: Byte := 0;
    for i := 0 to TAG_LEN + 1
      invariant bit <= 1
      invariant i > 0 ==> Val(wide[..i]) == 2 * Val(out[..i - 1]) + bit
    {
      var v := wide[i];
      assert wide[..i + 1] == wide[..i] + [v];
      ValAppend(wide[..i], v);
      if i > 0 {
        ghost var front := out[..i - 1];
        out[i - 1] := 128 * bit + v / 2;
        assert out[..i] == front + [out[i - 1]];
        ValAppend(front, out[i - 1]);
      }
      bit := v % 2;
    }
    half := out[..];
    assert wide[..TAG_LEN + 1] == wide && out[..TAG_LEN] == half;
  }
}
