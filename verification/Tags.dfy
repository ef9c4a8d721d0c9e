/** 32-byte identifiers: their order, their value as 256-bit numbers, and their XOR. */
module Tags {

  const TAG_LEN: nat := 32

  type Byte = b: int | 0 <= b < 256

  /** The raw bytes of an id, most significant byte first. */
  type Tag = t: seq<Byte> | |t| == TAG_LEN witness Fill(0, TAG_LEN)

  const ZERO: Tag := Fill(0, TAG_LEN)

  /** All `0xff` bytes. As an upper bound it means the end of the id space. */
  const INF: Tag := Fill(0xff, TAG_LEN)

  function Fill(b: Byte, n: nat): (s: seq<Byte>)
    ensures |s| == n && forall i :: 0 <= i < n ==> s[i] == b
  {
    seq(n, _ => b)
  }

  // ---------------------------------------------------------------- value and order

  /** The number the bytes denote, read big-endian. */
  function Val(s: seq<Byte>): nat {
    if s == [] then 0 else 256 * Val(s[..|s| - 1]) + s[|s| - 1]
  }

  function Pow256(n: nat): (p: nat)
    ensures p >= 1
  {
    if n == 0 then 1 else 256 * Pow256(n - 1)
  }

  function Pow2(n: nat): (p: nat)
    ensures p >= 1
  {
    if n == 0 then 1 else 2 * Pow2(n - 1)
  }

  lemma ValAppend(s: seq<Byte>, b: Byte)
    ensures Val(s + [b]) == 256 * Val(s) + b
  {
    assert (s + [b])[..|s|] == s;
  }

  /** Byte-wise lexicographic order, as arrays compare. */
  predicate Less(a: seq<Byte>, b: seq<Byte>)
    requires |a| == |b|
  {
    exists k :: 0 <= k < |a| && LessAt(a, b, k)
  }

  /** The two agree before byte `k`, and `a` is smaller there. */
  predicate LessAt(a: seq<Byte>, b: seq<Byte>, k: nat)
    requires |a| == |b| && k < |a|
  {
    a[..k] == b[..k] && a[k] < b[k]
  }

  lemma {:induction false} ValBound(s: seq<Byte>)
    ensures Val(s) < Pow256(|s|)
  {
    if s != [] {
      ValBound(s[..|s| - 1]);
    }
  }

  lemma {:induction false} Pow256IsPow2(n: nat)
    ensures Pow256(n) == Pow2(8 * n)
  {
    if n > 0 {
      Pow256IsPow2(n - 1);
      var m := 8 * (n - 1);
      assert Pow2(m + 8) == 2 * Pow2(m + 7) == 4 * Pow2(m + 6) == 8 * Pow2(m + 5) == 16 * Pow2(m + 4);
      assert Pow2(m + 4) == 2 * Pow2(m + 3) == 4 * Pow2(m + 2) == 8 * Pow2(m + 1) == 16 * Pow2(m);
    }
  }

  lemma {:induction false} ValInjective(a: seq<Byte>, b: seq<Byte>)
    requires |a| == |b| && Val(a) == Val(b)
    ensures a == b
  {
    if a != [] {
      var n := |a| - 1;
      ValInjective(a[..n], b[..n]);
      assert a == a[..n] + [a[n]];
      assert b == b[..n] + [b[n]];
    }
  }

  /** Comparing ids byte by byte is comparing the numbers they denote. */
  lemma {:induction false} LessIsValLess(a: seq<Byte>, b: seq<Byte>)
    requires |a| == |b|
    ensures Less(a, b) <==> Val(a) < Val(b)
  {
    if a != [] {
      var n := |a| - 1;
      var a', b' := a[..n], b[..n];
      LessIsValLess(a', b');
      if Less(a, b) {
        var k :| 0 <= k <= n && LessAt(a, b, k);
        if k < n {
          assert a'[..k] == a[..k] && b'[..k] == b[..k];
          assert LessAt(a', b', k);
        }
      }
      if Val(a) < Val(b) {
        if Less(a', b') {
          var k :| 0 <= k < n && LessAt(a', b', k);
          assert a[..k] == a'[..k] && b[..k] == b'[..k];
          assert LessAt(a, b, k);
        } else {
          ValInjective(a', b');
          assert LessAt(a, b, n);
        }
      }
    }
  }

  lemma ValOfConstants()
    ensures Val(ZERO) == 0
    ensures Val(INF) == IdSpace() - 1
  {
    ConstantZero(ZERO);
    ConstantInf(INF);
  }

  lemma {:induction false} ConstantZero(s: seq<Byte>)
    requires forall i :: 0 <= i < |s| ==> s[i] == 0
    ensures Val(s) == 0
  {
    if s != [] {
      ConstantZero(s[..|s| - 1]);
    }
  }

  lemma {:induction false} ConstantInf(s: seq<Byte>)
    requires forall i :: 0 <= i < |s| ==> s[i] == 0xff
    ensures Val(s) == Pow256(|s|) - 1
  {
    if s != [] {
      ConstantInf(s[..|s| - 1]);
    }
  }

  /** The `len`-byte id with a given value. */
  function FromVal(v: nat, len: nat): (s: seq<Byte>)
    requires v < Pow256(len)
    ensures |s| == len && Val(s) == v
  {
    if len == 0 then []
    else
      var front := FromVal(v / 256, len - 1);
      ValAppend(front, v % 256);
      front + [v % 256]
  }

  /** How many ids there are. */
  ghost function IdSpace(): nat {
    Pow256(|ZERO|)
  }

  /** The id that denotes `v`. */
  ghost function IdOf(v: nat): (t: Tag)
    requires v < IdSpace()
    ensures Val(t) == v
  {
    FromVal(v, |ZERO|)
  }

  lemma TagVal(t: Tag)
    ensures Val(t) < IdSpace() && IdOf(Val(t)) == t
  {
    ValBound(t);
    assert |t| == |ZERO|;
    ValInjective(t, IdOf(Val(t)));
  }

  // ---------------------------------------------------------------- XOR

  /** XOR of the low `n` bits, bit by bit. */
  function XorBits(a: nat, b: nat, n: nat): (r: nat)
    ensures r < Pow2(n)
  {
    if n == 0 then 0 else XorBit(a, b) + 2 * XorBits(a / 2, b / 2, n - 1)
  }

  /** XOR of the lowest bits. */
  function XorBit(a: nat, b: nat): (r: nat)
    ensures r <= 1
  {
    if a % 2 == b % 2 then 0 else 1
  }

  function XorByte(a: Byte, b: Byte): Byte {
    assert Pow2(8) == 2 * Pow2(7) == 4 * Pow2(6) == 8 * Pow2(5) == 16 * Pow2(4);
    assert Pow2(4) == 2 * Pow2(3) == 4 * Pow2(2) == 8 * Pow2(1) == 16 * Pow2(0);
    XorBits(a, b, 8)
  }

  /** The lowest bit of an XOR, and what remains without it. */
  lemma XorBitsHalf(a: nat, b: nat, n: nat)
    requires n > 0
    ensures XorBits(a, b, n) / 2 == XorBits(a / 2, b / 2, n - 1)
    ensures XorBits(a, b, n) % 2 == XorBit(a, b)
  {
  }

  lemma {:induction false} XorBitsAssoc(a: nat, b: nat, c: nat, n: nat)
    ensures XorBits(XorBits(a, b, n), c, n) == XorBits(a, XorBits(b, c, n), n)
  {
    if n > 0 {
      XorBitsAssoc(a / 2, b / 2, c / 2, n - 1);
      XorBitsHalf(a, b, n);
      XorBitsHalf(b, c, n);
    }
  }

  lemma {:induction false} XorBitsLaws(a: nat, b: nat, n: nat)
    ensures XorBits(a, b, n) == XorBits(b, a, n)
    ensures XorBits(a, a, n) == 0
    ensures a < Pow2(n) ==> XorBits(a, 0, n) == a
  {
    if n > 0 {
      XorBitsLaws(a / 2, b / 2, n - 1);
    }
  }

  function XorTag(a: Tag, b: Tag): Tag {
    seq(TAG_LEN, i requires 0 <= i < TAG_LEN => XorByte(a[i], b[i]))
  }

  lemma XorLaws(a: Tag, b: Tag, c: Tag)
    ensures XorTag(XorTag(a, b), c) == XorTag(a, XorTag(b, c))
    ensures XorTag(a, b) == XorTag(b, a)
    ensures XorTag(a, ZERO) == a
    ensures XorTag(a, a) == ZERO
  {
    forall i | 0 <= i < TAG_LEN
      ensures XorTag(XorTag(a, b), c)[i] == XorTag(a, XorTag(b, c))[i]
      ensures XorTag(a, b)[i] == XorTag(b, a)[i]
      ensures XorTag(a, ZERO)[i] == a[i]
      ensures XorTag(a, a)[i] == 0
    {
      XorBitsLaws(a[i], b[i], 8);
      XorBitsAssoc(a[i], b[i], c[i], 8);
      assert Pow2(8) == 256;
    }
  }

  /** XOR with a fixed id can be undone, so it loses nothing. */
  lemma XorCancel(a: Tag, b: Tag, c: Tag)
    requires XorTag(a, b) == XorTag(a, c)
    ensures b == c
  {
    XorLaws(a, a, b);
    XorLaws(a, a, c);
    XorLaws(ZERO, b, ZERO);
    XorLaws(ZERO, c, ZERO);
    XorLaws(b, ZERO, ZERO);
    XorLaws(c, ZERO, ZERO);
  }
}
