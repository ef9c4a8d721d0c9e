/** JSON values, the order of their members, and their canonical form. */
module Json {
  import opened Numbers

  datatype Json =
    | Null
    | Bool(b: bool)
    | Number(n: U64)
    | String(s: string)
    | Array(items: seq<Json>)
    | Object(members: seq<Member>)

  datatype Member = Member(key: string, value: Json)

  // ---------------------------------------------------------------- order of keys

  /** The UTF-16 code units of one character. */
  function Units(c: char): (u: seq<nat>)
    ensures |u| == 1 || |u| == 2
  {
    var n := c as int;
    if n < 0x10000 then [n] else [0xd800 + (n - 0x10000) / 0x400, 0xdc00 + (n - 0x10000) % 0x400]
  }

  function Utf16(s: string): (u: seq<nat>)
    ensures |u| >= |s|
  {
    if s == [] then [] else Units(s[0]) + Utf16(s[1..])
  }

  /** Lexicographic order, a proper prefix first. */
  predicate Before(a: seq<nat>, b: seq<nat>) {
    b != [] && (a == [] || a[0] < b[0] || (a[0] == b[0] && Before(a[1..], b[1..])))
  }

  predicate KeyBefore(a: string, b: string) { Before(Utf16(a), Utf16(b)) }

  lemma {:induction false} BeforeIsTotal(a: seq<nat>, b: seq<nat>)
    ensures a == b || Before(a, b) || Before(b, a)
    ensures !(Before(a, b) && Before(b, a))
    ensures !Before(a, a)
  {
    if a != [] {
      if b != [] {
        BeforeIsTotal(a[1..], b[1..]);
        if a[0] == b[0] && a[1..] == b[1..] {
          assert a == [a[0]] + a[1..] == b;
        }
      } else {
        BeforeIsTotal(a[1..], a[1..]);
      }
    }
  }

  lemma {:induction false} BeforeIsTransitive(a: seq<nat>, b: seq<nat>, c: seq<nat>)
    requires Before(a, b) && Before(b, c)
    ensures Before(a, c)
  {
    if a != [] && a[0] == b[0] == c[0] {
      BeforeIsTransitive(a[1..], b[1..], c[1..]);
    }
  }

  lemma UnitsInjective(c: char, d: char, x: seq<nat>, y: seq<nat>)
    requires Units(c) + x == Units(d) + y
    ensures c == d && x == y
  {
    assert (Units(c) + x)[0] == Units(c)[0] && (Units(d) + y)[0] == Units(d)[0];
    if |Units(c)| == 2 && |Units(d)| == 2 {
      assert (Units(c) + x)[1] == Units(c)[1] && (Units(d) + y)[1] == Units(d)[1];
    }
    assert x == (Units(c) + x)[|Units(c)|..];
    assert y == (Units(d) + y)[|Units(d)|..];
  }

  /** Different keys have different UTF-16 forms, so keys are totally ordered. */
  lemma {:induction false} Utf16Injective(s: string, t: string)
    requires Utf16(s) == Utf16(t)
    ensures s == t
  {
    if s != [] && t != [] {
      UnitsInjective(s[0], t[0], Utf16(s[1..]), Utf16(t[1..]));
      Utf16Injective(s[1..], t[1..]);
      assert s == [s[0]] + s[1..] && t == [t[0]] + t[1..];
    }
  }

  lemma KeysAreTotal(a: string, b: string)
    ensures a == b || KeyBefore(a, b) || KeyBefore(b, a)
    ensures !(KeyBefore(a, b) && KeyBefore(b, a)) && !KeyBefore(a, a)
  {
    BeforeIsTotal(Utf16(a), Utf16(b));
    BeforeIsTotal(Utf16(a), Utf16(a));
    if Utf16(a) == Utf16(b) {
      Utf16Injective(a, b);
    }
  }

  // ---------------------------------------------------------------- sorting members

  /** Put a member after every member whose key is not greater. */
  function Insert(sorted: seq<Member>, m: Member): (r: seq<Member>)
    ensures |r| == |sorted| + 1
    ensures forall x :: x in r <==> x in sorted || x == m
  {
    if sorted == [] then [m]
    else
      var n := |sorted| - 1;
      assert sorted == sorted[..n] + [sorted[n]];
      if KeyBefore(m.key, sorted[n].key) then Insert(sorted[..n], m) + [sorted[n]]
      else sorted + [m]
  }

  /** Stable sort by key. */
  function Sorted(members: seq<Member>): (r: seq<Member>)
    ensures |r| == |members|
    ensures forall x :: x in r <==> x in members
  {
    if members == [] then []
    else
      var n := |members| - 1;
      assert members == members[..n] + [members[n]];
      Insert(Sorted(members[..n]), members[n])
  }

  ghost predicate InOrder(members: seq<Member>) {
    forall i, j :: 0 <= i < j < |members| ==> !KeyBefore(members[j].key, members[i].key)
  }

  ghost predicate DistinctKeys(members: seq<Member>) {
    forall i, j :: 0 <= i < j < |members| ==> members[i].key != members[j].key
  }

  lemma NotAfter(a: string, b: string, c: string)
    requires !KeyBefore(b, a) && !KeyBefore(c, b)
    ensures !KeyBefore(c, a)
  {
    KeysAreTotal(a, b);
    KeysAreTotal(b, c);
    if KeyBefore(a, b) && KeyBefore(b, c) {
      BeforeIsTransitive(Utf16(a), Utf16(b), Utf16(c));
    }
    KeysAreTotal(a, c);
  }

  lemma {:induction false} InsertKeepsOrder(sorted: seq<Member>, m: Member)
    requires InOrder(sorted)
    ensures InOrder(Insert(sorted, m))
  {
    if sorted != [] {
      var n := |sorted| - 1;
      if KeyBefore(m.key, sorted[n].key) {
        InsertKeepsOrder(sorted[..n], m);
        var front := Insert(sorted[..n], m);
        forall i | 0 <= i < |front|
          ensures !KeyBefore(sorted[n].key, front[i].key)
        {
          assert front[i] in front;
          KeysAreTotal(m.key, sorted[n].key);
          if front[i] in sorted[..n] {
            var j :| 0 <= j < n && sorted[..n][j] == front[i];
          }
        }
      } else {
        forall i | 0 <= i < n
          ensures !KeyBefore(m.key, sorted[i].key)
        {
          NotAfter(sorted[i].key, sorted[n].key, m.key);
        }
      }
    }
  }

  lemma {:induction false} SortedIsInOrder(members: seq<Member>)
    ensures InOrder(Sorted(members))
  {
    if members != [] {
      SortedIsInOrder(members[..|members| - 1]);
      InsertKeepsOrder(Sorted(members[..|members| - 1]), members[|members| - 1]);
    }
  }

  /** Members already in order stay as they are. */
  lemma {:induction false} SortedOfInOrder(members: seq<Member>)
    requires InOrder(members)
    ensures Sorted(members) == members
  {
    if members != [] {
      var n := |members| - 1;
      SortedOfInOrder(members[..n]);
      assert members == members[..n] + [members[n]];
      if n > 0 {
        assert !KeyBefore(members[n].key, members[n - 1].key);
      }
    }
  }

  lemma {:induction false} InsertKeepsDistinct(sorted: seq<Member>, m: Member)
    requires DistinctKeys(sorted) && forall x :: x in sorted ==> x.key != m.key
    ensures DistinctKeys(Insert(sorted, m))
  {
    if sorted != [] {
      var n := |sorted| - 1;
      if KeyBefore(m.key, sorted[n].key) {
        InsertKeepsDistinct(sorted[..n], m);
        var front := Insert(sorted[..n], m);
        forall i | 0 <= i < |front|
          ensures front[i].key != sorted[n].key
        {
          assert front[i] in front;
        }
      }
    }
  }

  lemma {:induction false} SortedKeepsDistinct(members: seq<Member>)
    requires DistinctKeys(members)
    ensures DistinctKeys(Sorted(members))
  {
    if members != [] {
      var n := |members| - 1;
      SortedKeepsDistinct(members[..n]);
      forall x | x in Sorted(members[..n])
        ensures x.key != members[n].key
      {
        assert x in members[..n];
      }
      InsertKeepsDistinct(Sorted(members[..n]), members[n]);
    }
  }

  /** Two ordered lists with distinct keys and the same members are the same list. */
  lemma {:induction false} OrderIsUnique(a: seq<Member>, b: seq<Member>)
    requires InOrder(a) && InOrder(b) && DistinctKeys(a) && DistinctKeys(b)
    requires forall x :: x in a <==> x in b
    ensures a == b
  {
    SameEmptiness(a, b);
    if a != [] {
      var n, k := |a| - 1, |b| - 1;
      SameLast(a, b);
      forall x
        ensures x in a[..n] <==> x in b[..k]
      {
        WithoutLast(a, x);
        WithoutLast(b, x);
      }
      OrderIsUnique(a[..n], b[..k]);
      assert a == a[..n] + [a[n]] && b == b[..k] + [b[k]];
    }
  }

  lemma SameEmptiness(a: seq<Member>, b: seq<Member>)
    requires forall x :: x in a <==> x in b
    ensures a == [] <==> b == []
  {
    assert a != [] ==> a[0] in a;
    assert b != [] ==> b[0] in b;
  }

  lemma SameLast(a: seq<Member>, b: seq<Member>)
    requires a != [] && b != [] && InOrder(a) && InOrder(b) && DistinctKeys(a) && DistinctKeys(b)
    requires forall x :: x in a <==> x in b
    ensures a[|a| - 1] == b[|b| - 1]
  {
    var n, k := |a| - 1, |b| - 1;
    assert a[n] in b && b[k] in a;
    var i :| 0 <= i <= k && b[i] == a[n];
    var j :| 0 <= j <= n && a[j] == b[k];
    KeysAreTotal(a[n].key, b[k].key);
  }

  lemma WithoutLast(a: seq<Member>, x: Member)
    requires a != [] && DistinctKeys(a)
    ensures x in a[..|a| - 1] <==> x in a && x != a[|a| - 1]
  {
    assert a == a[..|a| - 1] + [a[|a| - 1]];
  }

  // ---------------------------------------------------------------- canonical form

  /** Members sorted by key, in the value and in everything it contains. */
  function Norm(v: Json): Json
    decreases v, 1
  {
    match v
    case Array(items) => Array(NormItems(items))
    case Object(members) => Object(Sorted(NormMembers(members)))
    case _ => v
  }

  function NormItems(items: seq<Json>): (r: seq<Json>)
    ensures |r| == |items|
    decreases items, 0
  {
    if items == [] then [] else [Norm(items[0])] + NormItems(items[1..])
  }

  function NormMembers(members: seq<Member>): (r: seq<Member>)
    ensures |r| == |members|
    decreases members, 0
  {
    if members == [] then []
    else [Member(members[0].key, Norm(members[0].value))] + NormMembers(members[1..])
  }

  lemma {:induction false} NormItemsAt(items: seq<Json>, i: nat)
    requires i < |items|
    ensures NormItems(items)[i] == Norm(items[i])
  {
    if i > 0 {
      NormItemsAt(items[1..], i - 1);
    }
  }

  lemma {:induction false} NormMembersAt(members: seq<Member>, i: nat)
    requires i < |members|
    ensures NormMembers(members)[i] == Member(members[i].key, Norm(members[i].value))
  {
    if i > 0 {
      NormMembersAt(members[1..], i - 1);
    }
  }

  /** No object in the value names a member twice. */
  ghost predicate NoRepeats(v: Json) {
    match v
    case Array(items) => forall i :: 0 <= i < |items| ==> NoRepeats(items[i])
    case Object(members) => DistinctKeys(members) && forall i :: 0 <= i < |members| ==> NoRepeats(members[i].value)
    case _ => true
  }
}
