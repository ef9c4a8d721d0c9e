/** Parsing what was printed gives back what was printed, members sorted, and nothing else prints alike. */
module JsonRoundTrip {
  import opened Json
  import opened JsonAccepts
  import opened JsonGrammar
  import opened JsonText
  import opened Wrappers

  // ---------------------------------------------------------------- the tree of a printed value

  function SpellingOf(c: char): Spelling {
    if c == '\"' || c == '\\' then Short(c)
    else if c as int == 0x8 then Short('b')
    else if c as int == 0xc then Short('f')
    else if c == '\n' then Short('n')
    else if c == '\r' then Short('r')
    else if c == '\t' then Short('t')
    else if c as int < 0x20 then Coded(Hex4(c as int))
    else Raw(c)
  }

  function SpellingsOf(s: string): (r: seq<Spelling>)
    ensures |r| == |s|
  {
    if s == "" then [] else [SpellingOf(s[0])] + SpellingsOf(s[1..])
  }

  /** The tree the printer writes: no white space, and members in the order they have. */
  function TreeOf(v: Json): Tree
    decreases v, 1
  {
    match v
    case Null => NullTree
    case Bool(b) => BoolTree(b)
    case Number(n) => NumberTree(n, Whole)
    case String(s) => StringTree(SpellingsOf(s))
    case Array(items) => ArrayTree("", ItemsOf(items))
    case Object(members) => ObjectTree("", FieldsOf(members))
  }

  function ItemsOf(items: seq<Json>): (r: seq<Item>)
    ensures |r| == |items|
    decreases items, 0
  {
    if items == [] then [] else [Item("", TreeOf(items[0]), "")] + ItemsOf(items[1..])
  }

  function FieldOf(m: Member): Field
    decreases m, 0
  {
    Field("", SpellingsOf(m.key), "", Item("", TreeOf(m.value), ""))
  }

  function FieldsOf(members: seq<Member>): (r: seq<Field>)
    ensures |r| == |members|
    decreases members, 0
  {
    if members == [] then [] else [FieldOf(members[0])] + FieldsOf(members[1..])
  }

  lemma HexReads(c: char)
    requires c as int < 0x20
    ensures Code(Hex4(c as int)) == Some(c as int)
  {
    var n := c as int;
    HexDigitIs(0);
    HexDigitIs(n / 0x10);
    HexDigitIs(n % 0x10);
    FourDigits(HEX[0], HEX[0], HEX[n / 0x10], HEX[n % 0x10], n / 0x10, n % 0x10);
  }

  lemma FourDigits(a: char, b: char, c: char, d: char, high: nat, low: nat)
    requires HexDigit(a) == HexDigit(b) == Some(0) && HexDigit(c) == Some(high) && HexDigit(d) == Some(low)
    ensures HexVal([a, b, c, d]) == Some(16 * high + low)
  {
    HexAppends([], a, 0, 0);
    assert [] + [a] == [a];
    HexAppends([a], b, 0, 0);
    assert [a] + [b] == [a, b];
    HexAppends([a, b], c, 0, high);
    assert [a, b] + [c] == [a, b, c];
    HexAppends([a, b, c], d, high, low);
    assert [a, b, c] + [d] == [a, b, c, d];
  }

  lemma HexAppends(h: string, c: char, v: nat, d: nat)
    requires HexVal(h) == Some(v) && HexDigit(c) == Some(d)
    ensures HexVal(h + [c]) == Some(16 * v + d)
  {
    assert (h + [c])[..|h|] == h;
  }

  lemma HexDigitIs(d: nat)
    requires d < 16
    ensures HexDigit(HEX[d]) == Some(d)
  {
  }

  /** One character's spelling is its escape, and reads back as the character, in either dialect. */
  lemma SpellingIs(c: char)
    ensures SpellingText(SpellingOf(c)) == EscapeChar(c) && SpellingChar(SpellingOf(c)) == Some(c)
    ensures SpellingOk(Strict, SpellingOf(c)) && SpellingOk(Lenient, SpellingOf(c))
  {
    if SpellingOf(c).Coded? {
      HexReads(c);
    }
  }

  lemma {:induction false} SpellingsAre(s: string)
    ensures SpelledText(SpellingsOf(s)) == Escape(s) && SpelledMeaning(SpellingsOf(s)) == s
    ensures SpelledOk(Strict, SpellingsOf(s)) && SpelledOk(Lenient, SpellingsOf(s))
  {
    if s != "" {
      SpellingIs(s[0]);
      SpellingsAre(s[1..]);
      assert s == [s[0]] + s[1..];
    }
  }

  /** What is printed is the text of the value's tree. */
  lemma {:induction false} TreeOfIs(v: Json)
    ensures TreeText(TreeOf(v)) == Emit(v) && Meaning(TreeOf(v)) == v && TreeOk(Lenient, TreeOf(v))
    ensures NoRepeats(v) ==> TreeOk(Strict, TreeOf(v))
    decreases v, 1
  {
    match v
    case String(s) => SpellingsAre(s);
    case Array(items) =>
      ItemsOfAre(items);
      NoGap("[", ItemsText(ItemsOf(items)), "]");
    case Object(members) =>
      FieldsOfAre(members);
      NoGap("{", FieldsText(FieldsOf(members)), "}");
    case _ =>
  }

  lemma NoGap(open: string, body: string, close: string)
    ensures open + "" + body + close == open + body + close
  {
  }

  lemma {:induction false} ItemsOfAre(items: seq<Json>)
    ensures ItemsText(ItemsOf(items)) == EmitItems(items) && Meanings(ItemsOf(items)) == items
    ensures ItemsOk(Lenient, ItemsOf(items))
    ensures (forall i :: 0 <= i < |items| ==> NoRepeats(items[i])) ==> ItemsOk(Strict, ItemsOf(items))
    decreases items, 0
  {
    if items != [] {
      TreeOfIs(items[0]);
      ItemsOfAre(items[1..]);
      BareItem(TreeOf(items[0]));
      assert ItemsOf(items)[1..] == ItemsOf(items[1..]) && items == [items[0]] + items[1..];
    }
  }

  lemma {:induction false} FieldOfIs(m: Member)
    ensures FieldText(FieldOf(m)) == EmitMember(m) && FieldMeaning(FieldOf(m)) == m && FieldOk(Lenient, FieldOf(m))
    ensures NoRepeats(m.value) ==> FieldOk(Strict, FieldOf(m))
    decreases m, 0
  {
    SpellingsAre(m.key);
    TreeOfIs(m.value);
    BareItem(TreeOf(m.value));
    NoSpaces(Quoted(m.key), Emit(m.value));
  }

  lemma BareItem(t: Tree)
    ensures ItemText(Item("", t, "")) == TreeText(t)
  {
  }

  lemma NoSpaces(key: string, value: string)
    ensures "" + key + "" + ":" + value == key + ":" + value
  {
  }

  lemma {:induction false} FieldsOfAre(members: seq<Member>)
    ensures FieldsText(FieldsOf(members)) == EmitMembers(members) && FieldMeanings(FieldsOf(members)) == members
    ensures FieldsOk(Lenient, FieldsOf(members))
    ensures (forall i :: 0 <= i < |members| ==> NoRepeats(members[i].value)) ==> FieldsOk(Strict, FieldsOf(members))
    decreases members, 0
  {
    if members != [] {
      FieldOfIs(members[0]);
      FieldsOfAre(members[1..]);
      assert FieldsOf(members)[1..] == FieldsOf(members[1..]) && members == [members[0]] + members[1..];
    }
  }

  lemma PrintedIsSpelled(v: Json)
    ensures Spells(Lenient, Emit(v), v)
    ensures NoRepeats(v) ==> Spells(Strict, Emit(v), v)
  {
    TreeOfIs(v);
    var i := Item("", TreeOf(v), "");
    assert ItemText(i) == Emit(v);
    assert ItemOk(Lenient, i) && (NoRepeats(v) ==> ItemOk(Strict, i));
  }

  // ---------------------------------------------------------------- canonical text

  lemma PrintedParses(v: Json)
    ensures Decode(Emit(v)) == Some(v)
  {
    PrintedIsSpelled(v);
    SpelledIsRead(Emit(v), v);
  }

  /** Only equal values print alike, when members are printed in the order they have. */
  lemma EmitInjective(v: Json, w: Json)
    requires Emit(v) == Emit(w)
    ensures v == w
  {
    PrintedParses(v);
    PrintedParses(w);
  }

  lemma {:induction false} NormIsIdempotent(v: Json)
    ensures Norm(Norm(v)) == Norm(v)
    decreases v, 1
  {
    match v
    case Array(items) => NormItemsIsIdempotent(items);
    case Object(members) =>
      NormMembersIsIdempotent(members);
      var once := Sorted(NormMembers(members));
      forall i | 0 <= i < |once|
        ensures NormMembers(once)[i] == once[i]
      {
        NormMembersAt(once, i);
        assert once[i] in NormMembers(members);
      }
      assert NormMembers(once) == once;
      SortedIsInOrder(NormMembers(members));
      SortedOfInOrder(once);
    case _ =>
  }

  lemma {:induction false} NormItemsIsIdempotent(items: seq<Json>)
    ensures NormItems(NormItems(items)) == NormItems(items)
    decreases items, 0
  {
    if items != [] {
      NormIsIdempotent(items[0]);
      NormItemsIsIdempotent(items[1..]);
      assert NormItems(items)[1..] == NormItems(items[1..]);
    }
  }

  /** Every member of a normal form has a normal value. */
  lemma {:induction false} NormMembersIsIdempotent(members: seq<Member>)
    ensures forall m :: m in NormMembers(members) ==> Norm(m.value) == m.value
    decreases members, 0
  {
    if members != [] {
      NormIsIdempotent(members[0].value);
      NormMembersIsIdempotent(members[1..]);
    }
  }

  /** Decoding an encoding gives the value with all its members sorted. */
  lemma EncodeThenDecode(v: Json)
    ensures Decode(Encode(v)) == Some(Norm(v))
  {
    PrintedParses(Norm(v));
  }

  /** Encoding what was decoded changes nothing: the text is canonical. */
  lemma EncodingIsCanonical(v: Json)
    ensures Decode(Encode(v)).Some? && Encode(Decode(Encode(v)).value) == Encode(v)
  {
    EncodeThenDecode(v);
    NormIsIdempotent(v);
  }

  // ---------------------------------------------------------------- which values encode alike

  /** The two differ at most in the order of members, at any depth. */
  ghost predicate SameUpToOrder(v: Json, w: Json)
    decreases v, 1
  {
    match v
    case Array(xs) => w.Array? && |xs| == |w.items| && SameItems(xs, w.items)
    case Object(ms) =>
      && w.Object? && |ms| == |w.members|
      && (forall m :: m in ms ==> SameIn(m, w.members))
      && (forall n :: n in w.members ==> SameFrom(ms, n))
    case _ => v == w
  }

  ghost predicate SameItems(xs: seq<Json>, ys: seq<Json>)
    requires |xs| == |ys|
    decreases xs, 0
  {
    forall i :: 0 <= i < |xs| ==> SameUpToOrder(xs[i], ys[i])
  }

  ghost predicate SameIn(m: Member, ns: seq<Member>)
    decreases m, 0
  {
    exists n :: n in ns && n.key == m.key && SameUpToOrder(m.value, n.value)
  }

  ghost predicate SameFrom(ms: seq<Member>, n: Member)
    decreases ms, 0
  {
    exists m :: m in ms && m.key == n.key && SameUpToOrder(m.value, n.value)
  }

  /** Some member of `ns` has the key of `m` and the same normal value. */
  ghost predicate Matched(m: Member, ns: seq<Member>) {
    exists n :: n in ns && n.key == m.key && Norm(n.value) == Norm(m.value)
  }

  lemma NormKeepsDistinct(members: seq<Member>)
    requires DistinctKeys(members)
    ensures DistinctKeys(NormMembers(members))
  {
    forall i, j | 0 <= i < j < |members|
      ensures NormMembers(members)[i].key != NormMembers(members)[j].key
    {
      NormMembersAt(members, i);
      NormMembersAt(members, j);
    }
  }

  function NormMember(m: Member): Member { Member(m.key, Norm(m.value)) }

  lemma {:induction false} InNorm(members: seq<Member>, m: Member)
    requires m in members
    ensures NormMember(m) in NormMembers(members)
  {
    var i :| 0 <= i < |members| && members[i] == m;
    NormMembersAt(members, i);
  }

  lemma {:induction false} FromNorm(members: seq<Member>, x: Member) returns (m: Member)
    requires x in NormMembers(members)
    ensures m in members && NormMember(m) == x
  {
    var i :| 0 <= i < |members| && NormMembers(members)[i] == x;
    NormMembersAt(members, i);
    m := members[i];
  }

  lemma MatchedIsIn(ms: seq<Member>, ns: seq<Member>, x: Member)
    requires forall m :: m in ms ==> Matched(m, ns)
    requires x in NormMembers(ms)
    ensures x in NormMembers(ns)
  {
    var m := FromNorm(ms, x);
    var n :| n in ns && n.key == m.key && Norm(n.value) == Norm(m.value);
    InNorm(ns, n);
  }

  lemma InIsMatched(ms: seq<Member>, ns: seq<Member>, m: Member)
    requires m in ms && NormMember(m) in NormMembers(ns)
    ensures Matched(m, ns)
  {
    var n := FromNorm(ns, NormMember(m));
  }

  /** Two lists of members with distinct keys sort alike when they match each other. */
  lemma SortAlikeWhenMatched(ms: seq<Member>, ns: seq<Member>)
    requires DistinctKeys(ms) && DistinctKeys(ns)
    requires forall m :: m in ms ==> Matched(m, ns)
    requires forall n :: n in ns ==> Matched(n, ms)
    ensures Sorted(NormMembers(ms)) == Sorted(NormMembers(ns))
  {
    var a, b := NormMembers(ms), NormMembers(ns);
    forall x
      ensures x in a <==> x in b
    {
      if x in a { MatchedIsIn(ms, ns, x); }
      if x in b { MatchedIsIn(ns, ms, x); }
    }
    NormKeepsDistinct(ms);
    NormKeepsDistinct(ns);
    SortedKeepsDistinct(a);
    SortedKeepsDistinct(b);
    SortedIsInOrder(a);
    SortedIsInOrder(b);
    OrderIsUnique(Sorted(a), Sorted(b));
  }

  lemma SortAlikeSameMembers(a: seq<Member>, b: seq<Member>, x: Member)
    requires Sorted(a) == Sorted(b)
    ensures |a| == |b| && (x in a <==> x in b)
  {
    assert |Sorted(a)| == |a| && |Sorted(b)| == |b|;
    assert x in Sorted(a) <==> x in a;
  }

  lemma MatchedWhenSortAlike(ms: seq<Member>, ns: seq<Member>, m: Member)
    requires Sorted(NormMembers(ms)) == Sorted(NormMembers(ns)) && m in ms
    ensures |ms| == |ns| && Matched(m, ns)
  {
    SortAlikeSameMembers(NormMembers(ms), NormMembers(ns), NormMember(m));
    InNorm(ms, m);
    InIsMatched(ms, ns, m);
  }

  /** Values that differ only in member order have one normal form. */
  lemma {:induction false} SameOrderSameNorm(v: Json, w: Json)
    requires NoRepeats(v) && NoRepeats(w) && SameUpToOrder(v, w)
    ensures Norm(v) == Norm(w)
    decreases v, 1
  {
    match v
    case Array(xs) =>
      SameItemsSameNorm(xs, w.items);
    case Object(ms) =>
      forall m | m in ms
        ensures Matched(m, w.members)
      {
        var n :| n in w.members && n.key == m.key && SameUpToOrder(m.value, n.value);
        SameOrderSameNorm(m.value, n.value);
      }
      forall n | n in w.members
        ensures Matched(n, ms)
      {
        assert SameFrom(ms, n);
        var m :| m in ms && m.key == n.key && SameUpToOrder(m.value, n.value);
        SameOrderSameNorm(m.value, n.value);
      }
      SortAlikeWhenMatched(ms, w.members);
    case _ =>
  }

  lemma {:induction false} SameItemsSameNorm(xs: seq<Json>, ys: seq<Json>)
    requires |xs| == |ys| && SameItems(xs, ys)
    requires forall i :: 0 <= i < |xs| ==> NoRepeats(xs[i]) && NoRepeats(ys[i])
    ensures NormItems(xs) == NormItems(ys)
    decreases xs, 0
  {
    forall i | 0 <= i < |xs|
      ensures NormItems(xs)[i] == NormItems(ys)[i]
    {
      SameOrderSameNorm(xs[i], ys[i]);
      NormItemsAt(xs, i);
      NormItemsAt(ys, i);
    }
  }

  /** Values with one normal form differ only in member order. */
  lemma {:induction false} SameNormSameOrder(v: Json, w: Json)
    requires Norm(v) == Norm(w)
    ensures SameUpToOrder(v, w)
    decreases v, 1
  {
    match v
    case Array(xs) =>
      assert |xs| == |NormItems(xs)|;
      SameNormSameItems(xs, w.items);
    case Object(ms) =>
      SortAlikeSameMembers(NormMembers(ms), NormMembers(w.members), Member("", Null));
      SameNormSameMembers(ms, w.members);
    case _ =>
  }

  lemma {:induction false} SameNormSameItems(xs: seq<Json>, ys: seq<Json>)
    requires |xs| == |ys| && NormItems(xs) == NormItems(ys)
    ensures SameItems(xs, ys)
    decreases xs, 0
  {
    forall i | 0 <= i < |xs|
      ensures SameUpToOrder(xs[i], ys[i])
    {
      NormItemsAt(xs, i);
      NormItemsAt(ys, i);
      SameNormSameOrder(xs[i], ys[i]);
    }
  }

  lemma {:induction false} SameNormSameMembers(ms: seq<Member>, ns: seq<Member>)
    requires Sorted(NormMembers(ms)) == Sorted(NormMembers(ns))
    ensures forall m :: m in ms ==> SameIn(m, ns)
    ensures forall n :: n in ns ==> SameFrom(ms, n)
    decreases ms, 0
  {
    forall m | m in ms
      ensures SameIn(m, ns)
    {
      MatchedWhenSortAlike(ms, ns, m);
      var n :| n in ns && n.key == m.key && Norm(n.value) == Norm(m.value);
      SameNormSameOrder(m.value, n.value);
    }
    forall n | n in ns
      ensures SameFrom(ms, n)
    {
      MatchedWhenSortAlike(ns, ms, n);
      var m :| m in ms && m.key == n.key && Norm(m.value) == Norm(n.value);
      SameNormSameOrder(m.value, n.value);
    }
  }

  /** Values that repeat no key encode alike exactly when they differ only in the order of members. */
  lemma EncodeAlikeExactlyWhen(v: Json, w: Json)
    requires NoRepeats(v) && NoRepeats(w)
    ensures Encode(v) == Encode(w) <==> SameUpToOrder(v, w)
  {
    if Encode(v) == Encode(w) {
      EmitInjective(Norm(v), Norm(w));
      SameNormSameOrder(v, w);
    }
    if SameUpToOrder(v, w) {
      SameOrderSameNorm(v, w);
    }
  }
}
