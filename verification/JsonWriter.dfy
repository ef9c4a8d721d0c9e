/** The printer, which appends to a text buffer, does what the canonical form says. */
module JsonWriter {
  import opened Json
  import opened JsonText
  import opened JsonRoundTrip

  // ---------------------------------------------------------------- sorting before normalising

  lemma {:induction false} NormSplits(a: seq<Member>, m: Member)
    ensures NormMembers(a + [m]) == NormMembers(a) + [NormMember(m)]
  {
    forall i | 0 <= i <= |a|
      ensures NormMembers(a + [m])[i] == (NormMembers(a) + [NormMember(m)])[i]
    {
      NormMembersAt(a + [m], i);
      if i < |a| {
        NormMembersAt(a, i);
      }
    }
  }

  lemma {:induction false} NormOfInsert(sorted: seq<Member>, m: Member)
    ensures NormMembers(Insert(sorted, m)) == Insert(NormMembers(sorted), NormMember(m))
  {
    if sorted == [] {
      assert NormMembers([m])[1..] == [];
    } else {
      var n := |sorted| - 1;
      var front, last := sorted[..n], sorted[n];
      assert sorted == front + [last];
      NormSplits(front, last);
      assert NormMembers(sorted)[..n] == NormMembers(front) && NormMembers(sorted)[n] == NormMember(last);
      if KeyBefore(m.key, last.key) {
        NormOfInsert(front, m);
        NormSplits(Insert(front, m), last);
      } else {
        NormSplits(sorted, m);
      }
    }
  }

  /** Sorting looks at keys alone, so values may be normalised before it or after it. */
  lemma {:induction false} NormOfSorted(members: seq<Member>)
    ensures NormMembers(Sorted(members)) == Sorted(NormMembers(members))
  {
    if members != [] {
      var n := |members| - 1;
      var front, last := members[..n], members[n];
      assert members == front + [last];
      NormSplits(front, last);
      assert NormMembers(members)[..n] == NormMembers(front);
      NormOfSorted(front);
      NormOfInsert(Sorted(front), last);
    }
  }

  // ---------------------------------------------------------------- what is still to print

  /** Text of the items from position `i` on, with the comma that precedes them. */
  function ItemsFrom(items: seq<Json>, i: nat): string
    requires i <= |items|
  {
    if i == 0 then EmitItems(items) else if i == |items| then "" else "," + EmitItems(items[i..])
  }

  lemma ItemsStep(items: seq<Json>, i: nat)
    requires i < |items|
    ensures ItemsFrom(items, i) == (if i > 0 then "," else "") + Emit(items[i]) + ItemsFrom(items, i + 1)
  {
    var rest := items[i..];
    assert i == 0 ==> rest == items;
    assert rest[0] == items[i] && rest[1..] == items[i + 1..];
  }

  /** Printing one item after the comma it needs leaves the items after it to print. */
  lemma ItemPrinted(before: string, items: seq<Json>, i: nat, after: string)
    requires i < |items| && after == before + (if i > 0 then "," else "") + Emit(items[i])
    ensures after + ItemsFrom(items, i + 1) == before + ItemsFrom(items, i)
  {
    ItemsStep(items, i);
    Regroup(before, if i > 0 then "," else "", Emit(items[i]));
    Regroup(before, (if i > 0 then "," else "") + Emit(items[i]), ItemsFrom(items, i + 1));
  }

  function MembersFrom(members: seq<Member>, i: nat): string
    requires i <= |members|
  {
    if i == 0 then EmitMembers(members) else if i == |members| then "" else "," + EmitMembers(members[i..])
  }

  lemma MembersStep(members: seq<Member>, i: nat)
    requires i < |members|
    ensures MembersFrom(members, i) == (if i > 0 then "," else "") + EmitMember(members[i]) + MembersFrom(members, i + 1)
  {
    var rest := members[i..];
    assert i == 0 ==> rest == members;
    assert rest[0] == members[i] && rest[1..] == members[i + 1..];
  }

  lemma EscapeStep(out: string, s: string, i: nat)
    requires i < |s|
    ensures out + EscapeChar(s[i]) + Escape(s[i + 1..]) == out + Escape(s[i..])
  {
    assert s[i..][0] == s[i] && s[i..][1..] == s[i + 1..];
    Regroup(out, EscapeChar(s[i]), Escape(s[i + 1..]));
  }

  lemma Regroup(a: string, b: string, c: string)
    ensures a + b + c == a + (b + c)
  {
  }

  /** Printing one member after the comma it needs leaves the members after it to print. */
  lemma MemberPrinted(before: string, members: seq<Member>, i: nat, after: string)
    requires i < |members|
    requires after == before + (if i > 0 then "," else "") + Quoted(members[i].key) + ":" + Emit(members[i].value)
    ensures after + MembersFrom(members, i + 1) == before + MembersFrom(members, i)
  {
    MembersStep(members, i);
    var comma := if i > 0 then "," else "";
    var text := EmitMember(members[i]);
    assert after == before + comma + text by {
      MemberText(before + comma, Quoted(members[i].key), Emit(members[i].value));
    }
    Regroup(before, comma, text);
    Regroup(before, comma + text, MembersFrom(members, i + 1));
  }

  lemma MemberText(before: string, key: string, value: string)
    ensures before + key + ":" + value == before + (key + ":" + value)
  {
  }

  // ---------------------------------------------------------------- the printer

  class Writer {
    var out: string

    constructor ()
      ensures out == ""
    {
      out := "";
    }

    method WriteString(s: string)
      modifies this
      ensures out == old(out) + Quoted(s)
    {
      out := out + "\"";
      for i := 0 to |s|
        invariant out + Escape(s[i..]) == old(out) + "\"" + Escape(s)
      {
        EscapeStep(out, s, i);
        out := out + EscapeChar(s[i]);
      }
      assert s[|s|..] == [];
      assert out == old(out) + "\"" + Escape(s);
      assert old(out) + "\"" + Escape(s) + "\"" == old(out) + Quoted(s);
      out := out + "\"";
    }

    method WriteJson(v: Json)
      modifies this
      ensures out == old(out) + Encode(v)
      decreases v, 2
    {
      match v {
        case Null => out := out + "null";
        case Bool(b) => out := out + if b then "true" else "false";
        case Number(n) => out := out + Decimal(n);
        case String(s) => WriteString(s);
        case Array(items) => WriteArray(items);
        case Object(members) =>
          WriteSorted(Sorted(members), members);
          NormOfSorted(members);
      }
    }

    method WriteArray(items: seq<Json>)
      modifies this
      ensures out == old(out) + "[" + EmitItems(NormItems(items)) + "]"
      decreases items, 0
    {
      ghost var norm := NormItems(items);
      out := out + "[";
      for i := 0 to |items|
        invariant out + ItemsFrom(norm, i) == old(out) + "[" + EmitItems(norm)
      {
        ghost var before := out;
        if i > 0 {
          out := out + ",";
        }
        WriteJson(items[i]);
        NormItemsAt(items, i);
        ItemPrinted(before, norm, i, out);
      }
      out := out + "]";
    }

    method WriteMember(m: Member, ghost within: seq<Member>)
      requires m in within
      modifies this
      ensures out == old(out) + Quoted(m.key) + ":" + Encode(m.value)
      decreases within, 0
    {
      WriteString(m.key);
      out := out + ":";
      WriteJson(m.value);
    }

    /** Print members already put in order; `within` is the object that held them. */
    method WriteSorted(sorted: seq<Member>, ghost within: seq<Member>)
      requires forall m :: m in sorted ==> m in within
      modifies this
      ensures out == old(out) + "{" + EmitMembers(NormMembers(sorted)) + "}"
      decreases within, 1
    {
      ghost var norm := NormMembers(sorted);
      out := out + "{";
      for i := 0 to |sorted|
        invariant out + MembersFrom(norm, i) == old(out) + "{" + EmitMembers(norm)
      {
        ghost var before := out;
        if i > 0 {
          out := out + ",";
        }
        assert sorted[i] in within;
        WriteMember(sorted[i], within);
        NormMembersAt(sorted, i);
        MemberPrinted(before, norm, i, out);
      }
      out := out + "}";
    }
  }

  /** The text of a value, as one string. */
  method EncodeText(v: Json) returns (text: string)
    ensures text == Encode(v)
  {
    var w := new Writer();
    w.WriteJson(v);
    text := w.out;
  }
}
