/** Where the parser reads more than the strict grammar, exactly on three kinds of text and on repeated keys, and where it
    reads less. */
module JsonStrict {
  import opened Json
  import opened JsonAccepts
  import opened JsonGrammar
  import opened JsonRoundTrip
  import opened JsonSimple
  import opened JsonText
  import opened Wrappers

  /** One pass over a text: no wider white space outside strings, and inside them no control character
      and no plus sign after `\\u`. */
  predicate PlainText(s: string, inString: bool)
    decreases |s|
  {
    if s == "" then true
    else if s[0] == '\"' then PlainText(s[1..], !inString)
    else if !inString then (IsSpace(s[0]) ==> Space(Strict, s[0])) && PlainText(s[1..], false)
    else if s[0] == '\\' then
      |s| >= 2 ==> !(|s| > 2 && s[1] == 'u' && s[2] == '+') && PlainText(s[2..], true)
    else s[0] as int >= 0x20 && PlainText(s[1..], true)
  }

  // ---------------------------------------------------------------- one pass over each part

  lemma {:induction false} SpacesPass(ws: string, tail: string)
    requires Spaces(Lenient, ws)
    ensures PlainText(ws + tail, false) <==> Spaces(Strict, ws) && PlainText(tail, false)
  {
    if ws == "" {
      assert ws + tail == tail;
    } else {
      assert (ws + tail)[1..] == ws[1..] + tail;
      assert Space(Lenient, ws[0]);
      SpacesPass(ws[1..], tail);
      assert ws == [ws[0]] + ws[1..];
    }
  }

  /** Nothing the pass looks at outside strings. */
  predicate Bland(s: string) { forall i :: 0 <= i < |s| ==> s[i] != '\"' && !IsSpace(s[i]) }

  lemma {:induction false} BlandPasses(s: string, tail: string)
    requires Bland(s)
    ensures PlainText(s + tail, false) == PlainText(tail, false)
  {
    if s == "" {
      assert s + tail == tail;
    } else {
      assert (s + tail)[1..] == s[1..] + tail;
      BlandPasses(s[1..], tail);
    }
  }

  lemma {:induction false} InertPasses(s: string, tail: string)
    requires Inert(s)
    ensures PlainText(s + tail, true) == PlainText(tail, true)
  {
    if s == "" {
      assert s + tail == tail;
    } else {
      assert (s + tail)[1..] == s[1..] + tail;
      InertPasses(s[1..], tail);
    }
  }

  lemma SpellingPasses(p: Spelling, rest: string)
    requires SpellingOk(Lenient, p)
    ensures PlainText(SpellingText(p) + rest, true) <==> SpellingOk(Strict, p) && PlainText(rest, true)
  {
    var s := SpellingText(p) + rest;
    match p
    case Raw(c) => assert s[1..] == rest;
    case Short(e) => assert s[2..] == rest;
    case Coded(h) =>
      CodeIsInert(h);
      InertPasses(h, rest);
      assert s[2..] == h + rest && s[2] == h[0];
    case _ =>
  }

  lemma {:induction false} SpelledPasses(ps: seq<Spelling>, rest: string)
    requires SpelledOk(Lenient, ps)
    ensures PlainText(SpelledText(ps) + rest, true) <==> SpelledOk(Strict, ps) && PlainText(rest, true)
  {
    if ps == [] {
      assert SpelledText(ps) + rest == rest;
    } else {
      assert SpelledText(ps) + rest == SpellingText(ps[0]) + (SpelledText(ps[1..]) + rest);
      SpellingPasses(ps[0], SpelledText(ps[1..]) + rest);
      SpelledPasses(ps[1..], rest);
      assert ps == [ps[0]] + ps[1..];
    }
  }

  lemma LiteralPasses(ps: seq<Spelling>, rest: string)
    requires SpelledOk(Lenient, ps)
    ensures PlainText(Literal(ps) + rest, false) <==> SpelledOk(Strict, ps) && PlainText(rest, false)
  {
    var s := Literal(ps) + rest;
    var close := "\"" + rest;
    assert s[0] == '\"' && s[1..] == SpelledText(ps) + close;
    assert close[1..] == rest;
    SpelledPasses(ps, close);
  }

  // ---------------------------------------------------------------- one pass over a tree

  ghost predicate NoneRepeat(vs: seq<Json>) { forall i :: 0 <= i < |vs| ==> NoRepeats(vs[i]) }

  ghost predicate NoValueRepeats(ms: seq<Member>) { forall i :: 0 <= i < |ms| ==> NoRepeats(ms[i].value) }

  /** A tree of the lenient dialect is one of the strict dialect exactly when the pass over its text finds nothing
      and its value repeats no key. */
  lemma {:induction false} TreePasses(t: Tree, tail: string)
    requires TreeOk(Lenient, t)
    ensures PlainText(TreeText(t) + tail, false) && NoRepeats(Meaning(t)) <==> TreeOk(Strict, t) && PlainText(tail, false)
    decreases t, 2
  {
    match t
    case NullTree => BlandPasses("null", tail);
    case BoolTree(b) => BlandPasses(if b then "true" else "false", tail);
    case NumberTree(n, _) => BlandPasses(Decimal(n), tail);
    case StringTree(ps) => LiteralPasses(ps, tail);
    case ArrayTree(gap, items) =>
      ItemsPass(items, "]" + tail);
      EnclosedPass("[", gap, ItemsText(items), "]", tail);
    case ObjectTree(gap, fields) =>
      FieldsPass(fields, "}" + tail);
      EnclosedPass("{", gap, FieldsText(fields), "}", tail);
  }

  lemma EnclosedPass(open: string, gap: string, body: string, close: string, tail: string)
    requires |open| == 1 && Bland(open) && Bland(close) && Spaces(Lenient, gap)
    ensures PlainText(open + gap + body + close + tail, false)
            <==> Spaces(Strict, gap) && PlainText(body + (close + tail), false)
    ensures PlainText(close + tail, false) == PlainText(tail, false)
  {
    Enclosed(open, gap, body, close, tail);
    BlandPasses(open, gap + (body + (close + tail)));
    SpacesPass(gap, body + (close + tail));
    BlandPasses(close, tail);
  }

  lemma {:induction false} ItemPasses(i: Item, tail: string)
    requires ItemOk(Lenient, i)
    ensures PlainText(ItemText(i) + tail, false) && NoRepeats(Meaning(i.tree)) <==> ItemOk(Strict, i) && PlainText(tail, false)
    decreases i, 1
  {
    Reassociate(i.before, TreeText(i.tree), i.after, tail);
    SpacesPass(i.before, TreeText(i.tree) + (i.after + tail));
    TreePasses(i.tree, i.after + tail);
    SpacesPass(i.after, tail);
  }

  lemma {:induction false} ItemsPass(items: seq<Item>, tail: string)
    requires ItemsOk(Lenient, items)
    ensures PlainText(ItemsText(items) + tail, false) && NoneRepeat(Meanings(items))
            <==> ItemsOk(Strict, items) && PlainText(tail, false)
    decreases items, 1
  {
    if items == [] {
      assert ItemsText(items) + tail == tail;
    } else {
      var rest := items[1..];
      var more := if |items| == 1 then tail else "," + (ItemsText(rest) + tail);
      ItemPasses(items[0], more);
      ItemsPass(rest, tail);
      MoreItems(items, tail);
      NoneRepeatStep(Meaning(items[0].tree), Meanings(rest));
    }
  }

  /** The pass over several items is the pass over the first and then over the others. */
  lemma MoreItems(items: seq<Item>, tail: string)
    requires items != []
    ensures var more := if |items| == 1 then tail else "," + (ItemsText(items[1..]) + tail);
            && ItemsText(items) + tail == ItemText(items[0]) + more
            && PlainText(more, false) == PlainText(ItemsText(items[1..]) + tail, false)
  {
    if |items| == 1 {
      assert ItemsText(items[1..]) + tail == tail;
    } else {
      ItemsTextStep(items, tail);
      BlandPasses(",", ItemsText(items[1..]) + tail);
    }
  }

  lemma NoneRepeatStep(v: Json, vs: seq<Json>)
    ensures NoneRepeat([v] + vs) <==> NoRepeats(v) && NoneRepeat(vs)
  {
    if NoneRepeat([v] + vs) {
      assert ([v] + vs)[0] == v;
      assert forall i :: 0 <= i < |vs| ==> ([v] + vs)[i + 1] == vs[i];
    }
  }

  lemma {:induction false} FieldPasses(f: Field, tail: string)
    requires FieldOk(Lenient, f)
    ensures PlainText(FieldText(f) + tail, false) && NoRepeats(FieldMeaning(f).value)
            <==> FieldOk(Strict, f) && PlainText(tail, false)
    decreases f, 0
  {
    var value := ItemText(f.item) + tail;
    FieldTextIs(f, tail);
    SpacesPass(f.before, Literal(f.key) + (f.colon + (":" + value)));
    LiteralPasses(f.key, f.colon + (":" + value));
    SpacesPass(f.colon, ":" + value);
    BlandPasses(":", value);
    ItemPasses(f.item, tail);
  }

  lemma {:induction false} FieldsPass(fields: seq<Field>, tail: string)
    requires FieldsOk(Lenient, fields)
    ensures PlainText(FieldsText(fields) + tail, false) && NoValueRepeats(FieldMeanings(fields))
            <==> FieldsOk(Strict, fields) && PlainText(tail, false)
    decreases fields, 1
  {
    if fields == [] {
      assert FieldsText(fields) + tail == tail;
    } else {
      var rest := fields[1..];
      var more := if |fields| == 1 then tail else "," + (FieldsText(rest) + tail);
      FieldPasses(fields[0], more);
      FieldsPass(rest, tail);
      MoreFields(fields, tail);
      NoValueRepeatsStep(FieldMeaning(fields[0]), FieldMeanings(rest));
    }
  }

  lemma MoreFields(fields: seq<Field>, tail: string)
    requires fields != []
    ensures var more := if |fields| == 1 then tail else "," + (FieldsText(fields[1..]) + tail);
            && FieldsText(fields) + tail == FieldText(fields[0]) + more
            && PlainText(more, false) == PlainText(FieldsText(fields[1..]) + tail, false)
  {
    if |fields| == 1 {
      assert FieldsText(fields[1..]) + tail == tail;
    } else {
      FieldsTextStep(fields, tail);
      BlandPasses(",", FieldsText(fields[1..]) + tail);
    }
  }

  lemma NoValueRepeatsStep(m: Member, ms: seq<Member>)
    ensures NoValueRepeats([m] + ms) <==> NoRepeats(m.value) && NoValueRepeats(ms)
  {
    if NoValueRepeats([m] + ms) {
      assert ([m] + ms)[0] == m;
      assert forall i :: 0 <= i < |ms| ==> ([m] + ms)[i + 1] == ms[i];
    }
  }

  // ---------------------------------------------------------------- when the two readings agree

  /** What the parser reads is strict exactly when one pass over the text finds it plain and the value repeats no key. */
  lemma ReadIsStrictExactlyWhen(text: string, v: Json)
    requires Decode(text) == Some(v)
    ensures Spells(Strict, text, v) <==> PlainText(text, false) && NoRepeats(v)
  {
    if Spells(Strict, text, v) {
      var i :| ItemOk(Strict, i) && ItemText(i) == text && Meaning(i.tree) == v;
      assert ItemText(i) + "" == text;
      ReadIsSimple(text);
      ItemIsSimple(Strict, i, "");
      ItemPasses(i, "");
    }
    if PlainText(text, false) && NoRepeats(v) {
      var i := ItemIsTree(text);
      ItemPasses(i, "");
      assert ItemText(i) + "" == text;
    }
  }

  /** A text spells a value strictly, with neither surrogate escapes nor scaled numbers, exactly when the parser reads it as
      that value, one pass over the text finds it plain, and the value repeats no key. */
  lemma StrictExactlyWhen(text: string, v: Json)
    ensures Spells(Strict, text, v) && Simple(text, false)
            <==> Decode(text) == Some(v) && PlainText(text, false) && NoRepeats(v)
  {
    if Decode(text) == Some(v) {
      ReadIsSimple(text);
      ReadIsStrictExactlyWhen(text, v);
    } else if Spells(Strict, text, v) {
      StrictIsReadExactlyWhen(text, v);
    }
  }

  /** The parser and the strict grammar agree on a text: one that is simple, exactly when what is read is plain and repeats
      no key, and one that is not, exactly when it is not strict at all. */
  lemma AgreeExactlyWhen(text: string)
    ensures (forall v :: Decode(text) == Some(v) <==> Spells(Strict, text, v))
            <==> if Simple(text, false) then Decode(text).Some? ==> PlainText(text, false) && NoRepeats(Decode(text).value)
                 else forall v :: !Spells(Strict, text, v)
  {
    if Decode(text).Some? {
      ReadIsSimple(text);
    }
    forall v
      ensures Simple(text, false) ==> (Spells(Strict, text, v) <==> Decode(text) == Some(v) && PlainText(text, false) && NoRepeats(v))
    {
      StrictExactlyWhen(text, v);
    }
  }

  /** What the printer writes is strict, exactly for values that repeat no key. */
  lemma CanonicalIsStrictExactlyWhen(v: Json)
    ensures Spells(Strict, Encode(v), Norm(v)) <==> NoRepeats(Norm(v))
  {
    PrintedIsSpelled(Norm(v));
    PrintedParses(Norm(v));
    ReadIsStrictExactlyWhen(Encode(v), Norm(v));
  }

  // ---------------------------------------------------------------- texts only the parser reads

  /** A plus sign stands for the first of four digits. */
  lemma PlusIsRead()
    ensures Decode("\"\\u+041\"") == Some(String("A"))
    ensures forall v :: !Spells(Strict, "\"\\u+041\"", v)
  {
    var text := "\"\\u+041\"";
    var ps := [Coded("+041")];
    HexAfterPlus();
    OneSpelling(Coded("+041"));
    assert Literal(ps) == text && SpelledMeaning(ps) == "A";
    ReadsAs(text, StringTree(ps));
    assert !PlainText(text, false) by {
      assert text[1..] == "\\u+041\"";
    }
    NotStrict(text);
  }

  lemma OneSpelling(p: Spelling)
    requires SpellingOk(Lenient, p)
    ensures SpelledText([p]) == SpellingText(p) && SpelledMeaning([p]) == [SpellingChar(p).value]
    ensures TreeOk(Lenient, StringTree([p]))
  {
    assert [p][1..] == [];
  }

  lemma HexAfterPlus()
    ensures Code("+041") == Some(0x41)
  {
    assert "+041"[1..] == "041";
    HexAppends("", '0', 0, 0);
    assert "" + "0" == "0";
    HexAppends("0", '4', 0, 4);
    assert "0" + "4" == "04";
    HexAppends("04", '1', 4, 1);
    assert "04" + "1" == "041";
  }

  /** A control character stands in a string as it is. */
  lemma ControlIsRead()
    ensures Decode("\"\t\"") == Some(String("\t"))
    ensures forall v :: !Spells(Strict, "\"\t\"", v)
  {
    var text := "\"\t\"";
    var ps := [Raw('\t')];
    OneSpelling(Raw('\t'));
    assert Literal(ps) == text && SpelledMeaning(ps) == "\t";
    ReadsAs(text, StringTree(ps));
    assert !PlainText(text, false) by {
      assert text[1..] == "\t\"";
    }
    NotStrict(text);
  }

  /** A no-break space stands between tokens. */
  lemma WideSpaceIsRead()
    ensures var text := "[" + [0xa0 as char] + "]";
            Decode(text) == Some(Array([])) && forall v :: !Spells(Strict, text, v)
  {
    var text := "[" + [0xa0 as char] + "]";
    ReadsAs(text, ArrayTree([0xa0 as char], []));
    assert !PlainText(text, false) by {
      assert text[1..] == [0xa0 as char, ']'];
    }
    NotStrict(text);
  }

  /** An object names one key twice, and both members are kept. */
  lemma RepeatIsRead()
    ensures var v := Object([Member("a", Null), Member("a", Null)]);
            Decode(Emit(v)) == Some(v) && forall w :: !Spells(Strict, Emit(v), w)
  {
    var v := Object([Member("a", Null), Member("a", Null)]);
    PrintedParses(v);
    assert v.members[0].key == v.members[1].key;
    forall w
      ensures !Spells(Strict, Emit(v), w)
    {
      if Spells(Strict, Emit(v), w) {
        OnlyWhatIsRead(Emit(v), w);
      }
    }
  }

  lemma ReadsAs(text: string, t: Tree)
    requires TreeOk(Lenient, t) && TreeText(t) == text
    ensures Decode(text) == Some(Meaning(t))
  {
    var i := Item("", t, "");
    assert ItemText(i) == text;
    assert Spells(Lenient, text, Meaning(t));
    SpelledIsRead(text, Meaning(t));
  }

  lemma NotStrict(text: string)
    requires Decode(text).Some? && !PlainText(text, false)
    ensures forall v :: !Spells(Strict, text, v)
  {
    forall v
      ensures !Spells(Strict, text, v)
    {
      if Spells(Strict, text, v) {
        OnlyWhatIsRead(text, v);
      }
    }
  }

  lemma OnlyWhatIsRead(text: string, v: Json)
    requires Decode(text).Some? && Spells(Strict, text, v)
    ensures v == Decode(text).value && PlainText(text, false) && NoRepeats(v)
  {
    ReadIsSimple(text);
    StrictExactlyWhen(text, v);
  }
}
