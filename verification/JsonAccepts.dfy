/** The parser reads exactly the texts of the lenient dialect, and reads each as the value it spells. */
module JsonAccepts {
  import opened Json
  import opened JsonGrammar
  import opened JsonText
  import opened Numbers
  import opened Wrappers

  /** What may follow a value: nothing that would lengthen a number. */
  predicate EndsValue(tail: string) { tail == [] || !IsDigit(tail[0]) }

  predicate NoSpaceFirst(s: string) { s == [] || !IsSpace(s[0]) }

  lemma Reassociate(a: string, b: string, c: string, d: string)
    ensures a + b + c + d == a + (b + (c + d))
  {
  }

  // ---------------------------------------------------------------- white space

  lemma {:induction false} SkipSpaces(ws: string, s: string)
    requires Spaces(Lenient, ws) && NoSpaceFirst(s)
    ensures SkipWs(ws + s) == s
  {
    if ws == [] {
      assert ws + s == s;
    } else {
      assert (ws + s)[0] == ws[0] && (ws + s)[1..] == ws[1..] + s;
      SkipSpaces(ws[1..], s);
    }
  }

  lemma SkipTwice(a: string, b: string, s: string)
    requires Spaces(Lenient, a) && Spaces(Lenient, b) && NoSpaceFirst(s)
    ensures SkipWs(a + (b + s)) == s
  {
    assert a + (b + s) == (a + b) + s;
    SkipSpaces(a + b, s);
  }

  lemma {:induction false} SkippedIsSpace(s: string) returns (ws: string)
    ensures s == ws + SkipWs(s) && Spaces(Lenient, ws) && NoSpaceFirst(SkipWs(s))
  {
    if s != [] && IsSpace(s[0]) {
      var rest := SkippedIsSpace(s[1..]);
      ws := [s[0]] + rest;
      assert s == [s[0]] + s[1..];
    } else {
      ws := [];
    }
  }

  // ---------------------------------------------------------------- numbers

  lemma {:induction false} DigitRunStops(digits: string, tail: string)
    requires (forall i :: 0 <= i < |digits| ==> IsDigit(digits[i])) && EndsValue(tail)
    ensures DigitRun(digits + tail) == |digits|
  {
    if digits == [] {
      assert digits + tail == tail;
    } else {
      assert (digits + tail)[1..] == digits[1..] + tail;
      DigitRunStops(digits[1..], tail);
    }
  }

  lemma DigitIs(d: nat)
    requires d < 10
    ensures IsDigit(DIGITS[d]) && DigitVal(DIGITS[d]) == d && (DIGITS[d] == '0' <==> d == 0)
  {
  }

  lemma {:induction false} DecimalReads(n: nat)
    ensures DecimalVal(Decimal(n)) == n
    ensures Decimal(n)[0] == '0' ==> n == 0 && |Decimal(n)| == 1
  {
    if n < 10 {
      DigitIs(n);
      assert [DIGITS[n]][..0] == [];
    } else {
      DecimalReads(n / 10);
      DigitIs(n % 10);
      assert Decimal(n)[..|Decimal(n)| - 1] == Decimal(n / 10);
    }
  }

  lemma NumberParses(n: U64, tail: string)
    requires EndsValue(tail)
    ensures ParseNumber(Decimal(n) + tail) == Yes(Number(n), tail)
  {
    var s := Decimal(n) + tail;
    DecimalReads(n);
    DigitRunStops(Decimal(n), tail);
    assert s[..|Decimal(n)|] == Decimal(n) && s[|Decimal(n)|..] == tail;
    assert s[0] == Decimal(n)[0];
    if s[0] == '0' {
      assert |s| > 1 ==> s[1] == tail[0];
    }
  }

  /** Digits without a leading zero are the decimal digits of the number they denote. */
  lemma {:induction false} DecimalIsUnique(ds: string)
    requires ds != [] && (forall i :: 0 <= i < |ds| ==> IsDigit(ds[i])) && (|ds| > 1 ==> ds[0] != '0')
    ensures Decimal(DecimalVal(ds)) == ds
    ensures ds[0] != '0' ==> DecimalVal(ds) > 0
  {
    var n := |ds| - 1;
    if n == 0 {
      OneDigit(ds);
    } else {
      DecimalIsUnique(ds[..n]);
      OneMoreDigit(ds[..n], ds[n]);
      assert ds == ds[..n] + [ds[n]];
    }
  }

  lemma DigitOf(c: char)
    requires IsDigit(c)
    ensures DigitVal(c) < 10 && DIGITS[DigitVal(c)] == c && (c == '0' <==> DigitVal(c) == 0)
  {
  }

  lemma OneDigit(ds: string)
    requires |ds| == 1 && IsDigit(ds[0])
    ensures Decimal(DecimalVal(ds)) == ds && (ds[0] != '0' ==> DecimalVal(ds) > 0)
  {
    DigitOf(ds[0]);
    assert ds[..0] == [] && ds == [ds[0]];
  }

  lemma OneMoreDigit(front: string, c: char)
    requires (forall i :: 0 <= i < |front| ==> IsDigit(front[i])) && IsDigit(c)
    requires DecimalVal(front) > 0 && Decimal(DecimalVal(front)) == front
    ensures forall i :: 0 <= i < |front + [c]| ==> IsDigit((front + [c])[i])
    ensures Decimal(DecimalVal(front + [c])) == front + [c] && DecimalVal(front + [c]) > 0
  {
    DigitOf(c);
    assert (front + [c])[..|front|] == front;
    DecimalStep(DecimalVal(front), DigitVal(c));
  }

  lemma DecimalStep(n: nat, d: nat)
    requires n > 0 && d < 10
    ensures Decimal(10 * n + d) == Decimal(n) + [DIGITS[d]]
  {
    TensAndUnits(n, d);
  }

  lemma TensAndUnits(tens: nat, unit: nat)
    requires unit < 10
    ensures (10 * tens + unit) / 10 == tens && (10 * tens + unit) % 10 == unit
  {
  }

  lemma NumberIsDecimal(s: string)
    requires s != [] && IsDigit(s[0]) && ParseNumber(s).Yes?
    ensures ParseNumber(s).value.Number? && s == Decimal(ParseNumber(s).value.n) + ParseNumber(s).rest
  {
    var i := DigitRun(s);
    assert i > 0;
    assert i > 1 ==> IsDigit(s[1]);
    DecimalIsUnique(s[..i]);
  }

  // ---------------------------------------------------------------- strings

  lemma SpellingParses(p: Spelling, rest: string, out: string)
    requires SpellingOk(Lenient, p)
    ensures ParseChars(SpellingText(p) + rest, out) == ParseChars(rest, out + [SpellingChar(p).value])
  {
    var s := SpellingText(p) + rest;
    match p
    case Raw(_) => assert s[1..] == rest;
    case Short(_) => assert s[2..] == rest;
    case Coded(h) => assert s[2..6] == h && s[6..] == rest;
    case _ =>
  }

  lemma {:induction false} SpelledParses(ps: seq<Spelling>, tail: string, out: string)
    requires SpelledOk(Lenient, ps)
    ensures ParseChars(SpelledText(ps) + ("\"" + tail), out) == Yes(out + SpelledMeaning(ps), tail)
  {
    var close := "\"" + tail;
    if ps == [] {
      assert SpelledText(ps) + close == close && close[1..] == tail && out + "" == out;
    } else {
      assert SpelledText(ps) + close == SpellingText(ps[0]) + (SpelledText(ps[1..]) + close);
      SpellingParses(ps[0], SpelledText(ps[1..]) + close, out);
      SpelledParses(ps[1..], tail, out + [SpellingChar(ps[0]).value]);
      assert out + [SpellingChar(ps[0]).value] + SpelledMeaning(ps[1..]) == out + SpelledMeaning(ps);
    }
  }

  lemma LiteralParses(ps: seq<Spelling>, tail: string)
    requires SpelledOk(Lenient, ps)
    ensures ParseString(Literal(ps) + tail) == Yes(SpelledMeaning(ps), tail)
  {
    assert (Literal(ps) + tail)[1..] == SpelledText(ps) + ("\"" + tail);
    SpelledParses(ps, tail, []);
    assert [] + SpelledMeaning(ps) == SpelledMeaning(ps);
  }

  /** The spelling a string literal starts with. */
  lemma FirstSpelling(s: string, out: string) returns (p: Spelling, rest: string)
    requires s != [] && s[0] != '\"' && ParseChars(s, out).Yes?
    ensures SpellingOk(Lenient, p) && s == SpellingText(p) + rest
    ensures ParseChars(s, out) == ParseChars(rest, out + [SpellingChar(p).value])
  {
    if s[0] != '\\' {
      p, rest := Raw(s[0]), s[1..];
    } else if s[1] == 'u' {
      p, rest := Coded(s[2..6]), s[6..];
      CodedStarts(s);
    } else {
      p, rest := Short(s[1]), s[2..];
      assert s == s[..2] + s[2..] && s[..2] == ['\\', s[1]];
    }
  }

  lemma CodedStarts(s: string)
    requires |s| >= 6 && s[0] == '\\' && s[1] == 'u'
    ensures s == "\\u" + s[2..6] + s[6..]
  {
    assert s == s[..2] + s[2..6] + s[6..];
    assert s[..2] == "\\u";
  }

  lemma {:induction false} CharsAreSpelled(s: string, out: string) returns (ps: seq<Spelling>)
    requires ParseChars(s, out).Yes?
    ensures SpelledOk(Lenient, ps) && s == SpelledText(ps) + ("\"" + ParseChars(s, out).rest)
    ensures ParseChars(s, out).value == out + SpelledMeaning(ps)
    decreases |s|
  {
    if s[0] == '\"' {
      ps := [];
      assert s == "\"" + s[1..] && out + "" == out;
    } else {
      var p, rest := FirstSpelling(s, out);
      var more := CharsAreSpelled(rest, out + [SpellingChar(p).value]);
      ps := [p] + more;
      SpelledCons(p, more, out, "\"" + ParseChars(s, out).rest);
    }
  }

  lemma SpelledCons(p: Spelling, ps: seq<Spelling>, out: string, tail: string)
    requires SpellingOk(Lenient, p) && SpelledOk(Lenient, ps)
    ensures SpelledOk(Lenient, [p] + ps)
    ensures SpelledText([p] + ps) + tail == SpellingText(p) + (SpelledText(ps) + tail)
    ensures out + SpelledMeaning([p] + ps) == out + [SpellingChar(p).value] + SpelledMeaning(ps)
  {
    assert ([p] + ps)[1..] == ps;
    var text, meaning := SpellingText(p), [SpellingChar(p).value];
    assert text + SpelledText(ps) + tail == text + (SpelledText(ps) + tail);
    assert out + (meaning + SpelledMeaning(ps)) == out + meaning + SpelledMeaning(ps);
  }

  lemma LiteralIsSpelled(s: string) returns (ps: seq<Spelling>)
    requires ParseString(s).Yes?
    ensures SpelledOk(Lenient, ps) && s == Literal(ps) + ParseString(s).rest && ParseString(s).value == SpelledMeaning(ps)
  {
    ps := CharsAreSpelled(s[1..], []);
    assert s == "\"" + s[1..];
    assert [] + SpelledMeaning(ps) == SpelledMeaning(ps);
  }

  // ---------------------------------------------------------------- every tree is read

  /** What the text of a tree starts with. */
  lemma TreeStarts(t: Tree)
    requires TreeOk(Lenient, t)
    ensures |TreeText(t)| > 0
    ensures var c := TreeText(t)[0];
            && !IsSpace(c) && c != ']' && c != '}'
            && (c == 'n' <==> t.NullTree?) && (c == 't' <==> t == BoolTree(true)) && (c == 'f' <==> t == BoolTree(false))
            && (c == '\"' <==> t.StringTree?) && (c == '[' <==> t.ArrayTree?) && (c == '{' <==> t.ObjectTree?)
            && (IsDigit(c) <==> t.NumberTree?)
  {
    if t.NumberTree? {
      assert IsDigit(Decimal(t.n)[0]);
    }
  }

  lemma SpacesEnd(ws: string, rest: string)
    requires Spaces(Lenient, ws) && EndsValue(rest)
    ensures EndsValue(ws + rest)
  {
    assert ws != [] ==> IsSpace((ws + rest)[0]);
  }

  lemma ParseAfterSpaces(ws: string, s: string)
    requires Spaces(Lenient, ws) && NoSpaceFirst(s)
    ensures ParseValue(ws + s) == ParseValue(s)
  {
    SkipSpaces(ws, s);
    SkipSpaces([], s);
    assert [] + s == s;
  }

  lemma {:induction false} TreeParses(t: Tree, tail: string)
    requires TreeOk(Lenient, t) && EndsValue(tail)
    ensures ParseValue(TreeText(t) + tail) == Yes(Meaning(t), tail)
    decreases t, 3
  {
    var s := TreeText(t) + tail;
    TreeStarts(t);
    assert s[0] == TreeText(t)[0];
    match t
    case NullTree => NullParses(tail);
    case BoolTree(b) => BoolParses(b, tail);
    case NumberTree(n, _) => NumberParses(n, tail); NumberIs(s);
    case StringTree(ps) => LiteralParses(ps, tail); StringIs(s);
    case ArrayTree(_, _) => ArrayParses(t, tail);
    case ObjectTree(_, _) => ObjectParses(t, tail);
  }

  lemma NullParses(tail: string)
    ensures ParseValue("null" + tail) == Yes(Null, tail)
  {
    var s := "null" + tail;
    assert s[4..] == tail && "null" <= s;
  }

  lemma NumberIs(s: string)
    requires s != [] && IsDigit(s[0])
    ensures ParseValue(s) == ParseNumber(s)
  {
    assert SkipWs(s) == s;
  }

  lemma StringIs(s: string)
    requires StartsWith(s, '\"')
    ensures ParseValue(s) == match ParseString(s) case No => No case Yes(x, rest) => Yes(String(x), rest)
  {
    assert SkipWs(s) == s;
  }

  lemma BoolParses(b: bool, tail: string)
    ensures ParseValue((if b then "true" else "false") + tail) == Yes(Bool(b), tail)
  {
    var s := (if b then "true" else "false") + tail;
    if b {
      assert s[4..] == tail && "true" <= s;
    } else {
      assert s[5..] == tail && "false" <= s;
    }
  }

  /** A value inside the white space around it, up to what follows that. */
  lemma {:induction false} ItemParses(i: Item, rest: string)
    requires ItemOk(Lenient, i) && EndsValue(rest) && NoSpaceFirst(rest)
    ensures ParseValue(ItemText(i) + rest) == Yes(Meaning(i.tree), i.after + rest)
    ensures SkipWs(i.after + rest) == rest
    decreases i, 2
  {
    SpacesEnd(i.after, rest);
    TreeParses(i.tree, i.after + rest);
    TreeStarts(i.tree);
    ParseAfterSpaces(i.before, TreeText(i.tree) + (i.after + rest));
    Reassociate(i.before, TreeText(i.tree), i.after, rest);
    SkipSpaces(i.after, rest);
  }

  lemma ArrayIs(s: string)
    requires StartsWith(s, '[')
    ensures ParseValue(s) == ParseArray(s)
  {
    assert SkipWs(s) == s;
  }

  lemma ObjectIs(s: string)
    requires StartsWith(s, '{')
    ensures ParseValue(s) == ParseObject(s)
  {
    assert SkipWs(s) == s;
  }

  /** What is enclosed comes after the opening character. */
  lemma Enclosed(open: string, gap: string, body: string, close: string, tail: string)
    requires |open| == 1
    ensures var s := open + gap + body + close + tail;
            s[0] == open[0] && s[1..] == gap + (body + (close + tail)) && s == open + (gap + (body + (close + tail)))
    ensures body == "" ==> body + (close + tail) == close + tail
  {
    var s := open + gap + body + close + tail;
    assert s == open + (gap + (body + (close + tail)));
  }

  lemma EmptyArrayParses(s: string, gap: string, tail: string)
    requires StartsWith(s, '[') && s[1..] == gap + ("]" + tail) && Spaces(Lenient, gap)
    ensures ParseArray(s) == Yes(Array([]), tail)
  {
    SkipSpaces(gap, "]" + tail);
    assert ("]" + tail)[1..] == tail;
  }

  lemma EmptyObjectParses(s: string, gap: string, tail: string)
    requires StartsWith(s, '{') && s[1..] == gap + ("}" + tail) && Spaces(Lenient, gap)
    ensures ParseObject(s) == Yes(Object([]), tail)
  {
    SkipSpaces(gap, "}" + tail);
    assert ("}" + tail)[1..] == tail;
  }

  lemma {:induction false} ArrayParses(t: Tree, tail: string)
    requires t.ArrayTree? && TreeOk(Lenient, t)
    ensures ParseValue(TreeText(t) + tail) == Yes(Meaning(t), tail)
    decreases t, 2
  {
    var s := TreeText(t) + tail;
    var close := "]" + tail;
    Enclosed("[", t.gap, ItemsText(t.items), "]", tail);
    ArrayIs(s);
    if t.items == [] {
      EmptyArrayParses(s, t.gap, tail);
    } else {
      ItemsParse(t.items, [], tail);
      ItemsAfterSkip(t.gap, t.items, close);
      assert [] + Meanings(t.items) == Meanings(t.items);
    }
  }

  /** Skipping white space before the items reads the same and does not find the end. */
  lemma ItemsAfterSkip(gap: string, items: seq<Item>, rest: string)
    requires Spaces(Lenient, gap) && items != [] && ItemsOk(Lenient, items)
    ensures var inner := SkipWs(gap + (ItemsText(items) + rest));
            !StartsWith(inner, ']') && ParseItems(inner, []) == ParseItems(ItemsText(items) + rest, [])
  {
    var i := items[0];
    TreeStarts(i.tree);
    var more := if |items| == 1 then rest else "," + (ItemsText(items[1..]) + rest);
    if |items| > 1 {
      ItemsTextStep(items, rest);
    }
    Reassociate(i.before, TreeText(i.tree), i.after, more);
    var inner := TreeText(i.tree) + (i.after + more);
    assert inner[0] == TreeText(i.tree)[0];
    SkipTwice(gap, i.before, inner);
    ParseAfterSpaces(i.before, inner);
    SameItems(i.before + inner, inner);
  }

  lemma SameItems(s: string, t: string)
    requires ParseValue(s) == ParseValue(t)
    ensures ParseItems(s, []) == ParseItems(t, [])
  {
  }

  lemma LastItem(text: string, v: Json, after: string, done: seq<Json>, tail: string)
    requires ParseValue(text) == Yes(v, after) && SkipWs(after) == "]" + tail
    ensures ParseItems(text, done) == Yes(Array(done + [v]), tail)
  {
    assert ("]" + tail)[1..] == tail;
  }

  lemma NextItem(text: string, v: Json, after: string, done: seq<Json>, more: string)
    requires ParseValue(text) == Yes(v, after) && SkipWs(after) == "," + more
    ensures ParseItems(text, done) == ParseItems(more, done + [v])
  {
    assert ("," + more)[1..] == more;
  }

  lemma {:induction false} ItemsParse(items: seq<Item>, done: seq<Json>, tail: string)
    requires items != [] && ItemsOk(Lenient, items)
    ensures ParseItems(ItemsText(items) + ("]" + tail), done) == Yes(Array(done + Meanings(items)), tail)
    decreases items, 1
  {
    var i, close := items[0], "]" + tail;
    MeaningsStep(items, done);
    if |items| == 1 {
      ItemParses(i, close);
      LastItem(ItemText(i) + close, Meaning(i.tree), i.after + close, done, tail);
    } else {
      var more := ItemsText(items[1..]) + close;
      ItemParses(i, "," + more);
      NextItem(ItemText(i) + ("," + more), Meaning(i.tree), i.after + ("," + more), done, more);
      ItemsTextStep(items, close);
      ItemsParse(items[1..], done + [Meaning(i.tree)], tail);
    }
  }

  lemma ItemsTextStep(items: seq<Item>, close: string)
    requires |items| > 1
    ensures ItemsText(items) + close == ItemText(items[0]) + ("," + (ItemsText(items[1..]) + close))
  {
    Reassociate(ItemText(items[0]), ",", ItemsText(items[1..]), close);
  }

  lemma MeaningsStep(items: seq<Item>, done: seq<Json>)
    requires items != []
    ensures done + Meanings(items) == done + [Meaning(items[0].tree)] + Meanings(items[1..])
    ensures |items| == 1 ==> done + Meanings(items) == done + [Meaning(items[0].tree)]
  {
    Append(done, Meaning(items[0].tree), Meanings(items[1..]));
    assert |items| == 1 ==> Meanings(items[1..]) == [];
  }

  lemma Append<T>(done: seq<T>, next: T, rest: seq<T>)
    ensures done + ([next] + rest) == done + [next] + rest
    ensures rest == [] ==> done + [next] + rest == done + [next]
  {
  }

  lemma {:induction false} ObjectParses(t: Tree, tail: string)
    requires t.ObjectTree? && TreeOk(Lenient, t)
    ensures ParseValue(TreeText(t) + tail) == Yes(Meaning(t), tail)
    decreases t, 2
  {
    var s := TreeText(t) + tail;
    var close := "}" + tail;
    Enclosed("{", t.gap, FieldsText(t.fields), "}", tail);
    ObjectIs(s);
    if t.fields == [] {
      EmptyObjectParses(s, t.gap, tail);
    } else {
      FieldsParse(t.fields, [], tail);
      FieldsAfterSkip(t.gap, t.fields, close);
      assert [] + FieldMeanings(t.fields) == FieldMeanings(t.fields);
    }
  }

  lemma FieldsAfterSkip(gap: string, fields: seq<Field>, rest: string)
    requires Spaces(Lenient, gap) && fields != [] && FieldsOk(Lenient, fields)
    ensures var inner := SkipWs(gap + (FieldsText(fields) + rest));
            !StartsWith(inner, '}') && ParseMembers(inner, []) == ParseMembers(FieldsText(fields) + rest, [])
  {
    var f := fields[0];
    var more := if |fields| == 1 then rest else "," + (FieldsText(fields[1..]) + rest);
    if |fields| > 1 {
      FieldsTextStep(fields, rest);
    }
    var literal, value := Literal(f.key), ItemText(f.item) + more;
    FieldTextIs(f, more);
    var inner := literal + (f.colon + (":" + value));
    assert inner[0] == '\"';
    SkipTwice(gap, f.before, inner);
    SkipSpaces(f.before, inner);
    SkipSpaces([], inner);
    assert [] + inner == inner;
    SameMember(f.before + inner, inner);
  }

  lemma FieldTextIs(f: Field, rest: string)
    ensures FieldText(f) + rest == f.before + (Literal(f.key) + (f.colon + (":" + (ItemText(f.item) + rest))))
  {
    var literal, value := Literal(f.key), ItemText(f.item);
    FourParts(f.before, literal, f.colon, value, rest);
  }

  lemma FourParts(a: string, b: string, c: string, d: string, e: string)
    ensures a + b + c + ":" + d + e == a + (b + (c + (":" + (d + e))))
  {
  }

  lemma SameMember(s: string, t: string)
    requires SkipWs(s) == SkipWs(t)
    ensures ParseMember(s) == ParseMember(t) && ParseMembers(s, []) == ParseMembers(t, [])
  {
  }

  lemma MemberIs(text: string, literal: string, key: string, colon: string, value: string, v: Json, rest: string)
    requires SkipWs(text) == literal + (colon + (":" + value))
    requires ParseString(literal + (colon + (":" + value))) == Yes(key, colon + (":" + value))
    requires SkipWs(colon + (":" + value)) == ":" + value && ParseValue(value) == Yes(v, rest)
    ensures ParseMember(text) == Yes(Member(key, v), rest)
  {
    assert (":" + value)[1..] == value;
  }

  lemma {:induction false} FieldParses(f: Field, rest: string)
    requires FieldOk(Lenient, f) && EndsValue(rest) && NoSpaceFirst(rest)
    ensures ParseMember(FieldText(f) + rest) == Yes(FieldMeaning(f), f.item.after + rest)
    ensures SkipWs(f.item.after + rest) == rest
    decreases f, 0
  {
    var value := ItemText(f.item) + rest;
    var afterKey := f.colon + (":" + value);
    var literal := Literal(f.key);
    FieldTextIs(f, rest);
    SkipSpaces(f.before, literal + afterKey);
    LiteralParses(f.key, afterKey);
    SkipSpaces(f.colon, ":" + value);
    ItemParses(f.item, rest);
    MemberIs(FieldText(f) + rest, literal, SpelledMeaning(f.key), f.colon, value, Meaning(f.item.tree), f.item.after + rest);
  }

  lemma LastMember(text: string, m: Member, after: string, done: seq<Member>, tail: string)
    requires ParseMember(text) == Yes(m, after) && SkipWs(after) == "}" + tail
    ensures ParseMembers(text, done) == Yes(Object(done + [m]), tail)
  {
    assert ("}" + tail)[1..] == tail;
  }

  lemma NextMember(text: string, m: Member, after: string, done: seq<Member>, more: string)
    requires ParseMember(text) == Yes(m, after) && SkipWs(after) == "," + more
    ensures ParseMembers(text, done) == ParseMembers(more, done + [m])
  {
    assert ("," + more)[1..] == more;
  }

  lemma {:induction false} FieldsParse(fields: seq<Field>, done: seq<Member>, tail: string)
    requires fields != [] && FieldsOk(Lenient, fields)
    ensures ParseMembers(FieldsText(fields) + ("}" + tail), done) == Yes(Object(done + FieldMeanings(fields)), tail)
    decreases fields, 1
  {
    var f, close := fields[0], "}" + tail;
    FieldMeaningsStep(fields, done);
    if |fields| == 1 {
      FieldParses(f, close);
      LastMember(FieldText(f) + close, FieldMeaning(f), f.item.after + close, done, tail);
    } else {
      var more := FieldsText(fields[1..]) + close;
      FieldParses(f, "," + more);
      NextMember(FieldText(f) + ("," + more), FieldMeaning(f), f.item.after + ("," + more), done, more);
      FieldsTextStep(fields, close);
      FieldsParse(fields[1..], done + [FieldMeaning(f)], tail);
    }
  }

  lemma FieldsTextStep(fields: seq<Field>, close: string)
    requires |fields| > 1
    ensures FieldsText(fields) + close == FieldText(fields[0]) + ("," + (FieldsText(fields[1..]) + close))
  {
    Reassociate(FieldText(fields[0]), ",", FieldsText(fields[1..]), close);
  }

  lemma FieldMeaningsStep(fields: seq<Field>, done: seq<Member>)
    requires fields != []
    ensures done + FieldMeanings(fields) == done + [FieldMeaning(fields[0])] + FieldMeanings(fields[1..])
    ensures |fields| == 1 ==> done + FieldMeanings(fields) == done + [FieldMeaning(fields[0])]
  {
    Append(done, FieldMeaning(fields[0]), FieldMeanings(fields[1..]));
    assert |fields| == 1 ==> FieldMeanings(fields[1..]) == [];
  }

  // ---------------------------------------------------------------- whatever is read is a tree

  /** The tree at the start of a text that does not start with white space. */
  lemma {:induction false} CoreIsTree(s: string) returns (t: Tree)
    requires NoSpaceFirst(s) && ParseValue(s).Yes?
    ensures TreeOk(Lenient, t) && s == TreeText(t) + ParseValue(s).rest && Meaning(t) == ParseValue(s).value
    decreases |s|, 2
  {
    assert SkipWs(s) == s;
    if "null" <= s {
      t := NullTree;
    } else if "true" <= s || "false" <= s {
      t := BoolTree("true" <= s);
    } else if StartsWith(s, '\"') {
      StringIs(s);
      var ps := LiteralIsSpelled(s);
      t := StringTree(ps);
    } else if StartsWith(s, '[') {
      ArrayIs(s);
      t := ArrayIsTree(s);
    } else if StartsWith(s, '{') {
      ObjectIs(s);
      t := ObjectIsTree(s);
    } else {
      NumberIs(s);
      NumberIsDecimal(s);
      t := NumberTree(ParseNumber(s).value.n, Whole);
    }
  }

  /** The value a text starts with, after its white space, and the white space that follows it. */
  lemma {:induction false} ItemIsTree(text: string) returns (i: Item)
    requires ParseValue(text).Yes?
    ensures ItemOk(Lenient, i) && text == ItemText(i) + SkipWs(ParseValue(text).rest)
    ensures Meaning(i.tree) == ParseValue(text).value
    decreases |text|, 3
  {
    var before := SkippedIsSpace(text);
    var s := SkipWs(text);
    ParseAfterSpaces(before, s);
    var t := CoreIsTree(s);
    var after := SkippedIsSpace(ParseValue(s).rest);
    i := Item(before, t, after);
    Reassociate(before, TreeText(t), after, SkipWs(ParseValue(s).rest));
  }

  lemma {:induction false} ArrayIsTree(s: string) returns (t: Tree)
    requires StartsWith(s, '[') && ParseArray(s).Yes?
    ensures TreeOk(Lenient, t) && s == TreeText(t) + ParseArray(s).rest && Meaning(t) == ParseArray(s).value
    decreases |s|, 1
  {
    var rest := ParseArray(s).rest;
    var gap := SkippedIsSpace(s[1..]);
    var inner := SkipWs(s[1..]);
    Head(s, '[');
    if StartsWith(inner, ']') {
      t := ArrayTree(gap, []);
      Head(inner, ']');
      Enclosed("[", gap, "", "]", rest);
    } else {
      var items := ItemsAreTrees(inner, []);
      t := ArrayTree(gap, items);
      assert [] + Meanings(items) == Meanings(items);
      Enclosed("[", gap, ItemsText(items), "]", rest);
    }
  }

  lemma Head(s: string, c: char)
    requires StartsWith(s, c)
    ensures s == [c] + s[1..]
  {
  }

  lemma ItemsCons(i: Item, items: seq<Item>, done: seq<Json>, close: string)
    requires items != []
    ensures ItemsText([i] + items) + close == ItemText(i) + ("," + (ItemsText(items) + close))
    ensures done + Meanings([i] + items) == done + [Meaning(i.tree)] + Meanings(items)
    ensures ItemOk(Lenient, i) && ItemsOk(Lenient, items) ==> ItemsOk(Lenient, [i] + items)
  {
    assert ([i] + items)[1..] == items;
    ItemsTextStep([i] + items, close);
    MeaningsStep([i] + items, done);
  }

  lemma OneItem(i: Item, done: seq<Json>)
    ensures ItemsText([i]) == ItemText(i) && done + Meanings([i]) == done + [Meaning(i.tree)]
    ensures ItemOk(Lenient, i) ==> ItemsOk(Lenient, [i])
  {
    assert [i][1..] == [];
    MeaningsStep([i], done);
  }

  lemma {:induction false} ItemsAreTrees(s: string, done: seq<Json>) returns (items: seq<Item>)
    requires ParseItems(s, done).Yes?
    ensures items != [] && ItemsOk(Lenient, items) && s == ItemsText(items) + ("]" + ParseItems(s, done).rest)
    ensures ParseItems(s, done).value == Array(done + Meanings(items))
    decreases |s|, 4
  {
    var i := ItemIsTree(s);
    var v, rest := ParseValue(s).value, SkipWs(ParseValue(s).rest);
    Head(rest, if StartsWith(rest, ',') then ',' else ']');
    if StartsWith(rest, ',') {
      var more := ItemsAreTrees(rest[1..], done + [v]);
      items := [i] + more;
      ItemsCons(i, more, done, "]" + ParseItems(s, done).rest);
    } else {
      items := [i];
      OneItem(i, done);
    }
  }

  lemma {:induction false} ObjectIsTree(s: string) returns (t: Tree)
    requires StartsWith(s, '{') && ParseObject(s).Yes?
    ensures TreeOk(Lenient, t) && s == TreeText(t) + ParseObject(s).rest && Meaning(t) == ParseObject(s).value
    decreases |s|, 1
  {
    var rest := ParseObject(s).rest;
    var gap := SkippedIsSpace(s[1..]);
    var inner := SkipWs(s[1..]);
    Head(s, '{');
    if StartsWith(inner, '}') {
      t := ObjectTree(gap, []);
      Head(inner, '}');
      Enclosed("{", gap, "", "}", rest);
    } else {
      var fields := FieldsAreTrees(inner, []);
      t := ObjectTree(gap, fields);
      assert [] + FieldMeanings(fields) == FieldMeanings(fields);
      Enclosed("{", gap, FieldsText(fields), "}", rest);
    }
  }

  lemma {:induction false} FieldIsTree(text: string) returns (f: Field)
    requires ParseMember(text).Yes?
    ensures FieldOk(Lenient, f) && text == FieldText(f) + SkipWs(ParseMember(text).rest)
    ensures FieldMeaning(f) == ParseMember(text).value
    decreases |text|, 4
  {
    var before := SkippedIsSpace(text);
    var s := SkipWs(text);
    MemberParts(text);
    var key := LiteralIsSpelled(s);
    var afterKey := ParseString(s).rest;
    var colon := SkippedIsSpace(afterKey);
    var value := SkipWs(afterKey)[1..];
    var i := ItemIsTree(value);
    f := Field(before, key, colon, i);
    FieldTextIs(f, SkipWs(ParseValue(value).rest));
  }

  lemma MemberParts(text: string)
    requires ParseMember(text).Yes?
    ensures ParseString(SkipWs(text)).Yes?
    ensures var afterKey := ParseString(SkipWs(text)).rest;
            && StartsWith(SkipWs(afterKey), ':') && SkipWs(afterKey) == ":" + SkipWs(afterKey)[1..]
            && |SkipWs(afterKey)| < |text|
            && ParseValue(SkipWs(afterKey)[1..]).Yes?
            && ParseMember(text).value == Member(ParseString(SkipWs(text)).value, ParseValue(SkipWs(afterKey)[1..]).value)
            && ParseMember(text).rest == ParseValue(SkipWs(afterKey)[1..]).rest
  {
    Head(SkipWs(ParseString(SkipWs(text)).rest), ':');
  }

  lemma FieldsCons(f: Field, fields: seq<Field>, done: seq<Member>, close: string)
    requires fields != []
    ensures FieldsText([f] + fields) + close == FieldText(f) + ("," + (FieldsText(fields) + close))
    ensures done + FieldMeanings([f] + fields) == done + [FieldMeaning(f)] + FieldMeanings(fields)
    ensures FieldOk(Lenient, f) && FieldsOk(Lenient, fields) ==> FieldsOk(Lenient, [f] + fields)
  {
    assert ([f] + fields)[1..] == fields;
    FieldsTextStep([f] + fields, close);
    FieldMeaningsStep([f] + fields, done);
  }

  lemma OneField(f: Field, done: seq<Member>)
    ensures FieldsText([f]) == FieldText(f) && done + FieldMeanings([f]) == done + [FieldMeaning(f)]
    ensures FieldOk(Lenient, f) ==> FieldsOk(Lenient, [f])
  {
    assert [f][1..] == [];
    FieldMeaningsStep([f], done);
  }

  lemma {:induction false} FieldsAreTrees(s: string, done: seq<Member>) returns (fields: seq<Field>)
    requires ParseMembers(s, done).Yes?
    ensures fields != [] && FieldsOk(Lenient, fields) && s == FieldsText(fields) + ("}" + ParseMembers(s, done).rest)
    ensures ParseMembers(s, done).value == Object(done + FieldMeanings(fields))
    decreases |s|, 5
  {
    var f := FieldIsTree(s);
    var m, rest := ParseMember(s).value, SkipWs(ParseMember(s).rest);
    Head(rest, if StartsWith(rest, ',') then ',' else '}');
    if StartsWith(rest, ',') {
      var more := FieldsAreTrees(rest[1..], done + [m]);
      fields := [f] + more;
      FieldsCons(f, more, done, "}" + ParseMembers(s, done).rest);
    } else {
      fields := [f];
      OneField(f, done);
    }
  }

  // ---------------------------------------------------------------- the parser and the grammar

  lemma SpelledIsRead(text: string, v: Json)
    requires Spells(Lenient, text, v)
    ensures Decode(text) == Some(v)
  {
    var i :| ItemOk(Lenient, i) && ItemText(i) == text && Meaning(i.tree) == v;
    ItemParses(i, "");
    assert ItemText(i) + "" == text;
  }

  lemma ReadIsSpelled(text: string)
    requires Decode(text).Some?
    ensures Spells(Lenient, text, Decode(text).value)
  {
    var i := ItemIsTree(text);
    assert ItemText(i) + "" == ItemText(i);
  }

  /** The parser reads a text as a value exactly when the text spells that value. */
  lemma DecodesExactlyWhenSpelled(text: string, v: Json)
    ensures Decode(text) == Some(v) <==> Spells(Lenient, text, v)
  {
    if Decode(text) == Some(v) {
      ReadIsSpelled(text);
    }
    if Spells(Lenient, text, v) {
      SpelledIsRead(text, v);
    }
  }
}
