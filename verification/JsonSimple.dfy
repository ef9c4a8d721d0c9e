/** Which strict texts the parser takes: those without surrogate escapes and without scaled numbers. */
module JsonSimple {
  import opened Json
  import opened JsonAccepts
  import opened JsonGrammar
  import opened JsonText
  import opened Numbers
  import opened Wrappers

  predicate Scales(c: char) { c == '.' || c == 'e' || c == 'E' }

  /** An escape that names one half of a pair. */
  predicate NamesSurrogate(s: string) {
    |s| >= 6 && s[0] == '\\' && s[1] == 'u' && HexVal(s[2..6]).Some? && 0xd800 <= HexVal(s[2..6]).value < 0xe000
  }

  /** One pass over a text: no minus sign and no digit before a point or an exponent outside strings, and inside them no
      escape that names one half of a pair. */
  predicate Simple(s: string, inString: bool)
    decreases |s|
  {
    if s == "" then true
    else if s[0] == '\"' then Simple(s[1..], !inString)
    else if !inString then s[0] != '-' && !(IsDigit(s[0]) && |s| > 1 && Scales(s[1])) && Simple(s[1..], false)
    else if s[0] == '\\' && |s| >= 2 then !NamesSurrogate(s) && Simple(s[2..], true)
    else Simple(s[1..], true)
  }

  // ---------------------------------------------------------------- one pass over each part

  /** Nothing the pass looks at outside strings. */
  predicate Quiet(s: string) { forall i :: 0 <= i < |s| ==> s[i] != '\"' && s[i] != '-' && !IsDigit(s[i]) }

  lemma {:induction false} QuietPasses(s: string, tail: string)
    requires Quiet(s)
    ensures Simple(s + tail, false) == Simple(tail, false)
  {
    if s == "" {
      assert s + tail == tail;
    } else {
      assert (s + tail)[1..] == s[1..] + tail;
      QuietPasses(s[1..], tail);
    }
  }

  lemma SpacesAreQuiet(d: Dialect, ws: string)
    requires Spaces(d, ws)
    ensures Quiet(ws) && Spaces(Lenient, ws)
  {
    assert forall i :: 0 <= i < |ws| ==> Space(d, ws[i]) && IsSpace(ws[i]);
  }

  lemma {:induction false} DigitsPass(ds: string, tail: string)
    requires Digits(ds)
    ensures Simple(ds + tail, false) <==> Simple(tail, false) && !(tail != "" && Scales(tail[0]))
  {
    var s := ds + tail;
    assert s[1..] == ds[1..] + tail;
    if |ds| == 1 {
      assert s[1..] == tail;
    } else {
      DigitsPass(ds[1..], tail);
      assert s[1] == ds[1];
    }
  }

  /** Nothing the pass looks at inside strings. */
  predicate Calm(s: string) { forall i :: 0 <= i < |s| ==> s[i] != '\"' && s[i] != '\\' }

  lemma {:induction false} CalmPasses(s: string, tail: string)
    requires Calm(s)
    ensures Simple(s + tail, true) == Simple(tail, true)
  {
    if s == "" {
      assert s + tail == tail;
    } else {
      assert (s + tail)[1..] == s[1..] + tail;
      CalmPasses(s[1..], tail);
    }
  }

  /** Characters that are neither control characters nor end or escape a string. */
  predicate Inert(s: string) { forall i :: 0 <= i < |s| ==> s[i] != '\"' && s[i] != '\\' && s[i] as int >= 0x20 }

  lemma {:induction false} HexIsInert(h: string)
    requires HexVal(h).Some?
    ensures Inert(h) && forall i :: 0 <= i < |h| ==> h[i] != '+'
  {
    if h != "" {
      HexIsInert(h[..|h| - 1]);
    }
  }

  lemma CodeIsInert(h: string)
    requires |h| == 4 && Code(h).Some?
    ensures Inert(h)
  {
    if h[0] == '+' {
      HexIsInert(h[1..]);
      assert h == [h[0]] + h[1..];
    } else {
      HexIsInert(h);
    }
  }

  // ---------------------------------------------------------------- one pass over a string

  /** A spelling is one the parser takes exactly when the pass finds no half of a pair in it. */
  lemma SpellingIsSimple(d: Dialect, p: Spelling, rest: string)
    requires SpellingOk(d, p)
    ensures Simple(SpellingText(p) + rest, true) <==> SpellingOk(Lenient, p) && Simple(rest, true)
  {
    var s := SpellingText(p) + rest;
    match p
    case Raw(c) => assert s[1..] == rest;
    case Short(e) => assert s[2..] == rest;
    case Coded(h) => CodedIsSimple(h, rest);
    case Paired(high, low) => PairedIsNot(high, low, rest);
  }

  lemma CodedIsSimple(h: string, rest: string)
    requires |h| == 4 && Code(h).Some? && CharOf(Code(h).value).Some?
    ensures Simple("\\u" + h + rest, true) == Simple(rest, true)
  {
    var s := "\\u" + h + rest;
    assert s[2..6] == h && s[2..] == h + rest;
    if HexVal(h).Some? {
      HexIsInert(h);
    }
    CodeIsInert(h);
    CalmPasses(h, rest);
  }

  lemma PairedIsNot(high: string, low: string, rest: string)
    requires SpellingChar(Paired(high, low)).Some?
    ensures !Simple("\\u" + high + "\\u" + low + rest, true)
  {
    var s := "\\u" + high + "\\u" + low + rest;
    assert s[2..6] == high;
  }

  lemma {:induction false} SpelledIsSimple(d: Dialect, ps: seq<Spelling>, rest: string)
    requires SpelledOk(d, ps)
    ensures Simple(SpelledText(ps) + rest, true) <==> SpelledOk(Lenient, ps) && Simple(rest, true)
  {
    if ps == [] {
      assert SpelledText(ps) + rest == rest;
    } else {
      assert SpelledText(ps) + rest == SpellingText(ps[0]) + (SpelledText(ps[1..]) + rest);
      SpellingIsSimple(d, ps[0], SpelledText(ps[1..]) + rest);
      SpelledIsSimple(d, ps[1..], rest);
      assert ps == [ps[0]] + ps[1..];
    }
  }

  lemma LiteralIsSimple(d: Dialect, ps: seq<Spelling>, rest: string)
    requires SpelledOk(d, ps)
    ensures Simple(Literal(ps) + rest, false) <==> SpelledOk(Lenient, ps) && Simple(rest, false)
  {
    var s := Literal(ps) + rest;
    var close := "\"" + rest;
    assert s[0] == '\"' && s[1..] == SpelledText(ps) + close;
    assert close[1..] == rest;
    SpelledIsSimple(d, ps, close);
  }

  // ---------------------------------------------------------------- one pass over a tree

  /** What may follow a value: nothing that would scale a number. */
  predicate EndsNumber(tail: string) { tail == "" || !Scales(tail[0]) }

  lemma EndsAfterSpaces(d: Dialect, ws: string, tail: string)
    requires Spaces(d, ws) && EndsNumber(tail)
    ensures EndsNumber(ws + tail)
  {
    SpacesAreQuiet(d, ws);
    assert ws != "" ==> IsSpace((ws + tail)[0]);
    assert ws == "" ==> ws + tail == tail;
  }

  lemma NumberIsSimple(n: U64, form: Form, tail: string)
    requires FormOk(n, form) && EndsNumber(tail)
    ensures Simple(NumberText(n, form) + tail, false) <==> form.Whole? && Simple(tail, false)
  {
    match form
    case Whole => DigitsPass(Decimal(n), tail);
    case Scaled(minus, whole, fraction, exponent) =>
      var s := NumberText(n, form) + tail;
      if minus {
        assert s[0] == '-';
      } else {
        var more := FractionText(fraction) + ExponentText(exponent);
        assert s == whole + (more + tail);
        MoreScales(fraction, exponent);
        assert (more + tail)[0] == more[0];
        DigitsPass(whole, more + tail);
      }
  }

  lemma MoreScales(fraction: Option<string>, exponent: Option<Exponent>)
    requires (fraction.Some? || exponent.Some?) && (exponent.Some? ==> ExponentOk(exponent.value))
    ensures var more := FractionText(fraction) + ExponentText(exponent); more != "" && Scales(more[0])
  {
  }

  /** A tree of either dialect is one the parser takes exactly when the pass over its text finds nothing. */
  lemma {:induction false} TreeIsSimple(d: Dialect, t: Tree, tail: string)
    requires TreeOk(d, t) && EndsNumber(tail)
    ensures Simple(TreeText(t) + tail, false) <==> TreeOk(Lenient, t) && Simple(tail, false)
    decreases t, 2
  {
    match t
    case NullTree => QuietPasses("null", tail);
    case BoolTree(b) => QuietPasses(if b then "true" else "false", tail);
    case NumberTree(n, form) => NumberIsSimple(n, form, tail);
    case StringTree(ps) => LiteralIsSimple(d, ps, tail);
    case ArrayTree(gap, items) =>
      ItemsAreSimple(d, items, "]" + tail);
      EnclosedIsSimple(d, "[", gap, ItemsText(items), "]", tail);
    case ObjectTree(gap, fields) =>
      FieldsAreSimple(d, fields, "}" + tail);
      EnclosedIsSimple(d, "{", gap, FieldsText(fields), "}", tail);
  }

  lemma EnclosedIsSimple(d: Dialect, open: string, gap: string, body: string, close: string, tail: string)
    requires |open| == 1 && Quiet(open) && Quiet(close) && Spaces(d, gap)
    ensures Simple(open + gap + body + close + tail, false) == Simple(body + (close + tail), false)
    ensures Simple(close + tail, false) == Simple(tail, false) && Spaces(Lenient, gap)
  {
    Enclosed(open, gap, body, close, tail);
    QuietPasses(open, gap + (body + (close + tail)));
    SpacesAreQuiet(d, gap);
    QuietPasses(gap, body + (close + tail));
    QuietPasses(close, tail);
  }

  lemma {:induction false} ItemIsSimple(d: Dialect, i: Item, tail: string)
    requires ItemOk(d, i) && EndsNumber(tail)
    ensures Simple(ItemText(i) + tail, false) <==> ItemOk(Lenient, i) && Simple(tail, false)
    decreases i, 1
  {
    Reassociate(i.before, TreeText(i.tree), i.after, tail);
    SpacesAreQuiet(d, i.before);
    QuietPasses(i.before, TreeText(i.tree) + (i.after + tail));
    EndsAfterSpaces(d, i.after, tail);
    TreeIsSimple(d, i.tree, i.after + tail);
    SpacesAreQuiet(d, i.after);
    QuietPasses(i.after, tail);
  }

  lemma {:induction false} ItemsAreSimple(d: Dialect, items: seq<Item>, tail: string)
    requires ItemsOk(d, items) && EndsNumber(tail)
    ensures Simple(ItemsText(items) + tail, false) <==> ItemsOk(Lenient, items) && Simple(tail, false)
    decreases items, 1
  {
    if items == [] {
      assert ItemsText(items) + tail == tail;
    } else {
      var more := if |items| == 1 then tail else "," + (ItemsText(items[1..]) + tail);
      ItemIsSimple(d, items[0], more);
      ItemsAreSimple(d, items[1..], tail);
      MoreItemsSimple(items, tail);
    }
  }

  lemma MoreItemsSimple(items: seq<Item>, tail: string)
    requires items != []
    ensures var more := if |items| == 1 then tail else "," + (ItemsText(items[1..]) + tail);
            && ItemsText(items) + tail == ItemText(items[0]) + more
            && Simple(more, false) == Simple(ItemsText(items[1..]) + tail, false)
  {
    if |items| == 1 {
      assert ItemsText(items[1..]) + tail == tail;
    } else {
      ItemsTextStep(items, tail);
      QuietPasses(",", ItemsText(items[1..]) + tail);
    }
  }

  lemma {:induction false} FieldIsSimple(d: Dialect, f: Field, tail: string)
    requires FieldOk(d, f) && EndsNumber(tail)
    ensures Simple(FieldText(f) + tail, false) <==> FieldOk(Lenient, f) && Simple(tail, false)
    decreases f, 0
  {
    var value := ItemText(f.item) + tail;
    FieldTextIs(f, tail);
    SpacesAreQuiet(d, f.before);
    QuietPasses(f.before, Literal(f.key) + (f.colon + (":" + value)));
    LiteralIsSimple(d, f.key, f.colon + (":" + value));
    SpacesAreQuiet(d, f.colon);
    QuietPasses(f.colon, ":" + value);
    QuietPasses(":", value);
    ItemIsSimple(d, f.item, tail);
  }

  lemma {:induction false} FieldsAreSimple(d: Dialect, fields: seq<Field>, tail: string)
    requires FieldsOk(d, fields) && EndsNumber(tail)
    ensures Simple(FieldsText(fields) + tail, false) <==> FieldsOk(Lenient, fields) && Simple(tail, false)
    decreases fields, 1
  {
    if fields == [] {
      assert FieldsText(fields) + tail == tail;
    } else {
      var more := if |fields| == 1 then tail else "," + (FieldsText(fields[1..]) + tail);
      FieldIsSimple(d, fields[0], more);
      FieldsAreSimple(d, fields[1..], tail);
      MoreFieldsSimple(fields, tail);
    }
  }

  lemma MoreFieldsSimple(fields: seq<Field>, tail: string)
    requires fields != []
    ensures var more := if |fields| == 1 then tail else "," + (FieldsText(fields[1..]) + tail);
            && FieldsText(fields) + tail == FieldText(fields[0]) + more
            && Simple(more, false) == Simple(FieldsText(fields[1..]) + tail, false)
  {
    if |fields| == 1 {
      assert FieldsText(fields[1..]) + tail == tail;
    } else {
      FieldsTextStep(fields, tail);
      QuietPasses(",", FieldsText(fields[1..]) + tail);
    }
  }

  // ---------------------------------------------------------------- which strict texts are read

  /** The parser reads only texts that pass. */
  lemma ReadIsSimple(text: string)
    requires Decode(text).Some?
    ensures Simple(text, false)
  {
    var i := ItemIsTree(text);
    ItemIsSimple(Lenient, i, "");
    assert ItemText(i) + "" == text;
  }

  /** A strict text of a value is read as that value exactly when it passes, and refused otherwise. */
  lemma StrictIsReadExactlyWhen(text: string, v: Json)
    requires Spells(Strict, text, v)
    ensures Decode(text) == Some(v) <==> Simple(text, false)
    ensures Decode(text) == None <==> !Simple(text, false)
  {
    var i :| ItemOk(Strict, i) && ItemText(i) == text && Meaning(i.tree) == v;
    ItemIsSimple(Strict, i, "");
    assert ItemText(i) + "" == text;
    if Simple(text, false) {
      SpelledIsRead(text, v);
    } else if Decode(text).Some? {
      ReadIsSimple(text);
    }
  }

  // ---------------------------------------------------------------- strict texts the parser refuses

  /** The escape pair of U+1F600. */
  lemma PairIsRefused()
    ensures Spells(Strict, "\"\\ud83d\\ude00\"", String([0x1_f600 as char]))
    ensures Decode("\"\\ud83d\\ude00\"") == None
  {
    var text := "\"\\ud83d\\ude00\"";
    var p := Paired("d83d", "de00");
    PairCodes();
    assert SpelledText([p]) == SpellingText(p) && SpelledMeaning([p]) == [0x1_f600 as char] by {
      assert [p][1..] == [];
    }
    assert Literal([p]) == text;
    StrictlySpelled(text, StringTree([p]));
    assert SpellingText(p) + "\"" == text[1..];
    SpellingIsSimple(Strict, p, "\"");
    StrictIsReadExactlyWhen(text, String([0x1_f600 as char]));
  }

  lemma PairCodes()
    ensures HexVal("d83d") == Some(0xd83d) && HexVal("de00") == Some(0xde00)
    ensures PairChar(0xd83d, 0xde00) == Some(0x1_f600 as char)
  {
    assert "d83d"[..3] == "d83" && "d83"[..2] == "d8" && "d8"[..1] == "d" && "d"[..0] == "";
    assert "de00"[..3] == "de0" && "de0"[..2] == "de" && "de"[..1] == "d";
    assert HexVal("d") == Some(0xd) && HexVal("d8") == Some(0xd8) && HexVal("d83") == Some(0xd83);
    assert HexVal("de") == Some(0xde) && HexVal("de0") == Some(0xde0);
  }

  /** A whole number with a fraction, and one with an exponent. */
  lemma ScaledIsRefused()
    ensures Spells(Strict, "1.0", Number(1)) && Decode("1.0") == None
    ensures Spells(Strict, "1e2", Number(100)) && Decode("1e2") == None
  {
    OneAndZero();
    ScaledText(1, Scaled(false, "1", Some("0"), None), "1.0");
    ScaledText(100, Scaled(false, "1", None, Some(Exponent('e', "", "2"))), "1e2");
  }

  lemma OneAndZero()
    ensures FormOk(1, Scaled(false, "1", Some("0"), None))
    ensures FormOk(100, Scaled(false, "1", None, Some(Exponent('e', "", "2"))))
  {
    assert "1"[..0] == "" && "2"[..0] == "";
    assert DecimalVal("1") == 1 && DecimalVal("2") == 2;
    assert "1" + "0" == "10" && "10"[..1] == "1" && "1" + "" == "1";
    assert DecimalVal("10") == 10;
    assert Pow10(1) == 10 && Pow10(2) == 100;
  }

  lemma ScaledText(n: U64, form: Form, text: string)
    requires form.Scaled? && FormOk(n, form) && text == NumberText(n, form)
    ensures Spells(Strict, text, Number(n)) && Decode(text) == None
  {
    StrictlySpelled(text, NumberTree(n, form));
    NumberIsSimple(n, form, "");
    assert text + "" == text;
    StrictIsReadExactlyWhen(text, Number(n));
  }

  lemma StrictlySpelled(text: string, t: Tree)
    requires TreeOk(Strict, t) && TreeText(t) == text
    ensures Spells(Strict, text, Meaning(t))
  {
    var i := Item("", t, "");
    assert ItemText(i) == text;
  }
}
