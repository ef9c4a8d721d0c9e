/** The parser, which advances through the text it holds, accepts what the grammar functions accept. */
module JsonParser {
  import opened Json
  import opened JsonAccepts
  import opened JsonGrammar
  import opened JsonText
  import opened Numbers
  import opened Wrappers

  /** A method that returned `r` and left `rest` did what the grammar function says; after an error any `rest` is fine. */
  predicate Reads<T(==)>(p: Parsed<T>, r: Option<T>, rest: string) {
    match p
    case No => r == None
    case Yes(x, tail) => r == Some(x) && rest == tail
  }

  class Parser {
    var rest: string

    constructor (text: string)
      ensures rest == text
    {
      rest := text;
    }

    method Skip()
      modifies this
      ensures rest == SkipWs(old(rest))
    {
      while rest != "" && IsSpace(rest[0])
        invariant SkipWs(rest) == SkipWs(old(rest))
        decreases |rest|
      {
        rest := rest[1..];
      }
    }

    method Value() returns (r: Option<Json>)
      modifies this
      ensures Reads(ParseValue(old(rest)), r, rest)
      decreases |rest|, 1
    {
      Skip();
      if "null" <= rest {
        rest := rest[4..];
        return Some(Null);
      }
      if "true" <= rest {
        rest := rest[4..];
        return Some(Bool(true));
      }
      if "false" <= rest {
        rest := rest[5..];
        return Some(Bool(false));
      }
      if StartsWith(rest, '\"') {
        var x := Text();
        return if x.None? then None else Some(String(x.value));
      }
      if StartsWith(rest, '[') {
        r := Items();
        return;
      }
      if StartsWith(rest, '{') {
        r := Members();
        return;
      }
      if rest != "" && IsDigit(rest[0]) {
        r := Num();
        return;
      }
      return None;
    }

    method Num() returns (r: Option<Json>)
      requires rest != "" && IsDigit(rest[0])
      modifies this
      ensures Reads(ParseNumber(old(rest)), r, rest)
    {
      if rest[0] == '0' && |rest| > 1 && IsDigit(rest[1]) {
        return None;
      }
      var i := 0;
      while i < |rest| && IsDigit(rest[i])
        invariant 0 <= i <= |rest| && i + DigitRun(rest[i..]) == DigitRun(rest)
      {
        i := i + 1;
      }
      var digits := rest[..i];
      rest := rest[i..];
      var n := DecimalVal(digits);
      return if n > U64_MAX then None else Some(Number(n));
    }

    method Text() returns (r: Option<string>)
      modifies this
      ensures Reads(ParseString(old(rest)), r, rest)
    {
      if !StartsWith(rest, '\"') {
        return None;
      }
      var chars := rest[1..];
      var out := "";
      while chars != "" && chars[0] != '\"'
        invariant ParseChars(chars, out) == ParseString(rest)
        invariant rest == old(rest)
        decreases |chars|
      {
        if chars[0] != '\\' {
          out := out + [chars[0]];
          chars := chars[1..];
        } else if |chars| < 2 {
          return None;
        } else if chars[1] == 'u' {
          if |chars| < 6 {
            return None;
          }
          var code := Code(chars[2..6]);
          if code.None? || CharOf(code.value).None? {
            return None;
          }
          out := out + [CharOf(code.value).value];
          chars := chars[6..];
        } else {
          var c := Unescape(chars[1]);
          if c.None? {
            return None;
          }
          out := out + [c.value];
          chars := chars[2..];
        }
      }
      if chars == "" {
        return None;
      }
      rest := chars[1..];
      return Some(out);
    }

    method Items() returns (r: Option<Json>)
      requires StartsWith(rest, '[')
      modifies this
      ensures Reads(ParseArray(old(rest)), r, rest)
      decreases |rest|, 0
    {
      rest := rest[1..];
      Skip();
      var items: seq<Json> := [];
      if StartsWith(rest, ']') {
        rest := rest[1..];
        return Some(Array(items));
      }
      while true
        invariant |rest| < |old(rest)|
        invariant ParseItems(rest, items) == ParseArray(old(rest))
        decreases |rest|
      {
        var v := Value();
        if v.None? {
          return None;
        }
        items := items + [v.value];
        Skip();
        if StartsWith(rest, ',') {
          rest := rest[1..];
          continue;
        }
        if StartsWith(rest, ']') {
          rest := rest[1..];
          return Some(Array(items));
        }
        return None;
      }
    }

    method Members() returns (r: Option<Json>)
      requires StartsWith(rest, '{')
      modifies this
      ensures Reads(ParseObject(old(rest)), r, rest)
      decreases |rest|, 0
    {
      rest := rest[1..];
      Skip();
      var members: seq<Member> := [];
      if StartsWith(rest, '}') {
        rest := rest[1..];
        return Some(Object(members));
      }
      while true
        invariant |rest| < |old(rest)|
        invariant ParseMembers(rest, members) == ParseObject(old(rest))
        decreases |rest|
      {
        Skip();
        var key := Text();
        if key.None? {
          return None;
        }
        Skip();
        if !StartsWith(rest, ':') {
          return None;
        }
        rest := rest[1..];
        var v := Value();
        if v.None? {
          return None;
        }
        members := members + [Member(key.value, v.value)];
        Skip();
        if StartsWith(rest, ',') {
          rest := rest[1..];
          continue;
        }
        if StartsWith(rest, '}') {
          rest := rest[1..];
          return Some(Object(members));
        }
        return None;
      }
    }
  }

  /** Accepts exactly the texts that spell a value in the lenient dialect, and returns that value. */
  method DecodeText(text: string) returns (r: Option<Json>)
    ensures r == Decode(text)
    ensures forall v :: r == Some(v) <==> Spells(Lenient, text, v)
  {
    forall v
      ensures Decode(text) == Some(v) <==> Spells(Lenient, text, v)
    {
      DecodesExactlyWhenSpelled(text, v);
    }
    var p := new Parser(text);
    var v := p.Value();
    if v.None? {
      return None;
    }
    p.Skip();
    return if p.rest == "" then v else None;
  }
}
