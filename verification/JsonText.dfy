/** The printer and the parser of canonical JSON text. */
module JsonText {
  import opened Json
  import opened Numbers
  import opened Wrappers

  // ---------------------------------------------------------------- characters

  const DIGITS := "0123456789"
  const HEX := "0123456789abcdef"

  predicate IsDigit(c: char) { '0' <= c <= '9' }

  /** Unicode white space, which the parser skips between tokens. */
  predicate IsSpace(c: char) {
    var n := c as int;
    || 0x9 <= n <= 0xd || n == 0x20 || n == 0x85 || n == 0xa0 || n == 0x1680
    || 0x2000 <= n <= 0x200a || n == 0x2028 || n == 0x2029 || n == 0x202f || n == 0x205f || n == 0x3000
  }

  function DigitVal(c: char): nat
    requires IsDigit(c)
  {
    c as int - '0' as int
  }

  // ---------------------------------------------------------------- printing

  /** Decimal digits, without leading zeros. */
  function Decimal(n: nat): (s: string)
    ensures |s| > 0 && forall i :: 0 <= i < |s| ==> IsDigit(s[i])
  {
    if n < 10 then [DIGITS[n]] else Decimal(n / 10) + [DIGITS[n % 10]]
  }

  function Hex4(n: nat): (s: string)
    requires n < 0x10000
    ensures |s| == 4
  {
    [HEX[n / 0x1000], HEX[n / 0x100 % 0x10], HEX[n / 0x10 % 0x10], HEX[n % 0x10]]
  }

  function EscapeChar(c: char): (s: string)
    ensures |s| > 0
  {
    if c == '\"' then "\\\""
    else if c == '\\' then "\\\\"
    else if c as int == 0x8 then "\\b"
    else if c as int == 0xc then "\\f"
    else if c == '\n' then "\\n"
    else if c == '\r' then "\\r"
    else if c == '\t' then "\\t"
    else if c as int < 0x20 then "\\u" + Hex4(c as int)
    else [c]
  }

  function Escape(s: string): string {
    if s == [] then [] else EscapeChar(s[0]) + Escape(s[1..])
  }

  function Quoted(s: string): string { "\"" + Escape(s) + "\"" }

  /** Text of a value whose members are printed in the order they have. */
  function Emit(v: Json): string
    decreases v, 1
  {
    match v
    case Null => "null"
    case Bool(b) => if b then "true" else "false"
    case Number(n) => Decimal(n)
    case String(s) => Quoted(s)
    case Array(items) => "[" + EmitItems(items) + "]"
    case Object(members) => "{" + EmitMembers(members) + "}"
  }

  function EmitItems(items: seq<Json>): string
    decreases items, 0
  {
    if items == [] then ""
    else if |items| == 1 then Emit(items[0])
    else Emit(items[0]) + "," + EmitItems(items[1..])
  }

  function EmitMember(m: Member): string
    decreases m, 0
  {
    Quoted(m.key) + ":" + Emit(m.value)
  }

  function EmitMembers(members: seq<Member>): string
    decreases members, 0
  {
    if members == [] then ""
    else if |members| == 1 then EmitMember(members[0])
    else EmitMember(members[0]) + "," + EmitMembers(members[1..])
  }

  /** The canonical text of a value. */
  function Encode(v: Json): string { Emit(Norm(v)) }

  // ---------------------------------------------------------------- parsing

  datatype Parsed<+T> = Yes(value: T, rest: string) | No

  function SkipWs(s: string): (r: string)
    ensures |r| <= |s|
  {
    if s != [] && IsSpace(s[0]) then SkipWs(s[1..]) else s
  }

  /** How many digits a text starts with. */
  function DigitRun(s: string): (n: nat)
    ensures n <= |s| && (forall i :: 0 <= i < n ==> IsDigit(s[i])) && (n < |s| ==> !IsDigit(s[n]))
  {
    if s != [] && IsDigit(s[0]) then 1 + DigitRun(s[1..]) else 0
  }

  function DecimalVal(s: string): nat
    requires forall i :: 0 <= i < |s| ==> IsDigit(s[i])
  {
    if s == [] then 0 else 10 * DecimalVal(s[..|s| - 1]) + DigitVal(s[|s| - 1])
  }

  function ParseNumber(s: string): (r: Parsed<Json>)
    requires s != [] && IsDigit(s[0])
    ensures r.Yes? ==> |r.rest| < |s|
  {
    if s[0] == '0' && |s| > 1 && IsDigit(s[1]) then No
    else
      var i := DigitRun(s);
      var n := DecimalVal(s[..i]);
      if n > U64_MAX then No else Yes(Number(n), s[i..])
  }

  function HexDigit(c: char): Option<nat> {
    if IsDigit(c) then Some(DigitVal(c))
    else if 'a' <= c <= 'f' then Some(c as int - 'a' as int + 10)
    else if 'A' <= c <= 'F' then Some(c as int - 'A' as int + 10)
    else None
  }

  function HexVal(h: string): (r: Option<nat>)
    ensures r.Some? ==> r.value < Pow16(|h|)
  {
    if h == [] then Some(0)
    else
      var n := |h| - 1;
      var front, last := HexVal(h[..n]), HexDigit(h[n]);
      if front.Some? && last.Some? then Some(16 * front.value + last.value) else None
  }

  function Pow16(n: nat): nat {
    if n == 0 then 1 else 16 * Pow16(n - 1)
  }

  /** Four characters as a number. A leading plus sign is accepted in place of the first digit. */
  function Code(h: string): Option<nat>
    requires |h| == 4
  {
    if h[0] == '+' then HexVal(h[1..]) else HexVal(h)
  }

  /** The character with this code, absent for a surrogate. */
  function CharOf(n: nat): (r: Option<char>) {
    if n < 0xd800 || 0xe000 <= n < 0x11_0000 then Some(n as char) else None
  }

  function Unescape(c: char): Option<char> {
    if c == '\"' then Some('\"')
    else if c == '\\' then Some('\\')
    else if c == '/' then Some('/')
    else if c == 'b' then Some(0x8 as char)
    else if c == 'f' then Some(0xc as char)
    else if c == 'n' then Some('\n')
    else if c == 'r' then Some('\r')
    else if c == 't' then Some('\t')
    else None
  }

  /** The rest of a string literal after its opening quote. */
  function ParseChars(s: string, out: string): (r: Parsed<string>)
    ensures r.Yes? ==> |r.rest| < |s|
    decreases |s|
  {
    if s == [] then No
    else if s[0] == '\"' then Yes(out, s[1..])
    else if s[0] == '\\' then
      if |s| < 2 then No
      else if s[1] == 'u' then
        if |s| < 6 then No
        else
          var code := Code(s[2..6]);
          if code.None? || CharOf(code.value).None? then No
          else ParseChars(s[6..], out + [CharOf(code.value).value])
      else if Unescape(s[1]).None? then No
      else ParseChars(s[2..], out + [Unescape(s[1]).value])
    else ParseChars(s[1..], out + [s[0]])
  }

  function ParseString(s: string): (r: Parsed<string>)
    ensures r.Yes? ==> |r.rest| < |s|
  {
    if s == [] || s[0] != '\"' then No else ParseChars(s[1..], [])
  }

  predicate StartsWith(s: string, c: char) { s != [] && s[0] == c }

  function ParseValue(text: string): (r: Parsed<Json>)
    ensures r.Yes? ==> |r.rest| < |text|
    decreases |text|, 1
  {
    var s := SkipWs(text);
    if "null" <= s then Yes(Null, s[4..])
    else if "true" <= s then Yes(Bool(true), s[4..])
    else if "false" <= s then Yes(Bool(false), s[5..])
    else if StartsWith(s, '\"') then
      match ParseString(s)
      case No => No
      case Yes(x, rest) => Yes(String(x), rest)
    else if StartsWith(s, '[') then ParseArray(s)
    else if StartsWith(s, '{') then ParseObject(s)
    else if s != [] && IsDigit(s[0]) then ParseNumber(s)
    else No
  }

  function ParseArray(s: string): (r: Parsed<Json>)
    requires StartsWith(s, '[')
    ensures r.Yes? ==> |r.rest| < |s|
    decreases |s|, 0
  {
    var inner := SkipWs(s[1..]);
    if StartsWith(inner, ']') then Yes(Array([]), inner[1..]) else ParseItems(inner, [])
  }

  function ParseObject(s: string): (r: Parsed<Json>)
    requires StartsWith(s, '{')
    ensures r.Yes? ==> |r.rest| < |s|
    decreases |s|, 0
  {
    var inner := SkipWs(s[1..]);
    if StartsWith(inner, '}') then Yes(Object([]), inner[1..]) else ParseMembers(inner, [])
  }

  function ParseItems(s: string, items: seq<Json>): (r: Parsed<Json>)
    ensures r.Yes? ==> |r.rest| < |s|
    decreases |s|, 2
  {
    match ParseValue(s)
    case No => No
    case Yes(v, after) =>
      var rest := SkipWs(after);
      if StartsWith(rest, ',') then ParseItems(rest[1..], items + [v])
      else if StartsWith(rest, ']') then Yes(Array(items + [v]), rest[1..])
      else No
  }

  function ParseMember(text: string): (r: Parsed<Member>)
    ensures r.Yes? ==> |r.rest| < |text|
    decreases |text|, 2
  {
    var s := SkipWs(text);
    match ParseString(s)
    case No => No
    case Yes(key, after) =>
      var colon := SkipWs(after);
      if !StartsWith(colon, ':') then No
      else
        match ParseValue(colon[1..])
        case No => No
        case Yes(v, rest) => Yes(Member(key, v), rest)
  }

  function ParseMembers(s: string, members: seq<Member>): (r: Parsed<Json>)
    ensures r.Yes? ==> |r.rest| < |s|
    decreases |s|, 3
  {
    match ParseMember(s)
    case No => No
    case Yes(m, after) =>
      var rest := SkipWs(after);
      if StartsWith(rest, ',') then ParseMembers(rest[1..], members + [m])
      else if StartsWith(rest, '}') then Yes(Object(members + [m]), rest[1..])
      else No
  }

  function Decode(text: string): Option<Json> {
    match ParseValue(text)
    case No => None
    case Yes(v, rest) => if SkipWs(rest) == [] then Some(v) else None
  }
}
