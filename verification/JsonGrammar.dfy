/** Which texts spell which value: concrete syntax trees, the text a tree yields, and the value it means.

    The lenient dialect is the one the parser reads. The strict one is RFC 8259 for the values there are here, and, as
    RFC 8785 asks, without a key twice in an object. It has four white-space characters, four hexadecimal digits in an
    escape, and no raw control character in a string. It also has what the parser never takes: an escape pair for a
    character beyond four digits, and a number with a sign, a fraction or an exponent. */
module JsonGrammar {
  import opened Json
  import opened JsonText
  import opened Numbers
  import opened Wrappers

  datatype Dialect = Lenient | Strict

  predicate Space(d: Dialect, c: char) {
    if d.Lenient? then IsSpace(c) else c == ' ' || c == '\t' || c == '\n' || c == '\r'
  }

  predicate Spaces(d: Dialect, ws: string) { forall i :: 0 <= i < |ws| ==> Space(d, ws[i]) }

  // ---------------------------------------------------------------- trees

  /** One character of a string literal: itself, after a backslash, as four characters of code, or as a pair of codes. */
  datatype Spelling = Raw(c: char) | Short(e: char) | Coded(h: string) | Paired(high: string, low: string)

  /** How a number is written: in its decimal digits, or with a sign, a fraction or an exponent. */
  datatype Form = Whole | Scaled(minus: bool, whole: string, fraction: Option<string>, exponent: Option<Exponent>)

  datatype Exponent = Exponent(mark: char, sign: string, digits: string)

  datatype Tree =
    | NullTree
    | BoolTree(b: bool)
    | NumberTree(n: U64, form: Form)
    | StringTree(s: seq<Spelling>)
    | ArrayTree(gap: string, items: seq<Item>)    // `gap` is white space after the bracket
    | ObjectTree(gap: string, fields: seq<Field>)

  /** A value with the white space around it. */
  datatype Item = Item(before: string, tree: Tree, after: string)

  datatype Field = Field(before: string, key: seq<Spelling>, colon: string, item: Item)

  // ---------------------------------------------------------------- what a tree yields

  function SpellingText(p: Spelling): (t: string)
    ensures |t| > 0
  {
    match p
    case Raw(c) => [c]
    case Short(e) => ['\\', e]
    case Coded(h) => "\\u" + h
    case Paired(high, low) => "\\u" + high + "\\u" + low
  }

  function SpelledText(ps: seq<Spelling>): string {
    if ps == [] then "" else SpellingText(ps[0]) + SpelledText(ps[1..])
  }

  function Literal(ps: seq<Spelling>): string { "\"" + SpelledText(ps) + "\"" }

  function FractionText(fraction: Option<string>): string {
    if fraction.Some? then "." + fraction.value else ""
  }

  function ExponentText(exponent: Option<Exponent>): string {
    if exponent.Some? then [exponent.value.mark] + exponent.value.sign + exponent.value.digits else ""
  }

  function NumberText(n: U64, form: Form): string {
    match form
    case Whole => Decimal(n)
    case Scaled(minus, whole, fraction, exponent) =>
      (if minus then "-" else "") + whole + (FractionText(fraction) + ExponentText(exponent))
  }

  function TreeText(t: Tree): string
    decreases t, 1
  {
    match t
    case NullTree => "null"
    case BoolTree(b) => if b then "true" else "false"
    case NumberTree(n, form) => NumberText(n, form)
    case StringTree(s) => Literal(s)
    case ArrayTree(gap, items) => "[" + gap + ItemsText(items) + "]"
    case ObjectTree(gap, fields) => "{" + gap + FieldsText(fields) + "}"
  }

  function ItemText(i: Item): string
    decreases i, 0
  {
    i.before + TreeText(i.tree) + i.after
  }

  function ItemsText(items: seq<Item>): string
    decreases items, 0
  {
    if items == [] then ""
    else if |items| == 1 then ItemText(items[0])
    else ItemText(items[0]) + "," + ItemsText(items[1..])
  }

  function FieldText(f: Field): string
    decreases f, 0
  {
    f.before + Literal(f.key) + f.colon + ":" + ItemText(f.item)
  }

  function FieldsText(fields: seq<Field>): string
    decreases fields, 0
  {
    if fields == [] then ""
    else if |fields| == 1 then FieldText(fields[0])
    else FieldText(fields[0]) + "," + FieldsText(fields[1..])
  }

  // ---------------------------------------------------------------- what a tree means

  /** The character that a high and a low surrogate stand for together. */
  function PairChar(high: nat, low: nat): Option<char> {
    if 0xd800 <= high < 0xdc00 && 0xdc00 <= low < 0xe000 then CharOf(0x1_0000 + 0x400 * (high - 0xd800) + (low - 0xdc00))
    else None
  }

  function SpellingChar(p: Spelling): Option<char> {
    match p
    case Raw(c) => Some(c)
    case Short(e) => Unescape(e)
    case Coded(h) => if |h| == 4 && Code(h).Some? then CharOf(Code(h).value) else None
    case Paired(high, low) =>
      if |high| == 4 && |low| == 4 && HexVal(high).Some? && HexVal(low).Some? then
        PairChar(HexVal(high).value, HexVal(low).value)
      else None
  }

  function SpelledMeaning(ps: seq<Spelling>): string {
    if ps == [] then ""
    else (if SpellingChar(ps[0]).Some? then [SpellingChar(ps[0]).value] else "") + SpelledMeaning(ps[1..])
  }

  function Meaning(t: Tree): Json
    decreases t, 1
  {
    match t
    case NullTree => Null
    case BoolTree(b) => Bool(b)
    case NumberTree(n, _) => Number(n)
    case StringTree(s) => String(SpelledMeaning(s))
    case ArrayTree(_, items) => Array(Meanings(items))
    case ObjectTree(_, fields) => Object(FieldMeanings(fields))
  }

  function Meanings(items: seq<Item>): (r: seq<Json>)
    ensures |r| == |items|
    decreases items, 0
  {
    if items == [] then [] else [Meaning(items[0].tree)] + Meanings(items[1..])
  }

  function FieldMeaning(f: Field): Member
    decreases f, 0
  {
    Member(SpelledMeaning(f.key), Meaning(f.item.tree))
  }

  function FieldMeanings(fields: seq<Field>): (r: seq<Member>)
    ensures |r| == |fields|
    decreases fields, 0
  {
    if fields == [] then [] else [FieldMeaning(fields[0])] + FieldMeanings(fields[1..])
  }

  // ---------------------------------------------------------------- which trees a dialect has

  predicate SpellingOk(d: Dialect, p: Spelling) {
    && SpellingChar(p).Some?
    && (p.Raw? ==> p.c != '\"' && p.c != '\\' && (d.Strict? ==> p.c as int >= 0x20))
    && (p.Coded? && d.Strict? ==> p.h[0] != '+')
    && (p.Paired? ==> d.Strict?)
  }

  predicate SpelledOk(d: Dialect, ps: seq<Spelling>) { forall i :: 0 <= i < |ps| ==> SpellingOk(d, ps[i]) }

  predicate Digits(s: string) { s != "" && forall i :: 0 <= i < |s| ==> IsDigit(s[i]) }

  predicate ExponentOk(e: Exponent) {
    (e.mark == 'e' || e.mark == 'E') && (e.sign == "" || e.sign == "+" || e.sign == "-") && Digits(e.digits)
  }

  predicate FormOk(n: U64, form: Form) {
    match form
    case Whole => true
    case Scaled(minus, whole, fraction, exponent) =>
      && (minus || fraction.Some? || exponent.Some?)
      && Digits(whole) && (|whole| > 1 ==> whole[0] != '0')
      && (fraction.Some? ==> Digits(fraction.value))
      && (exponent.Some? ==> ExponentOk(exponent.value))
      && (minus ==> n == 0)
      && Denotes(n, whole, if fraction.Some? then fraction.value else "", if exponent.Some? then Scale(exponent.value) else 0)
  }

  function Scale(e: Exponent): int
    requires ExponentOk(e)
  {
    var n: int := DecimalVal(e.digits);
    if e.sign == "-" then -n else n
  }

  function Pow10(n: nat): nat { if n == 0 then 1 else 10 * Pow10(n - 1) }

  /** The digits before and after the point, moved by the scale, are exactly the number. */
  predicate Denotes(n: nat, whole: string, fraction: string, scale: int)
    requires forall i :: 0 <= i < |whole| ==> IsDigit(whole[i])
    requires forall i :: 0 <= i < |fraction| ==> IsDigit(fraction[i])
  {
    var k := scale - |fraction|;
    if k >= 0 then n == DecimalVal(whole + fraction) * Pow10(k) else n * Pow10(-k) == DecimalVal(whole + fraction)
  }

  ghost predicate TreeOk(d: Dialect, t: Tree)
    decreases t, 1
  {
    match t
    case NumberTree(n, form) => FormOk(n, form) && (d.Lenient? ==> form.Whole?)
    case StringTree(s) => SpelledOk(d, s)
    case ArrayTree(gap, items) => Spaces(d, gap) && ItemsOk(d, items)
    case ObjectTree(gap, fields) =>
      && Spaces(d, gap) && FieldsOk(d, fields)
      && (d.Strict? ==> DistinctKeys(FieldMeanings(fields)))
    case _ => true
  }

  ghost predicate ItemOk(d: Dialect, i: Item)
    decreases i, 0
  {
    Spaces(d, i.before) && TreeOk(d, i.tree) && Spaces(d, i.after)
  }

  ghost predicate ItemsOk(d: Dialect, items: seq<Item>)
    decreases items, 0
  {
    items != [] ==> ItemOk(d, items[0]) && ItemsOk(d, items[1..])
  }

  ghost predicate FieldOk(d: Dialect, f: Field)
    decreases f, 0
  {
    Spaces(d, f.before) && SpelledOk(d, f.key) && Spaces(d, f.colon) && ItemOk(d, f.item)
  }

  ghost predicate FieldsOk(d: Dialect, fields: seq<Field>)
    decreases fields, 0
  {
    fields != [] ==> FieldOk(d, fields[0]) && FieldsOk(d, fields[1..])
  }

  /** The text is one value and white space around it, and the value is `v`. */
  ghost predicate Spells(d: Dialect, text: string, v: Json) {
    exists i :: ItemOk(d, i) && ItemText(i) == text && Meaning(i.tree) == v
  }
}
