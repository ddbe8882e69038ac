/**
  JSON syntax trees: the text a tree spells, with anything that may stand between two tokens, and the value it
  denotes. Ok describes the texts that the parser takes, Rfc those of the grammar of sections 2 to 7 of RFC 8259.
 */
module Grammar {
  import opened JsonValue
  import opened Utf8
  import opened Parsing

  // What may stand between tokens: white space, and the two comment forms that `cJSON_Minify` removes.
  datatype Piece = Blank(c: char) | LineComment(body: string) | BlockComment(body: string)

  type Gap = seq<Piece>

  datatype StrChar = Raw(c: char) | Short(c: char) | Unicode(hex: string)

  datatype Exponent = NoExp | Exp(marker: char, sign: string, digits: string)

  // whole digits, fraction digits ("" for none), exponent
  datatype Number = Number(neg: bool, whole: string, frac: string, exp: Exponent)

  datatype Syntax =
    | SNull
    | SFalse
    | STrue
    | SNum(num: Number)
    | SStr(chars: seq<StrChar>)
    | SEmptyArr(gap: Gap)
    | SArr(items: Items)
    | SEmptyObj(gap: Gap)
    | SObj(fields: Fields)

  datatype Items =
    | LastItem(before: Gap, v: Syntax, after: Gap)
    | Item(before: Gap, v: Syntax, after: Gap, rest: Items)

  datatype Fields =
    | LastField(before: Gap, key: seq<StrChar>, mid: Gap, val: Gap, v: Syntax, after: Gap)
    | Field(before: Gap, key: seq<StrChar>, mid: Gap, val: Gap, v: Syntax, after: Gap, rest: Fields)

  // --- text ---

  function PieceText(p: Piece): string {
    match p
    case Blank(c) => [c]
    case LineComment(body) => "//" + body + "\n"
    case BlockComment(body) => "/*" + body + "*/"
  }

  function GapText(g: Gap): string {
    if g == [] then "" else PieceText(g[0]) + GapText(g[1..])
  }

  function CharText(c: StrChar): string {
    match c
    case Raw(c) => [c]
    case Short(c) => ['\\', c]
    case Unicode(hex) => "\\u" + hex
  }

  function CharsText(cs: seq<StrChar>): string {
    if cs == [] then "" else CharText(cs[0]) + CharsText(cs[1..])
  }

  function StringText(cs: seq<StrChar>): string {
    "\"" + (CharsText(cs) + "\"")
  }

  function ExponentText(e: Exponent): string {
    match e
    case NoExp => ""
    case Exp(m, sign, digits) => [m] + (sign + digits)
  }

  function FractionText(frac: string): string {
    if frac == "" then "" else "." + frac
  }

  function NumberText(n: Number): string {
    (if n.neg then "-" else "") + (n.whole + (FractionText(n.frac) + ExponentText(n.exp)))
  }

  function Text(s: Syntax): string {
    match s
    case SNull => "null"
    case SFalse => "false"
    case STrue => "true"
    case SNum(n) => NumberText(n)
    case SStr(cs) => StringText(cs)
    case SEmptyArr(g) => "[" + (GapText(g) + "]")
    case SArr(items) => "[" + ItemsText(items)
    case SEmptyObj(g) => "{" + (GapText(g) + "}")
    case SObj(fields) => "{" + FieldsText(fields)
  }

  // The items up to and including the ']'.
  function ItemsText(its: Items): string
    decreases its, 1
  {
    GapText(its.before) + (Text(its.v) + (GapText(its.after) + ItemsTail(its)))
  }

  function ItemsTail(its: Items): string
    decreases its, 0
  {
    match its
    case LastItem(_, _, _) => "]"
    case Item(_, _, _, rest) => "," + ItemsText(rest)
  }

  // The fields up to and including the '}'.
  function FieldsText(fs: Fields): string
    decreases fs, 1
  {
    GapText(fs.before) + (FieldText(fs.key, fs.mid, fs.val, Text(fs.v)) + (GapText(fs.after) + FieldsTail(fs)))
  }

  function FieldsTail(fs: Fields): string
    decreases fs, 0
  {
    match fs
    case LastField(_, _, _, _, _, _) => "}"
    case Field(_, _, _, _, _, _, rest) => "," + FieldsText(rest)
  }

  // A name, ':' and a value, with a gap on either side of the ':'.
  function FieldText(k: seq<StrChar>, m: Gap, w: Gap, v: string): string {
    StringText(k) + (GapText(m) + (":" + (GapText(w) + v)))
  }

  // --- well-formedness ---

  predicate Digits(s: string) {
    forall c | c in s :: IsDigit(c)
  }

  // One zero may stand before the whole digits, which may be missing after a minus sign; the digits of the exponent
  // may be missing.
  predicate NumberOk(n: Number) {
    && Digits(n.whole) && Digits(n.frac) && (n.neg || n.whole != "")
    && (|n.whole| > 1 && n.whole[0] == '0' ==> n.whole[1] != '0')
    && (n.exp.Exp? ==>
          && (n.exp.marker == 'e' || n.exp.marker == 'E')
          && (n.exp.sign == "" || n.exp.sign == "+" || n.exp.sign == "-")
          && Digits(n.exp.digits))
  }

  predicate Plain(c: char) {
    c != '\0' && c != '\"' && c != '\\'
  }

  // Unescaped chars, two-char escapes, and `\u` with four more chars. Every char but 'u' may be escaped by a backslash,
  // and the four chars need not be hex digits.
  predicate CharOk(c: StrChar) {
    match c
    case Raw(c) => Plain(c)
    case Short(c) => c != 'u' && c != '\0'
    case Unicode(hex) => |hex| == 4 && forall h | h in hex :: Plain(h)
  }

  predicate CharsOk(cs: seq<StrChar>) {
    forall c | c in cs :: CharOk(c)
  }

  predicate Ok(s: Syntax) {
    match s
    case SNum(n) => NumberOk(n)
    case SStr(cs) => CharsOk(cs)
    case SArr(items) => ItemsOk(items)
    case SObj(fields) => FieldsOk(fields)
    case _ => true
  }

  predicate ItemsOk(its: Items) {
    Ok(its.v) && (its.Item? ==> ItemsOk(its.rest))
  }

  predicate FieldsOk(fs: Fields) {
    CharsOk(fs.key) && Ok(fs.v) && (fs.Field? ==> FieldsOk(fs.rest))
  }

  // Gaps of white space only. The parser takes any char from 1 to ' ' for white space.
  predicate PlainGap(g: Gap) {
    forall p | p in g :: p.Blank? && '\0' < p.c <= ' '
  }

  // Every gap of s satisfies ok.
  predicate Gaps(s: Syntax, ok: Gap -> bool) {
    match s
    case SEmptyArr(g) => ok(g)
    case SEmptyObj(g) => ok(g)
    case SArr(items) => ItemsGaps(items, ok)
    case SObj(fields) => FieldsGaps(fields, ok)
    case _ => true
  }

  predicate ItemsGaps(its: Items, ok: Gap -> bool) {
    ok(its.before) && ok(its.after) && Gaps(its.v, ok) && (its.Item? ==> ItemsGaps(its.rest, ok))
  }

  predicate FieldsGaps(fs: Fields, ok: Gap -> bool) {
    && ok(fs.before) && ok(fs.mid) && ok(fs.val) && ok(fs.after)
    && Gaps(fs.v, ok) && (fs.Field? ==> FieldsGaps(fs.rest, ok))
  }

  lemma {:induction false} GapsMonotone(s: Syntax, p: Gap -> bool, q: Gap -> bool)
    requires Gaps(s, p) && forall g :: p(g) ==> q(g)
    ensures Gaps(s, q)
    decreases s, 1
  {
    match s {
      case SArr(items) => ItemsMonotone(items, p, q);
      case SObj(fields) => FieldsMonotone(fields, p, q);
      case _ =>
    }
  }

  lemma {:induction false} ItemsMonotone(its: Items, p: Gap -> bool, q: Gap -> bool)
    requires ItemsGaps(its, p) && forall g :: p(g) ==> q(g)
    ensures ItemsGaps(its, q)
    decreases its
  {
    GapsMonotone(its.v, p, q);
    if its.Item? {
      ItemsMonotone(its.rest, p, q);
    }
  }

  lemma {:induction false} FieldsMonotone(fs: Fields, p: Gap -> bool, q: Gap -> bool)
    requires FieldsGaps(fs, p) && forall g :: p(g) ==> q(g)
    ensures FieldsGaps(fs, q)
    decreases fs
  {
    GapsMonotone(fs.v, p, q);
    if fs.Field? {
      FieldsMonotone(fs.rest, p, q);
    }
  }

  // --- the grammar of RFC 8259 ---

  predicate RfcNumber(n: Number) {
    NumberOk(n) && n.whole != "" && (n.whole[0] == '0' ==> |n.whole| == 1) && (n.exp.Exp? ==> n.exp.digits != "")
  }

  predicate RfcChar(c: StrChar) {
    match c
    case Raw(c) => c >= ' ' && c != '\"' && c != '\\'
    case Short(c) => c in "\"\\/bfnrt"
    case Unicode(hex) => |hex| == 4 && forall h | h in hex :: HexValue(h) >= 0
  }

  predicate RfcChars(cs: seq<StrChar>)
    ensures RfcChars(cs) ==> CharsOk(cs)
  {
    assert forall c | c in cs :: RfcChar(c) ==> CharOk(c);
    forall c | c in cs :: RfcChar(c)
  }

  predicate Rfc(s: Syntax) {
    match s
    case SNum(n) => RfcNumber(n)
    case SStr(cs) => RfcChars(cs)
    case SArr(items) => RfcItems(items)
    case SObj(fields) => RfcFields(fields)
    case _ => true
  }

  predicate RfcItems(its: Items) {
    Rfc(its.v) && (its.Item? ==> RfcItems(its.rest))
  }

  predicate RfcFields(fs: Fields) {
    RfcChars(fs.key) && Rfc(fs.v) && (fs.Field? ==> RfcFields(fs.rest))
  }

  // White space in the sense of section 2.
  predicate RfcGap(g: Gap) {
    forall p | p in g :: p.Blank? && p.c in " \t\r\n"
  }

  lemma {:induction false} RfcOk(s: Syntax)
    requires Rfc(s)
    ensures Ok(s)
    decreases s, 1
  {
    match s {
      case SArr(items) => RfcItemsOk(items);
      case SObj(fields) => RfcFieldsOk(fields);
      case _ =>
    }
  }

  lemma {:induction false} RfcItemsOk(its: Items)
    requires RfcItems(its)
    ensures ItemsOk(its)
    decreases its
  {
    RfcOk(its.v);
    if its.Item? {
      RfcItemsOk(its.rest);
    }
  }

  lemma {:induction false} RfcFieldsOk(fs: Fields)
    requires RfcFields(fs)
    ensures FieldsOk(fs)
    decreases fs
  {
    RfcOk(fs.v);
    if fs.Field? {
      RfcFieldsOk(fs.rest);
    }
  }

  // --- meaning ---

  // The number that a string of digits writes in base ten.
  function Natural(s: string): nat
    requires Digits(s)
  {
    if s == "" then 0 else Natural(s[..|s| - 1]) * 10 + DigitValue(s[|s| - 1])
  }

  function ExponentValue(e: Exponent): int
    requires e.Exp? ==> Digits(e.digits)
  {
    match e
    case NoExp => 0
    case Exp(_, sign, digits) =>
      var e: int := Natural(digits);
      if sign == "-" then -e else e
  }

  // (-1)^neg * whole.frac * 10^exp
  function NumberValue(n: Number): real
    requires NumberOk(n)
  {
    var m := Natural(n.whole) as real + Scale(Natural(n.frac) as real, -|n.frac|);
    Scale(if n.neg then -m else m, ExponentValue(n.exp))
  }

  // The number that four hex digits in either letter case write, and 0 for other chars.
  function HexNumber(hex: string): nat
    requires CharOk(Unicode(hex))
  {
    var a, b, c, d := HexValue(hex[0]), HexValue(hex[1]), HexValue(hex[2]), HexValue(hex[3]);
    if a < 0 || b < 0 || c < 0 || d < 0 then 0 else a * 4096 + b * 256 + c * 16 + d
  }

  // The UTF-8 bytes that a string token denotes: a surrogate pair is one code point; `\u0000` and
  // surrogates that are not paired denote nothing, and an escape after a high surrogate is consumed with it.
  function CharsValue(cs: seq<StrChar>): string
    requires CharsOk(cs)
  {
    if cs == [] then ""
    else
      match cs[0]
      case Raw(c) => [c] + CharsValue(cs[1..])
      case Short(c) => [ShortEscape(c)] + CharsValue(cs[1..])
      case Unicode(hex) =>
        var u := HexNumber(hex);
        if u == 0 || Low(u) then CharsValue(cs[1..])
        else if !High(u) then Encode(u) + CharsValue(cs[1..])
        else if |cs| == 1 || !cs[1].Unicode? then CharsValue(cs[1..])
        else
          assert CharOk(cs[1]);
          var w := HexNumber(cs[1].hex);
          (if Low(w) then Encode(Pair(u, w)) else "") + CharsValue(cs[2..])
  }

  function Value(s: Syntax): Json
    requires Ok(s)
  {
    match s
    case SNull => Null
    case SFalse => Bool(false)
    case STrue => Bool(true)
    case SNum(n) => Num(NumberValue(n))
    case SStr(cs) => Str(CharsValue(cs))
    case SEmptyArr(_) => Arr(ENil)
    case SArr(items) => Arr(ItemsValue(items))
    case SEmptyObj(_) => Obj(MNil)
    case SObj(fields) => Obj(FieldsValue(fields))
  }

  function ItemsValue(its: Items): Elems
    requires ItemsOk(its)
  {
    ECons(Value(its.v), if its.Item? then ItemsValue(its.rest) else ENil)
  }

  function FieldsValue(fs: Fields): Members
    requires FieldsOk(fs)
  {
    MCons(CharsValue(fs.key), Value(fs.v), if fs.Field? then FieldsValue(fs.rest) else MNil)
  }
}
