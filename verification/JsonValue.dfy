/**
  The values a cJSON tree stands for, and the text that the printers promise for a value.
  Text is a sequence of C chars; a C string is such a sequence without '\0'.
 */
module JsonValue {

  // `cJSON` nodes by their abstract value. The children of an array or object form a chain.
  datatype Json =
    | Null
    | Bool(b: bool)
    | Num(d: real)
    | Str(s: string)
    | Arr(elems: Elems)
    | Obj(members: Members)

  datatype Elems = ENil | ECons(head: Json, tail: Elems)

  datatype Members = MNil | MCons(name: string, value: Json, rest: Members)

  predicate CString(s: string) {
    '\0' !in s
  }

  // Numbers for which `print_number` takes its "0" or "%d" path.
  predicate Int32(d: real) {
    d == d.Floor as real && -0x8000_0000 <= d.Floor <= 0x7FFF_FFFF
  }

  // Trees of null, booleans, int32 numbers, C strings, arrays and objects.
  predicate Printable(v: Json) {
    match v
    case Num(d) => Int32(d)
    case Str(s) => CString(s)
    case Arr(es) => PrintableElems(es)
    case Obj(ms) => PrintableMembers(ms)
    case _ => true
  }

  predicate PrintableElems(es: Elems) {
    es.ECons? ==> Printable(es.head) && PrintableElems(es.tail)
  }

  predicate PrintableMembers(ms: Members) {
    ms.MCons? ==> CString(ms.name) && Printable(ms.value) && PrintableMembers(ms.rest)
  }

  function Tabs(n: int): string {
    if n <= 0 then "" else "\t" + Tabs(n - 1)
  }

  function Digit(n: nat): char
    requires n < 10
  {
    '0' + n as char
  }

  // A number written in base ten.
  function Decimal(n: nat): string {
    if n < 10 then [Digit(n)] else Decimal(n / 10) + [Digit(n % 10)]
  }

  // printf's "%d"
  function Signed(n: int): string {
    if n < 0 then "-" + Decimal(-n) else Decimal(n)
  }

  function HexDigit(n: nat): char
    requires n < 16
  {
    if n < 10 then '0' + n as char else 'a' + (n - 10) as char
  }

  // How one char of a string is written between the quotes.
  function EscapeChar(c: char): string {
    match c
    case '\\' => "\\\\"
    case '\"' => "\\\""
    case '\U{0008}' => "\\b"
    case '\U{000C}' => "\\f"
    case '\n' => "\\n"
    case '\r' => "\\r"
    case '\t' => "\\t"
    case _ =>
      if c < ' ' then "\\u00" + [HexDigit(c as int / 16), HexDigit(c as int % 16)] else [c]
  }

  function Escape(s: string): string {
    if s == "" then "" else EscapeChar(s[0]) + Escape(s[1..])
  }

  function Quoted(s: string): string {
    "\"" + Escape(s) + "\""
  }

  // The text of a value: formatted (tabs and newlines) or unformatted.
  function Render(v: Json, fmt: bool, depth: nat): string {
    match v
    case Null => "null"
    case Bool(b) => if b then "true" else "false"
    case Num(d) => Signed(d.Floor)
    case Str(s) => Quoted(s)
    case Arr(es) => "[" + RenderElems(es, fmt, depth + 1) + "]"
    case Obj(MNil) => if fmt then "{\n" + Tabs(depth - 1) + "}" else "{}"
    case Obj(ms) =>
      (if fmt then "{\n" else "{") + RenderMembers(ms, fmt, depth + 1)
      + (if fmt then Tabs(depth) else "") + "}"
  }

  function Comma(fmt: bool): string {
    if fmt then ", " else ","
  }

  function RenderElems(es: Elems, fmt: bool, depth: nat): string {
    match es
    case ENil => ""
    case ECons(h, t) =>
      Render(h, fmt, depth) + (if t.ECons? then Comma(fmt) else "") + RenderElems(t, fmt, depth)
  }

  function MemberStart(fmt: bool, depth: nat): string {
    if fmt then Tabs(depth) else ""
  }

  function Colon(fmt: bool): string {
    if fmt then ":\t" else ":"
  }

  function MemberEnd(fmt: bool, more: bool): string {
    (if more then "," else "") + (if fmt then "\n" else "")
  }

  function RenderMembers(ms: Members, fmt: bool, depth: nat): string {
    match ms
    case MNil => ""
    case MCons(k, v, rest) =>
      MemberStart(fmt, depth) + Quoted(k) + Colon(fmt) + Render(v, fmt, depth)
      + MemberEnd(fmt, rest.MCons?) + RenderMembers(rest, fmt, depth)
  }
}
