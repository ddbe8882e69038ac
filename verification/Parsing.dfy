/**
  What the parser of src/cJSON.c computes on a text, as functions of the text and a position.
  The text is a C string: reading at position |t| gives the terminating '\0'.
 */
module Parsing {
  import opened JsonValue
  import opened Utf8

  // Parsed: a value and the position after it. Rejected: the source returns 0. Undefined: the source
  // would read past the terminator or write past a block, so its behaviour is not defined.
  datatype Outcome<+T> = Parsed(value: T, next: nat) | Rejected | Undefined

  function Peek(t: string, i: nat): char {
    if i < |t| then t[i] else '\0'
  }

  predicate StartsWith(t: string, i: nat, word: string)
    requires i <= |t|
  {
    i + |word| <= |t| && t[i..i + |word|] == word
  }

  // `skip`: every char up to and including ' ' counts as white space.
  function Skip(t: string, i: nat): (j: nat)
    requires i <= |t|
    ensures i <= j <= |t|
    decreases |t| - i
  {
    if i < |t| && t[i] != '\0' && t[i] <= ' ' then Skip(t, i + 1) else i
  }

  // --- numbers ---

  predicate IsDigit(c: char) {
    '0' <= c <= '9'
  }

  function DigitValue(c: char): nat
    requires IsDigit(c)
  {
    (c - '0') as nat
  }

  // The end of the run of digits that starts at i.
  function DigitRun(t: string, i: nat): (j: nat)
    requires i <= |t|
    ensures i <= j <= |t|
    ensures forall k :: i <= k < j ==> IsDigit(t[k])
    decreases |t| - i
  {
    if i < |t| && IsDigit(t[i]) then DigitRun(t, i + 1) else i
  }

  // n = n*10 + digit, over the digits of s from the left.
  function Accumulate(n: nat, s: string): nat
    requires forall c | c in s :: IsDigit(c)
    decreases s
  {
    if s == "" then n else Accumulate(n * 10 + DigitValue(s[0]), s[1..])
  }

  // m * 10^e, exactly.
  function Scale(m: real, e: int): real
    decreases if e < 0 then -e else e
  {
    if e == 0 then m
    else if e > 0 then Scale(10.0 * m, e - 1)
    else Scale(m / 10.0, e + 1)
  }

  // The locals of `parse_number`, and where it stops.
  datatype Scan = Scan(sign: int, n: nat, scale: int, subscale: int, next: nat) {
    // sign * n * 10^(scale + subscale), in exact arithmetic
    function Value(): real {
      Scale((sign * n) as real, scale + subscale)
    }
  }

  function ScanWhole(t: string, i: nat): (s: Scan)
    requires i <= |t|
    ensures i <= s.next <= |t|
  {
    var neg := Peek(t, i) == '-';
    var i1 := if neg then i + 1 else i;
    var i2 := if Peek(t, i1) == '0' then i1 + 1 else i1;
    var i3 := if '1' <= Peek(t, i2) <= '9' then DigitRun(t, i2) else i2;
    Scan(if neg then -1 else 1, Accumulate(0, t[i2..i3]), 0, 0, i3)
  }

  function ScanFraction(t: string, s: Scan): (r: Scan)
    requires s.next <= |t|
    ensures s.next <= r.next <= |t|
  {
    var i := s.next;
    if Peek(t, i) == '.' && IsDigit(Peek(t, i + 1)) then
      var j := DigitRun(t, i + 1);
      s.(n := Accumulate(s.n, t[i + 1..j]), scale := s.scale - (j - (i + 1)), next := j)
    else
      s
  }

  function ScanExponent(t: string, s: Scan): (r: Scan)
    requires s.next <= |t|
    ensures s.next <= r.next <= |t|
  {
    var i := s.next;
    if Peek(t, i) == 'e' || Peek(t, i) == 'E' then
      var signed := Peek(t, i + 1) == '+' || Peek(t, i + 1) == '-';
      var i2 := if signed then i + 2 else i + 1;
      var j := DigitRun(t, i2);
      var sub: int := Accumulate(0, t[i2..j]);
      s.(subscale := if Peek(t, i + 1) == '-' then -sub else sub, next := j)
    else
      s
  }

  function ScanNumber(t: string, i: nat): (s: Scan)
    requires i <= |t|
    ensures i <= s.next <= |t|
    ensures Peek(t, i) == '-' || IsDigit(Peek(t, i)) ==> i < s.next
  {
    ScanExponent(t, ScanFraction(t, ScanWhole(t, i)))
  }

  // --- strings ---

  function HexValue(c: char): (h: int)
    ensures -1 <= h < 16
  {
    if '0' <= c <= '9' then (c - '0') as int
    else if 'A' <= c <= 'F' then 10 + (c - 'A') as int
    else if 'a' <= c <= 'f' then 10 + (c - 'a') as int
    else -1
  }

  // `parse_hex4`: 0 when one of the four chars is no hex digit.
  function Hex4(t: string, i: nat): (u: nat)
    ensures u < 0x1_0000
  {
    var a, b := HexValue(Peek(t, i)), HexValue(Peek(t, i + 1));
    var c, d := HexValue(Peek(t, i + 2)), HexValue(Peek(t, i + 3));
    if a < 0 || b < 0 || c < 0 || d < 0 then 0 else a * 4096 + b * 256 + c * 16 + d
  }

  predicate AtStringEnd(t: string, i: nat) {
    Peek(t, i) == '\"' || Peek(t, i) == '\0'
  }

  // The length pass of `parse_string`: the room to allocate and where the pass stops.
  datatype Extent = Extent(len: nat, end: nat) | Overrun

  function Measure(t: string, i: nat): (m: Extent)
    requires i <= |t|
    ensures m.Extent? ==> i <= m.end <= |t| && AtStringEnd(t, m.end)
    decreases |t| - i
  {
    if AtStringEnd(t, i) then Extent(0, i)
    else if t[i] == '\\' && i + 2 > |t| then Overrun
    else
      var m := Measure(t, if t[i] == '\\' then i + 2 else i + 1);
      if m.Extent? then Extent(m.len + 1, m.end) else Overrun
  }

  function ShortEscape(c: char): char {
    match c
    case 'b' => '\U{0008}'
    case 'f' => '\U{000C}'
    case 'n' => '\n'
    case 'r' => '\r'
    case 't' => '\t'
    case _ => c
  }

  // What `\u` at positions k-1, k emits, and the position after the escape. A zero, a lone low
  // surrogate and a high surrogate without a low one emit nothing.
  function UnicodeEscape(t: string, k: nat): (r: Outcome<string>)
    requires k < |t|
    ensures r.Parsed? ==> k + 5 <= r.next <= |t|
    ensures !r.Rejected?
  {
    if k + 5 > |t| then Undefined
    else
      var u := Hex4(t, k + 1);
      if Low(u) || u == 0 then Parsed("", k + 5)
      else if High(u) then
        if Peek(t, k + 5) != '\\' || Peek(t, k + 6) != 'u' then Parsed("", k + 5)
        else if k + 11 > |t| then Undefined
        else
          var w := Hex4(t, k + 7);
          if Low(w) then Parsed(Encode(Pair(u, w)), k + 11) else Parsed("", k + 11)
      else Parsed(Encode(u), k + 5)
  }

  // One turn of the decode pass of `parse_string`.
  function DecodeStep(t: string, i: nat): (r: Outcome<string>)
    requires i < |t| && !AtStringEnd(t, i)
    ensures r.Parsed? ==> i < r.next <= |t|
    ensures !r.Rejected?
  {
    if t[i] != '\\' then Parsed([t[i]], i + 1)
    else if i + 1 == |t| then Undefined
    else if t[i + 1] == 'u' then UnicodeEscape(t, i + 1)
    else Parsed([ShortEscape(t[i + 1])], i + 2)
  }

  // The decode pass: the decoded chars and where the pass stops.
  function DecodeFrom(t: string, i: nat): (r: Outcome<string>)
    requires i <= |t|
    ensures r.Parsed? ==> i <= r.next <= |t| && AtStringEnd(t, r.next)
    ensures !r.Rejected?
    decreases |t| - i
  {
    if AtStringEnd(t, i) then Parsed("", i)
    else
      match DecodeStep(t, i)
      case Parsed(s, j) =>
        var r := DecodeFrom(t, j);
        if r.Parsed? then Parsed(s + r.value, r.next) else Undefined
      case _ => Undefined
  }

  function ParseString(t: string, i: nat): (r: Outcome<string>)
    requires i <= |t|
    ensures r.Parsed? ==> i < r.next <= |t|
  {
    if Peek(t, i) != '\"' then Rejected
    else
      match Measure(t, i + 1)
      case Overrun => Undefined
      case Extent(len, _) =>
        var r := DecodeFrom(t, i + 1);
        if r.Undefined? || |r.value| > len then Undefined
        else Parsed(r.value, if Peek(t, r.next) == '\"' then r.next + 1 else r.next)
  }

  // --- values ---

  function ParseValue(t: string, i: nat): (r: Outcome<Json>)
    requires i <= |t|
    ensures r.Parsed? ==> i < r.next <= |t|
    decreases |t| - i, 1
  {
    if StartsWith(t, i, "null") then Parsed(Null, i + 4)
    else if StartsWith(t, i, "false") then Parsed(Bool(false), i + 5)
    else if StartsWith(t, i, "true") then Parsed(Bool(true), i + 4)
    else if Peek(t, i) == '\"' then
      var r := ParseString(t, i);
      if r.Parsed? then Parsed(Str(r.value), r.next) else Undefined
    else if Peek(t, i) == '-' || IsDigit(Peek(t, i)) then
      var s := ScanNumber(t, i);
      Parsed(Num(s.Value()), s.next)
    else if Peek(t, i) == '[' then ParseArray(t, i)
    else if Peek(t, i) == '{' then ParseObject(t, i)
    else Rejected
  }

  function ParseArray(t: string, i: nat): (r: Outcome<Json>)
    requires i < |t| && t[i] == '['
    ensures r.Parsed? ==> i < r.next <= |t|
    decreases |t| - i, 0
  {
    var j := Skip(t, i + 1);
    if Peek(t, j) == ']' then Parsed(Arr(ENil), j + 1)
    else
      match ParseElems(t, j)
      case Parsed(es, k) => Parsed(Arr(es), k)
      case Rejected => Rejected
      case Undefined => Undefined
  }

  // Elements separated by ',' up to and including the ']'.
  function ParseElems(t: string, i: nat): (r: Outcome<Elems>)
    requires i <= |t|
    ensures r.Parsed? ==> i < r.next <= |t| && r.value.ECons?
    decreases |t| - i, 2
  {
    match ParseValue(t, Skip(t, i))
    case Rejected => Rejected
    case Undefined => Undefined
    case Parsed(v, j) =>
      var k := Skip(t, j);
      if Peek(t, k) == ',' then
        match ParseElems(t, k + 1)
        case Parsed(es, n) => Parsed(ECons(v, es), n)
        case Rejected => Rejected
        case Undefined => Undefined
      else if Peek(t, k) == ']' then Parsed(ECons(v, ENil), k + 1)
      else Rejected
  }

  function ParseObject(t: string, i: nat): (r: Outcome<Json>)
    requires i < |t| && t[i] == '{'
    ensures r.Parsed? ==> i < r.next <= |t|
    decreases |t| - i, 0
  {
    var j := Skip(t, i + 1);
    if Peek(t, j) == '}' then Parsed(Obj(MNil), j + 1)
    else
      match ParseMembers(t, j)
      case Parsed(ms, k) => Parsed(Obj(ms), k)
      case Rejected => Rejected
      case Undefined => Undefined
  }

  // Members separated by ',' up to and including the '}'.
  function ParseMembers(t: string, i: nat): (r: Outcome<Members>)
    requires i <= |t|
    ensures r.Parsed? ==> i < r.next <= |t| && r.value.MCons?
    decreases |t| - i, 2
  {
    match ParseMember(t, i)
    case Rejected => Rejected
    case Undefined => Undefined
    case Parsed((name, v), j) =>
      var k := Skip(t, j);
      if Peek(t, k) == ',' then
        match ParseMembers(t, k + 1)
        case Parsed(ms, n) => Parsed(MCons(name, v, ms), n)
        case Rejected => Rejected
        case Undefined => Undefined
      else if Peek(t, k) == '}' then Parsed(MCons(name, v, MNil), k + 1)
      else Rejected
  }

  // A name, a ':' and a value.
  function ParseMember(t: string, i: nat): (r: Outcome<(string, Json)>)
    requires i <= |t|
    ensures r.Parsed? ==> i < r.next <= |t|
    decreases |t| - i, 1
  {
    match ParseString(t, Skip(t, i))
    case Rejected => Rejected
    case Undefined => Undefined
    case Parsed(name, j) =>
      var k := Skip(t, j);
      if Peek(t, k) != ':' then Rejected
      else
        match ParseValue(t, Skip(t, k + 1))
        case Parsed(v, n) => Parsed((name, v), n)
        case Rejected => Rejected
        case Undefined => Undefined
  }

  // `cJSON_ParseWithOpts`
  function Parse(t: string, nullTerminated: bool): Outcome<Json> {
    match ParseValue(t, Skip(t, 0))
    case Parsed(v, j) =>
      var k := Skip(t, j);
      if !nullTerminated then Parsed(v, j)
      else if Peek(t, k) == '\0' then Parsed(v, k)
      else Rejected
    case r => r
  }
}
