/**
  What the chars and numbers of the parser and the printers mean, told in other words than those by which they are
  computed: the digits, the escapes of section 7 of RFC 8259, and numbers as quotients and multiples of powers of ten.
 */
module Meanings {
  import opened JsonValue
  import opened Parsing
  import opened Grammar
  import opened Completeness

  // --- digits ---

  lemma DigitTable(c: char)
    ensures IsDigit(c) <==> c in "0123456789"
    ensures IsDigit(c) ==> DigitValue(c) < 10 && "0123456789"[DigitValue(c)] == c
  {
    if IsDigit(c) {
      assert c == "0123456789"[DigitValue(c)];
    }
  }

  // Hex digits in either letter case.
  lemma HexTable(c: char)
    ensures HexValue(c) >= 0 <==> c in "0123456789abcdef" || c in "0123456789ABCDEF"
    ensures HexValue(c) >= 0 ==> c == "0123456789abcdef"[HexValue(c)] || c == "0123456789ABCDEF"[HexValue(c)]
  {
    LowerTable(c);
    UpperTable(c);
    hide HexValue;
  }

  lemma LowerTable(c: char)
    ensures c in "0123456789abcdef" ==> HexValue(c) >= 0
    ensures HexValue(c) >= 0 && !('A' <= c <= 'F') ==> c == "0123456789abcdef"[HexValue(c)]
  {
  }

  lemma UpperTable(c: char)
    ensures c in "0123456789ABCDEF" ==> HexValue(c) >= 0
    ensures 'A' <= c <= 'F' ==> HexValue(c) >= 0 && c == "0123456789ABCDEF"[HexValue(c)]
  {
  }

  // --- chars of strings ---

  // An unescaped char denotes itself, control chars too.
  lemma RawChars(t: string, i: nat, c: char, cs: seq<StrChar>)
    requires CharOk(Raw(c)) && CharsOk(cs) && IsAt(t, i, StringText([Raw(c)] + cs))
    ensures ParseString(t, i).Parsed? && ParseString(t, i).value == [c] + CharsValue(cs)
  {
    hide IsAt, StringText, ParseString;
    ParsesString(t, i, [Raw(c)] + cs);
    assert ([Raw(c)] + cs)[1..] == cs;
  }

  // A backslash and a char denote that char, but for five letters.
  lemma ShortEscapes(t: string, i: nat, c: char, cs: seq<StrChar>)
    requires CharOk(Short(c)) && CharsOk(cs) && IsAt(t, i, StringText([Short(c)] + cs))
    ensures ParseString(t, i).Parsed?
    ensures ParseString(t, i).value
      == (if c == 'b' then "\U{0008}" else if c == 'f' then "\U{000C}" else if c == 'n' then "\n"
          else if c == 'r' then "\r" else if c == 't' then "\t" else [c])
         + CharsValue(cs)
  {
    hide IsAt, StringText, ParseString;
    ParsesString(t, i, [Short(c)] + cs);
    assert ([Short(c)] + cs)[1..] == cs;
  }

  // What the printers write for a char: the char itself, a short escape that denotes it, or four hex digits in lower
  // case.
  lemma EscapeTable(c: char)
    ensures c >= ' ' && c != '\"' && c != '\\' ==> EscapeChar(c) == [c]
    ensures c in "\"\\\U{0008}\U{000C}\n\r\t" ==> PrintedShort(c, EscapeChar(c))
    ensures c < ' ' && c !in "\U{0008}\U{000C}\n\r\t" ==> PrintedHex(c, EscapeChar(c))
  {
    hide EscapeChar, PrintedShort, PrintedHex;
    if c in "\"\\\U{0008}\U{000C}\n\r\t" {
      ShortPrinted(c);
    } else if c < ' ' {
      HexPrinted(c);
    } else {
      PlainPrinted(c);
    }
  }

  predicate PrintedShort(c: char, e: string) {
    |e| == 2 && e[0] == '\\' && RfcChar(Short(e[1])) && CharsValue([Short(e[1])]) == [c]
  }

  predicate PrintedHex(c: char, e: string) {
    && |e| == 6 && e[..4] == "\\u00" && e[4] in "0123456789abcdef" && e[5] in "0123456789abcdef"
    && HexValue(e[4]) * 16 + HexValue(e[5]) == c as int
  }

  lemma PlainPrinted(c: char)
    requires c >= ' ' && c != '\"' && c != '\\'
    ensures EscapeChar(c) == [c]
  {
  }

  lemma ShortPrinted(c: char)
    requires c in "\"\\\U{0008}\U{000C}\n\r\t"
    ensures PrintedShort(c, EscapeChar(c))
  {
    var e := EscapeChar(c)[1];
    assert [Short(e)][1..] == [];
  }

  lemma HexPrinted(c: char)
    requires c < ' ' && c !in "\U{0008}\U{000C}\n\r\t"
    ensures PrintedHex(c, EscapeChar(c))
  {
    hide HexDigit;
    LowerDigit(c as int / 16);
    LowerDigit(c as int % 16);
  }

  lemma LowerDigit(n: nat)
    requires n < 16
    ensures HexDigit(n) == "0123456789abcdef"[n] && HexValue(HexDigit(n)) == n
  {
  }

  // --- numbers ---

  function Tens(k: nat): real {
    if k == 0 then 1.0 else 10.0 * Tens(k - 1)
  }

  lemma {:induction false} ScaleUp(m: real, k: nat)
    ensures Scale(m, k) == m * Tens(k)
    decreases k
  {
    if k > 0 {
      ScaleUp(10.0 * m, k - 1);
    }
  }

  lemma {:induction false} ScaleDown(m: real, k: nat)
    ensures Scale(m, -(k as int)) * Tens(k) == m
    decreases k
  {
    if k > 0 {
      ScaleDown(m / 10.0, k - 1);
      var s, p := Scale(m / 10.0, -(k - 1) as int), Tens(k - 1);
      assert s * (10.0 * p) == 10.0 * (s * p);
    }
  }

  // The number that a token without exponent denotes: its digits, divided by ten as often as digits stand behind the
  // point.
  lemma WholeMeaning(n: Number)
    requires NumberOk(n) && n.exp.NoExp?
    ensures var p := Tens(|n.frac|);
      var digits := Natural(n.whole) as real * p + Natural(n.frac) as real;
      NumberValue(n) * p == if n.neg then -digits else digits
  {
    hide NumberValue, Natural, Scale, Tens, Digits;
    var q := Natural(n.frac) as real;
    NoExponent(n);
    ScaleDown(q, |n.frac|);
    Spread(Natural(n.whole) as real, Scale(q, -|n.frac|), Tens(|n.frac|), q);
  }

  lemma NoExponent(n: Number)
    requires NumberOk(n) && n.exp.NoExp?
    ensures var m := Natural(n.whole) as real + Scale(Natural(n.frac) as real, -|n.frac|);
      NumberValue(n) == if n.neg then -m else m
  {
    hide Natural;
  }

  lemma Spread(w: real, f: real, p: real, q: real)
    requires f * p == q
    ensures (w + f) * p == w * p + q && -(w + f) * p == -(w * p + q)
  {
  }

  // The exponent multiplies or divides it by ten as often as it says.
  lemma ExponentMeaning(n: Number)
    requires NumberOk(n) && n.exp.Exp?
    ensures var v, p := NumberValue(n.(exp := NoExp)), Tens(Natural(n.exp.digits));
      if n.exp.sign == "-" then NumberValue(n) * p == v else NumberValue(n) == v * p
  {
    hide Natural, Tens;
    var v, k := NumberValue(n.(exp := NoExp)), Natural(n.exp.digits);
    Exponent(n, v, k);
    ScaleUp(v, k);
    ScaleDown(v, k);
  }

  lemma Exponent(n: Number, v: real, k: nat)
    requires NumberOk(n) && n.exp.Exp? && v == NumberValue(n.(exp := NoExp)) && k == Natural(n.exp.digits)
    ensures NumberValue(n) == Scale(v, if n.exp.sign == "-" then -(k as int) else k)
  {
    hide Natural;
  }
}
