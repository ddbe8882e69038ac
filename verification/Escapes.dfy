/**
  `\u` escapes (section 7 of RFC 8259): `parse_string` turns every way to escape a code point into
  its UTF-8 encoding (src/cJSON.c, lines 177-191 and 216-238).
 */
module Escapes {
  import opened Utf8
  import opened Parsing
  import opened Grammar
  import opened Completeness

  // cs escapes the code point u: four hex digits in any letter case, or a surrogate pair of them.
  predicate EscapesTo(cs: seq<StrChar>, u: nat) {
    && CharsOk(cs) && (forall c | c in cs :: c.Unicode?)
    && (|cs| == 1 || |cs| == 2)
    && (|cs| == 1 ==> HexNumber(cs[0].hex) == u)
    && (|cs| == 2 ==>
          && High(HexNumber(cs[0].hex)) && Low(HexNumber(cs[1].hex))
          && Pair(HexNumber(cs[0].hex), HexNumber(cs[1].hex)) == u)
  }

  // Main theorem. The parsed string is the UTF-8 encoding of the code point, and decodes to it.
  lemma Transcodes(t: string, i: nat, cs: seq<StrChar>, u: nat)
    requires 0 < u && Scalar(u) && EscapesTo(cs, u) && IsAt(t, i, StringText(cs))
    ensures var r := ParseString(t, i);
      r == Parsed(Encode(u), i + |StringText(cs)|) && Decode(r.value) == u
  {
    ParsesString(t, i, cs);
    CharsMean(cs, u);
    DecodeEncode(u);
  }

  lemma CharsMean(cs: seq<StrChar>, u: nat)
    requires 0 < u && Scalar(u) && EscapesTo(cs, u)
    ensures CharsValue(cs) == Encode(u)
  {
    hide Encode, HexNumber;
    assert cs[0] in cs && (|cs| == 2 ==> cs[1] in cs);
    assert cs[|cs|..] == [] && CharsValue([]) == "";
    assert Encode(u) + "" == Encode(u);
  }

  // U+0000 and a low surrogate denote nothing, and an escape after a high surrogate is consumed with it: if it is not
  // the other half of a pair, both denote nothing. Without an escape after it a high surrogate denotes nothing either.
  lemma NothingDenoted(t: string, i: nat, cs: seq<StrChar>)
    requires CharsOk(cs) && IsAt(t, i, StringText(cs)) && cs != [] && cs[0].Unicode?
    ensures CharOk(cs[0]) && ParseString(t, i).Parsed?
    ensures HexNumber(cs[0].hex) == 0 || Low(HexNumber(cs[0].hex)) ==>
      CharsOk(cs[1..]) && ParseString(t, i).value == CharsValue(cs[1..])
    ensures High(HexNumber(cs[0].hex)) && (|cs| == 1 || !cs[1].Unicode?) ==>
      CharsOk(cs[1..]) && ParseString(t, i).value == CharsValue(cs[1..])
    ensures |cs| > 1 && cs[1].Unicode? ==>
      && CharOk(cs[1])
      && (High(HexNumber(cs[0].hex)) && !Low(HexNumber(cs[1].hex)) ==>
            CharsOk(cs[2..]) && ParseString(t, i).value == CharsValue(cs[2..]))
  {
    hide IsAt, StringText, ParseString, HexNumber, Encode, CharOk;
    assert cs[0] in cs && (|cs| > 1 ==> cs[1] in cs);
    ParsesString(t, i, cs);
  }

  // --- every code point can be escaped, in either letter case ---

  function HexChar(d: nat, upper: bool): char
    requires d < 16
  {
    if d < 10 then ('0' as int + d) as char else ((if upper then 'A' else 'a') as int + d - 10) as char
  }

  function Hex(u: nat, upper: bool): string
    requires u < 0x1_0000
  {
    [HexChar(u / 4096, upper), HexChar(u / 256 % 16, upper), HexChar(u / 16 % 16, upper), HexChar(u % 16, upper)]
  }

  predicate InCase(hex: string, upper: bool) {
    forall h | h in hex :: if upper then !('a' <= h <= 'f') else !('A' <= h <= 'F')
  }

  lemma HexMeans(u: nat, upper: bool)
    requires u < 0x1_0000
    ensures CharOk(Unicode(Hex(u, upper))) && HexNumber(Hex(u, upper)) == u && InCase(Hex(u, upper), upper)
  {
    hide HexChar, HexValue, Plain;
    FourDigits(u);
    HexCharMeans(u / 4096, upper);
    HexCharMeans(u / 256 % 16, upper);
    HexCharMeans(u / 16 % 16, upper);
    HexCharMeans(u % 16, upper);
  }

  lemma FourDigits(u: nat)
    ensures u == u / 4096 * 4096 + u / 256 % 16 * 256 + u / 16 % 16 * 16 + u % 16
  {
    var a, b := u / 16, u / 256;
    assert b == a / 16 && u / 4096 == b / 16;
    assert u == 16 * a + u % 16 && a == 16 * b + a % 16 && b == 16 * (b / 16) + b % 16;
  }

  lemma HexCharMeans(d: nat, upper: bool)
    requires d < 16
    ensures var c := HexChar(d, upper);
      HexValue(c) == d && Plain(c) && if upper then !('a' <= c <= 'f') else !('A' <= c <= 'F')
  {
  }

  lemma CanBeEscaped(u: nat, upper: bool) returns (cs: seq<StrChar>)
    requires Scalar(u)
    ensures EscapesTo(cs, u) && |cs| == if u < 0x1_0000 then 1 else 2
    ensures forall c | c in cs :: InCase(c.hex, upper)
  {
    hide Hex, HexNumber, InCase;
    if u < 0x1_0000 {
      HexMeans(u, upper);
      cs := [Unicode(Hex(u, upper))];
    } else {
      var hi, lo := PairOnto(u);
      HexMeans(hi, upper);
      HexMeans(lo, upper);
      cs := [Unicode(Hex(hi, upper)), Unicode(Hex(lo, upper))];
    }
  }
}
