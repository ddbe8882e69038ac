/**
  Completeness of the parser: on the text of every syntax tree, with any white space between tokens, it stops right
  after the value and returns what the tree denotes.
 */
module Completeness {
  import opened JsonValue
  import opened Utf8
  import opened Parsing
  import opened Grammar

  // s stands in t at position i.
  predicate IsAt(t: string, i: nat, s: string) {
    i + |s| <= |t| && t[i..i + |s|] == s
  }

  lemma Split(t: string, i: nat, a: string, b: string)
    requires IsAt(t, i, a + b)
    ensures IsAt(t, i, a) && IsAt(t, i + |a|, b)
  {
    var ab := t[i..i + |a + b|];
    assert ab[..|a|] == a && ab[|a|..] == b;
  }

  lemma First(t: string, i: nat, s: string)
    requires IsAt(t, i, s) && s != ""
    ensures i < |t| && t[i] == s[0]
  {
    assert t[i..i + |s|][0] == s[0];
  }

  lemma Join(t: string, i: nat, a: string, b: string)
    requires IsAt(t, i, a) && IsAt(t, i + |a|, b)
    ensures IsAt(t, i, a + b) && i + |a| + |b| <= |t|
  {
  }

  lemma OneChar(t: string, i: nat)
    requires i < |t|
    ensures IsAt(t, i, [t[i]])
  {
  }

  lemma Nothing(t: string, i: nat)
    requires i <= |t|
    ensures IsAt(t, i, "")
  {
  }

  // --- white space ---

  lemma {:induction false} SkipGap(t: string, i: nat, g: Gap)
    requires PlainGap(g) && IsAt(t, i, GapText(g))
    requires Peek(t, i + |GapText(g)|) > ' ' || Peek(t, i + |GapText(g)|) == '\0'
    ensures Skip(t, i) == i + |GapText(g)|
    decreases |g|
  {
    if g != [] {
      assert g[0] in g;
      Split(t, i, PieceText(g[0]), GapText(g[1..]));
      First(t, i, PieceText(g[0]));
      assert PlainGap(g[1..]);
      SkipGap(t, i + 1, g[1..]);
    }
  }

  // --- numbers ---

  lemma {:induction false} RunOfDigits(t: string, i: nat, s: string)
    requires Digits(s) && IsAt(t, i, s)
    requires !IsDigit(Peek(t, i + |s|))
    ensures DigitRun(t, i) == i + |s|
    decreases |s|
  {
    if s != "" {
      First(t, i, s);
      assert s == [s[0]] + s[1..];
      Split(t, i, [s[0]], s[1..]);
      RunOfDigits(t, i + 1, s[1..]);
    }
  }

  lemma ScaleStep(m: real, e: int)
    ensures Scale(10.0 * m, e - 1) == Scale(m, e)
  {
  }

  lemma {:induction false} ScaleScale(m: real, a: int, b: int)
    ensures Scale(Scale(m, a), b) == Scale(m, a + b)
    decreases if a < 0 then -a else a
  {
    if a > 0 {
      ScaleScale(10.0 * m, a - 1, b);
      ScaleStep(m, a + b);
    } else if a < 0 {
      ScaleScale(m / 10.0, a + 1, b);
      ScaleStep(m / 10.0, a + b + 1);
    }
  }

  lemma {:induction false} ScaleSum(x: real, y: real, e: int)
    ensures Scale(x + y, e) == Scale(x, e) + Scale(y, e)
    ensures Scale(-x, e) == -Scale(x, e)
    decreases if e < 0 then -e else e
  {
    if e > 0 {
      ScaleSum(10.0 * x, 10.0 * y, e - 1);
    } else if e < 0 {
      ScaleSum(x / 10.0, y / 10.0, e + 1);
    }
  }

  // Accumulating from the left reads the digits positionally.
  lemma {:induction false} AccumulateNatural(n: nat, s: string)
    requires Digits(s)
    ensures Accumulate(n, s) as real == Scale(n as real, |s|) + Natural(s) as real
    decreases |s|
  {
    if s != "" {
      var init, last := s[..|s| - 1], s[|s| - 1];
      AccumulateNatural(n, init);
      AccumulateLast(n, init, last);
      assert s == init + [last];
      ScaleScale(n as real, |init|, 1);
      assert Scale(Scale(n as real, |init|), 1) == 10.0 * Scale(n as real, |init|);
    }
  }

  lemma AccumulateZero(s: string)
    requires Digits(s)
    ensures Accumulate(0, s) == Natural(s)
  {
    AccumulateNatural(0, s);
    ScaleSum(0.0, 0.0, |s|);
  }

  lemma {:induction false} AccumulateLast(n: nat, s: string, c: char)
    requires Digits(s) && IsDigit(c)
    ensures Accumulate(n, s + [c]) == Accumulate(n, s) * 10 + DigitValue(c)
    decreases |s|
  {
    if s == "" {
      assert s + [c] == [c];
      assert Accumulate(n, [c]) == Accumulate(n * 10 + DigitValue(c), [c][1..]);
    } else {
      assert (s + [c])[1..] == s[1..] + [c];
      AccumulateLast(n * 10 + DigitValue(s[0]), s[1..], c);
    }
  }

  // The exact value that `parse_number` accumulates for a number token.
  lemma NumberScan(n: Number, s: Scan)
    requires NumberOk(n)
    requires s.sign == (if n.neg then -1 else 1) && s.scale == -|n.frac| && s.subscale == ExponentValue(n.exp)
    requires s.n == Accumulate(Accumulate(0, n.whole), n.frac)
    ensures s.Value() == NumberValue(n)
  {
    hide Accumulate, Natural, ExponentValue;
    var k, e := |n.frac|, ExponentValue(n.exp);
    var w, f := Natural(n.whole) as real, Natural(n.frac) as real;
    AccumulateZero(n.whole);
    AccumulateNatural(Accumulate(0, n.whole), n.frac);
    assert s.n as real == Scale(w, k) + f;
    ScaleSum(Scale(w, k), f, -k);
    ScaleScale(w, k, -k);
    ScaleSum(s.n as real, 0.0, -k);
    ScaleScale((s.sign * s.n) as real, -k, e);
  }

  predicate NumberChar(c: char) {
    IsDigit(c) || c == '.' || c == 'e' || c == 'E'
  }

  // c cannot be taken for a part of the number before it.
  predicate Stops(n: Number, c: char) {
    !NumberChar(c) && (n.exp.Exp? && n.exp.sign == n.exp.digits == "" ==> c != '+' && c != '-')
  }

  // c cannot be taken for a part of any number.
  predicate Ends(c: char) {
    !NumberChar(c) && c != '+' && c != '-'
  }

  // `parse_number` consumes exactly the token and computes its value.
  lemma ScansNumber(t: string, i: nat, n: Number)
    requires NumberOk(n) && IsAt(t, i, NumberText(n)) && Stops(n, Peek(t, i + |NumberText(n)|))
    ensures var s := ScanNumber(t, i);
      s.next == i + |NumberText(n)| && s.Value() == NumberValue(n)
  {
    hide DigitRun, Accumulate, NumberText, FractionText, ExponentText, ExponentValue, NumberValue, IsAt, Scan.Value;
    hide NumberOk, ScanWhole, ScanFraction, ScanExponent, Stops;
    var fx := FractionText(n.frac) + ExponentText(n.exp);
    NumberLength(n);
    SignPart(t, i, n, fx);
    var i1 := if n.neg then i + 1 else i;
    AfterWhole(t, i1 + |n.whole|, n, fx);
    WholePart(t, i, i1, n);
    var s1 := ScanWhole(t, i);
    FractionPart(t, s1, n);
    var s2 := ScanFraction(t, s1);
    ExponentPart(t, s2, n);
    NumberScan(n, ScanExponent(t, s2));
  }

  lemma NumberLength(n: Number)
    requires NumberOk(n)
    ensures var fx := FractionText(n.frac) + ExponentText(n.exp);
      && NumberText(n) == (if n.neg then "-" else "") + (n.whole + fx)
      && |NumberText(n)| == (if n.neg then 1 else 0) + |n.whole| + |fx|
  {
  }

  lemma SignPart(t: string, i: nat, n: Number, after: string)
    requires NumberOk(n) && IsAt(t, i, (if n.neg then "-" else "") + (n.whole + after))
    ensures var i1 := if n.neg then i + 1 else i;
      (Peek(t, i) == '-') == n.neg && IsAt(t, i1, n.whole) && IsAt(t, i1 + |n.whole|, after)
  {
    hide IsAt;
    var minus := if n.neg then "-" else "";
    Split(t, i, minus, n.whole + after);
    First(t, i, minus + (n.whole + after));
    Split(t, i + |minus|, n.whole, after);
    assert n.whole != "" ==> n.whole[0] in n.whole;
  }

  lemma AfterWhole(t: string, i: nat, n: Number, fx: string)
    requires NumberOk(n) && fx == FractionText(n.frac) + ExponentText(n.exp) && IsAt(t, i, fx)
    requires Stops(n, Peek(t, i + |fx|))
    ensures !IsDigit(Peek(t, i)) && (n.frac == "" ==> Peek(t, i) != '.')
    ensures var j := i + |FractionText(n.frac)|;
      && IsAt(t, i, FractionText(n.frac)) && IsAt(t, j, ExponentText(n.exp))
      && !IsDigit(Peek(t, j)) && Stops(n, Peek(t, j + |ExponentText(n.exp)|))
  {
    var f, x := FractionText(n.frac), ExponentText(n.exp);
    Split(t, i, f, x);
    if f != "" { First(t, i, f); }
    if x != "" { First(t, i + |f|, x); }
  }

  lemma WholePart(t: string, i: nat, i1: nat, n: Number)
    requires NumberOk(n) && i <= i1 && IsAt(t, i1, n.whole)
    requires i1 == (if n.neg then i + 1 else i) && (Peek(t, i) == '-') == n.neg
    requires !IsDigit(Peek(t, i1 + |n.whole|))
    ensures ScanWhole(t, i) == Scan(if n.neg then -1 else 1, Accumulate(0, n.whole), 0, 0, i1 + |n.whole|)
  {
    hide IsAt, Accumulate, DigitRun, NumberOk;
    if n.whole != "" && n.whole[0] == '0' {
      ZeroFirst(t, i1, n);
    } else {
      NoZeroFirst(t, i1, n);
    }
  }

  lemma ZeroFirst(t: string, i: nat, n: Number)
    requires NumberOk(n) && IsAt(t, i, n.whole) && n.whole != "" && n.whole[0] == '0'
    requires !IsDigit(Peek(t, i + |n.whole|))
    ensures Peek(t, i) == '0'
    ensures var j := i + |n.whole|;
      && i + 1 <= j <= |t| && j == (if '1' <= Peek(t, i + 1) <= '9' then DigitRun(t, i + 1) else i + 1)
      && Accumulate(0, t[i + 1..j]) == Accumulate(0, n.whole)
  {
    hide Accumulate, DigitRun, IsAt, NumberOk;
    var rest := n.whole[1..];
    ZeroRest(n);
    Split(t, i, ['0'], rest);
    First(t, i, ['0']);
    LeadingZero(n.whole);
    RunOfDigits(t, i + 1, rest);
    Slice(t, i + 1, rest);
    if rest != "" {
      First(t, i + 1, rest);
    }
  }

  lemma ZeroRest(n: Number)
    requires NumberOk(n) && n.whole != "" && n.whole[0] == '0'
    ensures var rest := n.whole[1..];
      n.whole == ['0'] + rest && Digits(n.whole) && Digits(rest) && (rest != "" ==> '1' <= rest[0] <= '9')
  {
    assert forall c | c in n.whole[1..] :: c in n.whole;
    assert |n.whole| > 1 ==> n.whole[1] in n.whole;
  }

  lemma Slice(t: string, i: nat, s: string)
    requires IsAt(t, i, s)
    ensures i + |s| <= |t| && t[i..i + |s|] == s
  {
  }

  lemma NoZeroFirst(t: string, i: nat, n: Number)
    requires NumberOk(n) && IsAt(t, i, n.whole) && (n.whole == "" || n.whole[0] != '0')
    requires !IsDigit(Peek(t, i + |n.whole|))
    ensures Peek(t, i) != '0'
    ensures var j := i + |n.whole|;
      && i <= j <= |t| && j == (if '1' <= Peek(t, i) <= '9' then DigitRun(t, i) else i)
      && t[i..j] == n.whole
  {
    hide DigitRun;
    if n.whole != "" {
      First(t, i, n.whole);
      assert n.whole[0] in n.whole;
      RunOfDigits(t, i, n.whole);
    }
  }

  lemma LeadingZero(s: string)
    requires Digits(s) && s != "" && s[0] == '0'
    ensures Accumulate(0, s) == Accumulate(0, s[1..])
  {
    assert 0 * 10 + DigitValue(s[0]) == 0;
  }

  lemma FractionPart(t: string, s: Scan, n: Number)
    requires NumberOk(n) && s.scale == 0 && IsAt(t, s.next, FractionText(n.frac))
    requires !IsDigit(Peek(t, s.next + |FractionText(n.frac)|))
    requires n.frac == "" ==> Peek(t, s.next) != '.'
    ensures ScanFraction(t, s)
      == s.(n := Accumulate(s.n, n.frac), scale := -|n.frac|, next := s.next + |FractionText(n.frac)|)
  {
    hide IsAt, DigitRun, Accumulate;
    if n.frac != "" {
      Split(t, s.next, ".", n.frac);
      First(t, s.next, ".");
      First(t, s.next + 1, n.frac);
      assert n.frac[0] in n.frac;
      RunOfDigits(t, s.next + 1, n.frac);
      Slice(t, s.next + 1, n.frac);
    } else {
      assert Accumulate(s.n, n.frac) == s.n by { NoDigits(s.n); }
    }
  }

  lemma NoDigits(n: nat)
    ensures Accumulate(n, "") == n
  {
  }

  lemma ExponentPart(t: string, s: Scan, n: Number)
    requires NumberOk(n) && s.subscale == 0 && IsAt(t, s.next, ExponentText(n.exp))
    requires Stops(n, Peek(t, s.next + |ExponentText(n.exp)|))
    ensures ScanExponent(t, s)
      == s.(subscale := ExponentValue(n.exp), next := s.next + |ExponentText(n.exp)|)
  {
    hide IsAt, DigitRun, Accumulate, Natural, ExponentText, NumberOk, Stops;
    if n.exp.Exp? {
      ExponentStart(t, s.next, n);
      ExponentDigits(t, s.next + 1, n.exp.sign, n.exp.digits);
    } else {
      NoExponent(t, s.next, n);
    }
  }

  lemma ExponentStart(t: string, i: nat, n: Number)
    requires NumberOk(n) && n.exp.Exp? && IsAt(t, i, ExponentText(n.exp))
    requires Stops(n, Peek(t, i + |ExponentText(n.exp)|))
    ensures var Exp(m, sign, digits) := n.exp;
      && (Peek(t, i) == 'e' || Peek(t, i) == 'E') && |ExponentText(n.exp)| == 1 + |sign + digits|
      && IsAt(t, i + 1, sign + digits) && Digits(digits) && (sign == "" || sign == "+" || sign == "-")
      && var c := Peek(t, i + 1 + |sign + digits|);
      !IsDigit(c) && (sign == digits == "" ==> c != '+' && c != '-')
  {
    hide IsAt;
    Split(t, i, [n.exp.marker], n.exp.sign + n.exp.digits);
    First(t, i, [n.exp.marker]);
  }

  lemma NoExponent(t: string, i: nat, n: Number)
    requires n.exp.NoExp? && Stops(n, Peek(t, i + |ExponentText(n.exp)|))
    ensures Peek(t, i) != 'e' && Peek(t, i) != 'E' && |ExponentText(n.exp)| == 0
  {
  }

  lemma ExponentDigits(t: string, i: nat, sign: string, digits: string)
    requires IsAt(t, i, sign + digits) && Digits(digits)
    requires sign == "" || sign == "+" || sign == "-"
    requires var c := Peek(t, i + |sign + digits|); !IsDigit(c) && (sign == digits == "" ==> c != '+' && c != '-')
    ensures Peek(t, i) == '+' <==> sign == "+"
    ensures Peek(t, i) == '-' <==> sign == "-"
    ensures var j := i + |sign|;
      j <= |t| && DigitRun(t, j) == j + |digits| && Accumulate(0, t[j..j + |digits|]) == Natural(digits)
  {
    hide IsAt, DigitRun, Accumulate, Natural;
    Split(t, i, sign, digits);
    var j := i + |sign|;
    Slice(t, j, digits);
    if digits != "" {
      First(t, j, digits);
      assert digits[0] in digits;
    }
    if sign != "" { First(t, i, sign); }
    RunOfDigits(t, j, digits);
    AccumulateZero(digits);
  }

  // --- strings ---

  // cs stands in t at position i, up to a quote or the end of the text.
  predicate CharsAt(t: string, i: nat, cs: seq<StrChar>) {
    IsAt(t, i, CharsText(cs)) && AtStringEnd(t, i + |CharsText(cs)|)
  }

  // The turns that the length pass takes over a token.
  function Turns(cs: seq<StrChar>): nat {
    if cs == [] then 0 else (if cs[0].Unicode? then 5 else 1) + Turns(cs[1..])
  }

  lemma {:induction false} MeasuresChars(t: string, i: nat, cs: seq<StrChar>)
    requires CharsOk(cs) && CharsAt(t, i, cs)
    ensures Measure(t, i) == Extent(Turns(cs), i + |CharsText(cs)|)
    decreases |cs|
  {
    hide Measure, AtStringEnd, IsAt, CharsOk, CharsAt, CharsText, HexValue;
    if cs == [] {
      MeasuresNone(t, i, cs);
    } else {
      var j := NextChar(t, i, cs);
      CharsHead(cs);
      MeasuresChars(t, j, cs[1..]);
      if cs[0].Unicode? {
        HexAt(t, i + 2, cs[0].hex);
        MeasureUnicode(t, i);
      } else {
        MeasureOne(t, i);
      }
    }
  }

  lemma MeasuresNone(t: string, i: nat, cs: seq<StrChar>)
    requires cs == [] && CharsAt(t, i, cs)
    ensures Measure(t, i) == Extent(Turns(cs), i + |CharsText(cs)|)
  {
  }

  lemma MeasureOne(t: string, i: nat)
    requires i < |t| && !AtStringEnd(t, i)
    ensures var j := if t[i] == '\\' then i + 2 else i + 1;
      j <= |t| && Measure(t, j).Extent? ==> Measure(t, i) == Extent(Measure(t, j).len + 1, Measure(t, j).end)
  {
  }

  // A `\u` escape takes five turns.
  lemma MeasureUnicode(t: string, i: nat)
    requires i + 6 <= |t| && t[i] == '\\'
    requires forall k :: i + 2 <= k < i + 6 ==> Plain(t[k])
    requires Measure(t, i + 6).Extent?
    ensures Measure(t, i) == Measure(t, i + 6).(len := Measure(t, i + 6).len + 5)
  {
    MeasurePlain(t, i + 5);
    MeasurePlain(t, i + 4);
    MeasurePlain(t, i + 3);
    MeasurePlain(t, i + 2);
    assert Measure(t, i) == Extent(Measure(t, i + 2).len + 1, Measure(t, i + 2).end);
  }

  lemma MeasurePlain(t: string, i: nat)
    requires i < |t| && Plain(t[i]) && Measure(t, i + 1).Extent?
    ensures Measure(t, i) == Extent(Measure(t, i + 1).len + 1, Measure(t, i + 1).end)
  {
  }

  lemma CharsHead(cs: seq<StrChar>)
    requires cs != []
    ensures CharsText(cs) == CharText(cs[0]) + CharsText(cs[1..])
  {
  }

  // The chars of the first element of a token, and where the rest of the token stands.
  lemma NextChar(t: string, i: nat, cs: seq<StrChar>) returns (j: nat)
    requires cs != [] && CharsOk(cs) && CharsAt(t, i, cs)
    ensures CharOk(cs[0]) && CharsOk(cs[1..])
    ensures j == i + |CharText(cs[0])| && i < |t| && j <= |t|
    ensures IsAt(t, i, CharText(cs[0])) && CharsAt(t, j, cs[1..])
    ensures cs[0].Raw? ==> t[i] == cs[0].c
    ensures !cs[0].Raw? ==> i + 1 < |t| && t[i] == '\\'
    ensures cs[0].Short? ==> t[i + 1] == cs[0].c
    ensures cs[0].Unicode? ==>
      && t[i + 1] == 'u' && j == i + 6
      && t[i + 2..i + 6] == cs[0].hex
    ensures !AtStringEnd(t, i)
  {
    hide CharsText, HexValue;
    assert cs[0] in cs;
    var c := CharText(cs[0]);
    CharsHead(cs);
    Split(t, i, c, CharsText(cs[1..]));
    j := i + |c|;
    First(t, i, c);
    if !cs[0].Raw? {
      assert t[i..j][1] == c[1];
    }
    if cs[0].Unicode? {
      assert t[i + 2..j] == t[i..j][2..];
    }
  }

  lemma HexAt(t: string, i: nat, hex: string)
    requires CharOk(Unicode(hex)) && i + 4 <= |t| && t[i..i + 4] == hex
    ensures Hex4(t, i) == HexNumber(hex)
    ensures forall k :: i <= k < i + 4 ==> Plain(t[k])
  {
    assert t[i] == hex[0] && t[i + 1] == hex[1] && t[i + 2] == hex[2] && t[i + 3] == hex[3];
    assert hex[0] in hex && hex[1] in hex && hex[2] in hex && hex[3] in hex;
  }

  lemma {:induction false} DecodesChars(t: string, i: nat, cs: seq<StrChar>)
    requires CharsOk(cs) && CharsAt(t, i, cs)
    ensures DecodeFrom(t, i) == Parsed(CharsValue(cs), i + |CharsText(cs)|)
    ensures |CharsValue(cs)| <= Turns(cs)
    decreases |cs|
  {
    hide IsAt, CharsAt, CharsText, CharsOk, HexValue, HexNumber, CharsValue, DecodeFrom, DecodeStep, Turns, AtStringEnd;
    if cs == [] {
      DecodesNone(t, i, cs);
    } else {
      var j := NextChar(t, i, cs);
      if cs[0].Unicode? {
        if |cs| > 1 && cs[1].Unicode? && High(HexNumber(cs[0].hex)) {
          DecodesTwo(t, i, j, cs);
        } else {
          DecodesOne(t, i, j, cs);
        }
      } else {
        CharsHead(cs);
        TakesPlain(cs);
        DecodesChars(t, j, cs[1..]);
        DecodesPlain(t, i, cs[0]);
        DecodesOn(t, i);
      }
    }
  }

  lemma DecodesNone(t: string, i: nat, cs: seq<StrChar>)
    requires cs == [] && CharsAt(t, i, cs)
    ensures CharsOk(cs) && DecodeFrom(t, i) == Parsed(CharsValue(cs), i + |CharsText(cs)|) && CharsValue(cs) == ""
  {
  }

  lemma TakesPlain(cs: seq<StrChar>)
    requires cs != [] && !cs[0].Unicode? && CharsOk(cs)
    ensures CharsOk(cs[1..]) && Turns(cs) == 1 + Turns(cs[1..])
    ensures CharsValue(cs) == [if cs[0].Raw? then cs[0].c else ShortEscape(cs[0].c)] + CharsValue(cs[1..])
  {
  }

  lemma DecodesPlain(t: string, i: nat, c: StrChar)
    requires i < |t| && !AtStringEnd(t, i) && CharOk(c) && !c.Unicode?
    requires c.Raw? ==> t[i] == c.c
    requires c.Short? ==> i + 1 < |t| && t[i] == '\\' && t[i + 1] == c.c
    ensures DecodeStep(t, i)
      == Parsed([if c.Raw? then c.c else ShortEscape(c.c)], i + |CharText(c)|)
  {
  }

  lemma {:induction false} DecodesOne(t: string, i: nat, j: nat, cs: seq<StrChar>)
    requires |cs| > 0 && cs[0].Unicode? && CharsOk(cs)
    requires j == i + 6 <= |t| && CharsAt(t, j, cs[1..])
    requires CharOk(cs[0]) && CharsOk(cs[1..])
    requires t[i] == '\\' && t[i + 1] == 'u' && t[i + 2..i + 6] == cs[0].hex
    requires !High(HexNumber(cs[0].hex)) || |cs| == 1 || !cs[1].Unicode?
    ensures DecodeFrom(t, i) == Parsed(CharsValue(cs), i + |CharsText(cs)|)
    ensures |CharsValue(cs)| <= Turns(cs)
    decreases |cs|, 0
  {
    hide CharsOk, HexNumber, Hex4, Encode, CharOk, DecodeFrom, CharsValue, DecodeStep, CharsText, Turns;
    HexAt(t, i + 2, cs[0].hex);
    TakesOne(cs);
    AfterEscape(t, j, cs[1..]);
    DecodesChars(t, j, cs[1..]);
    DecodesSingle(t, i, cs[0].hex);
    DecodesOn(t, i);
  }

  lemma {:induction false} DecodesTwo(t: string, i: nat, j: nat, cs: seq<StrChar>)
    requires |cs| > 0 && cs[0].Unicode? && CharsOk(cs)
    requires j == i + 6 <= |t| && CharsAt(t, j, cs[1..])
    requires CharOk(cs[0]) && CharsOk(cs[1..])
    requires t[i] == '\\' && t[i + 1] == 'u' && t[i + 2..i + 6] == cs[0].hex
    requires |cs| > 1 && cs[1].Unicode? && High(HexNumber(cs[0].hex))
    ensures DecodeFrom(t, i) == Parsed(CharsValue(cs), i + |CharsText(cs)|)
    ensures |CharsValue(cs)| <= Turns(cs)
    decreases |cs|, 0
  {
    hide CharsOk, HexNumber, Hex4, Encode, CharOk, DecodeFrom, CharsValue, DecodeStep, CharsText, Turns;
    HexAt(t, i + 2, cs[0].hex);
    TakesOne(cs);
    var rest := cs[1..];
    var k := NextChar(t, j, rest);
    HexAt(t, j + 2, rest[0].hex);
    DecodesChars(t, k, rest[1..]);
    TakesOne(rest);
    TakesTwo(cs, rest);
    DecodesPair(t, i, cs[0].hex, rest[0].hex);
    DecodesOn(t, i);
  }

  // The shares of the first element of a token.
  lemma TakesOne(cs: seq<StrChar>)
    requires cs != [] && cs[0].Unicode? && CharsOk(cs)
    ensures CharOk(cs[0]) && CharsOk(cs[1..])
    ensures |CharsText(cs)| == 6 + |CharsText(cs[1..])| && Turns(cs) == 5 + Turns(cs[1..])
    ensures var u := HexNumber(cs[0].hex);
      !High(u) || |cs| == 1 || !cs[1].Unicode? ==>
        CharsValue(cs) == (if u == 0 || Surrogate(u) then "" else Encode(u)) + CharsValue(cs[1..])
  {
    assert cs[0] in cs;
  }

  // The shares of its first two elements, when they are escapes and the first is a high surrogate.
  lemma TakesTwo(cs: seq<StrChar>, rest: seq<StrChar>)
    requires |cs| > 1 && cs[0].Unicode? && cs[1].Unicode? && CharsOk(cs) && rest == cs[1..]
    ensures CharOk(cs[0]) && CharOk(cs[1]) && CharsOk(rest[1..])
    ensures var u, w := HexNumber(cs[0].hex), HexNumber(cs[1].hex);
      High(u) ==> CharsValue(cs) == (if Low(w) then Encode(Pair(u, w)) else "") + CharsValue(rest[1..])
  {
    assert cs[0] in cs && cs[1] in cs;
    assert rest[1..] == cs[2..];
  }

  lemma DecodesOn(t: string, i: nat)
    requires i < |t| && !AtStringEnd(t, i) && DecodeStep(t, i).Parsed?
    requires DecodeFrom(t, DecodeStep(t, i).next).Parsed?
    ensures var s, r := DecodeStep(t, i), DecodeFrom(t, DecodeStep(t, i).next);
      DecodeFrom(t, i) == Parsed(s.value + r.value, r.next)
  {
  }

  // One escape that is not followed by the escape of a low surrogate for its pair.
  lemma DecodesSingle(t: string, i: nat, hex: string)
    requires i + 6 <= |t| && t[i] == '\\' && t[i + 1] == 'u' && CharOk(Unicode(hex))
    requires Hex4(t, i + 2) == HexNumber(hex)
    requires High(HexNumber(hex)) ==> Peek(t, i + 6) != '\\' || Peek(t, i + 7) != 'u'
    ensures var u := HexNumber(hex);
      DecodeStep(t, i) == Parsed(if u == 0 || Surrogate(u) then "" else Encode(u), i + 6)
  {
  }

  lemma DecodesPair(t: string, i: nat, hi: string, lo: string)
    requires i + 12 <= |t| && t[i] == '\\' && t[i + 1] == 'u' && CharOk(Unicode(hi)) && CharOk(Unicode(lo))
    requires t[i + 6] == '\\' && t[i + 7] == 'u'
    requires Hex4(t, i + 2) == HexNumber(hi) && Hex4(t, i + 8) == HexNumber(lo) && High(HexNumber(hi))
    ensures var u, w := HexNumber(hi), HexNumber(lo);
      DecodeStep(t, i) == Parsed(if Low(w) then Encode(Pair(u, w)) else "", i + 12)
  {
  }

  // A token that does not go on with a `\u` escape does not look like one either.
  lemma AfterEscape(t: string, i: nat, cs: seq<StrChar>)
    requires CharsOk(cs) && CharsAt(t, i, cs)
    ensures cs == [] || !cs[0].Unicode? ==> Peek(t, i) != '\\' || Peek(t, i + 1) != 'u'
  {
    if cs != [] {
      var j := NextChar(t, i, cs);
    }
  }

  lemma StringAt(t: string, i: nat, cs: seq<StrChar>)
    requires IsAt(t, i, StringText(cs))
    ensures i < |t| && t[i] == '\"' && CharsAt(t, i + 1, cs) && Peek(t, i + 1 + |CharsText(cs)|) == '\"'
  {
    hide CharsText;
    Split(t, i, "\"", CharsText(cs) + "\"");
    First(t, i, "\"");
    Split(t, i + 1, CharsText(cs), "\"");
    First(t, i + 1 + |CharsText(cs)|, "\"");
  }

  // The same place ends both passes of `parse_string`, and the second one writes at most what the first one counted.
  lemma ParsesToken(t: string, i: nat, cs: seq<StrChar>)
    requires CharsOk(cs) && i < |t| && t[i] == '\"' && CharsAt(t, i + 1, cs)
    ensures var j := i + 1 + |CharsText(cs)|;
      && Measure(t, i + 1) == Extent(Turns(cs), j) && DecodeFrom(t, i + 1) == Parsed(CharsValue(cs), j)
      && ParseString(t, i) == Parsed(CharsValue(cs), if Peek(t, j) == '\"' then j + 1 else j)
    ensures |CharsValue(cs)| <= Turns(cs)
  {
    hide Measure, DecodeFrom, CharsText, CharsValue, CharsOk, Turns, IsAt;
    MeasuresChars(t, i + 1, cs);
    DecodesChars(t, i + 1, cs);
  }

  // The two passes of `parse_string` stop at the same closing quote, and the second one writes at
  // most what the first one counted.
  lemma ParsesString(t: string, i: nat, cs: seq<StrChar>)
    requires CharsOk(cs) && IsAt(t, i, StringText(cs))
    ensures ParseString(t, i) == Parsed(CharsValue(cs), i + |StringText(cs)|)
    ensures Measure(t, i + 1) == Extent(Turns(cs), i + |StringText(cs)| - 1)
    ensures DecodeFrom(t, i + 1) == Parsed(CharsValue(cs), i + |StringText(cs)| - 1)
    ensures |CharsValue(cs)| <= Turns(cs)
  {
    hide Measure, DecodeFrom, CharsText, CharsValue, CharsOk, Turns, IsAt, ParseString, AtStringEnd, CharsAt;
    StringAt(t, i, cs);
    ParsesToken(t, i, cs);
  }

  // --- values ---

  lemma FirstChar(s: Syntax)
    requires Ok(s)
    ensures Text(s) != "" && Text(s)[0] > ' ' && Text(s)[0] != ']' && Text(s)[0] != '}'
    ensures s.SNum? ==> Text(s)[0] == '-' || IsDigit(Text(s)[0])
  {
    if s.SNum? && !s.num.neg {
      assert s.num.whole[0] in s.num.whole;
    }
  }

  // Main theorem. The value may be followed by anything that cannot be taken for part of a number.
  lemma {:induction false} ParsesValue(t: string, i: nat, s: Syntax)
    requires Ok(s) && Gaps(s, PlainGap) && IsAt(t, i, Text(s))
    requires s.SNum? ==> Stops(s.num, Peek(t, i + |Text(s)|))
    ensures ParseValue(t, i) == Parsed(Value(s), i + |Text(s)|)
    decreases s, 3
  {
    hide ParseValue, ScanNumber, NumberText, GapText, ItemsText, FieldsText, Skip, ParseString, NumberOk, NumberValue;
    hide CharsValue, StringText;
    Dispatch(t, i, s);
    match s {
      case SNull =>
      case SFalse =>
      case STrue =>
      case SNum(n) => ScansNumber(t, i, n);
      case SStr(cs) => ParsesString(t, i, cs);
      case SEmptyArr(g) => ParsesEmpty(t, i, "[", g, "]");
      case SArr(items) =>
        OpenAt(t, i, "[", ItemsText(items));
        ParsesArray(t, i, items);
      case SEmptyObj(g) => ParsesEmpty(t, i, "{", g, "}");
      case SObj(fields) =>
        OpenAt(t, i, "{", FieldsText(fields));
        ParsesObject(t, i, fields);
    }
  }

  lemma OpenAt(t: string, i: nat, open: string, s: string)
    requires |open| == 1 && IsAt(t, i, open + s)
    ensures i < |t| && t[i] == open[0] && IsAt(t, i + 1, s)
  {
    Split(t, i, open, s);
    First(t, i, open);
  }

  lemma ParsesEmpty(t: string, i: nat, open: string, g: Gap, close: string)
    requires PlainGap(g) && IsAt(t, i, open + (GapText(g) + close))
    requires (open == "[" && close == "]") || (open == "{" && close == "}")
    ensures i < |t| && t[i] == open[0]
    ensures open == "[" ==> ParseArray(t, i) == Parsed(Arr(ENil), i + 2 + |GapText(g)|)
    ensures open == "{" ==> ParseObject(t, i) == Parsed(Obj(MNil), i + 2 + |GapText(g)|)
  {
    OpenAt(t, i, open, GapText(g) + close);
    Closed(t, i + 1, g, close, "");
  }

  // Which branch `parse_value` takes.
  lemma Dispatch(t: string, i: nat, s: Syntax)
    requires Ok(s) && IsAt(t, i, Text(s))
    ensures i < |t|
    ensures s.SEmptyArr? || s.SArr? ==> t[i] == '['
    ensures s.SEmptyObj? || s.SObj? ==> t[i] == '{'
    ensures ParseValue(t, i) == match s
      case SNull => Parsed(Null, i + 4)
      case SFalse => Parsed(Bool(false), i + 5)
      case STrue => Parsed(Bool(true), i + 4)
      case SNum(_) => Parsed(Num(ScanNumber(t, i).Value()), ScanNumber(t, i).next)
      case SStr(_) =>
        var r := ParseString(t, i);
        if r.Parsed? then Parsed(Str(r.value), r.next) else Undefined
      case SEmptyArr(_) => ParseArray(t, i)
      case SArr(_) => ParseArray(t, i)
      case SEmptyObj(_) => ParseObject(t, i)
      case SObj(_) => ParseObject(t, i)
  {
    FirstChar(s);
    First(t, i, Text(s));
    NoWord(t, i, s);
    hide ScanNumber, GapText, ItemsText, FieldsText, ParseString, CharsText, ParseArray, ParseObject;
  }

  // Only the three words start with the letters that the parser compares first.
  lemma NoWord(t: string, i: nat, s: Syntax)
    requires Ok(s) && i < |t| && Text(s) != "" && t[i] == Text(s)[0]
    ensures StartsWith(t, i, "null") ==> s.SNull?
    ensures StartsWith(t, i, "false") ==> s.SFalse?
    ensures StartsWith(t, i, "true") ==> s.STrue?
  {
    FirstChar(s);
    if StartsWith(t, i, "null") { assert t[i..i + 4][0] == 'n'; }
    if StartsWith(t, i, "false") { assert t[i..i + 5][0] == 'f'; }
    if StartsWith(t, i, "true") { assert t[i..i + 4][0] == 't'; }
  }

  // A gap and what comes after it, which is no white space.
  lemma Lead(t: string, i: nat, g: Gap, x: string, after: string)
    requires PlainGap(g) && x != "" && x[0] > ' ' && IsAt(t, i, GapText(g) + (x + after))
    ensures var j := i + |GapText(g)|;
      && j < |t| && Skip(t, i) == j == Skip(t, j) && t[j] == x[0]
      && IsAt(t, j, x) && IsAt(t, j + |x|, after)
  {
    Split(t, i, GapText(g), x + after);
    var j := i + |GapText(g)|;
    Split(t, j, x, after);
    First(t, j, x);
    SkipGap(t, i, g);
  }

  // A gap and a separator or bracket: a number before it ends there.
  lemma Closed(t: string, i: nat, g: Gap, c: string, after: string)
    requires PlainGap(g) && (c == "," || c == "]" || c == "}" || c == ":")
    requires IsAt(t, i, GapText(g) + (c + after)) || (after == "" && IsAt(t, i, GapText(g) + c))
    ensures var j := i + |GapText(g)|;
      Skip(t, i) == j < |t| && t[j] == c[0] && IsAt(t, j + 1, after)
    ensures Ends(Peek(t, i))
  {
    hide PlainGap, GapText, Skip, IsAt;
    assert c + "" == c;
    Lead(t, i, g, c, after);
    Split(t, i, GapText(g), c + after);
    NoNumber(t, i, g);
  }

  lemma NoNumber(t: string, i: nat, g: Gap)
    requires PlainGap(g) && IsAt(t, i, GapText(g)) && Ends(Peek(t, i + |GapText(g)|))
    ensures Ends(Peek(t, i))
  {
    if g != [] {
      assert g[0] in g;
      First(t, i, GapText(g));
    }
  }

  lemma {:induction false} ParsesArray(t: string, i: nat, items: Items)
    requires i < |t| && t[i] == '['
    requires ItemsOk(items) && ItemsGaps(items, PlainGap) && IsAt(t, i + 1, ItemsText(items))
    ensures ParseArray(t, i) == Parsed(Arr(ItemsValue(items)), i + 1 + |ItemsText(items)|)
    decreases items, 2
  {
    hide IsAt, PlainGap, Text, GapText, ItemsTail, ParseValue, Value, Ok, Gaps, Skip;
    FirstChar(items.v);
    Lead(t, i + 1, items.before, Text(items.v), GapText(items.after) + ItemsTail(items));
    ParsesItems(t, i + 1, Skip(t, i + 1), items);
  }

  // j is i itself, or the position after the gap before the first item.
  lemma {:induction false} ParsesItems(t: string, i: nat, j: nat, items: Items)
    requires ItemsOk(items) && ItemsGaps(items, PlainGap) && IsAt(t, i, ItemsText(items))
    requires j == i || j == Skip(t, i)
    ensures ParseElems(t, j) == Parsed(ItemsValue(items), i + |ItemsText(items)|)
    decreases items, 1
  {
    hide IsAt, PlainGap, Text, GapText, ParseValue, Value, Ok, Gaps, Skip, ParseElems;
    var v, tail := Text(items.v), ItemsTail(items);
    FirstChar(items.v);
    Lead(t, i, items.before, v, GapText(items.after) + tail);
    var k := i + |GapText(items.before)|;
    ElemsStep(t, j);
    ItemEnds(t, k + |v|, items);
    ParsesValue(t, k, items.v);
    if items.Item? {
      var m := k + |v| + |GapText(items.after)|;
      ParsesItems(t, m + 1, m + 1, items.rest);
    }
  }

  // One turn of the loop of `parse_array`, when the value parses.
  lemma ElemsStep(t: string, j: nat)
    requires j <= |t|
    ensures var r := ParseValue(t, Skip(t, j));
      r.Parsed? ==>
        var k := Skip(t, r.next);
        && (Peek(t, k) == ']' ==> ParseElems(t, j) == Parsed(ECons(r.value, ENil), k + 1))
        && (Peek(t, k) == ',' && ParseElems(t, k + 1).Parsed? ==>
              ParseElems(t, j) == Parsed(ECons(r.value, ParseElems(t, k + 1).value), ParseElems(t, k + 1).next))
  {
    hide ParseValue, Skip;
  }

  lemma ItemEnds(t: string, i: nat, items: Items)
    requires PlainGap(items.after) && IsAt(t, i, GapText(items.after) + ItemsTail(items))
    ensures var m := i + |GapText(items.after)|;
      && Skip(t, i) == m < |t| && t[m] == (if items.Item? then ',' else ']')
      && (items.Item? ==> IsAt(t, m + 1, ItemsText(items.rest)))
    ensures Ends(Peek(t, i))
  {
    hide IsAt, PlainGap, GapText, ItemsText, Skip;
    if items.Item? {
      Closed(t, i, items.after, ",", ItemsText(items.rest));
    } else {
      Closed(t, i, items.after, "]", "");
    }
  }

  lemma {:induction false} ParsesObject(t: string, i: nat, fields: Fields)
    requires i < |t| && t[i] == '{'
    requires FieldsOk(fields) && FieldsGaps(fields, PlainGap) && IsAt(t, i + 1, FieldsText(fields))
    ensures ParseObject(t, i) == Parsed(Obj(FieldsValue(fields)), i + 1 + |FieldsText(fields)|)
    decreases fields, 2
  {
    hide IsAt, PlainGap, Text, GapText, FieldsTail, Value, Ok, Gaps, Skip;
    var f := FieldText(fields.key, fields.mid, fields.val, Text(fields.v));
    Lead(t, i + 1, fields.before, f, GapText(fields.after) + FieldsTail(fields));
    ParsesFields(t, i + 1, Skip(t, i + 1), fields);
  }

  lemma {:induction false} ParsesFields(t: string, i: nat, j: nat, fields: Fields)
    requires FieldsOk(fields) && FieldsGaps(fields, PlainGap) && IsAt(t, i, FieldsText(fields))
    requires j == i || j == Skip(t, i)
    ensures ParseMembers(t, j) == Parsed(FieldsValue(fields), i + |FieldsText(fields)|)
    decreases fields, 1
  {
    hide IsAt, PlainGap, FieldText, Text, GapText, ParseMember, Value, Ok, Gaps, Skip, CharsValue, ParseMembers;
    var f, tail := FieldText(fields.key, fields.mid, fields.val, Text(fields.v)), FieldsTail(fields);
    FieldFirst(fields.key, fields.mid, fields.val, Text(fields.v));
    Lead(t, i, fields.before, f, GapText(fields.after) + tail);
    var k := i + |GapText(fields.before)|;
    MembersStep(t, j);
    FieldEnds(t, k + |f|, fields);
    ParsesField(t, j, k, fields.key, fields.mid, fields.val, fields.v);
    if fields.Field? {
      var m := k + |f| + |GapText(fields.after)|;
      ParsesFields(t, m + 1, m + 1, fields.rest);
    }
  }

  // One turn of the loop of `parse_object`, when the member parses.
  lemma MembersStep(t: string, j: nat)
    requires j <= |t|
    ensures var r := ParseMember(t, j);
      r.Parsed? ==>
        var k := Skip(t, r.next);
        && (Peek(t, k) == '}' ==> ParseMembers(t, j) == Parsed(MCons(r.value.0, r.value.1, MNil), k + 1))
        && (Peek(t, k) == ',' && ParseMembers(t, k + 1).Parsed? ==>
              ParseMembers(t, j)
                == Parsed(MCons(r.value.0, r.value.1, ParseMembers(t, k + 1).value), ParseMembers(t, k + 1).next))
  {
    hide ParseMember, Skip;
  }

  lemma FieldFirst(key: seq<StrChar>, mid: Gap, val: Gap, v: string)
    ensures FieldText(key, mid, val, v) != "" && FieldText(key, mid, val, v)[0] == '\"'
  {
  }

  lemma FieldEnds(t: string, i: nat, fields: Fields)
    requires PlainGap(fields.after) && IsAt(t, i, GapText(fields.after) + FieldsTail(fields))
    ensures var m := i + |GapText(fields.after)|;
      && Skip(t, i) == m < |t| && t[m] == (if fields.Field? then ',' else '}')
      && (fields.Field? ==> IsAt(t, m + 1, FieldsText(fields.rest)))
    ensures Ends(Peek(t, i))
  {
    hide IsAt, PlainGap, GapText, FieldsText, Skip;
    if fields.Field? {
      Closed(t, i, fields.after, ",", FieldsText(fields.rest));
    } else {
      Closed(t, i, fields.after, "}", "");
    }
  }

  lemma {:induction false} ParsesField(t: string, j: nat, i: nat, key: seq<StrChar>, mid: Gap, val: Gap, v: Syntax)
    requires CharsOk(key) && PlainGap(mid) && PlainGap(val) && Ok(v) && Gaps(v, PlainGap)
    requires IsAt(t, i, FieldText(key, mid, val, Text(v)))
    requires Ends(Peek(t, i + |FieldText(key, mid, val, Text(v))|))
    requires j <= |t| && Skip(t, j) == i
    ensures ParseMember(t, j) == Parsed((CharsValue(key), Value(v)), i + |FieldText(key, mid, val, Text(v))|)
    decreases v, 4
  {
    hide IsAt, PlainGap, Text, GapText, ParseValue, ParseString, Value, Ok, Gaps, CharsValue, Skip, StringText, CharsOk;
    hide FieldText;
    FirstChar(v);
    var k, m := FieldParts(t, i, key, mid, val, Text(v));
    ParsesString(t, i, key);
    ParsesValue(t, m, v);
  }

  lemma FieldParts(t: string, i: nat, key: seq<StrChar>, mid: Gap, val: Gap, v: string) returns (k: nat, m: nat)
    requires PlainGap(mid) && PlainGap(val) && v != "" && v[0] > ' '
    requires IsAt(t, i, FieldText(key, mid, val, v))
    ensures IsAt(t, i, StringText(key)) && k == Skip(t, i + |StringText(key)|) < |t| && t[k] == ':'
    ensures m == Skip(t, k + 1) && IsAt(t, m, v) && m + |v| == i + |FieldText(key, mid, val, v)|
  {
    hide IsAt, PlainGap, GapText, Skip, StringText;
    var colon := ":" + (GapText(val) + v);
    Split(t, i, StringText(key), GapText(mid) + colon);
    var j := i + |StringText(key)|;
    Closed(t, j, mid, ":", GapText(val) + v);
    k := j + |GapText(mid)|;
    assert v + "" == v;
    Lead(t, k + 1, val, v, "");
    m := k + 1 + |GapText(val)|;
  }

  lemma Whole(t: string)
    ensures IsAt(t, 0, t)
  {
  }

  // `cJSON_ParseWithOpts` on a whole document.
  lemma ParsesDocument(s: Syntax, before: Gap, after: Gap, nullTerminated: bool)
    requires Ok(s) && Gaps(s, PlainGap) && PlainGap(before) && PlainGap(after)
    ensures var t := GapText(before) + (Text(s) + GapText(after));
      Parse(t, nullTerminated)
        == Parsed(Value(s), if nullTerminated then |t| else |GapText(before)| + |Text(s)|)
  {
    hide IsAt, PlainGap, Text, GapText, ParseValue, Value, Ok, Gaps, Skip;
    var t := GapText(before) + (Text(s) + GapText(after));
    Whole(t);
    FirstChar(s);
    Lead(t, 0, before, Text(s), GapText(after));
    var i := |GapText(before)|;
    var j := i + |Text(s)|;
    NoNumber(t, j, after);
    ParsesValue(t, i, s);
    SkipGap(t, j, after);
  }

  // Every text of RFC 8259 is such a document.
  lemma ParsesRfc(s: Syntax, before: Gap, after: Gap, nullTerminated: bool)
    requires Rfc(s) && Gaps(s, RfcGap) && RfcGap(before) && RfcGap(after)
    ensures Ok(s)
    ensures var t := GapText(before) + (Text(s) + GapText(after));
      Parse(t, nullTerminated)
        == Parsed(Value(s), if nullTerminated then |t| else |GapText(before)| + |Text(s)|)
  {
    hide Text, GapText, Parse, Value, Ok, Gaps, Rfc;
    RfcOk(s);
    GapsMonotone(s, RfcGap, PlainGap);
    ParsesDocument(s, before, after, nullTerminated);
  }

  // There are others: a zero may stand before the digits, and a minus sign may stand alone.
  lemma BeyondRfc()
    ensures Parse("01", true) == Parsed(Num(1.0), 2) && !RfcNumber(Number(false, "01", "", NoExp))
    ensures Parse("-", true) == Parsed(Num(0.0), 1) && !RfcNumber(Number(true, "", "", NoExp))
  {
    hide Parse, NumberText, NumberValue;
    LeadingZeroOne();
    ParsesNumber(Number(false, "01", "", NoExp), "01");
    LoneMinus();
    ParsesNumber(Number(true, "", "", NoExp), "-");
  }

  lemma LeadingZeroOne()
    ensures var n := Number(false, "01", "", NoExp); NumberOk(n) && NumberText(n) == "01" && NumberValue(n) == 1.0
  {
    assert "01"[..1] == "0" && "0"[..0] == "";
    assert Natural("0") == 0;
  }

  lemma LoneMinus()
    ensures var n := Number(true, "", "", NoExp); NumberOk(n) && NumberText(n) == "-" && NumberValue(n) == 0.0
  {
  }

  lemma ParsesNumber(n: Number, t: string)
    requires NumberOk(n) && t == NumberText(n)
    ensures Parse(t, true) == Parsed(Num(NumberValue(n)), |t|)
  {
    hide NumberText, NumberValue, NumberOk, Parse;
    ParsesDocument(SNum(n), [], [], true);
    assert "" + (t + "") == t;
  }
}
