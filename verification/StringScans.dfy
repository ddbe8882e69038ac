/**
  When `parse_string` has a defined outcome. Its two passes find the escapes in different ways, so this depends on what
  stands behind a `\u`, and on whether the text ends inside an escape.
 */
module StringScans {
  import opened Parsing
  import opened Grammar
  import opened Completeness

  // The four chars from i on, as far as the text goes, are no quote, backslash or terminator.
  predicate PlainFour(t: string, i: nat) {
    forall k | i <= k < i + 4 && k < |t| :: Plain(t[k])
  }

  // From i, inside a string, up to its end: no quote, backslash or terminator stands where a `\u` takes its digits,
  // and no terminator is escaped.
  predicate Clear(t: string, i: nat)
    decreases |t| - i
  {
    if AtStringEnd(t, i) then true
    else if t[i] != '\\' then Clear(t, i + 1)
    else if Peek(t, i + 1) == 'u' then PlainFour(t, i + 2) && Clear(t, i + 6)
    else (i + 1 < |t| ==> t[i + 1] != '\0') && Clear(t, i + 2)
  }

  // No escape is cut off by the end of the text.
  predicate Uncut(t: string, i: nat)
    decreases |t| - i
  {
    if AtStringEnd(t, i) then true
    else if t[i] != '\\' then Uncut(t, i + 1)
    else if Peek(t, i + 1) == 'u' then i + 6 <= |t| && Uncut(t, i + 6)
    else i + 2 <= |t| && Uncut(t, i + 2)
  }

  // The end of the string that i stands in: the next quote that no backslash stands before.
  function TokenEnd(t: string, i: nat): (j: nat)
    ensures i <= j
    decreases |t| - i
  {
    if AtStringEnd(t, i) then i else TokenEnd(t, if t[i] == '\\' then i + 2 else i + 1)
  }

  // Where the text goes on behind a string that ends at j.
  function Behind(t: string, j: nat): nat {
    if Peek(t, j) == '\"' then j + 1 else j
  }

  // Whether the strings of a text are clear, and whether they are uncut.
  datatype Strings = Strings(clear: bool, uncut: bool)

  function StringsFrom(t: string, i: nat): Strings
    decreases |t| - i
  {
    if Peek(t, i) == '\0' then Strings(true, true)
    else if t[i] == '\"' then
      var rest := StringsFrom(t, Behind(t, TokenEnd(t, i + 1)));
      Strings(Clear(t, i + 1) && rest.clear, Uncut(t, i + 1) && rest.uncut)
    else StringsFrom(t, i + 1)
  }

  predicate ClearEscapes(t: string) {
    StringsFrom(t, 0).clear
  }

  predicate UncutEscapes(t: string) {
    StringsFrom(t, 0).uncut
  }

  // --- the elements of a string ---

  lemma Element(t: string, i: nat) returns (c: StrChar)
    requires i <= |t| && Clear(t, i) && Uncut(t, i) && !AtStringEnd(t, i)
    ensures CharOk(c) && CharText(c) != "" && i + |CharText(c)| <= |t| && IsAt(t, i, CharText(c))
    ensures Clear(t, i + |CharText(c)|) && Uncut(t, i + |CharText(c)|)
  {
    hide HexValue;
    if t[i] != '\\' {
      c := Raw(t[i]);
    } else if t[i + 1] == 'u' {
      c := Unicode(t[i + 2..i + 6]);
      assert t[i..i + 6] == "\\u" + t[i + 2..i + 6];
    } else {
      c := Short(t[i + 1]);
    }
  }

  // A string that is clear and uncut is made of elements.
  lemma {:induction false} Elements(t: string, i: nat) returns (cs: seq<StrChar>)
    requires i <= |t| && Clear(t, i) && Uncut(t, i)
    ensures CharsOk(cs) && CharsAt(t, i, cs)
    decreases |t| - i
  {
    hide Clear, Uncut, CharOk, CharText, CharsText, IsAt, AtStringEnd;
    cs := [];
    if AtStringEnd(t, i) {
      NoElements(t, i);
    } else {
      var c := Element(t, i);
      var rest := Elements(t, i + |CharText(c)|);
      cs := [c] + rest;
      Join(t, i, CharText(c), CharsText(rest));
      assert cs[1..] == rest;
      CharsHead(cs);
    }
  }

  lemma NoElements(t: string, i: nat)
    requires i <= |t|
    ensures CharsText([]) == "" && IsAt(t, i, "")
  {
  }

  // And one that is made of elements is clear and uncut.
  lemma {:induction false} PastChars(t: string, i: nat, cs: seq<StrChar>)
    requires CharsOk(cs) && CharsAt(t, i, cs)
    ensures Clear(t, i) && Uncut(t, i) && TokenEnd(t, i) == i + |CharsText(cs)|
    decreases |cs|
  {
    hide CharsAt, CharsOk, AtStringEnd, CharOk, CharText, Clear, Uncut, TokenEnd, IsAt;
    if cs == [] {
      PastEnd(t, i, cs);
    } else {
      var j := NextChar(t, i, cs);
      CharsHead(cs);
      PastElement(t, i, cs[0]);
      PastChars(t, j, cs[1..]);
    }
  }

  lemma PastEnd(t: string, i: nat, cs: seq<StrChar>)
    requires cs == [] && CharsAt(t, i, cs)
    ensures Clear(t, i) && Uncut(t, i) && TokenEnd(t, i) == i && CharsText(cs) == ""
  {
  }

  lemma PastElement(t: string, i: nat, c: StrChar)
    requires CharOk(c) && IsAt(t, i, CharText(c))
    ensures var j := i + |CharText(c)|;
      Clear(t, i) == Clear(t, j) && Uncut(t, i) == Uncut(t, j) && TokenEnd(t, i) == TokenEnd(t, j)
  {
    hide Clear, Uncut, TokenEnd, HexValue;
    First(t, i, CharText(c));
    if !c.Raw? {
      assert t[i..i + |CharText(c)|][1] == CharText(c)[1];
    }
    if c.Unicode? {
      assert t[i + 2..i + 6] == t[i..i + 6][2..];
      HexAt(t, i + 2, c.hex);
      EndBehind(t, i);
    }
    ElementStep(t, i);
  }

  lemma ElementStep(t: string, i: nat)
    requires i < |t| && !AtStringEnd(t, i)
    ensures t[i] != '\\' ==> Clear(t, i) == Clear(t, i + 1) && Uncut(t, i) == Uncut(t, i + 1)
    ensures t[i] == '\\' && Peek(t, i + 1) == 'u' && i + 6 <= |t| && PlainFour(t, i + 2) ==>
      Clear(t, i) == Clear(t, i + 6) && Uncut(t, i) == Uncut(t, i + 6)
    ensures t[i] == '\\' && Peek(t, i + 1) != 'u' && Peek(t, i + 1) != '\0' ==>
      Clear(t, i) == Clear(t, i + 2) && Uncut(t, i) == Uncut(t, i + 2)
    ensures TokenEnd(t, i) == TokenEnd(t, if t[i] == '\\' then i + 2 else i + 1)
  {
  }

  // The search for the end passes over the digits of a `\u`.
  lemma EndBehind(t: string, i: nat)
    requires i + 6 <= |t| && t[i] == '\\' && PlainFour(t, i + 2)
    ensures TokenEnd(t, i) == TokenEnd(t, i + 6)
  {
    EndStep(t, i + 2);
    EndStep(t, i + 3);
    EndStep(t, i + 4);
    EndStep(t, i + 5);
  }

  lemma EndStep(t: string, i: nat)
    requires i < |t| && Plain(t[i])
    ensures TokenEnd(t, i) == TokenEnd(t, i + 1)
  {
  }

  // --- the outcome of parsing a string ---

  // The decode pass reads past the text exactly when an escape is cut.
  lemma {:induction false} DecodesUncut(t: string, i: nat)
    requires i <= |t|
    ensures DecodeFrom(t, i).Undefined? <==> !Uncut(t, i)
    decreases |t| - i
  {
    hide Uncut, DecodeFrom, DecodeStep, UnicodeEscape;
    if AtStringEnd(t, i) {
      EndsUncut(t, i);
    } else {
      StepUncut(t, i);
      if DecodeStep(t, i).Parsed? {
        DecodesUncut(t, DecodeStep(t, i).next);
      }
    }
  }

  lemma EndsUncut(t: string, i: nat)
    requires i <= |t| && AtStringEnd(t, i)
    ensures Uncut(t, i) && DecodeFrom(t, i) == Parsed("", i)
  {
  }

  lemma StepUncut(t: string, i: nat)
    requires i < |t| && !AtStringEnd(t, i)
    ensures var r := DecodeStep(t, i);
      if r.Parsed? then
        && Uncut(t, i) == Uncut(t, r.next)
        && DecodeFrom(t, i).Undefined? == DecodeFrom(t, r.next).Undefined?
      else DecodeFrom(t, i).Undefined? && !Uncut(t, i)
  {
  }

  // Main theorem. In a clear string exactly a cut escape makes the outcome undefined.
  lemma StringDefined(t: string, i: nat)
    requires i < |t| && t[i] == '\"'
    ensures !Uncut(t, i + 1) ==> ParseString(t, i).Undefined?
    ensures Clear(t, i + 1) ==> (ParseString(t, i).Undefined? <==> !Uncut(t, i + 1))
  {
    hide Clear, Uncut, Measure, DecodeFrom, CharsOk, CharsValue, CharsText, CharsAt;
    DecodesUncut(t, i + 1);
    if Clear(t, i + 1) && Uncut(t, i + 1) {
      var cs := Elements(t, i + 1);
      ParsesToken(t, i, cs);
    }
  }

  // A string that ends inside an escape: the text ends behind a backslash, or before the last digit of a `\u`.
  lemma CutString(cs: seq<StrChar>, cut: string)
    requires CharsOk(cs)
    requires cut == "\\" || (2 <= |cut| < 6 && cut[0] == '\\' && cut[1] == 'u')
    ensures ParseString("\"" + (CharsText(cs) + cut), 0) == Undefined
  {
    hide CharsOk, CharsText, Uncut, ParseString;
    var t := "\"" + (CharsText(cs) + cut);
    Whole(t);
    OpenAt(t, 0, "\"", CharsText(cs) + cut);
    Split(t, 1, CharsText(cs), cut);
    UncutPrefix(t, 1, cs);
    CutAt(t, 1 + |CharsText(cs)|, cut);
    StringDefined(t, 0);
  }

  lemma CutAt(t: string, i: nat, cut: string)
    requires IsAt(t, i, cut) && i + |cut| == |t|
    requires cut == "\\" || (2 <= |cut| < 6 && cut[0] == '\\' && cut[1] == 'u')
    ensures !Uncut(t, i)
  {
    First(t, i, cut);
    assert |cut| >= 2 ==> t[i..i + |cut|][1] == t[i + 1];
  }

  lemma {:induction false} UncutPrefix(t: string, i: nat, cs: seq<StrChar>)
    requires CharsOk(cs) && IsAt(t, i, CharsText(cs))
    ensures Uncut(t, i) == Uncut(t, i + |CharsText(cs)|)
    decreases |cs|
  {
    hide CharText, CharOk, Uncut, IsAt;
    if cs != [] {
      assert cs[0] in cs;
      CharsHead(cs);
      Split(t, i, CharText(cs[0]), CharsText(cs[1..]));
      PastElement(t, i, cs[0]);
      UncutPrefix(t, i + |CharText(cs[0])|, cs[1..]);
    }
  }

  // In a string that is not clear the passes may stop at different quotes. Whether the block that the first one
  // measured suffices for the second one then depends on the chars between the quotes.
  lemma QuoteInDigits()
    ensures var t := "\"\\u\"abcde\"";
      !Clear(t, 1) && Uncut(t, 1) && ParseString(t, 0) == Undefined
    ensures var t := "\"\\u12\"34\"";
      !Clear(t, 1) && Uncut(t, 1) && ParseString(t, 0) == Parsed("4", 9)
  {
    TooMuch("\"\\u\"abcde\"");
    Enough("\"\\u12\"34\"");
  }

  lemma TooMuch(t: string)
    requires t == "\"\\u\"abcde\""
    ensures !Clear(t, 1) && Uncut(t, 1) && ParseString(t, 0) == Undefined
  {
    assert !Plain(t[3]);
    assert Measure(t, 1) == Extent(1, 3);
    assert DecodeStep(t, 1) == Parsed("", 7);
    TwoRaw(t, 7);
    DecodesUncut(t, 1);
  }

  lemma Enough(t: string)
    requires t == "\"\\u12\"34\""
    ensures !Clear(t, 1) && Uncut(t, 1) && ParseString(t, 0) == Parsed("4", 9)
  {
    assert !Plain(t[5]);
    assert Measure(t, 4) == Extent(1, 5);
    assert Measure(t, 1) == Extent(3, 5);
    assert DecodeStep(t, 1) == Parsed("", 7);
    assert DecodeFrom(t, 8) == Parsed("", 8);
    assert DecodeFrom(t, 7) == Parsed(['4'] + "", 8);
    assert "" + (['4'] + "") == "4";
    DecodesUncut(t, 1);
  }

  lemma TwoRaw(t: string, i: nat)
    requires i + 2 <= |t| && !AtStringEnd(t, i) && !AtStringEnd(t, i + 1) && t[i] != '\\' && t[i + 1] != '\\'
    requires AtStringEnd(t, i + 2)
    ensures DecodeFrom(t, i) == Parsed([t[i], t[i + 1]], i + 2)
  {
    assert DecodeFrom(t, i + 2) == Parsed("", i + 2);
    assert DecodeFrom(t, i + 1) == Parsed([t[i + 1]] + "", i + 2);
    assert [t[i]] + ([t[i + 1]] + "") == [t[i], t[i + 1]];
  }
}
