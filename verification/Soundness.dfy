/**
  The converse of Completeness. In a text whose strings are clear, whatever the parser takes is the text of a syntax
  tree that denotes the value returned, and nothing is undefined unless an escape is cut off by the end of the text.
 */
module Soundness {
  import opened JsonValue
  import opened Parsing
  import opened Grammar
  import opened Completeness
  import opened StringScans

  predicate CompleteEscapes(t: string) {
    ClearEscapes(t) && UncutEscapes(t)
  }

  // Chars other than quotes, outside strings.
  lemma {:induction false} Past(t: string, i: nat, s: string)
    requires IsAt(t, i, s) && '\"' !in s && '\0' !in s
    ensures StringsFrom(t, i) == StringsFrom(t, i + |s|)
    decreases |s|
  {
    if s != "" {
      assert s == [s[0]] + s[1..];
      Split(t, i, [s[0]], s[1..]);
      First(t, i, s);
      Past(t, i + 1, s[1..]);
    }
  }

  // --- white space ---

  lemma {:induction false} GapAt(t: string, i: nat) returns (g: Gap)
    requires i <= |t|
    ensures PlainGap(g) && IsAt(t, i, GapText(g)) && Skip(t, i) == i + |GapText(g)|
    ensures StringsFrom(t, i) == StringsFrom(t, Skip(t, i))
    decreases |t| - i
  {
    if i < |t| && '\0' < t[i] <= ' ' {
      var rest := GapAt(t, i + 1);
      g := [Blank(t[i])] + rest;
      OneChar(t, i);
      Join(t, i, [t[i]], GapText(rest));
      assert g[1..] == rest;
    } else {
      g := [];
    }
  }

  lemma {:induction false} SkipTwice(t: string, i: nat)
    requires i <= |t|
    ensures Skip(t, Skip(t, i)) == Skip(t, i)
    decreases |t| - i
  {
    if i < |t| && '\0' < t[i] <= ' ' {
      SkipTwice(t, i + 1);
    }
  }

  // --- numbers ---

  lemma ScannedWhole(t: string, i: nat) returns (whole: string)
    requires i <= |t| && (Peek(t, i) == '-' || IsDigit(Peek(t, i)))
    ensures var s, neg := ScanWhole(t, i), Peek(t, i) == '-';
      && NumberOk(Number(neg, whole, "", NoExp))
      && IsAt(t, i, if neg then "-" else "") && IsAt(t, i + if neg then 1 else 0, whole)
      && s == Scan(if neg then -1 else 1, Accumulate(0, whole), 0, 0, i + (if neg then 1 else 0) + |whole|)
  {
    hide Accumulate;
    var i1 := if Peek(t, i) == '-' then i + 1 else i;
    var j := ScanWhole(t, i).next;
    whole := t[i1..j];
    if Peek(t, i1) == '0' {
      LeadingZero(whole);
      assert whole[1..] == t[i1 + 1..j];
    }
  }

  lemma ScannedFraction(t: string, s: Scan) returns (frac: string)
    requires s.next <= |t| && s.scale == 0
    ensures Digits(frac) && IsAt(t, s.next, FractionText(frac))
    ensures ScanFraction(t, s)
      == s.(n := Accumulate(s.n, frac), scale := -|frac|, next := s.next + |FractionText(frac)|)
  {
    var i, j := s.next, ScanFraction(t, s).next;
    if j == i {
      frac := "";
    } else {
      frac := t[i + 1..j];
      OneChar(t, i);
      Join(t, i, ".", frac);
    }
  }

  lemma ScannedExponent(t: string, s: Scan) returns (exp: Exponent)
    requires s.next <= |t| && s.subscale == 0
    ensures NumberOk(Number(true, "", "", exp)) && IsAt(t, s.next, ExponentText(exp))
    ensures ScanExponent(t, s) == s.(subscale := ExponentValue(exp), next := s.next + |ExponentText(exp)|)
  {
    hide DigitRun, Accumulate, Natural, IsAt;
    exp := NoExp;
    Nothing(t, s.next);
    if Peek(t, s.next) == 'e' || Peek(t, s.next) == 'E' {
      var i := s.next + 1;
      var sign, digits := SignedDigits(t, i);
      exp := Exp(t[i - 1], sign, digits);
      OneChar(t, i - 1);
      Join(t, i, sign, digits);
      Join(t, i - 1, [t[i - 1]], sign + digits);
      AccumulateZero(digits);
    }
  }

  // A sign, or none, and a run of digits.
  lemma SignedDigits(t: string, i: nat) returns (sign: string, digits: string)
    requires i <= |t|
    ensures sign == (if Peek(t, i) == '+' || Peek(t, i) == '-' then [t[i]] else "") && Digits(digits)
    ensures IsAt(t, i, sign) && IsAt(t, i + |sign|, digits)
    ensures i + |sign| <= |t| && DigitRun(t, i + |sign|) == i + |sign| + |digits|
    ensures t[i + |sign|..i + |sign| + |digits|] == digits
  {
    hide DigitRun;
    sign := if Peek(t, i) == '+' || Peek(t, i) == '-' then [t[i]] else "";
    digits := t[i + |sign|..DigitRun(t, i + |sign|)];
  }

  lemma NumberToken(t: string, i: nat) returns (n: Number)
    requires i <= |t| && (Peek(t, i) == '-' || IsDigit(Peek(t, i)))
    ensures NumberOk(n) && IsAt(t, i, NumberText(n))
    ensures ScanNumber(t, i).next == i + |NumberText(n)| && ScanNumber(t, i).Value() == NumberValue(n)
  {
    hide ScanWhole, ScanFraction, ScanExponent, Accumulate, ExponentValue, ExponentText, FractionText, NumberValue;
    hide Scan.Value;
    var whole := ScannedWhole(t, i);
    var s1 := ScanWhole(t, i);
    var frac := ScannedFraction(t, s1);
    var s2 := ScanFraction(t, s1);
    var exp := ScannedExponent(t, s2);
    n := Number(Peek(t, i) == '-', whole, frac, exp);
    var minus := if n.neg then "-" else "";
    Join(t, s1.next, FractionText(frac), ExponentText(exp));
    Join(t, i + |minus|, whole, FractionText(frac) + ExponentText(exp));
    Join(t, i, minus, whole + (FractionText(frac) + ExponentText(exp)));
    NumberScan(n, ScanExponent(t, s2));
  }

  lemma NumberChars(n: Number)
    requires NumberOk(n)
    ensures '\"' !in NumberText(n) && '\0' !in NumberText(n)
  {
  }

  // --- strings ---

  // s stands at i and ends at j. A string may end with the text instead of a quote.
  predicate ValueAt(t: string, i: nat, s: Syntax, j: nat) {
    || (j == i + |Text(s)| && IsAt(t, i, Text(s)))
    || (s.SStr? && Peek(t, j) == '\0' && j == i + 1 + |CharsText(s.chars)| && IsAt(t, i, "\"" + CharsText(s.chars)))
  }

  // A string token, with its closing quote or up to the end of the text.
  lemma StringToken(t: string, i: nat) returns (cs: seq<StrChar>)
    requires i < |t| && t[i] == '\"' && StringsFrom(t, i).clear
    ensures !ParseString(t, i).Rejected? && (ParseString(t, i).Undefined? ==> !StringsFrom(t, i).uncut)
    ensures var r := ParseString(t, i);
      r.Parsed? ==>
        CharsOk(cs) && r.value == CharsValue(cs) && ValueAt(t, i, SStr(cs), r.next)
        && StringsFrom(t, r.next) == StringsFrom(t, i)
  {
    hide ParseString, CharsValue, CharsOk, CharsText, CharsAt, IsAt, ValueAt, Clear, Uncut, TokenEnd, StringsFrom;
    StringStarts(t, i);
    StringDefined(t, i);
    cs := [];
    if Uncut(t, i + 1) {
      cs := Elements(t, i + 1);
      ParsesToken(t, i, cs);
      TokenEnds(t, i, cs);
      PastChars(t, i + 1, cs);
    }
  }

  lemma StringStarts(t: string, i: nat)
    requires i < |t| && t[i] == '\"'
    ensures StringsFrom(t, i).clear ==> Clear(t, i + 1)
    ensures StringsFrom(t, i).uncut ==> Uncut(t, i + 1)
    ensures Clear(t, i + 1) && Uncut(t, i + 1) ==> StringsFrom(t, i) == StringsFrom(t, Behind(t, TokenEnd(t, i + 1)))
  {
    hide Clear, Uncut, TokenEnd, Behind;
  }

  lemma TokenEnds(t: string, i: nat, cs: seq<StrChar>)
    requires i < |t| && t[i] == '\"' && CharsAt(t, i + 1, cs)
    ensures var j := i + 1 + |CharsText(cs)|;
      j <= |t| && ValueAt(t, i, SStr(cs), if Peek(t, j) == '\"' then j + 1 else j)
  {
    hide CharsText;
    OneChar(t, i);
    Join(t, i, "\"", CharsText(cs));
    var j := i + 1 + |CharsText(cs)|;
    if Peek(t, j) == '\"' {
      OneChar(t, j);
      Join(t, i + 1, CharsText(cs), "\"");
      Join(t, i, "\"", CharsText(cs) + "\"");
    }
  }

  // --- values ---

  // s spells what was parsed from i on.
  predicate Derived(t: string, i: nat, s: Syntax, v: Json, j: nat) {
    && j <= |t| && Ok(s) && Gaps(s, PlainGap) && v == Value(s)
    && ValueAt(t, i, s, j) && StringsFrom(t, j) == StringsFrom(t, i)
  }

  // Main theorem.
  lemma {:induction false} Derives(t: string, i: nat) returns (s: Syntax)
    requires i <= |t| && StringsFrom(t, i).clear
    ensures var r := ParseValue(t, i);
      && (r.Undefined? ==> !StringsFrom(t, i).uncut)
      && (r.Parsed? ==> Derived(t, i, s, r.value, r.next))
    decreases |t| - i, 1
  {
    hide ScanNumber, ParseString, ParseArray, ParseObject, StringsFrom, NumberOk, NumberText, NumberValue, CharsOk;
    hide CharsValue, StringText, IsAt, Derived, StartsWith;
    s := SNull;
    if StartsWith(t, i, "null") {
      s := DerivesWord(t, i, SNull);
    } else if StartsWith(t, i, "false") {
      s := DerivesWord(t, i, SFalse);
    } else if StartsWith(t, i, "true") {
      s := DerivesWord(t, i, STrue);
    } else if Peek(t, i) == '\"' {
      s := DerivesString(t, i);
    } else if Peek(t, i) == '-' || IsDigit(Peek(t, i)) {
      s := DerivesNumber(t, i);
    } else if Peek(t, i) == '[' {
      s := DerivesArray(t, i);
    } else if Peek(t, i) == '{' {
      s := DerivesObject(t, i);
    }
  }

  lemma DerivesWord(t: string, i: nat, word: Syntax) returns (s: Syntax)
    requires word.SNull? || word.SFalse? || word.STrue?
    requires i <= |t| && StartsWith(t, i, Text(word))
    ensures s == word && Derived(t, i, s, Value(s), i + |Text(s)|)
  {
    s := word;
    Past(t, i, Text(s));
  }

  lemma DerivesString(t: string, i: nat) returns (s: Syntax)
    requires i < |t| && t[i] == '\"' && StringsFrom(t, i).clear
    ensures var r := ParseString(t, i);
      && !r.Rejected? && (r.Undefined? ==> !StringsFrom(t, i).uncut)
      && (r.Parsed? ==> Derived(t, i, s, Str(r.value), r.next))
  {
    hide ParseString, CharsValue, ValueAt, StringsFrom;
    var cs := StringToken(t, i);
    s := SStr(cs);
  }

  lemma DerivesNumber(t: string, i: nat) returns (s: Syntax)
    requires i <= |t| && (Peek(t, i) == '-' || IsDigit(Peek(t, i)))
    ensures var n := ScanNumber(t, i); Derived(t, i, s, Num(n.Value()), n.next)
  {
    hide ScanNumber, NumberText, NumberValue, StringsFrom, Scan.Value, NumberOk;
    var n := NumberToken(t, i);
    s := SNum(n);
    NumberChars(n);
    Past(t, i, NumberText(n));
  }

  lemma {:induction false} DerivesArray(t: string, i: nat) returns (s: Syntax)
    requires i < |t| && t[i] == '[' && StringsFrom(t, i).clear
    ensures var r := ParseArray(t, i);
      && (r.Undefined? ==> !StringsFrom(t, i).uncut)
      && (r.Parsed? ==> Derived(t, i, s, r.value, r.next))
    decreases |t| - i, 0
  {
    hide ParseElems, Skip, StringsFrom, Derived, DerivedItems, PlainGap, IsAt, GapText;
    Bracket(t, i);
    var g := GapAt(t, i + 1);
    var j := Skip(t, i + 1);
    s := SEmptyArr(g);
    if Peek(t, j) == ']' {
      Bracket(t, j);
      DerivedEmpty(t, i, s, g, j);
    } else {
      var its := DerivesElems(t, i + 1);
      ElemsSkip(t, i + 1);
      if ParseElems(t, i + 1).Parsed? {
        s := SArr(its);
        DerivedArray(t, i, its, ParseElems(t, i + 1).value, ParseElems(t, i + 1).next);
      }
    }
  }

  lemma DerivedArray(t: string, i: nat, its: Items, es: Elems, j: nat)
    requires IsAt(t, i, "[") && DerivedItems(t, i + 1, its, es, j) && StringsFrom(t, i + 1) == StringsFrom(t, i)
    ensures Derived(t, i, SArr(its), Arr(es), j)
  {
    hide IsAt, ItemsText, StringsFrom, PlainGap;
    Join(t, i, "[", ItemsText(its));
  }

  lemma DerivedObject(t: string, i: nat, fs: Fields, ms: Members, j: nat)
    requires IsAt(t, i, "{") && DerivedFields(t, i + 1, fs, ms, j) && StringsFrom(t, i + 1) == StringsFrom(t, i)
    ensures Derived(t, i, SObj(fs), Obj(ms), j)
  {
    hide IsAt, FieldsText, StringsFrom, PlainGap;
    Join(t, i, "{", FieldsText(fs));
  }

  // Two brackets with nothing but a gap between them.
  lemma DerivedEmpty(t: string, i: nat, s: Syntax, g: Gap, j: nat)
    requires s == SEmptyArr(g) || s == SEmptyObj(g)
    requires j == i + 1 + |GapText(g)| && IsAt(t, i, if s.SEmptyArr? then "[" else "{")
    requires PlainGap(g) && IsAt(t, i + 1, GapText(g)) && IsAt(t, j, if s.SEmptyArr? then "]" else "}")
    requires j < |t| && StringsFrom(t, j + 1) == StringsFrom(t, i)
    ensures Derived(t, i, s, if s.SEmptyArr? then Arr(ENil) else Obj(MNil), j + 1)
  {
    hide IsAt, GapText, StringsFrom, PlainGap;
    var open, close := if s.SEmptyArr? then "[" else "{", if s.SEmptyArr? then "]" else "}";
    Join(t, i + 1, GapText(g), close);
    Join(t, i, open, GapText(g) + close);
  }

  // A separator or bracket.
  lemma Bracket(t: string, i: nat)
    requires i < |t| && t[i] in ",:[]{}"
    ensures IsAt(t, i, [t[i]]) && StringsFrom(t, i + 1) == StringsFrom(t, i)
  {
  }

  lemma {:induction false} ElemsSkip(t: string, i: nat)
    requires i <= |t|
    ensures ParseElems(t, Skip(t, i)) == ParseElems(t, i)
  {
    hide Skip, ParseValue, Peek;
    SkipTwice(t, i);
  }

  // its spells the elements parsed from i on.
  predicate DerivedItems(t: string, i: nat, its: Items, es: Elems, j: nat) {
    && ItemsOk(its) && ItemsGaps(its, PlainGap) && es == ItemsValue(its)
    && IsAt(t, i, ItemsText(its)) && j == i + |ItemsText(its)| <= |t| && StringsFrom(t, j) == StringsFrom(t, i)
  }

  // The first of its stands at i; its value ends at k.
  predicate FirstItem(t: string, i: nat, its: Items, v: Json, k: nat) {
    && PlainGap(its.before) && PlainGap(its.after)
    && IsAt(t, i, GapText(its.before)) && StringsFrom(t, i + |GapText(its.before)|) == StringsFrom(t, i)
    && Derived(t, i + |GapText(its.before)|, its.v, v, k)
    && IsAt(t, k, GapText(its.after)) && Skip(t, k) == k + |GapText(its.after)|
    && StringsFrom(t, k + |GapText(its.after)|) == StringsFrom(t, k)
  }

  lemma {:induction false} DerivesElems(t: string, i: nat) returns (its: Items)
    requires i <= |t| && StringsFrom(t, i).clear
    ensures var r := ParseElems(t, i);
      && (r.Undefined? ==> !StringsFrom(t, i).uncut)
      && (r.Parsed? ==> DerivedItems(t, i, its, r.value, r.next))
    decreases |t| - i, 2
  {
    hide ParseValue, Skip, StringsFrom, IsAt, PlainGap, GapText, DerivedItems, Derived;
    var before := GapAt(t, i);
    var j := Skip(t, i);
    var v := Derives(t, j);
    its := LastItem(before, v, []);
    if ParseValue(t, j).Parsed? {
      var value, k := ParseValue(t, j).value, ParseValue(t, j).next;
      var after := GapAt(t, k);
      var m := Skip(t, k);
      its := LastItem(before, v, after);
      SameStrings(t, j, v, value, k);
      if Peek(t, m) == ',' {
        Bracket(t, m);
        var rest := DerivesElems(t, m + 1);
        its := Item(before, v, after, rest);
        if ParseElems(t, m + 1).Parsed? {
          JoinItems(t, i, its, value, k, ParseElems(t, m + 1).value, ParseElems(t, m + 1).next);
        }
      } else if Peek(t, m) == ']' {
        EndItems(t, i, its, value, k);
      }
    }
  }

  lemma SameStrings(t: string, i: nat, s: Syntax, v: Json, j: nat)
    requires Derived(t, i, s, v, j)
    ensures StringsFrom(t, j) == StringsFrom(t, i)
  {
  }

  lemma EndItems(t: string, i: nat, its: Items, v: Json, k: nat)
    requires its.LastItem? && FirstItem(t, i, its, v, k)
    requires var m := k + |GapText(its.after)|; m < |t| && t[m] == ']' && StringsFrom(t, m) == StringsFrom(t, i)
    ensures DerivedItems(t, i, its, ECons(v, ENil), k + |GapText(its.after)| + 1)
  {
    hide IsAt, Text, GapText, Skip, ValueAt, PlainGap, StringsFrom, Ok, Gaps, Value, ItemsText;
    var m := k + |GapText(its.after)|;
    Bracket(t, m);
    JoinItem(t, i, its, k);
  }

  lemma JoinItems(t: string, i: nat, its: Items, v: Json, k: nat, es: Elems, j: nat)
    requires its.Item? && FirstItem(t, i, its, v, k)
    requires var m := k + |GapText(its.after)|;
      && m < |t| && t[m] == ',' && StringsFrom(t, m) == StringsFrom(t, i)
      && DerivedItems(t, m + 1, its.rest, es, j)
    ensures DerivedItems(t, i, its, ECons(v, es), j)
  {
    hide IsAt, Text, GapText, Skip, ValueAt, PlainGap, StringsFrom, Ok, Gaps, Value, ItemsText;
    var m := k + |GapText(its.after)|;
    Bracket(t, m);
    Join(t, m, ",", ItemsText(its.rest));
    JoinItem(t, i, its, k);
  }

  // A value that something stands behind is whole.
  lemma WholeValue(t: string, i: nat, s: Syntax, j: nat)
    requires j <= |t| && ValueAt(t, i, s, j) && Peek(t, Skip(t, j)) != '\0'
    ensures j == i + |Text(s)| && IsAt(t, i, Text(s))
  {
  }

  lemma WholeString(t: string, i: nat, cs: seq<StrChar>, j: nat)
    requires j <= |t| && ValueAt(t, i, SStr(cs), j) && Peek(t, Skip(t, j)) != '\0'
    ensures j == i + |StringText(cs)| && IsAt(t, i, StringText(cs))
  {
  }

  lemma JoinItem(t: string, i: nat, its: Items, k: nat)
    requires IsAt(t, i, GapText(its.before)) && ValueAt(t, i + |GapText(its.before)|, its.v, k)
    requires k <= |t| && IsAt(t, k, GapText(its.after)) && Peek(t, Skip(t, k)) != '\0'
    requires IsAt(t, k + |GapText(its.after)|, ItemsTail(its))
    ensures IsAt(t, i, ItemsText(its)) && i + |ItemsText(its)| == k + |GapText(its.after)| + |ItemsTail(its)|
  {
    hide IsAt, Text, ItemsTail, GapText, Skip, ValueAt;
    var j := i + |GapText(its.before)|;
    WholeValue(t, j, its.v, k);
    Join(t, k, GapText(its.after), ItemsTail(its));
    Join(t, j, Text(its.v), GapText(its.after) + ItemsTail(its));
    Join(t, i, GapText(its.before), Text(its.v) + (GapText(its.after) + ItemsTail(its)));
  }

  lemma {:induction false} DerivesObject(t: string, i: nat) returns (s: Syntax)
    requires i < |t| && t[i] == '{' && StringsFrom(t, i).clear
    ensures var r := ParseObject(t, i);
      && (r.Undefined? ==> !StringsFrom(t, i).uncut)
      && (r.Parsed? ==> Derived(t, i, s, r.value, r.next))
    decreases |t| - i, 0
  {
    hide ParseMembers, Skip, StringsFrom, Derived, DerivedFields, PlainGap, IsAt, GapText;
    Bracket(t, i);
    var g := GapAt(t, i + 1);
    var j := Skip(t, i + 1);
    s := SEmptyObj(g);
    if Peek(t, j) == '}' {
      Bracket(t, j);
      DerivedEmpty(t, i, s, g, j);
    } else {
      var fs := DerivesMembers(t, i + 1);
      MembersSkip(t, i + 1);
      if ParseMembers(t, i + 1).Parsed? {
        s := SObj(fs);
        DerivedObject(t, i, fs, ParseMembers(t, i + 1).value, ParseMembers(t, i + 1).next);
      }
    }
  }

  lemma {:induction false} MembersSkip(t: string, i: nat)
    requires i <= |t|
    ensures ParseMembers(t, Skip(t, i)) == ParseMembers(t, i)
  {
    hide Skip, ParseMember;
    SkipTwice(t, i);
    MemberSkip(t, i);
  }

  lemma {:induction false} MemberSkip(t: string, i: nat)
    requires i <= |t|
    ensures ParseMember(t, Skip(t, i)) == ParseMember(t, i)
  {
    hide Skip, ParseValue, ParseString, Peek;
    SkipTwice(t, i);
  }

  // fs spells the members parsed from i on.
  predicate DerivedFields(t: string, i: nat, fs: Fields, ms: Members, j: nat) {
    && FieldsOk(fs) && FieldsGaps(fs, PlainGap) && ms == FieldsValue(fs)
    && IsAt(t, i, FieldsText(fs)) && j == i + |FieldsText(fs)| <= |t| && StringsFrom(t, j) == StringsFrom(t, i)
  }

  // The first of fs, as far as its value, stands from i to k, if something stands behind it.
  predicate DerivedField(t: string, i: nat, before: Gap, key: seq<StrChar>, mid: Gap, val: Gap, v: Syntax,
                         member: (string, Json), k: nat) {
    && k <= |t| && PlainGap(before) && CharsOk(key) && PlainGap(mid) && PlainGap(val) && Ok(v) && Gaps(v, PlainGap)
    && member == (CharsValue(key), Value(v)) && StringsFrom(t, k) == StringsFrom(t, i)
    && (Peek(t, k) != '\0' ==>
          var f := GapText(before) + FieldText(key, mid, val, Text(v));
          IsAt(t, i, f) && k == i + |f|)
  }

  predicate FirstField(t: string, i: nat, fs: Fields, member: (string, Json), k: nat) {
    && DerivedField(t, i, fs.before, fs.key, fs.mid, fs.val, fs.v, member, k)
    && PlainGap(fs.after) && IsAt(t, k, GapText(fs.after)) && Skip(t, k) == k + |GapText(fs.after)|
    && StringsFrom(t, k + |GapText(fs.after)|) == StringsFrom(t, k)
  }

  lemma {:induction false} DerivesMembers(t: string, i: nat) returns (fs: Fields)
    requires i <= |t| && StringsFrom(t, i).clear
    ensures var r := ParseMembers(t, i);
      && (r.Undefined? ==> !StringsFrom(t, i).uncut)
      && (r.Parsed? ==> DerivedFields(t, i, fs, r.value, r.next))
    decreases |t| - i, 2
  {
    hide ParseMember, Skip, StringsFrom, IsAt, PlainGap, GapText, DerivedFields, DerivedField;
    var before, key, mid, val, v := DerivesMember(t, i);
    fs := LastField(before, key, mid, val, v, []);
    if ParseMember(t, i).Parsed? {
      var member, k := ParseMember(t, i).value, ParseMember(t, i).next;
      var after := GapAt(t, k);
      var m := Skip(t, k);
      fs := LastField(before, key, mid, val, v, after);
      SameStringsBehind(t, i, before, key, mid, val, v, member, k);
      if Peek(t, m) == ',' {
        Bracket(t, m);
        var rest := DerivesMembers(t, m + 1);
        fs := Field(before, key, mid, val, v, after, rest);
        if ParseMembers(t, m + 1).Parsed? {
          JoinFields(t, i, fs, member, k, ParseMembers(t, m + 1).value, ParseMembers(t, m + 1).next);
        }
      } else if Peek(t, m) == '}' {
        EndFields(t, i, fs, member, k);
      }
    }
  }

  lemma SameStringsBehind(t: string, i: nat, before: Gap, key: seq<StrChar>, mid: Gap, val: Gap, v: Syntax,
                          member: (string, Json), k: nat)
    requires DerivedField(t, i, before, key, mid, val, v, member, k)
    ensures StringsFrom(t, k) == StringsFrom(t, i)
  {
  }

  lemma EndFields(t: string, i: nat, fs: Fields, member: (string, Json), k: nat)
    requires fs.LastField? && FirstField(t, i, fs, member, k)
    requires var m := k + |GapText(fs.after)|; m < |t| && t[m] == '}' && StringsFrom(t, m) == StringsFrom(t, i)
    ensures DerivedFields(t, i, fs, MCons(member.0, member.1, MNil), k + |GapText(fs.after)| + 1)
  {
    hide IsAt, Text, GapText, Skip, PlainGap, StringsFrom, CharsOk, CharsValue, Ok, Gaps, Value, FieldsText, FieldText;
    var m := k + |GapText(fs.after)|;
    Bracket(t, m);
    JoinField(t, i, fs, k);
  }

  lemma JoinFields(t: string, i: nat, fs: Fields, member: (string, Json), k: nat, ms: Members, j: nat)
    requires fs.Field? && FirstField(t, i, fs, member, k)
    requires var m := k + |GapText(fs.after)|;
      && m < |t| && t[m] == ',' && StringsFrom(t, m) == StringsFrom(t, i)
      && DerivedFields(t, m + 1, fs.rest, ms, j)
    ensures DerivedFields(t, i, fs, MCons(member.0, member.1, ms), j)
  {
    hide IsAt, Text, GapText, Skip, PlainGap, StringsFrom, CharsOk, CharsValue, Ok, Gaps, Value, FieldsText, FieldText;
    var m := k + |GapText(fs.after)|;
    Bracket(t, m);
    Join(t, m, ",", FieldsText(fs.rest));
    JoinField(t, i, fs, k);
  }

  lemma NoEnd(t: string, i: nat)
    requires i <= |t| && Peek(t, Skip(t, i)) != '\0'
    ensures Peek(t, i) != '\0'
  {
  }

  lemma JoinField(t: string, i: nat, fs: Fields, k: nat)
    requires k <= |t| && IsAt(t, k, GapText(fs.after)) && Peek(t, Skip(t, k)) != '\0'
    requires Peek(t, k) != '\0' ==>
      var f := GapText(fs.before) + FieldText(fs.key, fs.mid, fs.val, Text(fs.v));
      IsAt(t, i, f) && k == i + |f|
    requires IsAt(t, k + |GapText(fs.after)|, FieldsTail(fs))
    ensures IsAt(t, i, FieldsText(fs)) && i + |FieldsText(fs)| == k + |GapText(fs.after)| + |FieldsTail(fs)|
  {
    hide IsAt, Text, FieldsTail, GapText, Skip, FieldText;
    NoEnd(t, k);
    var g, f := GapText(fs.before), FieldText(fs.key, fs.mid, fs.val, Text(fs.v));
    Split(t, i, g, f);
    Join(t, k, GapText(fs.after), FieldsTail(fs));
    Join(t, i + |g|, f, GapText(fs.after) + FieldsTail(fs));
    Join(t, i, g, f + (GapText(fs.after) + FieldsTail(fs)));
  }

  lemma {:induction false} DerivesMember(t: string, i: nat)
    returns (before: Gap, key: seq<StrChar>, mid: Gap, val: Gap, v: Syntax)
    requires i <= |t| && StringsFrom(t, i).clear
    ensures var r := ParseMember(t, i);
      && (r.Undefined? ==> !StringsFrom(t, i).uncut)
      && (r.Parsed? ==> DerivedField(t, i, before, key, mid, val, v, r.value, r.next))
    decreases |t| - i, 1
  {
    hide ParseValue, ParseString, Skip, StringsFrom, IsAt, PlainGap, GapText, FieldText, Text, Value, Ok, Gaps;
    hide CharsValue, CharsOk, StringText, CharsText;
    key, mid, val, v := [], [], [], SNull;
    before := GapAt(t, i);
    var j := Skip(t, i);
    NoString(t, j);
    if Peek(t, j) == '\"' {
      key := StringToken(t, j);
    }
    if ParseString(t, j).Parsed? {
      var k := ParseString(t, j).next;
      mid := GapAt(t, k);
      var m := Skip(t, k);
      if Peek(t, m) == ':' {
        WholeString(t, j, key, k);
        Bracket(t, m);
        val := GapAt(t, m + 1);
        var n := Skip(t, m + 1);
        v := Derives(t, n);
        if ParseValue(t, n).Parsed? && Peek(t, ParseValue(t, n).next) != '\0' {
          JoinMember(t, i, before, key, mid, val, Text(v));
        }
      }
    }
  }

  lemma NoString(t: string, i: nat)
    requires i <= |t|
    ensures ParseString(t, i).Rejected? <==> Peek(t, i) != '\"'
  {
  }

  lemma JoinMember(t: string, i: nat, before: Gap, key: seq<StrChar>, mid: Gap, val: Gap, v: string)
    requires IsAt(t, i, GapText(before)) && IsAt(t, i + |GapText(before)|, StringText(key))
    requires var k := i + |GapText(before)| + |StringText(key)|;
      var m := k + |GapText(mid)|;
      && IsAt(t, k, GapText(mid)) && IsAt(t, m, ":") && IsAt(t, m + 1, GapText(val))
      && IsAt(t, m + 1 + |GapText(val)|, v)
    ensures var f := GapText(before) + FieldText(key, mid, val, v);
      && IsAt(t, i, f)
      && |f| == |GapText(before)| + |StringText(key)| + |GapText(mid)| + 1 + |GapText(val)| + |v|
  {
    hide IsAt, GapText, StringText;
    var j := i + |GapText(before)|;
    var k := j + |StringText(key)|;
    var m := k + |GapText(mid)|;
    Join(t, m + 1, GapText(val), v);
    Join(t, m, ":", GapText(val) + v);
    Join(t, k, GapText(mid), ":" + (GapText(val) + v));
    Join(t, j, StringText(key), GapText(mid) + (":" + (GapText(val) + v)));
    Join(t, i, GapText(before), FieldText(key, mid, val, v));
  }

  // --- the strings of a syntax tree are clear and uncut ---

  lemma {:induction false} PastGap(t: string, i: nat, g: Gap)
    requires PlainGap(g) && IsAt(t, i, GapText(g))
    ensures StringsFrom(t, i) == StringsFrom(t, i + |GapText(g)|)
  {
    PlainChars(g);
    Past(t, i, GapText(g));
  }

  lemma {:induction false} PlainChars(g: Gap)
    requires PlainGap(g)
    ensures '\"' !in GapText(g) && '\0' !in GapText(g)
  {
    if g != [] {
      assert g[0] in g;
      PlainChars(g[1..]);
    }
  }

  lemma PastString(t: string, i: nat, cs: seq<StrChar>)
    requires CharsOk(cs) && IsAt(t, i, StringText(cs))
    ensures StringsFrom(t, i) == StringsFrom(t, i + |StringText(cs)|)
  {
    hide CharsOk, IsAt, CharsText, CharsAt, Clear, Uncut, TokenEnd;
    StringAt(t, i, cs);
    PastChars(t, i + 1, cs);
  }

  lemma {:induction false} PastValue(t: string, i: nat, s: Syntax)
    requires Ok(s) && Gaps(s, PlainGap) && IsAt(t, i, Text(s))
    ensures StringsFrom(t, i) == StringsFrom(t, i + |Text(s)|)
    decreases s, 2
  {
    hide IsAt, PlainGap, GapText, ItemsText, FieldsText, NumberOk, NumberText, CharsOk, StringText, StringsFrom;
    match s {
      case SNum(n) =>
        NumberChars(n);
        Past(t, i, NumberText(n));
      case SStr(cs) => PastString(t, i, cs);
      case SArr(items) =>
        OpenAt(t, i, "[", ItemsText(items));
        PastSign(t, i, "[");
        PastItems(t, i + 1, items);
      case SObj(fields) =>
        OpenAt(t, i, "{", FieldsText(fields));
        PastSign(t, i, "{");
        PastFields(t, i + 1, fields);
      case SEmptyArr(g) => PastEmpty(t, i, "[", g, "]");
      case SEmptyObj(g) => PastEmpty(t, i, "{", g, "}");
      case _ => Past(t, i, Text(s));
    }
  }

  // A separator or bracket.
  lemma PastSign(t: string, i: nat, c: string)
    requires |c| == 1 && c[0] in ",:[]{}" && i < |t| && t[i] == c[0]
    ensures StringsFrom(t, i) == StringsFrom(t, i + 1)
  {
  }

  lemma PastEmpty(t: string, i: nat, open: string, g: Gap, close: string)
    requires PlainGap(g) && IsAt(t, i, open + (GapText(g) + close))
    requires (open == "[" && close == "]") || (open == "{" && close == "}")
    ensures StringsFrom(t, i) == StringsFrom(t, i + 2 + |GapText(g)|)
  {
    hide IsAt, PlainGap, GapText, StringsFrom;
    OpenAt(t, i, open, GapText(g) + close);
    Split(t, i + 1, GapText(g), close);
    First(t, i + 1 + |GapText(g)|, close);
    PastSign(t, i, open);
    PastGap(t, i + 1, g);
    PastSign(t, i + 1 + |GapText(g)|, close);
  }

  lemma {:induction false} PastItems(t: string, i: nat, its: Items)
    requires ItemsOk(its) && ItemsGaps(its, PlainGap) && IsAt(t, i, ItemsText(its))
    ensures StringsFrom(t, i) == StringsFrom(t, i + |ItemsText(its)|)
    decreases its, 1
  {
    hide IsAt, PlainGap, GapText, Text, ItemsText, Ok, Gaps, StringsFrom;
    var j, k, m := ItemAt(t, i, its);
    PastGap(t, i, its.before);
    PastValue(t, j, its.v);
    PastGap(t, k, its.after);
    if its.Item? {
      OpenAt(t, m, ",", ItemsText(its.rest));
      PastSign(t, m, ",");
      PastItems(t, m + 1, its.rest);
    } else {
      First(t, m, "]");
      PastSign(t, m, "]");
    }
  }

  // Where the parts of an item stand.
  lemma ItemAt(t: string, i: nat, its: Items) returns (j: nat, k: nat, m: nat)
    requires IsAt(t, i, ItemsText(its))
    ensures j == i + |GapText(its.before)| && IsAt(t, i, GapText(its.before)) && IsAt(t, j, Text(its.v))
    ensures k == j + |Text(its.v)| && IsAt(t, k, GapText(its.after))
    ensures m == k + |GapText(its.after)| && IsAt(t, m, ItemsTail(its))
    ensures i + |ItemsText(its)| == m + |ItemsTail(its)|
  {
    hide IsAt, GapText, Text, ItemsTail;
    j := i + |GapText(its.before)|;
    k := j + |Text(its.v)|;
    m := k + |GapText(its.after)|;
    Split(t, i, GapText(its.before), Text(its.v) + (GapText(its.after) + ItemsTail(its)));
    Split(t, j, Text(its.v), GapText(its.after) + ItemsTail(its));
    Split(t, k, GapText(its.after), ItemsTail(its));
  }

  lemma {:induction false} PastFields(t: string, i: nat, fs: Fields)
    requires FieldsOk(fs) && FieldsGaps(fs, PlainGap) && IsAt(t, i, FieldsText(fs))
    ensures StringsFrom(t, i) == StringsFrom(t, i + |FieldsText(fs)|)
    decreases fs, 1
  {
    hide IsAt, PlainGap, GapText, Text, FieldText, FieldsText, Ok, Gaps, CharsOk, StringsFrom;
    var j, k, m := FieldAt(t, i, fs);
    PastGap(t, i, fs.before);
    PastField(t, j, fs.key, fs.mid, fs.val, fs.v);
    PastGap(t, k, fs.after);
    if fs.Field? {
      OpenAt(t, m, ",", FieldsText(fs.rest));
      PastSign(t, m, ",");
      PastFields(t, m + 1, fs.rest);
    } else {
      First(t, m, "}");
      PastSign(t, m, "}");
    }
  }

  lemma FieldAt(t: string, i: nat, fs: Fields) returns (j: nat, k: nat, m: nat)
    requires IsAt(t, i, FieldsText(fs))
    ensures var f := FieldText(fs.key, fs.mid, fs.val, Text(fs.v));
      j == i + |GapText(fs.before)| && IsAt(t, i, GapText(fs.before)) && IsAt(t, j, f) && k == j + |f|
    ensures IsAt(t, k, GapText(fs.after)) && m == k + |GapText(fs.after)| && IsAt(t, m, FieldsTail(fs))
    ensures i + |FieldsText(fs)| == m + |FieldsTail(fs)|
  {
    hide IsAt, GapText, Text, FieldText, FieldsTail;
    var f := FieldText(fs.key, fs.mid, fs.val, Text(fs.v));
    j := i + |GapText(fs.before)|;
    k := j + |f|;
    m := k + |GapText(fs.after)|;
    Split(t, i, GapText(fs.before), f + (GapText(fs.after) + FieldsTail(fs)));
    Split(t, j, f, GapText(fs.after) + FieldsTail(fs));
    Split(t, k, GapText(fs.after), FieldsTail(fs));
  }

  lemma {:induction false} PastField(t: string, i: nat, key: seq<StrChar>, mid: Gap, val: Gap, v: Syntax)
    requires CharsOk(key) && PlainGap(mid) && PlainGap(val) && Ok(v) && Gaps(v, PlainGap)
    requires IsAt(t, i, FieldText(key, mid, val, Text(v)))
    ensures StringsFrom(t, i) == StringsFrom(t, i + |FieldText(key, mid, val, Text(v))|)
    decreases v, 3
  {
    hide IsAt, PlainGap, GapText, Text, StringText, Ok, Gaps, CharsOk, StringsFrom;
    var j := i + |StringText(key)|;
    var k := j + |GapText(mid)|;
    var m := k + 1 + |GapText(val)|;
    Split(t, i, StringText(key), GapText(mid) + (":" + (GapText(val) + Text(v))));
    Split(t, j, GapText(mid), ":" + (GapText(val) + Text(v)));
    OpenAt(t, k, ":", GapText(val) + Text(v));
    Split(t, k + 1, GapText(val), Text(v));
    PastString(t, i, key);
    PastGap(t, j, mid);
    PastSign(t, k, ":");
    PastGap(t, k + 1, val);
    PastValue(t, m, v);
  }

  // --- whole documents ---

  // t is the text of s between gaps. A string at the end may lack its closing quote.
  predicate IsDocument(t: string, before: Gap, s: Syntax, after: Gap) {
    && PlainGap(before) && PlainGap(after) && Ok(s) && Gaps(s, PlainGap)
    && (t == GapText(before) + (Text(s) + GapText(after)) || Unclosed(t, before, s))
  }

  predicate Unclosed(t: string, before: Gap, s: Syntax) {
    s.SStr? && t == GapText(before) + ("\"" + CharsText(s.chars))
  }

  lemma Defined(t: string, nullTerminated: bool)
    requires ClearEscapes(t)
    ensures UncutEscapes(t) ==> !Parse(t, nullTerminated).Undefined?
  {
    hide StringsFrom, ParseValue, Derived, Skip, PlainGap, IsAt;
    var before := GapAt(t, 0);
    var s := Derives(t, Skip(t, 0));
  }

  lemma Accepts(t: string, before: Gap, s: Syntax, after: Gap)
    requires IsDocument(t, before, s, after)
    ensures Parse(t, true) == Parsed(Value(s), |t|)
  {
    hide PlainGap, Ok, Gaps, GapText, Text, Value, Unclosed, Parse;
    if Unclosed(t, before, s) {
      AcceptsUnclosed(t, before, s);
    } else {
      ParsesDocument(s, before, after, true);
    }
  }

  lemma AcceptsUnclosed(t: string, before: Gap, s: Syntax)
    requires PlainGap(before) && Ok(s) && Unclosed(t, before, s)
    ensures Parse(t, true) == Parsed(Value(s), |t|)
  {
    hide IsAt, PlainGap, GapText, CharsText, CharsOk, Skip, ParseString, CharsValue;
    var i := |GapText(before)|;
    Whole(t);
    assert "\"" + CharsText(s.chars) + "" == "\"" + CharsText(s.chars);
    Lead(t, 0, before, "\"", CharsText(s.chars));
    ParsesToken(t, i, s.chars);
    ParsesQuote(t, i);
    AtEnd(t);
  }

  lemma DocumentsComplete(t: string, before: Gap, s: Syntax, after: Gap)
    requires IsDocument(t, before, s, after)
    ensures CompleteEscapes(t)
  {
    hide IsAt, PlainGap, Gaps, GapText, Text, CharsText, CharsOk, StringsFrom, CharsAt;
    var i := |GapText(before)|;
    Whole(t);
    AtEnd(t);
    if Unclosed(t, before, s) {
      Split(t, 0, GapText(before), "\"" + CharsText(s.chars));
      UnclosedComplete(t, i, s);
    } else {
      Split(t, 0, GapText(before), Text(s) + GapText(after));
      Split(t, i, Text(s), GapText(after));
      PastValue(t, i, s);
      PastGap(t, i + |Text(s)|, after);
    }
    PastGap(t, 0, before);
  }

  lemma UnclosedComplete(t: string, i: nat, s: Syntax)
    requires s.SStr? && Ok(s) && IsAt(t, i, "\"" + CharsText(s.chars)) && i + 1 + |CharsText(s.chars)| == |t|
    ensures StringsFrom(t, i) == Strings(true, true)
  {
    hide IsAt, CharsText, CharsOk, Clear, Uncut, TokenEnd;
    OpenAt(t, i, "\"", CharsText(s.chars));
    PastChars(t, i + 1, s.chars);
  }

  lemma AtEnd(t: string)
    ensures StringsFrom(t, |t|) == Strings(true, true)
    ensures Skip(t, |t|) == |t|
  {
  }

  lemma ParsesQuote(t: string, i: nat)
    requires i < |t| && t[i] == '\"' && ParseString(t, i).Parsed?
    ensures ParseValue(t, i) == Parsed(Str(ParseString(t, i).value), ParseString(t, i).next)
  {
    hide ParseString, ParseArray, ParseObject, ScanNumber;
    OtherWord(t, i, "null");
    OtherWord(t, i, "false");
    OtherWord(t, i, "true");
  }

  lemma OtherWord(t: string, i: nat, word: string)
    requires i < |t| && word != "" && t[i] != word[0]
    ensures !StartsWith(t, i, word)
  {
    assert i + |word| <= |t| ==> t[i..i + |word|][0] == t[i];
  }

  lemma Accepted(t: string) returns (before: Gap, s: Syntax, after: Gap)
    requires CString(t) && ClearEscapes(t) && Parse(t, true).Parsed?
    ensures IsDocument(t, before, s, after)
  {
    hide StringsFrom, ParseValue, Skip, PlainGap, IsAt, Ok, Gaps, GapText, Text, Value, CharsText;
    before := GapAt(t, 0);
    var i := Skip(t, 0);
    s := Derives(t, i);
    var j := ParseValue(t, i).next;
    after := GapAt(t, j);
    ToTheEnd(t, before, i, s, j, after);
  }

  lemma ToTheEnd(t: string, before: Gap, i: nat, s: Syntax, j: nat, after: Gap)
    requires IsAt(t, 0, GapText(before)) && i == |GapText(before)| && ValueAt(t, i, s, j)
    requires IsAt(t, j, GapText(after)) && j + |GapText(after)| == |t| && CString(t)
    ensures t == GapText(before) + (Text(s) + GapText(after)) || Unclosed(t, before, s)
  {
    hide GapText, Text, CharsText;
    if j == i + |Text(s)| && IsAt(t, i, Text(s)) {
      Join(t, i, Text(s), GapText(after));
      Join(t, 0, GapText(before), Text(s) + GapText(after));
      assert t[0..|t|] == t;
    } else {
      assert j == |t|;
      Join(t, 0, GapText(before), "\"" + CharsText(s.chars));
      assert t[0..|t|] == t;
    }
  }

  // Main theorem. The documents are exactly the clear C strings that are accepted, and the value is the one that the
  // document denotes. If moreover no escape is cut, all others are rejected.
  lemma ExactLanguage(t: string, v: Json)
    requires CString(t)
    ensures ClearEscapes(t) && Parse(t, true) == Parsed(v, |t|)
      <==> exists before, s, after :: IsDocument(t, before, s, after) && Value(s) == v
    ensures CompleteEscapes(t) ==>
      (Parse(t, true) == Rejected <==> forall before, s, after :: !IsDocument(t, before, s, after))
  {
    hide PlainGap, Ok, Gaps, GapText, Text, Unclosed, StringsFrom, Value, Parse;
    if ClearEscapes(t) {
      Defined(t, true);
      if Parse(t, true).Parsed? {
        var before, s, after := Accepted(t);
        Accepts(t, before, s, after);
      }
    }
    forall before, s, after | IsDocument(t, before, s, after)
      ensures CompleteEscapes(t) && Parse(t, true) == Parsed(Value(s), |t|)
    {
      Accepts(t, before, s, after);
      DocumentsComplete(t, before, s, after);
    }
  }
}
