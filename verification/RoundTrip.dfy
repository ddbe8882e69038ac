/**
  Printing and parsing undo each other: the printed text of a value is that of a syntax tree of RFC 8259 that denotes
  the value, so the parser returns it.
 */
module RoundTrip {
  import opened JsonValue
  import opened Utf8
  import opened Parsing
  import opened Grammar
  import opened Completeness

  // --- the syntax tree that the printers write ---

  function TabGap(n: int): Gap {
    if n <= 0 then [] else [Blank('\t')] + TabGap(n - 1)
  }

  function NewLine(fmt: bool, tabs: int): Gap {
    if fmt then [Blank('\n')] + TabGap(tabs) else []
  }

  function CharTree(c: char): StrChar {
    if c == '\\' || c == '\"' then Short(c)
    else if c == '\U{0008}' then Short('b')
    else if c == '\U{000C}' then Short('f')
    else if c == '\n' then Short('n')
    else if c == '\r' then Short('r')
    else if c == '\t' then Short('t')
    else if c < ' ' then Unicode("00" + [HexDigit(c as int / 16), HexDigit(c as int % 16)])
    else Raw(c)
  }

  function CharsTree(s: string): (cs: seq<StrChar>)
    ensures |cs| == |s|
  {
    if s == "" then [] else [CharTree(s[0])] + CharsTree(s[1..])
  }

  function Tree(v: Json, fmt: bool, depth: nat): Syntax {
    match v
    case Null => SNull
    case Bool(b) => if b then STrue else SFalse
    case Num(d) =>
      var n := d.Floor;
      SNum(Number(n < 0, Decimal(if n < 0 then -n else n), "", NoExp))
    case Str(s) => SStr(CharsTree(s))
    case Arr(ENil) => SEmptyArr([])
    case Arr(es) => SArr(ElemsTree(es, fmt, depth + 1, []))
    case Obj(MNil) => SEmptyObj(NewLine(fmt, depth - 1))
    case Obj(ms) => SObj(MembersTree(ms, fmt, depth + 1))
  }

  function ElemsTree(es: Elems, fmt: bool, depth: nat, before: Gap): Items
    requires es.ECons?
  {
    var v := Tree(es.head, fmt, depth);
    if es.tail.ENil? then LastItem(before, v, [])
    else Item(before, v, [], ElemsTree(es.tail, fmt, depth, if fmt then [Blank(' ')] else []))
  }

  function MembersTree(ms: Members, fmt: bool, depth: nat): Fields
    requires ms.MCons?
  {
    var k, v := CharsTree(ms.name), Tree(ms.value, fmt, depth);
    var val := if fmt then [Blank('\t')] else [];
    if ms.rest.MNil? then LastField(NewLine(fmt, depth), k, [], val, v, NewLine(fmt, depth - 1))
    else Field(NewLine(fmt, depth), k, [], val, v, [], MembersTree(ms.rest, fmt, depth))
  }

  // --- its text ---

  lemma {:induction false} TabText(n: int)
    ensures GapText(TabGap(n)) == Tabs(n)
  {
    if n > 0 {
      TabText(n - 1);
    }
  }

  lemma NewLineText(fmt: bool, tabs: int)
    ensures GapText(NewLine(fmt, tabs)) == if fmt then "\n" + Tabs(tabs) else ""
  {
    TabText(tabs);
  }

  lemma {:induction false} CharsTreeText(s: string)
    ensures CharsText(CharsTree(s)) == Escape(s)
    decreases |s|
  {
    if s != "" {
      CharsTreeText(s[1..]);
      CharTreeText(s[0]);
      var cs := CharsTree(s);
      assert cs[0] == CharTree(s[0]) && cs[1..] == CharsTree(s[1..]);
    }
  }

  lemma CharTreeText(c: char)
    ensures CharText(CharTree(c)) == EscapeChar(c)
  {
    if c < ' ' {
      var x, y := HexDigit(c as int / 16), HexDigit(c as int % 16);
      assert "\\u" + ("00" + [x, y]) == "\\u00" + [x, y];
    }
  }

  lemma {:induction false} TreeText(v: Json, fmt: bool, depth: nat)
    ensures Text(Tree(v, fmt, depth)) == Render(v, fmt, depth)
    decreases v, 1
  {
    hide NumberText, StringText, Quoted, GapText, NewLine, ItemsText, FieldsText, RenderElems, RenderMembers, Signed;
    match v {
      case Null =>
      case Bool(b) =>
      case Num(d) => NumberTreeText(d);
      case Str(s) => QuotedText(s);
      case Arr(ENil) => EmptyArrayText(fmt, depth);
      case Arr(es) => ArrayText(es, fmt, depth);
      case Obj(MNil) => EmptyObjectText(fmt, depth);
      case Obj(ms) => ObjectText(ms, fmt, depth);
    }
  }

  lemma NumberTreeText(d: real)
    ensures Text(Tree(Num(d), true, 0)) == Signed(d.Floor)
  {
    hide Decimal;
    var w := Decimal(if d.Floor < 0 then -d.Floor else d.Floor);
    assert w + ("" + "") == w && "" + w == w;
  }

  lemma QuotedText(s: string)
    ensures StringText(CharsTree(s)) == Quoted(s)
  {
    CharsTreeText(s);
  }

  lemma EmptyArrayText(fmt: bool, depth: nat)
    ensures Text(SEmptyArr([])) == Render(Arr(ENil), fmt, depth)
  {
    assert GapText([]) + "]" == "]";
  }

  lemma EmptyObjectText(fmt: bool, depth: nat)
    ensures Text(SEmptyObj(NewLine(fmt, depth - 1))) == Render(Obj(MNil), fmt, depth)
  {
    NewLineText(fmt, depth - 1);
  }

  lemma {:induction false} ArrayText(es: Elems, fmt: bool, depth: nat)
    requires es.ECons?
    ensures "[" + ItemsText(ElemsTree(es, fmt, depth + 1, [])) == Render(Arr(es), fmt, depth)
    decreases es, 2
  {
    ElemsText(es, fmt, depth + 1, []);
    assert GapText([]) + (RenderElems(es, fmt, depth + 1) + "]") == RenderElems(es, fmt, depth + 1) + "]";
    assert ("[" + RenderElems(es, fmt, depth + 1)) + "]" == "[" + (RenderElems(es, fmt, depth + 1) + "]");
  }

  lemma {:induction false} ElemsText(es: Elems, fmt: bool, depth: nat, before: Gap)
    requires es.ECons?
    ensures ItemsText(ElemsTree(es, fmt, depth, before)) == GapText(before) + (RenderElems(es, fmt, depth) + "]")
    decreases es, 1
  {
    hide Text, GapText, Tree, Render, Comma;
    EmptyGap();
    TreeText(es.head, fmt, depth);
    var v, rest := Render(es.head, fmt, depth), RenderElems(es.tail, fmt, depth);
    if es.tail.ECons? {
      CommaGap(fmt);
      ElemsText(es.tail, fmt, depth, if fmt then [Blank(' ')] else []);
      ElemJoin(v, GapText(if fmt then [Blank(' ')] else []), Comma(fmt), rest);
    } else {
      ElemJoin(v, "", "", rest);
    }
  }

  lemma ElemJoin(v: string, gap: string, comma: string, rest: string)
    ensures "," + gap == comma ==> v + ("" + ("," + (gap + (rest + "]")))) == ((v + comma) + rest) + "]"
    ensures v + ("" + "]") == ((v + "") + "") + "]"
  {
    assert v + ("" + ("," + (gap + (rest + "]")))) == v + (("," + gap) + (rest + "]"));
  }

  lemma CommaGap(fmt: bool)
    ensures "," + GapText(if fmt then [Blank(' ')] else []) == Comma(fmt)
  {
    assert fmt ==> GapText([Blank(' ')]) == " " + GapText([Blank(' ')][1..]);
  }

  lemma {:induction false} ObjectText(ms: Members, fmt: bool, depth: nat)
    requires ms.MCons?
    ensures "{" + FieldsText(MembersTree(ms, fmt, depth + 1)) == Render(Obj(ms), fmt, depth)
    decreases ms, 2
  {
    hide Text, GapText, Tree, Tabs, RenderMembers, MembersTree, FieldsText;
    MembersText(ms, fmt, depth + 1);
    var nl := if fmt then "\n" else "";
    BraceJoin("{", nl, RenderMembers(ms, fmt, depth + 1), if fmt then Tabs(depth) else "", "}");
  }

  lemma BraceJoin(open: string, nl: string, body: string, tabs: string, close: string)
    ensures open + (nl + (body + (tabs + close))) == (((open + nl) + body) + tabs) + close
  {
  }

  lemma {:induction false} MembersText(ms: Members, fmt: bool, depth: nat)
    requires ms.MCons?
    ensures FieldsText(MembersTree(ms, fmt, depth))
      == (if fmt then "\n" else "") + (RenderMembers(ms, fmt, depth) + ((if fmt then Tabs(depth - 1) else "") + "}"))
    decreases ms, 1
  {
    hide Text, GapText, FieldText, Tabs, NewLine, Render, Quoted, Tree, CharsTree, Colon;
    TreeText(ms.value, fmt, depth);
    EmptyGap();
    NewLineText(fmt, depth);
    NewLineText(fmt, depth - 1);
    var v, k := Render(ms.value, fmt, depth), Quoted(ms.name);
    MemberText(ms.name, v, fmt);
    if ms.rest.MCons? {
      MembersText(ms.rest, fmt, depth);
    }
    var nl, tabs := if fmt then "\n" else "", if fmt then Tabs(depth - 1) else "";
    MemberJoin(nl, MemberStart(fmt, depth), k, Colon(fmt), v, RenderMembers(ms.rest, fmt, depth), tabs + "}");
  }

  lemma EmptyGap()
    ensures GapText([]) == ""
  {
  }

  lemma MemberText(name: string, v: string, fmt: bool)
    ensures FieldText(CharsTree(name), [], if fmt then [Blank('\t')] else [], v) == Quoted(name) + Colon(fmt) + v
  {
    QuotedText(name);
    assert fmt ==> GapText([Blank('\t')]) == "\t" + GapText([Blank('\t')][1..]);
  }

  // Regrouping the pieces of a member, with another member after it or not.
  lemma MemberJoin(nl: string, start: string, k: string, colon: string, v: string, rest: string, close: string)
    ensures (nl + start) + (((k + colon) + v) + ("" + ("," + (nl + (rest + close)))))
      == nl + ((((((start + k) + colon) + v) + ("," + nl)) + rest) + close)
    ensures (nl + start) + (((k + colon) + v) + (nl + close))
      == nl + ((((((start + k) + colon) + v) + ("" + nl)) + "") + close)
  {
  }

  // --- its tokens, gaps and meaning ---

  lemma {:induction false} TabBlanks(n: int)
    ensures RfcGap(TabGap(n))
  {
    if n > 0 {
      TabBlanks(n - 1);
    }
  }

  lemma NewLineBlanks(fmt: bool, tabs: int)
    ensures RfcGap(NewLine(fmt, tabs))
  {
    TabBlanks(tabs);
  }

  lemma {:induction false} TreeGaps(v: Json, fmt: bool, depth: nat)
    ensures Gaps(Tree(v, fmt, depth), RfcGap)
    decreases v, 1
  {
    hide TabGap, NewLine, CharsTree;
    match v {
      case Arr(es) =>
        if es.ECons? { ElemsGaps(es, fmt, depth + 1, []); }
      case Obj(MNil) => NewLineBlanks(fmt, depth - 1);
      case Obj(ms) => MembersGaps(ms, fmt, depth + 1);
      case _ =>
    }
  }

  lemma {:induction false} ElemsGaps(es: Elems, fmt: bool, depth: nat, before: Gap)
    requires es.ECons? && RfcGap(before)
    ensures ItemsGaps(ElemsTree(es, fmt, depth, before), RfcGap)
    decreases es
  {
    TreeGaps(es.head, fmt, depth);
    if es.tail.ECons? {
      ElemsGaps(es.tail, fmt, depth, if fmt then [Blank(' ')] else []);
    }
  }

  lemma {:induction false} MembersGaps(ms: Members, fmt: bool, depth: nat)
    requires ms.MCons?
    ensures FieldsGaps(MembersTree(ms, fmt, depth), RfcGap)
    decreases ms
  {
    hide TabGap, NewLine, CharsTree;
    TreeGaps(ms.value, fmt, depth);
    NewLineBlanks(fmt, depth);
    NewLineBlanks(fmt, depth - 1);
    if ms.rest.MCons? {
      MembersGaps(ms.rest, fmt, depth);
    }
  }

  lemma {:induction false} DecimalDigits(n: nat)
    ensures Digits(Decimal(n)) && Natural(Decimal(n)) == n
    ensures Decimal(n) != "" && (n > 0 ==> Decimal(n)[0] != '0') && (n == 0 ==> Decimal(n) == "0")
  {
    var s := Decimal(n);
    if n < 10 {
      assert s[..0] == "";
    } else {
      DecimalDigits(n / 10);
      assert s[..|s| - 1] == Decimal(n / 10);
    }
  }

  lemma NumberMeans(d: real)
    requires Int32(d)
    ensures Rfc(Tree(Num(d), true, 0)) && Value(Tree(Num(d), true, 0)) == Num(d)
  {
    hide Decimal, NumberValue, Natural;
    var n := if d.Floor < 0 then -d.Floor else d.Floor;
    DecimalDigits(n);
    WholeMeans(d.Floor < 0, Decimal(n), n);
  }

  lemma WholeMeans(neg: bool, w: string, n: nat)
    requires Digits(w) && w != "" && Natural(w) == n && (w[0] == '0' ==> |w| == 1)
    ensures var num := Number(neg, w, "", NoExp);
      RfcNumber(num) && NumberValue(num) == if neg then -(n as real) else n as real
  {
    assert Natural("") == 0;
  }

  lemma CharMeans(c: char)
    requires c != '\0'
    ensures RfcChar(CharTree(c)) && CharsValue([CharTree(c)]) == [c]
    ensures CharTree(c).Unicode? ==> !Surrogate(HexNumber(CharTree(c).hex))
  {
    var t := CharTree(c);
    if t.Unicode? {
      HexMeans(c as int / 16);
      HexMeans(c as int % 16);
      assert HexNumber(t.hex) == c as int;
    }
    hide CharTree;
    assert [t][1..] == [];
  }

  lemma HexMeans(n: nat)
    requires n < 16
    ensures HexValue(HexDigit(n)) == n
  {
  }

  lemma {:induction false} CharsMean(s: string)
    requires CString(s)
    ensures RfcChars(CharsTree(s)) && CharsValue(CharsTree(s)) == s
    decreases |s|
  {
    if s != "" {
      CharMeans(s[0]);
      CharsMean(s[1..]);
      ConsMeans(CharTree(s[0]), CharsTree(s[1..]));
    }
  }

  lemma {:induction false} ConsMeans(c: StrChar, cs: seq<StrChar>)
    requires RfcChar(c) && RfcChars(cs) && (c.Unicode? ==> !Surrogate(HexNumber(c.hex)))
    ensures RfcChars([c] + cs) && CharsValue([c] + cs) == CharsValue([c]) + CharsValue(cs)
  {
    hide RfcChar, CharOk, HexNumber, Encode, Pair, ShortEscape;
    assert ([c] + cs)[1..] == cs && [c][1..] == [];
  }

  lemma {:induction false} TreeMeans(v: Json, fmt: bool, depth: nat)
    requires Printable(v)
    ensures Rfc(Tree(v, fmt, depth)) && Ok(Tree(v, fmt, depth)) && Value(Tree(v, fmt, depth)) == v
    decreases v, 1
  {
    hide CharsTree, CharsOk, RfcChars, CharsValue, NewLine;
    match v {
      case Null =>
      case Bool(b) =>
      case Num(d) => NumberMeans(d);
      case Str(s) => CharsMean(s);
      case Arr(es) =>
        if es.ECons? { ElemsMean(es, fmt, depth + 1, []); }
      case Obj(ms) =>
        if ms.MCons? { MembersMean(ms, fmt, depth + 1); }
    }
  }

  lemma {:induction false} ElemsMean(es: Elems, fmt: bool, depth: nat, before: Gap)
    requires es.ECons? && PrintableElems(es)
    ensures RfcItems(ElemsTree(es, fmt, depth, before)) && ItemsOk(ElemsTree(es, fmt, depth, before))
    ensures ItemsValue(ElemsTree(es, fmt, depth, before)) == es
    decreases es
  {
    TreeMeans(es.head, fmt, depth);
    if es.tail.ECons? {
      ElemsMean(es.tail, fmt, depth, if fmt then [Blank(' ')] else []);
    }
  }

  lemma {:induction false} MembersMean(ms: Members, fmt: bool, depth: nat)
    requires ms.MCons? && PrintableMembers(ms)
    ensures RfcFields(MembersTree(ms, fmt, depth)) && FieldsOk(MembersTree(ms, fmt, depth))
    ensures FieldsValue(MembersTree(ms, fmt, depth)) == ms
    decreases ms
  {
    hide CharsTree, CharsOk, RfcChars, CharsValue, NewLine;
    CharsMean(ms.name);
    TreeMeans(ms.value, fmt, depth);
    if ms.rest.MCons? {
      MembersMean(ms.rest, fmt, depth);
    }
  }

  // --- the round trip ---

  // Main theorem. Parsing the formatted or unformatted print of a tree gives the tree back and
  // consumes the whole text.
  lemma PrintParse(v: Json, fmt: bool, nullTerminated: bool)
    requires Printable(v)
    ensures Parse(Render(v, fmt, 0), nullTerminated) == Parsed(v, |Render(v, fmt, 0)|)
  {
    hide Render, Tree, Text, Ok, Value, Gaps, Parse, Printable;
    var s := Tree(v, fmt, 0);
    TreeText(v, fmt, 0);
    TreeMeans(v, fmt, 0);
    TreeGaps(v, fmt, 0);
    GapsMonotone(s, RfcGap, PlainGap);
    EmptyGap();
    ParsesDocument(s, [], [], nullTerminated);
    assert "" + (Text(s) + "") == Text(s);
  }

  // So two trees never print the same text.
  lemma PrintInjective(v: Json, w: Json, fmt: bool)
    requires Printable(v) && Printable(w)
    requires Render(v, fmt, 0) == Render(w, fmt, 0)
    ensures v == w
  {
    hide Render, Parse, Printable;
    PrintParse(v, fmt, true);
    PrintParse(w, fmt, true);
  }
}
