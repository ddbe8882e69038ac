/**
  Minifying a JSON document gives the document without anything between its tokens, which means the
  same; minifying the formatted print of a value gives its unformatted print.
 */
module MinifyDocuments {
  import opened JsonValue
  import opened Parsing
  import opened Grammar
  import opened Completeness
  import opened RoundTrip
  import opened Minify
  import opened MinifyTokens

  predicate RemovableGap(g: Gap) {
    forall p | p in g :: Removable(p)
  }

  // The same tree with nothing between the tokens.
  function Compact(s: Syntax): Syntax {
    match s
    case SEmptyArr(_) => SEmptyArr([])
    case SArr(items) => SArr(CompactItems(items))
    case SEmptyObj(_) => SEmptyObj([])
    case SObj(fields) => SObj(CompactFields(fields))
    case _ => s
  }

  function CompactItems(its: Items): Items {
    match its
    case LastItem(_, v, _) => LastItem([], Compact(v), [])
    case Item(_, v, _, rest) => Item([], Compact(v), [], CompactItems(rest))
  }

  function CompactFields(fs: Fields): Fields {
    match fs
    case LastField(_, k, _, _, v, _) => LastField([], k, [], [], Compact(v), [])
    case Field(_, k, _, _, v, _, rest) => Field([], k, [], [], Compact(v), [], CompactFields(rest))
  }

  // --- the tokens of a syntax tree ---

  function GapLexemes(g: Gap): seq<Lexeme> {
    if g == [] then [] else [Removed(g[0])] + GapLexemes(g[1..])
  }

  function Lexemes(s: Syntax): seq<Lexeme>
    decreases s, 1
  {
    match s
    case SStr(cs) => [Literal(cs)]
    case SEmptyArr(g) => [Word("[")] + (GapLexemes(g) + [Word("]")])
    case SArr(items) => [Word("[")] + ItemLexemes(items)
    case SEmptyObj(g) => [Word("{")] + (GapLexemes(g) + [Word("}")])
    case SObj(fields) => [Word("{")] + FieldLexemes(fields)
    case _ => [Word(Text(s))]
  }

  function ItemLexemes(its: Items): seq<Lexeme>
    decreases its, 1
  {
    GapLexemes(its.before) + (Lexemes(its.v) + (GapLexemes(its.after) + ItemTail(its)))
  }

  function ItemTail(its: Items): seq<Lexeme>
    decreases its, 0
  {
    if its.Item? then [Word(",")] + ItemLexemes(its.rest) else [Word("]")]
  }

  function FieldLexemes(fs: Fields): seq<Lexeme>
    decreases fs, 1
  {
    GapLexemes(fs.before)
    + (MemberLexemes(fs.key, fs.mid, fs.val, Lexemes(fs.v)) + (GapLexemes(fs.after) + FieldTail(fs)))
  }

  function FieldTail(fs: Fields): seq<Lexeme>
    decreases fs, 0
  {
    if fs.Field? then [Word(",")] + FieldLexemes(fs.rest) else [Word("}")]
  }

  function MemberLexemes(k: seq<StrChar>, m: Gap, w: Gap, v: seq<Lexeme>): seq<Lexeme> {
    [Literal(k)] + (GapLexemes(m) + ([Word(":")] + (GapLexemes(w) + v)))
  }

  // ls spells text, of which kept is left; all its lexemes are well-formed.
  predicate Spells(ls: seq<Lexeme>, text: string, kept: string) {
    LexOk(ls) && LexText(ls) == text && LexText(Bare(ls)) == kept
  }

  lemma {:induction false} LexTextJoin(a: seq<Lexeme>, b: seq<Lexeme>)
    ensures LexText(a + b) == LexText(a) + LexText(b)
    decreases |a|
  {
    if a == [] {
      assert a + b == b;
      assert LexText(a) + LexText(b) == LexText(b);
    } else {
      assert (a + b)[1..] == a[1..] + b;
      LexTextJoin(a[1..], b);
    }
  }

  lemma {:induction false} BareJoin(a: seq<Lexeme>, b: seq<Lexeme>)
    ensures Bare(a + b) == Bare(a) + Bare(b)
    decreases |a|
  {
    if a == [] {
      assert a + b == b;
      assert Bare(a) + Bare(b) == Bare(b);
    } else {
      assert (a + b)[1..] == a[1..] + b;
      BareJoin(a[1..], b);
    }
  }

  lemma Join(a: seq<Lexeme>, x: string, x': string, b: seq<Lexeme>, y: string, y': string)
    requires Spells(a, x, x') && Spells(b, y, y')
    ensures Spells(a + b, x + y, x' + y')
  {
    LexTextJoin(a, b);
    BareJoin(a, b);
    LexTextJoin(Bare(a), Bare(b));
  }

  // No white space, quotes or slashes.
  predicate Safe(c: char) {
    c > ' ' && c != '\"' && c != '/'
  }

  lemma SafeWord(w: string)
    requires forall c | c in w :: Safe(c)
    ensures WordOk(w)
  {
    forall i | 0 <= i < |w| ensures WordAt(w, i) {
      assert Safe(w[i]);
    }
  }

  lemma SpellsWord(w: string)
    requires forall c | c in w :: Safe(c)
    ensures Spells([Word(w)], w, w)
  {
    hide WordOk, Safe;
    SafeWord(w);
    BareText([Word(w)]);
    assert [Word(w)][1..] == [];
  }

  lemma SpellsLiteral(cs: seq<StrChar>)
    requires CharsOk(cs)
    ensures Spells([Literal(cs)], StringText(cs), StringText(cs))
  {
    BareText([Literal(cs)]);
    assert [Literal(cs)][1..] == [];
  }

  lemma {:induction false} SpellsGap(g: Gap)
    requires RemovableGap(g)
    ensures Spells(GapLexemes(g), GapText(g), "")
    decreases |g|
  {
    if g != [] {
      var p, rest := Removed(g[0]), GapLexemes(g[1..]);
      assert g[0] in g;
      assert RemovableGap(g[1..]);
      SpellsGap(g[1..]);
      assert ([p] + rest)[1..] == rest;
      BareText([p] + rest);
    }
  }

  lemma {:induction false} SpellsSyntax(s: Syntax)
    requires Ok(s) && Gaps(s, RemovableGap)
    ensures Spells(Lexemes(s), Text(s), Text(Compact(s)))
    decreases s, 1
  {
    hide Spells, GapText, GapLexemes, StringText, NumberText, CharsOk, RemovableGap;
    match s {
      case SNull => SpellsWord("null");
      case SFalse => SpellsWord("false");
      case STrue => SpellsWord("true");
      case SNum(n) => SpellsNumber(n);
      case SStr(cs) => SpellsLiteral(cs);
      case SEmptyArr(g) => SpellsEmpty("[", g, "]");
      case SArr(items) =>
        SpellsItems(items);
        SpellsWord("[");
        Join([Word("[")], "[", "[", ItemLexemes(items), ItemsText(items), ItemsText(CompactItems(items)));
      case SEmptyObj(g) => SpellsEmpty("{", g, "}");
      case SObj(fields) =>
        SpellsFields(fields);
        SpellsWord("{");
        Join([Word("{")], "{", "{", FieldLexemes(fields), FieldsText(fields), FieldsText(CompactFields(fields)));
    }
  }

  lemma SpellsNumber(n: Number)
    requires NumberOk(n)
    ensures Spells([Word(NumberText(n))], NumberText(n), NumberText(n))
  {
    forall c | c in NumberText(n)
      ensures Safe(c)
    {
      assert c == '-' || c in n.whole || c == '.' || c in n.frac || c in ExponentText(n.exp);
      assert c in ExponentText(n.exp) ==> c == n.exp.marker || c in n.exp.sign || c in n.exp.digits;
    }
    hide NumberText;
    SpellsWord(NumberText(n));
  }

  lemma SpellsEmpty(open: string, g: Gap, close: string)
    requires RemovableGap(g)
    requires (open == "[" && close == "]") || (open == "{" && close == "}")
    ensures Spells([Word(open)] + (GapLexemes(g) + [Word(close)]), open + (GapText(g) + close),
      open + (GapText([]) + close))
  {
    SpellsGap(g);
    SpellsWord(open);
    SpellsWord(close);
    EmptyGap();
    hide Spells, GapText, GapLexemes;
    Join(GapLexemes(g), GapText(g), "", [Word(close)], close, close);
    Join([Word(open)], open, open, GapLexemes(g) + [Word(close)], GapText(g) + close, "" + close);
  }

  // A gap, some text, a gap and some more text.
  lemma SpellsFour(g: Gap, v: seq<Lexeme>, x: string, x': string, h: Gap, tail: seq<Lexeme>, y: string, y': string)
    requires RemovableGap(g) && RemovableGap(h) && Spells(v, x, x') && Spells(tail, y, y')
    ensures Spells(GapLexemes(g) + (v + (GapLexemes(h) + tail)), GapText(g) + (x + (GapText(h) + y)),
      GapText([]) + (x' + (GapText([]) + y')))
  {
    hide Spells, GapText, GapLexemes;
    EmptyGap();
    SpellsGap(g);
    SpellsGap(h);
    Join(GapLexemes(h), GapText(h), "", tail, y, y');
    Join(v, x, x', GapLexemes(h) + tail, GapText(h) + y, "" + y');
    Join(GapLexemes(g), GapText(g), "", v + (GapLexemes(h) + tail), x + (GapText(h) + y), x' + ("" + y'));
  }

  lemma {:induction false} SpellsItems(its: Items)
    requires ItemsOk(its) && ItemsGaps(its, RemovableGap)
    ensures Spells(ItemLexemes(its), ItemsText(its), ItemsText(CompactItems(its)))
    decreases its
  {
    hide Spells, GapText, GapLexemes, Text, Compact, Lexemes, RemovableGap, Ok;
    SpellsSyntax(its.v);
    if its.Item? {
      SpellsItems(its.rest);
      SpellsWord(",");
      Join([Word(",")], ",", ",", ItemLexemes(its.rest), ItemsText(its.rest), ItemsText(CompactItems(its.rest)));
    } else {
      SpellsWord("]");
    }
    SpellsFour(its.before, Lexemes(its.v), Text(its.v), Text(Compact(its.v)), its.after,
      ItemTail(its), ItemsTail(its), ItemsTail(CompactItems(its)));
  }

  lemma {:induction false} SpellsFields(fs: Fields)
    requires FieldsOk(fs) && FieldsGaps(fs, RemovableGap)
    ensures Spells(FieldLexemes(fs), FieldsText(fs), FieldsText(CompactFields(fs)))
    decreases fs
  {
    hide Spells, GapText, GapLexemes, Text, Compact, Lexemes, RemovableGap, Ok, FieldText, MemberLexemes, CharsOk;
    SpellsSyntax(fs.v);
    SpellsMember(fs.key, fs.mid, fs.val, Lexemes(fs.v), Text(fs.v), Text(Compact(fs.v)));
    if fs.Field? {
      SpellsFields(fs.rest);
      SpellsWord(",");
      Join([Word(",")], ",", ",", FieldLexemes(fs.rest), FieldsText(fs.rest), FieldsText(CompactFields(fs.rest)));
    } else {
      SpellsWord("}");
    }
    SpellsFour(fs.before, MemberLexemes(fs.key, fs.mid, fs.val, Lexemes(fs.v)),
      FieldText(fs.key, fs.mid, fs.val, Text(fs.v)), FieldText(fs.key, [], [], Text(Compact(fs.v))), fs.after,
      FieldTail(fs), FieldsTail(fs), FieldsTail(CompactFields(fs)));
  }

  lemma SpellsMember(k: seq<StrChar>, m: Gap, w: Gap, v: seq<Lexeme>, x: string, x': string)
    requires CharsOk(k) && RemovableGap(m) && RemovableGap(w) && Spells(v, x, x')
    ensures Spells(MemberLexemes(k, m, w, v), FieldText(k, m, w, x), FieldText(k, [], [], x'))
  {
    hide Spells, GapText, GapLexemes, StringText;
    SpellsLiteral(k);
    SpellsWord(":");
    EmptyGap();
    SpellsFour(m, [Word(":")], ":", ":", w, v, x, x');
    Join([Literal(k)], StringText(k), StringText(k), GapLexemes(m) + ([Word(":")] + (GapLexemes(w) + v)),
      GapText(m) + (":" + (GapText(w) + x)), GapText([]) + (":" + (GapText([]) + x')));
  }

  // --- documents ---

  // Main theorem. A document with any white space and comments between its tokens is minified to its
  // tokens; the text may end in a line comment without a newline.
  lemma MinifyDocument(s: Syntax, before: Gap, after: Gap, open: string)
    requires Ok(s) && Gaps(s, RemovableGap) && RemovableGap(before) && RemovableGap(after)
    requires open == "" || ("//" <= open && '\n' !in open)
    ensures MinifyFrom(GapText(before) + (Text(s) + GapText(after)) + open, 0) == Kept(Text(Compact(s)))
  {
    hide Ok, Gaps, RemovableGap, GapText, Text, Compact, Lexemes, MinifyFrom, GapLexemes, Spells;
    SpellsSyntax(s);
    SpellsGap(before);
    SpellsGap(after);
    MinifySpelled(GapLexemes(before), GapText(before), Lexemes(s), Text(s), Text(Compact(s)), GapLexemes(after),
      GapText(after), open);
  }

  lemma MinifySpelled(a: seq<Lexeme>, x: string, b: seq<Lexeme>, y: string, y': string, c: seq<Lexeme>, z: string,
                      open: string)
    requires Spells(a, x, "") && Spells(b, y, y') && Spells(c, z, "")
    requires open == "" || ("//" <= open && '\n' !in open)
    ensures MinifyFrom(x + (y + z) + open, 0) == Kept(y')
  {
    hide Spells, MinifyFrom;
    Join(b, y, y', c, z, "");
    Join(a, x, "", b + c, y + z, y' + "");
    SpelledOnce(a + (b + c), x + (y + z), "" + (y' + ""), open);
    assert "" + (y' + "") == y';
  }

  lemma SpelledOnce(ls: seq<Lexeme>, x: string, x': string, open: string)
    requires Spells(ls, x, x')
    requires open == "" || ("//" <= open && '\n' !in open)
    ensures MinifyFrom(x + open, 0) == Kept(x')
  {
    hide MinifyFrom, LexText, Bare, LexOk;
    MinifyLexemes(ls, open);
  }

  lemma {:induction false} CompactMeans(s: Syntax)
    requires Ok(s)
    ensures Ok(Compact(s)) && Value(Compact(s)) == Value(s) && Gaps(Compact(s), PlainGap)
    decreases s, 1
  {
    match s {
      case SArr(items) => CompactItemsMean(items);
      case SObj(fields) => CompactFieldsMean(fields);
      case _ =>
    }
  }

  lemma {:induction false} CompactItemsMean(its: Items)
    requires ItemsOk(its)
    ensures ItemsOk(CompactItems(its)) && ItemsValue(CompactItems(its)) == ItemsValue(its)
    ensures ItemsGaps(CompactItems(its), PlainGap)
    decreases its
  {
    CompactMeans(its.v);
    if its.Item? {
      CompactItemsMean(its.rest);
    }
  }

  lemma {:induction false} CompactFieldsMean(fs: Fields)
    requires FieldsOk(fs)
    ensures FieldsOk(CompactFields(fs)) && FieldsValue(CompactFields(fs)) == FieldsValue(fs)
    ensures FieldsGaps(CompactFields(fs), PlainGap)
    decreases fs
  {
    hide CharsValue;
    CompactMeans(fs.v);
    if fs.Field? {
      CompactFieldsMean(fs.rest);
    }
  }

  // Minifying preserves meaning: the parser reads the document's value from the minified text, whatever
  // comments and white space stood in it.
  lemma MinifyMeans(s: Syntax, before: Gap, after: Gap, open: string)
    requires Ok(s) && Gaps(s, RemovableGap) && RemovableGap(before) && RemovableGap(after)
    requires open == "" || ("//" <= open && '\n' !in open)
    ensures var k := MinifyFrom(GapText(before) + (Text(s) + GapText(after)) + open, 0);
      k.Kept? && Parse(k.text, true) == Parsed(Value(s), |k.text|)
  {
    hide Ok, Gaps, GapText, Text, Compact, MinifyFrom, Parse, Value;
    MinifyDocument(s, before, after, open);
    CompactMeans(s);
    EmptyGap();
    ParsesDocument(Compact(s), [], [], true);
    assert "" + (Text(Compact(s)) + "") == Text(Compact(s));
  }

  // In particular every text of sections 2 to 7 of RFC 8259 is minified to its tokens.
  lemma MinifyRfc(s: Syntax, before: Gap, after: Gap)
    requires Rfc(s) && Gaps(s, RfcGap) && RfcGap(before) && RfcGap(after)
    ensures MinifyFrom(GapText(before) + (Text(s) + GapText(after)), 0) == Kept(Text(Compact(s)))
  {
    hide Rfc, Ok, Gaps, GapText, Text, Compact, MinifyFrom;
    RfcOk(s);
    GapsMonotone(s, RfcGap, RemovableGap);
    MinifyDocument(s, before, after, "");
    var t := GapText(before) + (Text(s) + GapText(after));
    assert t + "" == t;
  }

  // --- pretty printing ---

  lemma {:induction false} CompactTree(v: Json, depth: nat, depth': nat)
    ensures Compact(Tree(v, true, depth)) == Tree(v, false, depth')
    decreases v, 1
  {
    hide NewLine, CharsTree, Decimal;
    match v {
      case Arr(es) =>
        if es.ECons? { CompactElems(es, depth + 1, depth' + 1, [], []); }
      case Obj(MNil) => NoNewLine(depth' - 1);
      case Obj(ms) => CompactMembers(ms, depth + 1, depth' + 1);
      case _ =>
    }
  }

  lemma NoNewLine(tabs: int)
    ensures NewLine(false, tabs) == []
  {
  }

  lemma {:induction false} CompactElems(es: Elems, depth: nat, depth': nat, before: Gap, before': Gap)
    requires es.ECons? && before' == []
    ensures CompactItems(ElemsTree(es, true, depth, before)) == ElemsTree(es, false, depth', before')
    decreases es
  {
    CompactTree(es.head, depth, depth');
    if es.tail.ECons? {
      CompactElems(es.tail, depth, depth', [Blank(' ')], []);
    }
  }

  lemma {:induction false} CompactMembers(ms: Members, depth: nat, depth': nat)
    requires ms.MCons?
    ensures CompactFields(MembersTree(ms, true, depth)) == MembersTree(ms, false, depth')
    decreases ms
  {
    hide NewLine, CharsTree;
    CompactTree(ms.value, depth, depth');
    NoNewLine(depth');
    NoNewLine(depth' - 1);
    if ms.rest.MCons? {
      CompactMembers(ms.rest, depth, depth');
    }
  }

  // Main theorem. `cJSON_Minify` on `cJSON_Print(v)` leaves exactly `cJSON_PrintUnformatted(v)`.
  lemma MinifyPretty(v: Json)
    requires Printable(v)
    ensures MinifyFrom(Render(v, true, 0), 0) == Kept(Render(v, false, 0))
  {
    hide Ok, Gaps, GapText, Text, Compact, MinifyFrom, Render, Tree, Printable, Value;
    var s := Tree(v, true, 0);
    TreeText(v, true, 0);
    TreeText(v, false, 0);
    TreeMeans(v, true, 0);
    TreeGaps(v, true, 0);
    GapsMonotone(s, RfcGap, RemovableGap);
    CompactTree(v, 0, 0);
    EmptyGap();
    MinifyDocument(s, [], [], "");
    assert "" + (Text(s) + "") + "" == Text(s);
  }
}
