/**
  The layout of formatted text (src/cJSON.c, lines 434-658), told in terms of the unformatted text: a pass over the
  unformatted text that looks at one char at a time, and knows which brackets are open, inserts all the white space.
 */
module Indentation {
  import opened JsonValue
  import opened Parsing
  import opened Grammar
  import opened RoundTrip

  function Times(c: char, n: int): string {
    seq(if n < 0 then 0 else n, _ => c)
  }

  function NewLine(tabs: int): string {
    "\n" + Times('\t', tabs)
  }

  // How much of t, which follows an opening quote, belongs to the string: up to and including the closing quote.
  function Closing(t: string): (n: nat)
    ensures n <= |t|
    decreases |t|
  {
    if t == "" then 0
    else if t[0] == '\"' then 1
    else if t[0] == '\\' && |t| > 1 then 2 + Closing(t[2..])
    else 1 + Closing(t[1..])
  }

  // The open brackets, outermost first; `{` stands for an object, `[` for an array.
  function Indented(t: string, open: string): string
    decreases |t|
  {
    if t == "" then ""
    else
      var inside := if open == "" then "" else open[..|open| - 1];
      match t[0]
      case '\"' =>
        var n := 1 + Closing(t[1..]);
        t[..n] + Indented(t[n..], open)
      case '{' =>
        if Peek(t, 1) == '}' then "{" + (NewLine(|open| - 1) + ("}" + Indented(t[2..], open)))
        else "{" + (NewLine(|open| + 1) + Indented(t[1..], open + "{"))
      case '}' => NewLine(|open| - 1) + ("}" + Indented(t[1..], inside))
      case '[' => "[" + Indented(t[1..], open + "[")
      case ']' => "]" + Indented(t[1..], inside)
      case ',' =>
        if open != "" && open[|open| - 1] == '{' then "," + (NewLine(|open|) + Indented(t[1..], open))
        else ", " + Indented(t[1..], open)
      case ':' => ":\t" + Indented(t[1..], open)
      case c => [c] + Indented(t[1..], open)
  }

  // --- pieces ---

  lemma {:induction false} TabsTimes(n: int)
    ensures Tabs(n) == Times('\t', n)
  {
    if n > 0 {
      TabsTimes(n - 1);
    }
  }

  lemma NewLineTabs(n: int)
    ensures NewLine(n) == "\n" + Tabs(n)
  {
    TabsTimes(n);
  }

  lemma Head(c: char, rest: string)
    ensures ([c] + rest)[0] == c && ([c] + rest)[1..] == rest
  {
  }

  predicate WordChar(c: char) {
    c !in "\"{}[],:"
  }

  lemma {:induction false} Word(w: string, rest: string, open: string)
    requires forall c | c in w :: WordChar(c)
    ensures Indented(w + rest, open) == w + Indented(rest, open)
    decreases |w|
  {
    if w == "" {
      assert w + rest == rest;
    } else {
      assert w + rest == [w[0]] + (w[1..] + rest);
      Head(w[0], w[1..] + rest);
      assert w[0] in w;
      Word(w[1..], rest, open);
      Plain(w[0], w[1..] + rest, open);
      assert [w[0]] + (w[1..] + Indented(rest, open)) == w + Indented(rest, open);
    }
  }

  lemma Plain(c: char, rest: string, open: string)
    requires WordChar(c)
    ensures Indented([c] + rest, open) == [c] + Indented(rest, open)
  {
    Head(c, rest);
  }

  lemma {:induction false} ClosingEscape(s: string, rest: string)
    ensures Closing(Escape(s) + ("\"" + rest)) == |Escape(s)| + 1
    decreases |s|
  {
    hide EscapeChar;
    if s == "" {
      assert "" + ("\"" + rest) == "\"" + rest;
    } else {
      var tail := Escape(s[1..]) + ("\"" + rest);
      assert Escape(s) + ("\"" + rest) == EscapeChar(s[0]) + tail;
      ClosingEscape(s[1..], rest);
      ClosingChar(s[0], tail);
    }
  }

  lemma ClosingChar(c: char, rest: string)
    ensures Closing(EscapeChar(c) + rest) == |EscapeChar(c)| + Closing(rest)
  {
    var e := EscapeChar(c);
    if |e| == 2 {
      assert e == ['\\', e[1]];
      BackslashClosing(e[1], rest);
    } else if |e| == 6 {
      UnicodeClosing(e[4], e[5], rest);
    } else {
      Head(c, rest);
    }
  }

  lemma UnicodeClosing(x: char, y: char, rest: string)
    requires x !in "\"\\" && y !in "\"\\"
    ensures Closing("\\u00" + [x, y] + rest) == 6 + Closing(rest)
  {
    hide Closing;
    var last := [y] + rest;
    var third := [x] + last;
    var second := "0" + third;
    var first := "0" + second;
    PlainClosing(y, rest);
    PlainClosing(x, last);
    PlainClosing('0', third);
    PlainClosing('0', second);
    BackslashClosing('u', first);
    assert "\\u00" + [x, y] + rest == ['\\', 'u'] + first;
  }

  lemma BackslashClosing(c: char, rest: string)
    ensures Closing(['\\', c] + rest) == 2 + Closing(rest)
  {
    var t := ['\\', c] + rest;
    assert t[0] == '\\' && t[2..] == rest;
  }

  lemma PlainClosing(c: char, rest: string)
    requires c != '\"' && c != '\\'
    ensures Closing([c] + rest) == 1 + Closing(rest)
  {
    Head(c, rest);
  }

  lemma Literal(s: string, rest: string, open: string)
    ensures Indented(Quoted(s) + rest, open) == Quoted(s) + Indented(rest, open)
  {
    hide Escape;
    var t := Quoted(s) + rest;
    ClosingEscape(s, rest);
    assert t[1..] == Escape(s) + ("\"" + rest);
    var n := 1 + Closing(t[1..]);
    assert t[..n] == Quoted(s) && t[n..] == rest;
  }

  // --- brackets and separators ---

  lemma ObjectOpens(rest: string, open: string)
    requires rest != "" && rest[0] != '}'
    ensures Indented("{" + rest, open) == "{" + (NewLine(|open| + 1) + Indented(rest, open + "{"))
  {
    hide NewLine;
    Head('{', rest);
  }

  lemma ObjectEmpty(rest: string, open: string)
    ensures Indented("{}" + rest, open) == "{" + (NewLine(|open| - 1) + ("}" + Indented(rest, open)))
  {
    hide NewLine;
    var t := "{}" + rest;
    assert t[0] == '{' && t[1] == '}' && t[2..] == rest;
  }

  lemma Popped(open: string, c: char)
    ensures open + [c] != "" && (open + [c])[..|open + [c]| - 1] == open && (open + [c])[|open|] == c
  {
  }

  lemma ObjectCloses(rest: string, open: string)
    ensures Indented("}" + rest, open + "{") == NewLine(|open|) + ("}" + Indented(rest, open))
  {
    hide NewLine;
    Head('}', rest);
    Popped(open, '{');
  }

  lemma ArrayOpens(rest: string, open: string)
    ensures Indented("[" + rest, open) == "[" + Indented(rest, open + "[")
  {
    Head('[', rest);
  }

  lemma ArrayCloses(rest: string, open: string)
    ensures Indented("]" + rest, open + "[") == "]" + Indented(rest, open)
  {
    Head(']', rest);
    Popped(open, '[');
  }

  lemma ArrayComma(rest: string, open: string)
    ensures Indented("," + rest, open + "[") == ", " + Indented(rest, open + "[")
  {
    hide NewLine;
    Head(',', rest);
    Popped(open, '[');
  }

  lemma ObjectComma(rest: string, open: string)
    ensures Indented("," + rest, open + "{") == "," + (NewLine(|open| + 1) + Indented(rest, open + "{"))
  {
    hide NewLine;
    Head(',', rest);
    Popped(open, '{');
  }

  lemma Colons(rest: string, open: string)
    ensures Indented(":" + rest, open) == ":\t" + Indented(rest, open)
  {
    Head(':', rest);
  }

  // --- values ---

  lemma NumberWord(n: int)
    ensures forall c | c in Signed(n) :: WordChar(c)
  {
    hide Decimal;
    var m := if n < 0 then -n else n;
    DecimalDigits(m);
    forall c | c in Signed(n) ensures WordChar(c) {
      assert c == '-' || c in Decimal(m);
    }
  }

  lemma {:induction false} Value(v: Json, d: nat, rest: string, open: string)
    ensures Indented(Render(v, false, d) + rest, open) == Render(v, true, |open|) + Indented(rest, open)
    decreases v, 1
  {
    hide Indented, Quoted, Signed, RenderElems, RenderMembers, NewLine, Tabs;
    match v {
      case Null => Word("null", rest, open);
      case Bool(b) => Word(if b then "true" else "false", rest, open);
      case Num(x) =>
        NumberWord(x.Floor);
        Word(Signed(x.Floor), rest, open);
      case Str(s) => Literal(s, rest, open);
      case Arr(es) => Array(es, d, rest, open);
      case Obj(MNil) =>
        ObjectEmpty(rest, open);
        NewLineTabs(|open| - 1);
        EmptyJoin(Tabs(|open| - 1), Indented(rest, open));
      case Obj(ms) => Object(ms, d, rest, open);
    }
  }

  lemma {:induction false} Array(es: Elems, d: nat, rest: string, open: string)
    ensures Indented(Render(Arr(es), false, d) + rest, open) == Render(Arr(es), true, |open|) + Indented(rest, open)
    decreases es, 2
  {
    hide Indented, RenderElems;
    var body, text := RenderElems(es, false, d + 1), RenderElems(es, true, |open| + 1);
    assert ("[" + body + "]") + rest == "[" + (body + ("]" + rest));
    ArrayOpens(body + ("]" + rest), open);
    Elements(es, d + 1, rest, open);
    assert "[" + (text + ("]" + Indented(rest, open))) == ("[" + text + "]") + Indented(rest, open);
  }

  lemma {:induction false} Elements(es: Elems, d: nat, rest: string, open: string)
    ensures Indented(RenderElems(es, false, d) + ("]" + rest), open + "[")
      == RenderElems(es, true, |open| + 1) + ("]" + Indented(rest, open))
    decreases es, 1
  {
    hide Indented, Render;
    ArrayCloses(rest, open);
    if es.ECons? {
      var inner := open + "[";
      var more, close := RenderElems(es.tail, false, d), "]" + rest;
      var tail := (if es.tail.ECons? then "," else "") + (more + close);
      Value(es.head, d, tail, inner);
      assert RenderElems(es, false, d) + close == Render(es.head, false, d) + tail;
      Elements(es.tail, d, rest, open);
      ArrayComma(more + close, open);
      assert "" + (more + close) == more + close;
      ElementsJoin(Render(es.head, true, |inner|), es.tail.ECons?, RenderElems(es.tail, true, |inner|),
        "]" + Indented(rest, open));
    } else {
      assert "" + ("]" + rest) == "]" + rest;
    }
  }

  lemma ElementsJoin(h: string, more: bool, t: string, close: string)
    ensures h + (if more then ", " + (t + close) else t + close) == h + (if more then ", " else "") + t + close
  {
  }

  lemma {:induction false} Object(ms: Members, d: nat, rest: string, open: string)
    requires ms.MCons?
    ensures Indented(Render(Obj(ms), false, d) + rest, open) == Render(Obj(ms), true, |open|) + Indented(rest, open)
    decreases ms, 2
  {
    hide Indented, RenderMembers, Tabs, NewLine;
    var body, text := RenderMembers(ms, false, d + 1), RenderMembers(ms, true, |open| + 1);
    StartsWithQuote(ms, d + 1);
    assert ("{" + body + "" + "}") + rest == "{" + (body + ("}" + rest));
    ObjectOpens(body + ("}" + rest), open);
    Named(ms, d + 1, rest, open);
    ObjectJoin(text, Tabs(|open|), Indented(rest, open));
  }

  lemma ObjectJoin(text: string, tabs: string, rest: string)
    ensures "{" + ("\n" + (text + (tabs + ("}" + rest)))) == "{\n" + text + tabs + "}" + rest
  {
    assert "{\n" == "{" + "\n";
  }

  lemma EmptyJoin(tabs: string, rest: string)
    ensures "{" + (("\n" + tabs) + ("}" + rest)) == "{\n" + tabs + "}" + rest
  {
    assert "{\n" == "{" + "\n";
  }

  lemma StartsWithQuote(ms: Members, d: nat)
    requires ms.MCons?
    ensures RenderMembers(ms, false, d) != "" && RenderMembers(ms, false, d)[0] == '\"'
  {
    hide Escape, Render;
  }

  // A name and its value, and what stands behind them.
  lemma {:induction false} Member(name: string, v: Json, d: nat, more: string, open: string)
    ensures Indented(Quoted(name) + (":" + (Render(v, false, d) + more)), open)
      == Quoted(name) + (":\t" + (Render(v, true, |open|) + Indented(more, open)))
    decreases v, 2
  {
    hide Indented, Render, Quoted;
    Literal(name, ":" + (Render(v, false, d) + more), open);
    Colons(Render(v, false, d) + more, open);
    Value(v, d, more, open);
  }

  lemma MemberText(ms: Members, d: nat, close: string)
    requires ms.MCons?
    ensures var rest := RenderMembers(ms.rest, false, d) + close;
      RenderMembers(ms, false, d) + close
        == Quoted(ms.name) + (":" + (Render(ms.value, false, d) + if ms.rest.MCons? then "," + rest else close))
  {
    hide Render, Quoted;
    var q, v, r := Quoted(ms.name), Render(ms.value, false, d), RenderMembers(ms.rest, false, d);
    assert "" + q + ":" + v + ("," + "") + r + close == q + (":" + (v + ("," + (r + close))));
    assert "" + q + ":" + v + ("" + "") + "" + close == q + (":" + (v + close));
  }

  lemma {:induction false} Named(ms: Members, d: nat, rest: string, open: string)
    requires ms.MCons?
    ensures NewLine(|open| + 1) + Indented(RenderMembers(ms, false, d) + ("}" + rest), open + "{")
      == "\n" + (RenderMembers(ms, true, |open| + 1) + (Tabs(|open|) + ("}" + Indented(rest, open))))
    decreases ms, 1
  {
    hide Indented, Render, Quoted, Tabs, NewLine;
    var inner, close := open + "{", "}" + rest;
    var more := if ms.rest.MCons? then "," + (RenderMembers(ms.rest, false, d) + close) else close;
    var end := Tabs(|open|) + ("}" + Indented(rest, open));
    MemberText(ms, d, close);
    Member(ms.name, ms.value, d, more, inner);
    NewLineTabs(|inner|);
    if ms.rest.MCons? {
      Named(ms.rest, d, rest, open);
      ObjectComma(RenderMembers(ms.rest, false, d) + close, open);
    } else {
      ObjectCloses(rest, open);
      NewLineTabs(|open|);
      Assoc("\n", Tabs(|open|), "}" + Indented(rest, open));
    }
    NamedJoin(Tabs(|inner|), Quoted(ms.name), Render(ms.value, true, |inner|), RenderMembers(ms.rest, true, |inner|),
      end);
  }

  lemma Assoc(a: string, b: string, c: string)
    ensures a + b + c == a + (b + c)
  {
  }

  lemma NamedJoin(tabs: string, name: string, v: string, rest: string, end: string)
    ensures ("\n" + tabs) + (name + (":\t" + (v + ("," + ("\n" + (rest + end))))))
      == "\n" + ((tabs + name + ":\t" + v + ("," + "\n") + rest) + end)
    ensures ("\n" + tabs) + (name + (":\t" + (v + ("\n" + end))))
      == "\n" + ((tabs + name + ":\t" + v + ("" + "\n") + "") + end)
  {
    assert "" + "\n" == "\n";
  }

  // Main theorem. The formatted text is the unformatted text, indented.
  lemma FormattedText(v: Json)
    ensures Render(v, true, 0) == Indented(Render(v, false, 0), "")
  {
    hide Render;
    Value(v, 0, "", "");
    assert Render(v, false, 0) + "" == Render(v, false, 0) && Render(v, true, 0) + "" == Render(v, true, 0);
  }
}
