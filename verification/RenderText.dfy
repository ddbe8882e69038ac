/**
  The specification text Render, taken apart the way the printing loops write it.
 */
module RenderText {
  import opened JsonValue

  // An element and the comma after it.
  function ElemText(es: Elems, fmt: bool, depth: nat): string
    requires es.ECons?
  {
    Render(es.head, fmt, depth) + (if es.tail.ECons? then Comma(fmt) else "")
  }

  lemma ArrayStarts(es: Elems, fmt: bool, depth: nat)
    ensures es.ENil? ==> Render(Arr(es), fmt, depth) == "[]"
    ensures Render(Arr(es), fmt, depth) == "[" + RenderElems(es, fmt, depth + 1) + "]"
  {
  }

  lemma ElemTurn(es: Elems, fmt: bool, depth: nat, done: string)
    requires es.ECons?
    ensures done + RenderElems(es, fmt, depth) == (done + ElemText(es, fmt, depth)) + RenderElems(es.tail, fmt, depth)
  {
    hide Render, Comma;
  }

  lemma ElemsEnd(es: Elems, fmt: bool, depth: nat, done: string)
    requires es.ENil?
    ensures done + RenderElems(es, fmt, depth) == done
  {
  }

  // A member with everything up to the next one.
  function MemberText(ms: Members, fmt: bool, depth: nat): string
    requires ms.MCons?
  {
    NameText(ms.name, fmt, depth) + (Render(ms.value, fmt, depth) + MemberEnd(fmt, ms.rest.MCons?))
  }

  function NameText(name: string, fmt: bool, depth: nat): string {
    MemberStart(fmt, depth) + (Quoted(name) + Colon(fmt))
  }

  lemma ObjectStarts(ms: Members, fmt: bool, depth: nat)
    ensures ms.MNil? ==> Render(Obj(ms), fmt, depth) == if fmt then "{\n" + Tabs(depth - 1) + "}" else "{}"
    ensures ms.MCons? ==>
      Render(Obj(ms), fmt, depth)
        == (if fmt then "{\n" else "{") + RenderMembers(ms, fmt, depth + 1) + ((if fmt then Tabs(depth) else "") + "}")
  {
    hide RenderMembers, Tabs;
  }

  lemma MemberTurn(ms: Members, fmt: bool, depth: nat, done: string)
    requires ms.MCons?
    ensures done + RenderMembers(ms, fmt, depth)
         == (done + MemberText(ms, fmt, depth)) + RenderMembers(ms.rest, fmt, depth)
  {
    hide Render, MemberStart, Quoted, Colon, MemberEnd;
  }

  lemma MembersEnd(ms: Members, fmt: bool, depth: nat, done: string)
    requires ms.MNil?
    ensures done + RenderMembers(ms, fmt, depth) == done
  {
  }

  lemma Assoc(a: string, b: string, c: string)
    ensures a + b + c == a + (b + c)
  {
  }

  lemma Pieces(pre: string, a: string, b: string, c: string)
    ensures ((pre + a) + b) + c == pre + (a + (b + c))
  {
  }

  lemma Bracketed(pre: string, open: string, body: string, close: string)
    ensures ((pre + open) + body) + close == pre + ((open + body) + close)
  {
  }

  // --- printed text holds no terminator ---

  lemma NoNulJoin(a: string, b: string)
    requires CString(a) && CString(b)
    ensures CString(a + b)
  {
  }

  lemma {:induction false} TabsCString(n: int)
    ensures CString(Tabs(n)) && |Tabs(n)| == (if n < 0 then 0 else n)
  {
    if n > 0 {
      TabsCString(n - 1);
    }
  }

  lemma {:induction false} DecimalCString(n: nat)
    ensures CString(Decimal(n))
  {
    if n >= 10 {
      DecimalCString(n / 10);
    }
  }

  lemma {:induction false} EscapeCString(s: string)
    requires CString(s)
    ensures CString(Escape(s))
    decreases |s|
  {
    if s != "" {
      assert s[0] in s;
      EscapeCString(s[1..]);
      NoNulJoin(EscapeChar(s[0]), Escape(s[1..]));
    }
  }

  lemma QuotedCString(s: string)
    requires CString(s)
    ensures CString(Quoted(s))
  {
    EscapeCString(s);
  }

  lemma BracketsCString(open: string, body: string, tabs: string, close: string)
    requires CString(open) && CString(body) && CString(tabs) && CString(close)
    ensures CString(open + body + close) && CString(open + body + tabs + close) && CString(open + tabs + close)
  {
    NoNulJoin(open, body);
    NoNulJoin(open + body, tabs);
  }

  lemma {:induction false} RenderCString(v: Json, fmt: bool, depth: nat)
    requires Printable(v)
    ensures CString(Render(v, fmt, depth))
    decreases v, 1
  {
    hide Quoted, Decimal, Tabs, RenderElems, RenderMembers, PrintableElems, PrintableMembers;
    match v {
      case Null =>
      case Bool(b) =>
      case Num(d) => DecimalCString(if d.Floor < 0 then -d.Floor else d.Floor);
      case Str(s) => QuotedCString(s);
      case Arr(es) =>
        ElemsCString(es, fmt, depth + 1);
        ArrayCString(es, fmt, depth);
      case Obj(ms) =>
        MembersCString(ms, fmt, depth + 1);
        ObjectCString(ms, fmt, depth);
    }
  }

  lemma ArrayCString(es: Elems, fmt: bool, depth: nat)
    requires CString(RenderElems(es, fmt, depth + 1))
    ensures CString(Render(Arr(es), fmt, depth))
  {
    hide RenderElems;
    BracketsCString("[", RenderElems(es, fmt, depth + 1), "", "]");
  }

  lemma ObjectCString(ms: Members, fmt: bool, depth: nat)
    requires CString(RenderMembers(ms, fmt, depth + 1))
    ensures CString(Render(Obj(ms), fmt, depth))
  {
    hide RenderMembers, Tabs;
    TabsCString(depth);
    TabsCString(depth - 1);
    if ms.MCons? {
      var tabs := if fmt then Tabs(depth) else "";
      BracketsCString(if fmt then "{\n" else "{", RenderMembers(ms, fmt, depth + 1), tabs, "}");
    } else {
      BracketsCString("{\n", "", Tabs(depth - 1), "}");
    }
  }

  lemma {:induction false} ElemsCString(es: Elems, fmt: bool, depth: nat)
    requires PrintableElems(es)
    ensures CString(RenderElems(es, fmt, depth))
    decreases es
  {
    if es.ECons? {
      hide Render;
      RenderCString(es.head, fmt, depth);
      ElemsCString(es.tail, fmt, depth);
    }
  }

  lemma {:induction false} MembersCString(ms: Members, fmt: bool, depth: nat)
    requires PrintableMembers(ms)
    ensures CString(RenderMembers(ms, fmt, depth))
    decreases ms
  {
    if ms.MCons? {
      hide Render, Quoted, Tabs;
      QuotedCString(ms.name);
      TabsCString(depth);
      RenderCString(ms.value, fmt, depth);
      MembersCString(ms.rest, fmt, depth);
    }
  }
}
