/**
  Printing a tree of nodes into a growing buffer (`cJSON_PrintBuffered`, and the branches of the printing
  functions that take a printbuffer): it writes the same text as the specification Render.
 */
module PrintBuffered {
  import opened JsonValue
  import opened CMemory
  import opened Nodes
  import opened NodeViews
  import opened PrintStrings
  import opened PrintBuffers
  import opened RenderText

  // Room that may be reserved beyond what is written: `print_number` asks for 21 chars.
  const SLACK: nat := 24

  // The buffer is no part of what is printed.
  ghost predicate Outside(p: PrintBuffer, blocks: set<object>)
    reads p`buffer
  {
    p !in blocks && p.buffer !in blocks && p.heap !in blocks
  }

  // `print_value`. On return the text of the item stands in the buffer after pre, ended by a terminator; the
  // offset is somewhere in it, and `update` moves it to the end.
  method PrintValue(p: PrintBuffer, item: Node, depth: nat, fmt: bool, ghost pre: string, ghost it: Item,
                    ghost kids: Forest)
    returns (out: nat)
    requires PrintableNode(item, it, kids) && Outside(p, Own(item, it, kids))
    requires p.Valid() && p.Emitted(pre) && p.offset == |pre|
    requires |pre| + |Render(ValueOf(it, kids), fmt, depth)| + SLACK <= MAX_SIZE
    modifies p, p.buffer, p.heap
    ensures p.Valid() && (p.buffer == old(p.buffer) || fresh(p.buffer)) && p.Others() == old(p.Others())
    ensures var text := pre + Render(ValueOf(it, kids), fmt, depth);
      p.Terminated(text) && p.Emitted(text) && |pre| <= p.offset <= |text|
    ensures out == OutIndex(ValueOf(it, kids), fmt, depth, |pre|)
    decreases kids, 5
  {
    hide Printable, RenderElems, RenderMembers, Quoted, PrintableNode, PrintableItems, PrintableFields, ElemsOf,
      MembersOf, Holds, PrintBuffer.Emitted, PrintBuffer.Terminated;
    NodeParts(item, it, kids);
    match item.kind {
      case KNull => out := PrintWord(p, 5, "null", pre);
      case KFalse => out := PrintWord(p, 6, "false", pre);
      case KTrue => out := PrintWord(p, 5, "true", pre);
      case KNumber => out := PrintNumber(p, item.valuedouble, item.valueint, pre);
      case KString => out := PrintString(p, item.valuestring, pre, it.val.text);
      case KArray => out := PrintArray(p, item.child, depth, fmt, pre, kids);
      case KObject => out := PrintObject(p, item.child, depth, fmt, pre, kids);
    }
  }

  // Ensures room for a word and its terminator, and copies it.
  method PrintWord(p: PrintBuffer, needed: nat, word: string, ghost pre: string) returns (out: nat)
    requires p.Valid() && p.Emitted(pre) && p.offset == |pre| && |word| < needed && |pre| + needed <= MAX_SIZE
    modifies p, p.buffer, p.heap
    ensures p.Valid() && (p.buffer == old(p.buffer) || fresh(p.buffer)) && p.Others() == old(p.Others())
    ensures p.Terminated(pre + word) && p.Emitted(pre + word) && p.offset == |pre| == out
  {
    out := p.Ensure(needed, pre);
    p.PutString(word, pre);
  }

  // Where the pointer that the source returns points. For a formatted object with members the variable
  // that held the start of the text has been reused to count tabs.
  function OutIndex(v: Json, fmt: bool, depth: nat, start: nat): nat {
    if v.Obj? && v.members.MCons? && fmt then depth else start
  }

  // So it is wrong exactly for a formatted object with members whose text does not start at position depth. At the
  // root both are 0; the text of a member, which stands behind the tabs, the name and the colon, never starts there.
  lemma PointerRight(v: Json, fmt: bool, depth: nat, start: nat, pre: string, name: string)
    ensures OutIndex(v, fmt, depth, start) == start <==> (fmt && v.Obj? && v.members.MCons? ==> start == depth)
    ensures v.Obj? && v.members.MCons? ==>
      var before := pre + (MemberStart(true, depth) + Quoted(name) + Colon(true));
      OutIndex(v, true, depth, |before|) < |before|
  {
    TabsCString(depth);
  }

  // The object inside `{"a": {"b": null}}` is one.
  lemma WrongPointer()
    ensures var inner := Obj(MCons("b", Null, MNil));
      var before := "{\n\t\"a\":\t";
      && Render(Obj(MCons("a", inner, MNil)), true, 0) == before + Render(inner, true, 1) + "\n}"
      && OutIndex(inner, true, 1, |before|) != |before|
  {
    var inner := Obj(MCons("b", Null, MNil));
    BeforeName();
    MemberRender(inner);
    hide Render, Quoted, MemberStart, Colon;
    assert "{\n" + "\t\"a\":\t" == "{\n\t\"a\":\t";
  }

  lemma BeforeName()
    ensures MemberStart(true, 1) + Quoted("a") + Colon(true) == "\t\"a\":\t"
  {
    assert Escape("a") == "a" + Escape("a"[1..]);
    assert Tabs(1) == "\t" + Tabs(0);
  }

  lemma MemberRender(v: Json)
    ensures Render(Obj(MCons("a", v, MNil)), true, 0)
      == ("{\n" + (MemberStart(true, 1) + Quoted("a") + Colon(true))) + Render(v, true, 1) + "\n}"
  {
    hide Quoted, MemberStart, Colon;
    var k, r := MemberStart(true, 1) + Quoted("a") + Colon(true), Render(v, true, 1);
    assert RenderMembers(MCons("a", v, MNil), true, 1) == k + r + "\n" + "";
    Closing(k, r);
  }

  lemma Closing(k: string, r: string)
    ensures "{\n" + (k + r + "\n" + "") + "" + "}" == ("{\n" + k) + r + "\n}"
  {
  }

  // `print_number` on an int32 value, i being its int.
  method PrintNumber(p: PrintBuffer, d: real, i: int, ghost pre: string) returns (out: nat)
    requires Int32(d) && i == d.Floor
    requires p.Valid() && p.Emitted(pre) && p.offset == |pre| && |pre| + SLACK <= MAX_SIZE
    modifies p, p.buffer, p.heap
    ensures p.Valid() && (p.buffer == old(p.buffer) || fresh(p.buffer)) && p.Others() == old(p.Others())
    ensures p.Terminated(pre + Signed(d.Floor)) && p.Emitted(pre + Signed(d.Floor)) && p.offset == |pre| == out
  {
    if d == 0.0 {
      out := PrintWord(p, 2, "0", pre);
    } else {
      SignedLength(i);
      out := PrintWord(p, 21, Signed(i), pre);
    }
  }

  // `print_string_ptr`
  method PrintString(p: PrintBuffer, str: array<char>, ghost pre: string, ghost s: string) returns (out: nat)
    requires CString(s) && Holds(str, 0, s) && str != p.buffer
    requires p.Valid() && p.Emitted(pre) && p.offset == |pre| && |pre| + |Quoted(s)| < MAX_SIZE
    modifies p, p.buffer, p.heap
    ensures p.Valid() && (p.buffer == old(p.buffer) || fresh(p.buffer)) && p.Others() == old(p.Others())
    ensures p.Terminated(pre + Quoted(s)) && p.Emitted(pre + Quoted(s)) && p.offset == |pre| == out
  {
    hide Quoted, Holds;
    var flag, needed := Room(str, s);
    out := p.Ensure(needed, pre);
    WriteQuoted(p.buffer, out, str, flag, s);
  }

  method PrintArray(p: PrintBuffer, first: Node?, depth: nat, fmt: bool, ghost pre: string, ghost kids: Forest)
    returns (out: nat)
    requires PrintableItems(kids, first) && Outside(p, Blocks(kids))
    requires p.Valid() && p.Emitted(pre) && p.offset == |pre|
    requires |pre| + |Render(Arr(ElemsOf(kids)), fmt, depth)| + SLACK <= MAX_SIZE
    modifies p, p.buffer, p.heap
    ensures p.Valid() && (p.buffer == old(p.buffer) || fresh(p.buffer)) && p.Others() == old(p.Others())
    ensures var text := pre + Render(Arr(ElemsOf(kids)), fmt, depth);
      p.Terminated(text) && p.Emitted(text) && |pre| <= p.offset <= |text|
    ensures out == |pre|
    decreases kids, 4
  {
    hide Render, RenderElems, PrintBuffer.Emitted, PrintBuffer.Terminated, PrintableItems, Blocks, ElemsOf, Quoted;
    ghost var es := ElemsOf(kids);
    ArrayStarts(es, fmt, depth);
    NoItem(kids, first);
    InMemory(kids);
    if first == null {
      out := p.Ensure(3, pre);
      p.PutString("[]", pre);
    } else {
      out := p.offset;
      Emit(p, 1, "[", pre);
      ghost var begun := pre + "[";
      PrintElems(p, first, depth + 1, fmt, begun, kids);
      ghost var filled := begun + RenderElems(es, fmt, depth + 1);
      var at := p.Ensure(2, filled);
      p.PutString("]", filled);
      Bracketed(pre, "[", RenderElems(es, fmt, depth + 1), "]");
    }
  }

  // The loop of `print_array`.
  method PrintElems(p: PrintBuffer, first: Node?, depth: nat, fmt: bool, ghost pre: string, ghost kids: Forest)
    requires PrintableItems(kids, first) && Outside(p, Blocks(kids))
    requires p.Valid() && p.Emitted(pre) && p.offset == |pre|
    requires |pre| + |RenderElems(ElemsOf(kids), fmt, depth)| + SLACK <= MAX_SIZE
    modifies p, p.buffer, p.heap
    ensures p.Valid() && (p.buffer == old(p.buffer) || fresh(p.buffer)) && p.Others() == old(p.Others())
    ensures var text := pre + RenderElems(ElemsOf(kids), fmt, depth); p.Emitted(text) && p.offset == |text|
    decreases kids, 3
  {
    hide Render, RenderElems, PrintBuffer.Emitted, PrintBuffer.Terminated, PrintableItems, PrintableNode, Blocks,
      ElemsOf,
      ElemText, ValueOf;
    ghost var done, left := pre, kids;
    var child := first;
    NoItem(left, child);
    while child != null
      invariant p.Valid() && (p.buffer == old(p.buffer) || fresh(p.buffer)) && p.Others() == old(p.Others())
      invariant p.Emitted(done) && p.offset == |done|
      invariant PrintableItems(left, child) && Outside(p, Blocks(left)) && (child == null <==> ElemsOf(left).ENil?)
      invariant done + RenderElems(ElemsOf(left), fmt, depth) == pre + RenderElems(ElemsOf(kids), fmt, depth)
      invariant left == kids || left < kids
      decreases left
    {
      FirstItem(left, child);
      InMemory(left);
      ElemTurn(ElemsOf(left), fmt, depth, done);
      PrintElem(p, child, depth, fmt, done, left);
      done := done + ElemText(ElemsOf(left), fmt, depth);
      left := left.rest;
      child := child.next;
      NoItem(left, child);
    }
    ElemsEnd(ElemsOf(left), fmt, depth, done);
  }

  // One turn of the loop of `print_array`.
  method PrintElem(p: PrintBuffer, child: Node, depth: nat, fmt: bool, ghost pre: string, ghost left: Forest)
    requires PrintableItems(left, child) && Outside(p, Blocks(left)) && ElemsOf(left).ECons?
    requires p.Valid() && p.Emitted(pre) && p.offset == |pre|
    requires |pre| + |ElemText(ElemsOf(left), fmt, depth)| + SLACK <= MAX_SIZE
    modifies p, p.buffer, p.heap
    ensures p.Valid() && (p.buffer == old(p.buffer) || fresh(p.buffer)) && p.Others() == old(p.Others())
    ensures var text := pre + ElemText(ElemsOf(left), fmt, depth); p.Emitted(text) && p.offset == |text|
    decreases left, 2
  {
    hide Render, RenderElems, PrintBuffer.Emitted, PrintBuffer.Terminated, PrintableItems, PrintableNode, Blocks,
      ElemsOf,
      ValueOf;
    FirstItem(left, child);
    InMemory(left);
    ghost var v := ValueOf(left.item, left.kids);
    ghost var r := Render(v, fmt, depth);
    IsPrintable(child, left.item, left.kids);
    var ptr := PrintValue(p, child, depth, fmt, pre, left.item, left.kids);
    RenderCString(v, fmt, depth);
    p.offset := p.Update(pre, r);
    if child.next != null {
      EmitString(p, Comma(fmt), pre + r);
      Assoc(pre, r, Comma(fmt));
    } else {
      assert pre + (r + "") == pre + r;
    }
  }

  method PrintObject(p: PrintBuffer, first: Node?, depth: nat, fmt: bool, ghost pre: string, ghost kids: Forest)
    returns (out: nat)
    requires PrintableFields(kids, first) && Outside(p, Blocks(kids))
    requires p.Valid() && p.Emitted(pre) && p.offset == |pre|
    requires |pre| + |Render(Obj(MembersOf(kids)), fmt, depth)| + SLACK <= MAX_SIZE
    modifies p, p.buffer, p.heap
    ensures p.Valid() && (p.buffer == old(p.buffer) || fresh(p.buffer)) && p.Others() == old(p.Others())
    ensures var text := pre + Render(Obj(MembersOf(kids)), fmt, depth);
      p.Terminated(text) && p.Emitted(text) && |pre| <= p.offset <= |text|
    ensures out == if MembersOf(kids).MCons? && fmt then depth else |pre|
    decreases kids, 4
  {
    hide Render, RenderMembers, Tabs, PrintBuffer.Emitted, PrintBuffer.Terminated, PrintableFields, Blocks, MembersOf;
    ghost var ms := MembersOf(kids);
    TabsCString(depth);
    TabsCString(depth - 1);
    ObjectStarts(ms, fmt, depth);
    NoField(kids, first);
    InMemory(kids);
    if first == null {
      out := PrintWord(p, if fmt then depth + 4 else 3, if fmt then "{\n" + Tabs(depth - 1) + "}" else "{}", pre);
    } else {
      var i := p.offset;
      var open, close := if fmt then "{\n" else "{", (if fmt then Tabs(depth) else "") + "}";
      EmitString(p, open, pre);
      ghost var begun := pre + open;
      PrintMembers(p, first, depth + 1, fmt, begun, kids);
      ghost var filled := begun + RenderMembers(ms, fmt, depth + 1);
      var at := PrintWord(p, |close| + 1, close, filled);
      if fmt {
        i := depth;  // the counter of the closing tabs ends here
      }
      Bracketed(pre, open, RenderMembers(ms, fmt, depth + 1), close);
      out := i;
    }
  }

  // The loop of `print_object`.
  method PrintMembers(p: PrintBuffer, first: Node?, depth: nat, fmt: bool, ghost pre: string, ghost kids: Forest)
    requires PrintableFields(kids, first) && Outside(p, Blocks(kids))
    requires p.Valid() && p.Emitted(pre) && p.offset == |pre|
    requires |pre| + |RenderMembers(MembersOf(kids), fmt, depth)| + SLACK <= MAX_SIZE
    modifies p, p.buffer, p.heap
    ensures p.Valid() && (p.buffer == old(p.buffer) || fresh(p.buffer)) && p.Others() == old(p.Others())
    ensures var text := pre + RenderMembers(MembersOf(kids), fmt, depth); p.Emitted(text) && p.offset == |text|
    decreases kids, 3
  {
    hide Render, RenderMembers, PrintBuffer.Emitted, PrintBuffer.Terminated, PrintableFields, PrintableNode, Blocks,
      MembersOf,
      MemberText, ValueOf, Holds;
    ghost var done, left := pre, kids;
    var child := first;
    NoField(left, child);
    while child != null
      invariant p.Valid() && (p.buffer == old(p.buffer) || fresh(p.buffer)) && p.Others() == old(p.Others())
      invariant p.Emitted(done) && p.offset == |done|
      invariant PrintableFields(left, child) && Outside(p, Blocks(left)) && (child == null <==> MembersOf(left).MNil?)
      invariant done + RenderMembers(MembersOf(left), fmt, depth) == pre + RenderMembers(MembersOf(kids), fmt, depth)
      invariant left == kids || left < kids
      decreases left
    {
      FirstField(left, child);
      InMemory(left);
      MemberTurn(MembersOf(left), fmt, depth, done);
      PrintMember(p, child, depth, fmt, done, left);
      done := done + MemberText(MembersOf(left), fmt, depth);
      left := left.rest;
      child := child.next;
      NoField(left, child);
    }
    MembersEnd(MembersOf(left), fmt, depth, done);
  }

  // One turn of the loop of `print_object`.
  method PrintMember(p: PrintBuffer, child: Node, depth: nat, fmt: bool, ghost pre: string, ghost left: Forest)
    requires PrintableFields(left, child) && Outside(p, Blocks(left)) && MembersOf(left).MCons?
    requires p.Valid() && p.Emitted(pre) && p.offset == |pre|
    requires |pre| + |MemberText(MembersOf(left), fmt, depth)| + SLACK <= MAX_SIZE
    modifies p, p.buffer, p.heap
    ensures p.Valid() && (p.buffer == old(p.buffer) || fresh(p.buffer)) && p.Others() == old(p.Others())
    ensures var text := pre + MemberText(MembersOf(left), fmt, depth); p.Emitted(text) && p.offset == |text|
    decreases left, 2
  {
    hide Render, RenderMembers, NameText, PrintBuffer.Emitted, PrintBuffer.Terminated, PrintableFields, PrintableNode,
      Blocks, MembersOf, ValueOf, Holds, MemberEnd, CString;
    FirstField(left, child);
    InMemory(left);
    ghost var name, v := left.item.name.text, ValueOf(left.item, left.kids);
    ghost var k, r := NameText(name, fmt, depth), Render(v, fmt, depth);
    IsPrintable(child, left.item, left.kids);
    PrintName(p, child.name, depth, fmt, pre, name);
    var ptr := PrintValue(p, child, depth, fmt, pre + k, left.item, left.kids);
    RenderCString(v, fmt, depth);
    p.offset := p.Update(pre + k, r);
    Pieces(pre, k, r, MemberEnd(fmt, child.next != null));
    EmitString(p, MemberEnd(fmt, child.next != null), pre + k + r);
  }

  method PrintName(p: PrintBuffer, str: array<char>, depth: nat, fmt: bool, ghost pre: string, ghost name: string)
    requires CString(name) && Holds(str, 0, name) && str != p.buffer
    requires p.Valid() && p.Emitted(pre) && p.offset == |pre|
    requires |pre| + |NameText(name, fmt, depth)| + SLACK <= MAX_SIZE
    modifies p, p.buffer, p.heap
    ensures p.Valid() && (p.buffer == old(p.buffer) || fresh(p.buffer)) && p.Others() == old(p.Others())
    ensures p.Emitted(pre + NameText(name, fmt, depth)) && p.offset == |pre + NameText(name, fmt, depth)|
  {
    hide Quoted, Tabs, PrintBuffer.Emitted, PrintBuffer.Terminated, Holds;
    TabsCString(depth);
    var start := MemberStart(fmt, depth);
    if fmt {
      Emit(p, depth, start, pre);
    } else {
      assert pre + start == pre;
    }
    PrintKey(p, str, pre + start, name);
    Pieces(pre, start, Quoted(name), Colon(fmt));
    Emit(p, if fmt then 2 else 1, Colon(fmt), pre + start + Quoted(name));
  }

  method PrintKey(p: PrintBuffer, str: array<char>, ghost pre: string, ghost name: string)
    requires CString(name) && Holds(str, 0, name) && str != p.buffer
    requires p.Valid() && p.Emitted(pre) && p.offset == |pre| && |pre| + |Quoted(name)| < MAX_SIZE
    modifies p, p.buffer, p.heap
    ensures p.Valid() && (p.buffer == old(p.buffer) || fresh(p.buffer)) && p.Others() == old(p.Others())
    ensures p.Emitted(pre + Quoted(name)) && p.offset == |pre + Quoted(name)|
  {
    hide Quoted, PrintBuffer.Emitted, PrintBuffer.Terminated, Holds;
    QuotedCString(name);
    var ptr := PrintString(p, str, pre, name);
    p.offset := p.Update(pre, Quoted(name));
  }

  // `cJSON_PrintBuffered`: for every initial size the same text as the specification, from the start of
  // the buffer that is returned.
  method Print(h: Heap, item: Node, prebuffer: nat, fmt: bool, ghost it: Item, ghost kids: Forest)
    returns (text: array<char>, start: nat)
    requires PrintableNode(item, it, kids) && prebuffer >= 1
    requires |Render(ValueOf(it, kids), fmt, 0)| + SLACK <= MAX_SIZE
    modifies h
    ensures start == 0 && fresh(text) && Holds(text, start, Render(ValueOf(it, kids), fmt, 0))
    ensures text !in old(h.live) && h.live == old(h.live) + {text}
  {
    hide Render, PrintableNode, Blocks;
    InMemory(kids);
    HeapApart(h, kids);
    assert forall o <- Own(item, it, kids) :: allocated(o);
    var p := new PrintBuffer(h, prebuffer);
    start := PrintValue(p, item, 0, fmt, "", it, kids);
    assert "" + Render(ValueOf(it, kids), fmt, 0) == Render(ValueOf(it, kids), fmt, 0);
    text := p.buffer;
  }
}
