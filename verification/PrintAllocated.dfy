/**
  Printing a tree of nodes without a buffer (`cJSON_Print`, `cJSON_PrintUnformatted`): every value is printed into a
  block of its own, and an array or object is composed from the blocks of its children in a block whose size is computed
  beforehand; the blocks of the children are freed. All writes stay inside the computed sizes.
 */
module PrintAllocated {
  import opened JsonValue
  import opened CMemory
  import opened Nodes
  import opened NodeViews
  import opened PrintStrings
  import opened RenderText

  // `cJSON_strdup` of a word of the program.
  method DupWord(h: Heap, word: string) returns (out: array<char>)
    requires CString(word)
    modifies h
    ensures NewBlock(h, out, word)
  {
    var literal := new char[|word| + 1];
    StrCpy(literal, 0, word);
    out := h.StrDup(literal, word);
  }

  // The one new block is out, and it holds the text.
  twostate predicate NewBlock(h: Heap, new out: array<char>, text: string)
    reads h, out
  {
    fresh(out) && out !in old(h.live) && h.live == old(h.live) + {out} && Holds(out, 0, text)
  }

  // `print_number` on an int32 value, i being its int.
  method PrintNumber(h: Heap, d: real, i: int) returns (out: array<char>)
    requires Int32(d) && i == d.Floor
    modifies h
    ensures NewBlock(h, out, Signed(d.Floor))
  {
    if d == 0.0 {
      out := h.Malloc(2);
      StrCpy(out, 0, "0");
    } else {
      SignedLength(i);
      out := h.Malloc(21);
      StrCpy(out, 0, Signed(i));
    }
  }

  method PrintString(h: Heap, str: array<char>, ghost s: string) returns (out: array<char>)
    requires CString(s) && Holds(str, 0, s)
    modifies h
    ensures NewBlock(h, out, Quoted(s))
  {
    hide Quoted;
    var flag, needed := Room(str, s);
    out := h.Malloc(needed);
    WriteQuoted(out, 0, str, flag, s);
    assert out[0..|Quoted(s)|] == out[..0 + |Quoted(s)|] == Quoted(s);
  }

  // `print_value` without a buffer.
  method PrintValue(h: Heap, item: Node, depth: nat, fmt: bool, ghost it: Item, ghost kids: Forest)
    returns (out: array<char>)
    requires PrintableNode(item, it, kids)
    modifies h
    ensures NewBlock(h, out, Render(ValueOf(it, kids), fmt, depth))
    decreases kids, 5
  {
    hide Printable, RenderElems, RenderMembers, Quoted, PrintableNode, PrintableItems, PrintableFields, ElemsOf,
      MembersOf, Holds;
    NodeParts(item, it, kids);
    match item.kind {
      case KNull => out := DupWord(h, "null");
      case KFalse => out := DupWord(h, "false");
      case KTrue => out := DupWord(h, "true");
      case KNumber => out := PrintNumber(h, item.valuedouble, item.valueint);
      case KString => out := PrintString(h, item.valuestring, it.val.text);
      case KArray => out := PrintArray(h, item.child, depth, fmt, kids);
      case KObject => out := PrintObject(h, item.child, depth, fmt, kids);
    }
  }

  // `cJSON_Print` and `cJSON_PrintUnformatted`: all that is allocated on the way is freed again.
  method Print(h: Heap, item: Node, fmt: bool, ghost it: Item, ghost kids: Forest) returns (out: array<char>)
    requires PrintableNode(item, it, kids)
    modifies h
    ensures NewBlock(h, out, Render(ValueOf(it, kids), fmt, 0))
  {
    out := PrintValue(h, item, 0, fmt, it, kids);
  }

  // --- the blocks of the parts of an array or object ---

  ghost function SetOf(bs: seq<object>): set<object> {
    set b | b in bs
  }

  ghost predicate Pile(bs: seq<array<char>>, texts: seq<string>)
    reads SetOf(bs)
  {
    |bs| == |texts| && forall k | 0 <= k < |bs| :: Holds(bs[k], 0, texts[k])
  }

  ghost predicate Different(bs: seq<array<char>>) {
    forall i, j | 0 <= i < j < |bs| :: bs[i] != bs[j]
  }

  // The blocks bs hold the texts, and are what is live beyond base.
  ghost predicate Held(bs: seq<array<char>>, texts: seq<string>, live: set<object>, base: set<object>)
    reads SetOf(bs)
  {
    Pile(bs, texts) && Different(bs) && SetOf(bs) !! base && live == base + SetOf(bs)
  }

  // Calls that allocate or free other blocks leave these alone.
  lemma Apart(h: Heap, bs: seq<array<char>>)
    ensures h !in SetOf(bs) && forall b <- SetOf(bs) :: allocated(b)
  {
  }

  lemma NoneHeld(live: set<object>)
    ensures Held([], [], live, live)
  {
  }

  lemma HeldMore(bs: seq<array<char>>, texts: seq<string>, live: set<object>, base: set<object>, b: array<char>,
                 x: string)
    requires Held(bs, texts, live, base) && b !in live && Holds(b, 0, x)
    ensures Held(bs + [b], texts + [x], live + {b}, base)
  {
    hide Holds;
    assert forall k | 0 <= k < |bs| :: bs[k] in SetOf(bs);
    assert SetOf(bs + [b]) == SetOf(bs) + {b};
  }

  lemma HeldLess(bs: seq<array<char>>, texts: seq<string>, live: set<object>, base: set<object>, x: string,
                 rest: seq<string>)
    requires Held(bs, texts, live, base) && texts == [x] + rest
    ensures bs != [] && Holds(bs[0], 0, x) && bs[0] in live && bs[0] !in SetOf(bs[1..])
    ensures Held(bs[1..], rest, live - {bs[0]}, base)
  {
    hide Holds;
    SetOfHead(bs);
  }

  lemma NothingHeld(bs: seq<array<char>>, texts: seq<string>, live: set<object>, base: set<object>)
    requires Held(bs, texts, live, base)
    ensures |bs| == |texts| && (texts == [] ==> live == base)
    ensures SetOf(bs) <= live && SetOf(bs) !! base
  {
  }

  // --- arrays ---

  // The texts of the elements, one block each.
  function Texts(es: Elems, fmt: bool, depth: nat): seq<string> {
    if es.ENil? then [] else [Render(es.head, fmt, depth)] + Texts(es.tail, fmt, depth)
  }

  method PrintArray(h: Heap, first: Node?, depth: nat, fmt: bool, ghost kids: Forest) returns (out: array<char>)
    requires PrintableItems(kids, first)
    modifies h
    ensures NewBlock(h, out, Render(Arr(ElemsOf(kids)), fmt, depth))
    decreases kids, 4
  {
    hide Render, RenderElems, Holds, Texts, PrintableItems, ElemsOf, Blocks, Held;
    ghost var es := ElemsOf(kids);
    ArrayStarts(es, fmt, depth);
    InMemory(kids);
    HeapApart(h, kids);
    ItemsShown(kids, first);
    var numEntries := ArraySize(first, kids);
    TextsCount(kids, fmt, depth + 1);
    if numEntries == 0 {
      EmptyTexts(es, fmt, depth + 1);
      out := h.Malloc(3);
      StrCpy(out, 0, "[]");
      return;
    }
    ghost var before := h.live;
    var entries, len;
    ghost var bs;
    entries, len, bs := PrintEntries(h, first, depth + 1, fmt, numEntries, kids);
    NothingHeld(bs, Texts(es, fmt, depth + 1), h.live, before + {entries});
    out := ComposeArray(h, len, entries, es, depth, fmt, bs, before);
  }

  // Allocates the output block, composes the text in it and frees everything else.
  method ComposeArray(h: Heap, len: nat, entries: array<array?<char>>, ghost es: Elems, depth: nat, fmt: bool,
                      ghost bs: seq<array<char>>, ghost before: set<object>)
    returns (out: array<char>)
    requires PrintableElems(es) && entries[..] == bs && entries !in before
    requires Held(bs, Texts(es, fmt, depth + 1), h.live, before + {entries})
    requires len >= 5 + |RenderElems(es, fmt, depth + 1)|
    modifies h, entries, SetOf(bs)
    ensures fresh(out) && out !in before && h.live == before + {out}
    ensures Holds(out, 0, "[" + RenderElems(es, fmt, depth + 1) + "]")
  {
    hide RenderElems, Holds, Texts, Held;
    Apart(h, bs);
    out := h.Malloc(len);
    StrCpy(out, 0, "[");
    WithOut(bs, Texts(es, fmt, depth + 1), h.live, before + {entries}, out);
    var ptr := ComposeElems(h, out, 1, entries, es, depth + 1, fmt, bs, before + {entries} + {out});
    h.FreePointers(entries);
    Write(out, ptr, "]\0");
    Enclosed("[", RenderElems(es, fmt, depth + 1), "]");
    Closed(out, "[" + RenderElems(es, fmt, depth + 1) + "]");
  }

  // The output block is allocated after the parts.
  lemma WithOut(bs: seq<array<char>>, texts: seq<string>, live: set<object>, base: set<object>, out: array<char>)
    requires out !in SetOf(bs) && out in live && Held(bs, texts, live - {out}, base) && out !in base
    ensures Held(bs, texts, live, base + {out})
  {
    hide Holds;
  }

  lemma ItemsShown(f: Forest, head: Node?)
    requires PrintableItems(f, head)
    ensures Shows(f, head) && PrintableElems(ElemsOf(f))
  {
  }

  lemma {:induction false} TextsCount(f: Forest, fmt: bool, depth: nat)
    ensures |Texts(ElemsOf(f), fmt, depth)| == Size(f)
  {
    if f.Cons? {
      TextsCount(f.rest, fmt, depth);
    }
  }

  lemma Closed(out: array<char>, text: string)
    requires |text| < out.Length && out[..|text| + 1] == text + "\0"
    ensures Holds(out, 0, text)
  {
    assert out[..|text|] == out[..|text| + 1][..|text|] && out[|text|] == out[..|text| + 1][|text|];
  }

  lemma EmptyTexts(es: Elems, fmt: bool, depth: nat)
    ensures |Texts(es, fmt, depth)| == 0 <==> es.ENil?
  {
  }

  lemma NextText(done: seq<string>, es: Elems, fmt: bool, depth: nat)
    ensures es.ECons? ==>
      && Texts(es, fmt, depth) == [Render(es.head, fmt, depth)] + Texts(es.tail, fmt, depth)
      && done + Texts(es, fmt, depth) == (done + [Render(es.head, fmt, depth)]) + Texts(es.tail, fmt, depth)
    ensures es.ENil? ==> Texts(es, fmt, depth) == [] && done + Texts(es, fmt, depth) == done
  {
    hide Render;
  }

  // Prints every element into its own block and sums up the room for the whole array.
  method PrintEntries(h: Heap, first: Node?, depth: nat, fmt: bool, numEntries: nat, ghost kids: Forest)
    returns (entries: array<array?<char>>, len: nat, ghost bs: seq<array<char>>)
    requires PrintableItems(kids, first) && numEntries == |Texts(ElemsOf(kids), fmt, depth)|
    modifies h
    ensures fresh(entries) && entries !in old(h.live) && entries[..] == bs && fresh(h.live - old(h.live))
    ensures Held(bs, Texts(ElemsOf(kids), fmt, depth), h.live, old(h.live) + {entries})
    ensures len >= 5 + |RenderElems(ElemsOf(kids), fmt, depth)|
    decreases kids, 3
  {
    hide Render, RenderElems, Texts, Holds, PrintableItems, PrintableNode, ElemsOf, Blocks, ElemText, ValueOf, Held;
    hide ElemsLeft;
    ghost var es := ElemsOf(kids);
    InMemory(kids);
    HeapApart(h, kids);
    entries := h.MallocPointers(numEntries);
    ghost var base := h.live;
    len := 5;
    var i := 0;
    var child := first;
    ghost var left, texts, done := kids, [], "";
    bs := [];
    NoneHeld(base);
    NoItem(left, child);
    ElemsLeftStart(es, fmt, depth);
    while child != null
      invariant Collected(h, entries, bs, i, texts, base) && fresh(h.live - old(h.live))
      invariant ElemsLeft(es, ElemsOf(left), texts, done, i, fmt, depth) && len >= 5 + |done|
      invariant PrintableItems(left, child) && (child == null <==> ElemsOf(left).ENil?)
      invariant (left == kids || left < kids) && entries !in Blocks(left) && Blocks(left) <= Blocks(kids)
      decreases left
    {
      FirstItem(left, child);
      ElemsLeftStep(es, ElemsOf(left), texts, done, i, fmt, depth);
      InMemory(left);
      var n;
      n, bs := CollectElem(h, entries, i, child, depth, fmt, left, bs, texts, base);
      texts := texts + [Render(ElemsOf(left).head, fmt, depth)];
      done := done + ElemText(ElemsOf(left), fmt, depth);
      i := i + 1;
      len := len + n;
      left := left.rest;
      child := child.next;
      NoItem(left, child);
    }
    ElemsLeftEnd(es, ElemsOf(left), texts, done, i, fmt, depth);
    assert entries[..i] == entries[..];
  }

  // The first i pointers have been stored, and their blocks hold the texts.
  ghost predicate Collected(h: Heap, entries: array<array?<char>>, bs: seq<array<char>>, i: nat, texts: seq<string>,
                            base: set<object>)
    reads h, entries, SetOf(bs)
  {
    i <= entries.Length && entries[..i] == bs && entries in base && Held(bs, texts, h.live, base)
  }

  // The first i elements have been printed, and es is what is left of all.
  ghost predicate ElemsLeft(all: Elems, es: Elems, texts: seq<string>, done: string, i: nat, fmt: bool, depth: nat) {
    && |texts| == i && texts + Texts(es, fmt, depth) == Texts(all, fmt, depth)
    && done + RenderElems(es, fmt, depth) == RenderElems(all, fmt, depth)
  }

  lemma ElemsLeftStart(es: Elems, fmt: bool, depth: nat)
    ensures ElemsLeft(es, es, [], "", 0, fmt, depth)
  {
  }

  lemma ElemsLeftStep(all: Elems, es: Elems, texts: seq<string>, done: string, i: nat, fmt: bool, depth: nat)
    requires ElemsLeft(all, es, texts, done, i, fmt, depth) && es.ECons?
    ensures i < |Texts(all, fmt, depth)|
    ensures ElemsLeft(all, es.tail, texts + [Render(es.head, fmt, depth)], done + ElemText(es, fmt, depth), i + 1, fmt,
                      depth)
  {
    hide Render, RenderElems, Texts, ElemText;
    NextText(texts, es, fmt, depth);
    ElemTurn(es, fmt, depth, done);
  }

  lemma ElemsLeftEnd(all: Elems, es: Elems, texts: seq<string>, done: string, i: nat, fmt: bool, depth: nat)
    requires ElemsLeft(all, es, texts, done, i, fmt, depth) && es.ENil?
    ensures texts == Texts(all, fmt, depth) && i == |texts| && done == RenderElems(all, fmt, depth)
  {
    hide Render, RenderElems, Texts, ElemText;
    NextText(texts, es, fmt, depth);
    ElemsEnd(es, fmt, depth, done);
  }

  // Prints the next element and stores the pointer.
  method CollectElem(h: Heap, entries: array<array?<char>>, i: nat, child: Node, depth: nat, fmt: bool,
                     ghost left: Forest, ghost bs: seq<array<char>>, ghost texts: seq<string>, ghost base: set<object>)
    returns (n: nat, ghost more: seq<array<char>>)
    requires PrintableItems(left, child) && ElemsOf(left).ECons? && entries !in Blocks(left)
    requires Collected(h, entries, bs, i, texts, base) && i < entries.Length
    modifies h, entries
    ensures Collected(h, entries, more, i + 1, texts + [Render(ElemsOf(left).head, fmt, depth)], base)
    ensures fresh(h.live - old(h.live)) && n >= |ElemText(ElemsOf(left), fmt, depth)|
    decreases left, 2
  {
    hide Render, Holds, PrintableItems, ElemsOf, ElemText, Held;
    ghost var v, live := Render(ElemsOf(left).head, fmt, depth), h.live;
    Apart(h, bs);
    var ret;
    ret, n := PrintElem(h, child, depth, fmt, left);
    HeldMore(bs, texts, live, base, ret, v);
    more := bs + [ret];
    NothingHeld(more, texts + [v], h.live, base);
    entries[i] := ret;
    assert entries[..i + 1] == entries[..i] + [ret];
  }

  // The block of one element, and what it adds to the room.
  method PrintElem(h: Heap, child: Node, depth: nat, fmt: bool, ghost left: Forest) returns (ret: array<char>, n: nat)
    requires PrintableItems(left, child) && ElemsOf(left).ECons?
    modifies h
    ensures NewBlock(h, ret, Render(ElemsOf(left).head, fmt, depth))
    ensures n >= |ElemText(ElemsOf(left), fmt, depth)|
    decreases left, 1
  {
    hide Render, Holds, PrintableItems, PrintableNode, ElemsOf, Blocks, ValueOf;
    FirstItem(left, child);
    ghost var v := ValueOf(left.item, left.kids);
    IsPrintable(child, left.item, left.kids);
    ret := PrintValue(h, child, depth, fmt, left.item, left.kids);
    RenderCString(v, fmt, depth);
    var len := StrLen(ret, 0, Render(v, fmt, depth));
    n := len + 2 + (if fmt then 1 else 0);
  }

  // Composes the text between the brackets, ended by a terminator after every separator, and frees the blocks.
  method ComposeElems(h: Heap, out: array<char>, start: nat, entries: array<array?<char>>, ghost es: Elems, depth: nat,
                      fmt: bool, ghost bs: seq<array<char>>, ghost base: set<object>)
    returns (ptr: nat)
    requires PrintableElems(es) && entries[..] == bs && out !in SetOf(bs)
    requires Held(bs, Texts(es, fmt, depth), h.live, base)
    requires start + |RenderElems(es, fmt, depth)| < out.Length
    modifies h, out, SetOf(bs)
    ensures h.live == base
    ensures ptr == start + |RenderElems(es, fmt, depth)|
    ensures out[..ptr] == old(out[..start]) + RenderElems(es, fmt, depth)
  {
    hide Render, RenderElems, Texts, Holds, Held;
    ptr := start;
    ghost var c, left, done, pre := es, bs, "", out[..start];
    var numEntries := entries.Length;
    for i := 0 to numEntries
      invariant entries[..] == bs && left == bs[i..] && Held(left, Texts(c, fmt, depth), h.live, base)
      invariant PrintableElems(c) && done + RenderElems(c, fmt, depth) == RenderElems(es, fmt, depth)
      invariant ptr == start + |done| && out[..ptr] == pre + done
    {
      NothingHeld(left, Texts(c, fmt, depth), h.live, base);
      EmptyTexts(c, fmt, depth);
      NextText([], c, fmt, depth);
      EmptyTexts(c.tail, fmt, depth);
      ElemTurn(c, fmt, depth, done);
      HeldLess(left, Texts(c, fmt, depth), h.live, base, Render(c.head, fmt, depth), Texts(c.tail, fmt, depth));
      assert entries[i] == bs[i] == left[0];
      ptr := ComposeElem(out, ptr, entries[i], c, depth, fmt, i != numEntries - 1);
      Assoc(pre, done, ElemText(c, fmt, depth));
      h.FreeBlock(entries[i]);
      done := done + ElemText(c, fmt, depth);
      c := c.tail;
      left := left[1..];
    }
    NothingHeld(left, Texts(c, fmt, depth), h.live, base);
    EmptyTexts(c, fmt, depth);
    ElemsEnd(c, fmt, depth, done);
  }

  method ComposeElem(out: array<char>, at: nat, entry: array<char>, ghost c: Elems, ghost depth: nat, fmt: bool,
                     more: bool)
    returns (ptr: nat)
    requires c.ECons? && PrintableElems(c) && entry != out && Holds(entry, 0, Render(c.head, fmt, depth))
    requires more <==> c.tail.ECons?
    requires at + |ElemText(c, fmt, depth)| < out.Length
    modifies out
    ensures ptr == at + |ElemText(c, fmt, depth)| && out[..ptr] == old(out[..at]) + ElemText(c, fmt, depth)
  {
    hide Render, Holds, CString, Comma;
    RenderCString(c.head, fmt, depth);
    ghost var pre, r := out[..at], Render(c.head, fmt, depth);
    ptr := CopyPiece(out, at, entry, r);
    if more {
      var separator := Comma(fmt);
      StrCpy(out, ptr, separator);
      ptr := ptr + |separator|;
      Assoc(pre, r, separator);
    } else {
      assert r + "" == r;
    }
  }

  // --- objects ---

  // The texts of the names and values, two blocks each.
  function PairTexts(ms: Members, fmt: bool, depth: nat): seq<string> {
    if ms.MNil? then [] else [Quoted(ms.name)] + ([Render(ms.value, fmt, depth)] + PairTexts(ms.rest, fmt, depth))
  }

  ghost function Pairs(ks: seq<array<char>>, vs: seq<array<char>>): seq<array<char>>
    requires |ks| == |vs|
  {
    if ks == [] then [] else [ks[0]] + ([vs[0]] + Pairs(ks[1..], vs[1..]))
  }

  lemma {:induction false} PairsMore(ks: seq<array<char>>, vs: seq<array<char>>, k: array<char>, v: array<char>)
    requires |ks| == |vs|
    ensures Pairs(ks + [k], vs + [v]) == (Pairs(ks, vs) + [k]) + [v]
    decreases |ks|
  {
    if ks == [] {
      assert Pairs(([] + [k])[1..], ([] + [v])[1..]) == [];
    } else {
      assert (ks + [k])[1..] == ks[1..] + [k] && (vs + [v])[1..] == vs[1..] + [v];
      PairsMore(ks[1..], vs[1..], k, v);
    }
  }

  lemma SetOfHead(bs: seq<array<char>>)
    requires bs != []
    ensures SetOf(bs) == {bs[0]} + SetOf(bs[1..])
  {
    assert bs == [bs[0]] + bs[1..];
  }

  lemma {:induction false} PairsIn(ks: seq<array<char>>, vs: seq<array<char>>)
    requires |ks| == |vs|
    ensures |Pairs(ks, vs)| == 2 * |ks|
    ensures SetOf(Pairs(ks, vs)) == SetOf(ks) + SetOf(vs)
    decreases |ks|
  {
    if ks != [] {
      PairsIn(ks[1..], vs[1..]);
      SetOfHead(ks);
      SetOfHead(vs);
      assert SetOf(Pairs(ks, vs)) == {ks[0]} + {vs[0]} + SetOf(Pairs(ks[1..], vs[1..]));
    }
  }

  lemma {:induction false} PairCount(ms: Members, fmt: bool, depth: nat, f: Forest)
    requires ms == MembersOf(f)
    ensures |PairTexts(ms, fmt, depth)| == 2 * Size(f)
  {
    if f.Cons? {
      PairCount(ms.rest, fmt, depth, f.rest);
    }
  }

  lemma EmptyPairs(ms: Members, fmt: bool, depth: nat)
    ensures |PairTexts(ms, fmt, depth)| == 0 <==> ms.MNil?
  {
  }

  lemma NextPair(done: seq<string>, ms: Members, fmt: bool, depth: nat)
    ensures ms.MCons? ==>
      var k, v := [Quoted(ms.name)], [Render(ms.value, fmt, depth)];
      && PairTexts(ms, fmt, depth) == k + (v + PairTexts(ms.rest, fmt, depth))
      && done + PairTexts(ms, fmt, depth) == ((done + k) + v) + PairTexts(ms.rest, fmt, depth)
    ensures ms.MNil? ==> PairTexts(ms, fmt, depth) == [] && done + PairTexts(ms, fmt, depth) == done
  {
    hide Render, Quoted;
  }

  method PrintObject(h: Heap, first: Node?, depth: nat, fmt: bool, ghost kids: Forest) returns (out: array<char>)
    requires PrintableFields(kids, first)
    modifies h
    ensures NewBlock(h, out, Render(Obj(MembersOf(kids)), fmt, depth))
    decreases kids, 4
  {
    hide Render, RenderMembers, Holds, PairTexts, Tabs, PrintableFields, MembersOf, Blocks, Held, Pairs;
    ghost var ms := MembersOf(kids);
    ObjectStarts(ms, fmt, depth);
    TabsCString(depth);
    TabsCString(depth - 1);
    FieldsShown(kids, first);
    InMemory(kids);
    HeapApart(h, kids);
    var numEntries := ArraySize(first, kids);
    PairCount(ms, fmt, depth + 1, kids);
    EmptyPairs(ms, fmt, depth + 1);
    if numEntries == 0 {
      out := h.Malloc(if fmt then depth + 4 else 3);
      StrCpy(out, 0, if fmt then "{\n" + Tabs(depth - 1) + "}" else "{}");
      return;
    }
    ghost var before := h.live;
    var names, entries, len;
    ghost var ks, vs;
    names, entries, len, ks, vs := PrintMembers(h, first, depth + 1, fmt, numEntries, kids);
    NothingHeld(Pairs(ks, vs), PairTexts(ms, fmt, depth + 1), h.live, before + {entries} + {names});
    PairsIn(ks, vs);
    out := ComposeObject(h, len, names, entries, ms, depth, fmt, ks, vs, before);
  }

  lemma FieldsShown(f: Forest, head: Node?)
    requires PrintableFields(f, head)
    ensures Shows(f, head) && PrintableMembers(MembersOf(f))
  {
  }

  // Allocates the output block, composes the text in it and frees everything else.
  method ComposeObject(h: Heap, len: nat, names: array<array?<char>>, entries: array<array?<char>>, ghost ms: Members,
                       depth: nat, fmt: bool, ghost ks: seq<array<char>>, ghost vs: seq<array<char>>,
                       ghost before: set<object>)
    returns (out: array<char>)
    requires ms.MCons? && PrintableMembers(ms) && names[..] == ks && entries[..] == vs && |ks| == |vs|
    requires names != entries && names !in before && entries !in before
    requires Held(Pairs(ks, vs), PairTexts(ms, fmt, depth + 1), h.live, before + {entries} + {names})
    requires len > |Render(Obj(ms), fmt, depth)|
    modifies h, names, entries, SetOf(ks), SetOf(vs)
    ensures fresh(out) && out !in before && h.live == before + {out} && Holds(out, 0, Render(Obj(ms), fmt, depth))
  {
    hide Render, RenderMembers, Holds, PairTexts, Tabs, Held, Pairs;
    ghost var base := before + {entries} + {names};
    ObjectStarts(ms, fmt, depth);
    PairsIn(ks, vs);
    Apart(h, Pairs(ks, vs));
    out := h.Malloc(len);
    WithOut(Pairs(ks, vs), PairTexts(ms, fmt, depth + 1), h.live, base, out);
    var open, close := if fmt then "{\n" else "{", (if fmt then Tabs(depth) else "") + "}";
    StrCpy(out, 0, open);
    var ptr := ComposeMembers(h, out, |open|, names, entries, ms, depth + 1, fmt, ks, vs, base + {out});
    h.FreePointers(names);
    h.FreePointers(entries);
    Write(out, ptr, close + "\0");
    ghost var text := open + RenderMembers(ms, fmt, depth + 1) + close;
    Enclosed(open, RenderMembers(ms, fmt, depth + 1), close);
    Closed(out, text);
  }

  lemma Enclosed(open: string, body: string, close: string)
    ensures "" + open + body + (close + "\0") == (open + body + close) + "\0"
  {
  }

  // Prints every name and value into a block of its own and sums up the room for the whole object.
  method PrintMembers(h: Heap, first: Node?, depth: nat, fmt: bool, numEntries: nat, ghost kids: Forest)
    returns (names: array<array?<char>>, entries: array<array?<char>>, len: nat, ghost ks: seq<array<char>>,
             ghost vs: seq<array<char>>)
    requires PrintableFields(kids, first) && 2 * numEntries == |PairTexts(MembersOf(kids), fmt, depth)|
    modifies h
    ensures names[..] == ks && entries[..] == vs && |ks| == |vs| && fresh(h.live - old(h.live))
    ensures fresh(names) && fresh(entries) && names != entries && names !in old(h.live) && entries !in old(h.live)
    ensures Held(Pairs(ks, vs), PairTexts(MembersOf(kids), fmt, depth), h.live, old(h.live) + {entries} + {names})
    ensures len >= 7 + (if fmt then depth else 0) + |RenderMembers(MembersOf(kids), fmt, depth)|
    decreases kids, 3
  {
    hide Render, RenderMembers, PairTexts, Holds, Quoted, MemberText, CString, PrintableFields, PrintableNode,
      MembersOf, Blocks, ValueOf, Held, Pairs, MembersLeft, MemberTexts, BothCollected, Own;
    ghost var ms := MembersOf(kids);
    InMemory(kids);
    HeapApart(h, kids);
    entries := h.MallocPointers(numEntries);
    names := h.MallocPointers(numEntries);
    ghost var base := h.live;
    len := 7 + (if fmt then depth else 0);
    var i := 0;
    var child := first;
    ghost var left, texts, done := kids, [], "";
    ks, vs := [], [];
    NoneCollected(h, names, entries, base);
    NoField(left, child);
    MembersLeftStart(ms, fmt, depth);
    while child != null
      invariant BothCollected(h, names, entries, ks, vs, i, texts, base) && fresh(h.live - old(h.live))
      invariant names.Length == numEntries
      invariant MembersLeft(ms, MembersOf(left), texts, done, i, fmt, depth)
      invariant len >= 7 + (if fmt then depth else 0) + |done|
      invariant PrintableFields(left, child) && (child == null <==> MembersOf(left).MNil?)
      invariant (left == kids || left < kids) && Blocks(left) <= Blocks(kids)
      invariant names !in Blocks(left) && entries !in Blocks(left)
      decreases left
    {
      FirstField(left, child);
      MembersLeftStep(ms, MembersOf(left), texts, done, i, fmt, depth);
      InMemory(left);
      var n;
      n, ks, vs := CollectMember(h, names, entries, i, child, depth, fmt, left, ks, vs, texts, base);
      texts := texts + MemberTexts(MembersOf(left), fmt, depth);
      done := done + MemberText(MembersOf(left), fmt, depth);
      i := i + 1;
      len := len + n;
      left := left.rest;
      child := child.next;
      NoField(left, child);
    }
    MembersLeftEnd(ms, MembersOf(left), texts, done, i, fmt, depth);
    AllCollected(h, names, entries, ks, vs, i, texts, base);
  }

  lemma AllCollected(h: Heap, names: array<array?<char>>, entries: array<array?<char>>, ks: seq<array<char>>,
                     vs: seq<array<char>>, i: nat, texts: seq<string>, base: set<object>)
    requires BothCollected(h, names, entries, ks, vs, i, texts, base) && i == names.Length
    ensures names[..] == ks && entries[..] == vs && |ks| == |vs| && Held(Pairs(ks, vs), texts, h.live, base)
  {
    hide Held, Pairs;
    assert names[..i] == names[..] && entries[..i] == entries[..];
  }

  lemma NoneCollected(h: Heap, names: array<array?<char>>, entries: array<array?<char>>, base: set<object>)
    requires names.Length == entries.Length && names != entries && names in base && entries in base && h.live == base
    ensures BothCollected(h, names, entries, [], [], 0, [], base)
  {
    NoneHeld(base);
    PairsIn([], []);
    hide Held;
  }

  // The first i pointers have been stored in both arrays.
  ghost predicate BothCollected(h: Heap, names: array<array?<char>>, entries: array<array?<char>>,
                                ks: seq<array<char>>, vs: seq<array<char>>, i: nat, texts: seq<string>,
                                base: set<object>)
    reads h, names, entries, if |ks| == |vs| then SetOf(Pairs(ks, vs)) else {}
  {
    && i <= names.Length == entries.Length && names[..i] == ks && entries[..i] == vs
    && names != entries && names in base && entries in base && Held(Pairs(ks, vs), texts, h.live, base)
  }

  // The texts of one name and value.
  function MemberTexts(ms: Members, fmt: bool, depth: nat): seq<string>
    requires ms.MCons?
  {
    [Quoted(ms.name)] + [Render(ms.value, fmt, depth)]
  }

  ghost predicate MembersLeft(all: Members, ms: Members, texts: seq<string>, done: string, i: nat, fmt: bool,
                              depth: nat) {
    && |texts| == 2 * i && texts + PairTexts(ms, fmt, depth) == PairTexts(all, fmt, depth)
    && done + RenderMembers(ms, fmt, depth) == RenderMembers(all, fmt, depth)
  }

  lemma MembersLeftStart(ms: Members, fmt: bool, depth: nat)
    ensures MembersLeft(ms, ms, [], "", 0, fmt, depth)
  {
  }

  lemma MembersLeftStep(all: Members, ms: Members, texts: seq<string>, done: string, i: nat, fmt: bool, depth: nat)
    requires MembersLeft(all, ms, texts, done, i, fmt, depth) && ms.MCons?
    ensures 2 * i + 2 <= |PairTexts(all, fmt, depth)|
    ensures MembersLeft(all, ms.rest, texts + MemberTexts(ms, fmt, depth), done + MemberText(ms, fmt, depth), i + 1,
                        fmt, depth)
  {
    hide Render, Quoted, RenderMembers, PairTexts, MemberText;
    NextPair(texts, ms, fmt, depth);
    PairJoin(texts, ms, fmt, depth);
    MemberTurn(ms, fmt, depth, done);
  }

  lemma MembersLeftEnd(all: Members, ms: Members, texts: seq<string>, done: string, i: nat, fmt: bool, depth: nat)
    requires MembersLeft(all, ms, texts, done, i, fmt, depth) && ms.MNil?
    ensures texts == PairTexts(all, fmt, depth) && 2 * i == |texts| && done == RenderMembers(all, fmt, depth)
  {
    hide Render, Quoted, RenderMembers, PairTexts, MemberText;
    NextPair(texts, ms, fmt, depth);
    MembersEnd(ms, fmt, depth, done);
  }

  // Prints the next name and value and stores the pointers.
  method CollectMember(h: Heap, names: array<array?<char>>, entries: array<array?<char>>, i: nat, child: Node,
                       depth: nat, fmt: bool, ghost left: Forest, ghost ks: seq<array<char>>,
                       ghost vs: seq<array<char>>, ghost texts: seq<string>, ghost base: set<object>)
    returns (n: nat, ghost ks': seq<array<char>>, ghost vs': seq<array<char>>)
    requires PrintableFields(left, child) && MembersOf(left).MCons?
    requires names !in Blocks(left) && entries !in Blocks(left)
    requires BothCollected(h, names, entries, ks, vs, i, texts, base) && i < names.Length
    modifies h, names, entries
    ensures BothCollected(h, names, entries, ks', vs', i + 1, texts + MemberTexts(MembersOf(left), fmt, depth), base)
    ensures fresh(h.live - old(h.live)) && n >= |MemberText(MembersOf(left), fmt, depth)|
    decreases left, 2
  {
    hide Render, Quoted, PrintableFields, MembersOf, MemberText, Held, Pairs;
    var str, ret;
    str, ret, n := PrintMember(h, child, depth, fmt, left, ks, vs, texts, base);
    ks', vs' := ks + [str], vs + [ret];
    PairJoin(texts, MembersOf(left), fmt, depth);
    NothingHeld(Pairs(ks', vs'), texts + MemberTexts(MembersOf(left), fmt, depth), h.live, base);
    names[i], entries[i] := str, ret;
    assert names[..i + 1] == names[..i] + [str] && entries[..i + 1] == entries[..i] + [ret];
  }

  lemma PairJoin(texts: seq<string>, ms: Members, fmt: bool, depth: nat)
    requires ms.MCons?
    ensures (texts + [Quoted(ms.name)]) + [Render(ms.value, fmt, depth)] == texts + MemberTexts(ms, fmt, depth)
  {
  }

  // The blocks of one member, and what it adds to the room.
  method PrintMember(h: Heap, child: Node, depth: nat, fmt: bool, ghost left: Forest, ghost ks: seq<array<char>>,
                     ghost vs: seq<array<char>>, ghost texts: seq<string>, ghost base: set<object>)
    returns (str: array<char>, ret: array<char>, n: nat)
    requires PrintableFields(left, child) && MembersOf(left).MCons? && |ks| == |vs|
    requires Held(Pairs(ks, vs), texts, h.live, base)
    modifies h
    ensures fresh(h.live - old(h.live))
    ensures Held(Pairs(ks + [str], vs + [ret]),
                 (texts + [Quoted(MembersOf(left).name)]) + [Render(MembersOf(left).value, fmt, depth)], h.live, base)
    ensures n >= |MemberText(MembersOf(left), fmt, depth)|
    decreases left, 1
  {
    hide Render, Quoted, Holds, PrintableFields, PrintableNode, MembersOf, Blocks, ValueOf, Held, Pairs;
    FirstField(left, child);
    InMemory(left);
    HeapApart(h, left);
    ghost var name, v, live := left.item.name.text, ValueOf(left.item, left.kids), h.live;
    IsPrintable(child, left.item, left.kids);
    Apart(h, Pairs(ks, vs));
    str := PrintString(h, child.name, name);
    HeldMore(Pairs(ks, vs), texts, live, base, str, Quoted(name));
    Apart(h, Pairs(ks, vs) + [str]);
    ret := PrintValue(h, child, depth, fmt, left.item, left.kids);
    HeldMore(Pairs(ks, vs) + [str], texts + [Quoted(name)], live + {str}, base, ret, Render(v, fmt, depth));
    PairsMore(ks, vs, str, ret);
    Apart(h, Pairs(ks + [str], vs + [ret]));
    RenderCString(v, fmt, depth);
    QuotedCString(name);
    var r := StrLen(ret, 0, Render(v, fmt, depth));
    var s := StrLen(str, 0, Quoted(name));
    n := r + s + 2 + (if fmt then 2 + depth else 0);
    TabsCString(depth);
  }

  method ComposeMembers(h: Heap, out: array<char>, start: nat, names: array<array?<char>>,
                        entries: array<array?<char>>, ghost ms: Members, depth: nat, fmt: bool,
                        ghost ks: seq<array<char>>, ghost vs: seq<array<char>>, ghost base: set<object>)
    returns (ptr: nat)
    requires PrintableMembers(ms) && names[..] == ks && entries[..] == vs && |ks| == |vs|
    requires out !in SetOf(ks) + SetOf(vs)
    requires Held(Pairs(ks, vs), PairTexts(ms, fmt, depth), h.live, base)
    requires start + |RenderMembers(ms, fmt, depth)| < out.Length
    modifies h, out, SetOf(ks), SetOf(vs)
    ensures h.live == base
    ensures ptr == start + |RenderMembers(ms, fmt, depth)|
    ensures out[..ptr] == old(out[..start]) + RenderMembers(ms, fmt, depth)
  {
    hide Render, RenderMembers, PairTexts, Holds, Quoted, MemberText, Held, Pairs;
    ptr := start;
    ghost var c, done, pre := ms, "", out[..start];
    PairsIn(ks, vs);
    assert ks[0..] == ks && vs[0..] == vs;
    var numEntries := entries.Length;
    for i := 0 to numEntries
      invariant names[..] == ks && entries[..] == vs
      invariant Held(Pairs(ks[i..], vs[i..]), PairTexts(c, fmt, depth), h.live, base)
      invariant SetOf(Pairs(ks[i..], vs[i..])) <= SetOf(ks) + SetOf(vs)
      invariant PrintableMembers(c) && done + RenderMembers(c, fmt, depth) == RenderMembers(ms, fmt, depth)
      invariant ptr == start + |done| && out[..ptr] == pre + done
    {
      MemberParts(ks[i..], vs[i..], c, fmt, depth, h.live, base);
      Apart(h, Pairs(ks[i + 1..], vs[i + 1..]));
      MemberTurn(c, fmt, depth, done);
      assert names[i] == ks[i] == ks[i..][0] && entries[i] == vs[i] == vs[i..][0];
      assert ks[i..][1..] == ks[i + 1..] && vs[i..][1..] == vs[i + 1..];
      ptr := ComposeMember(out, ptr, names[i], entries[i], c, depth, fmt, i != numEntries - 1);
      Assoc(pre, done, MemberText(c, fmt, depth));
      h.FreeBlock(names[i]);
      h.FreeBlock(entries[i]);
      done := done + MemberText(c, fmt, depth);
      c := c.rest;
    }
    NothingHeld(Pairs(ks[numEntries..], vs[numEntries..]), PairTexts(c, fmt, depth), h.live, base);
    PairsIn(ks[numEntries..], vs[numEntries..]);
    EmptyPairs(c, fmt, depth);
    MembersEnd(c, fmt, depth, done);
  }

  // The blocks of the next member, and what is left without them.
  lemma MemberParts(ks: seq<array<char>>, vs: seq<array<char>>, c: Members, fmt: bool, depth: nat, live: set<object>,
                    base: set<object>)
    requires |ks| == |vs| > 0 && Held(Pairs(ks, vs), PairTexts(c, fmt, depth), live, base)
    ensures c.MCons? && (c.rest.MCons? <==> |ks| > 1)
    ensures Holds(ks[0], 0, Quoted(c.name)) && Holds(vs[0], 0, Render(c.value, fmt, depth))
    ensures ks[0] in live && vs[0] in live && ks[0] != vs[0]
    ensures SetOf(Pairs(ks[1..], vs[1..])) <= SetOf(Pairs(ks, vs))
    ensures ks[0] !in SetOf(Pairs(ks[1..], vs[1..])) && vs[0] !in SetOf(Pairs(ks[1..], vs[1..]))
    ensures Held(Pairs(ks[1..], vs[1..]), PairTexts(c.rest, fmt, depth), live - {ks[0]} - {vs[0]}, base)
  {
    hide Render, Quoted, Holds, PairTexts, Held, Pairs;
    PairsIn(ks, vs);
    PairsIn(ks[1..], vs[1..]);
    NothingHeld(Pairs(ks, vs), PairTexts(c, fmt, depth), live, base);
    EmptyPairs(c, fmt, depth);
    NextPair([], c, fmt, depth);
    PairsHead(ks, vs);
    var k, v, rest := Quoted(c.name), Render(c.value, fmt, depth), PairTexts(c.rest, fmt, depth);
    var bs, more := Pairs(ks, vs), Pairs(ks[1..], vs[1..]);
    HeldLess(bs, PairTexts(c, fmt, depth), live, base, k, [v] + rest);
    assert bs[0] == ks[0] && bs[1..] == [vs[0]] + more;
    HeldLess(bs[1..], [v] + rest, live - {ks[0]}, base, v, rest);
    assert bs[1..][0] == vs[0] && bs[1..][1..] == more;
    NothingHeld(more, rest, live - {ks[0]} - {vs[0]}, base);
    EmptyPairs(c.rest, fmt, depth);
  }

  lemma PairsHead(ks: seq<array<char>>, vs: seq<array<char>>)
    requires |ks| == |vs| > 0
    ensures Pairs(ks, vs) == [ks[0]] + ([vs[0]] + Pairs(ks[1..], vs[1..]))
  {
  }

  method ComposeMember(out: array<char>, at: nat, name: array<char>, entry: array<char>, ghost c: Members,
                       depth: nat, fmt: bool, more: bool)
    returns (ptr: nat)
    requires c.MCons? && PrintableMembers(c) && name != out && entry != out
    requires Holds(name, 0, Quoted(c.name)) && Holds(entry, 0, Render(c.value, fmt, depth))
    requires more <==> c.rest.MCons?
    requires at + |MemberText(c, fmt, depth)| < out.Length
    modifies out
    ensures ptr == at + |MemberText(c, fmt, depth)| && out[..ptr] == old(out[..at]) + MemberText(c, fmt, depth)
  {
    hide Render, Quoted, Holds, MemberEnd, NameText, CString;
    RenderCString(c.value, fmt, depth);
    ghost var pre, k, r := out[..at], NameText(c.name, fmt, depth), Render(c.value, fmt, depth);
    var end := MemberEnd(fmt, more);
    ptr := ComposeName(out, at, name, c.name, depth, fmt);
    ptr := CopyPiece(out, ptr, entry, r);
    PutNul(out, ptr);
    StrCpy(out, ptr, end);
    ptr := ptr + |end|;
    Pieces(pre, k, r, end);
  }

  // Tabs, the name and the colon of a member.
  method ComposeName(out: array<char>, at: nat, name: array<char>, ghost key: string, depth: nat, fmt: bool)
    returns (ptr: nat)
    requires CString(key) && Holds(name, 0, Quoted(key)) && name != out
    requires at + |NameText(key, fmt, depth)| < out.Length
    modifies out
    ensures ptr == at + |NameText(key, fmt, depth)| && out[..ptr] == old(out[..at]) + NameText(key, fmt, depth)
  {
    hide Quoted, Tabs, Holds, Colon, MemberStart, CString;
    QuotedCString(key);
    var start, colon := MemberStart(fmt, depth), Colon(fmt);
    ghost var pre := out[..at];
    Write(out, at, start);
    ptr := CopyPiece(out, at + |start|, name, Quoted(key));
    Write(out, ptr, colon);
    ptr := ptr + |colon|;
    Pieces(pre, start, Quoted(key), colon);
  }

  // Copies the string of one block and moves behind it.
  method CopyPiece(out: array<char>, at: nat, src: array<char>, ghost s: string) returns (ptr: nat)
    requires CString(s) && Holds(src, 0, s) && src != out && at + |s| <= out.Length
    modifies out
    ensures ptr == at + |s| && out[..ptr] == old(out[..at]) + s
  {
    var tmplen := StrLen(src, 0, s);
    CopyString(out, at, src, tmplen, s);
    ptr := at + tmplen;
  }
}
