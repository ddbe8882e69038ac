/**
  The parser of src/cJSON.c on nodes in memory. It computes what module Parsing specifies, and every
  block it allocates is owned by the item it fills, whether parsing succeeds or fails.
 */
module NodeParser {
  import opened Bits
  import opened Utf8
  import opened JsonValue
  import opened Parsing
  import opened Nodes
  import opened NodeViews

  // `skip`
  method SkipSpace(t: string, i: nat) returns (j: nat)
    requires CString(t) && i <= |t|
    ensures j == Skip(t, i)
  {
    j := i;
    while Peek(t, j) != '\0' && Peek(t, j) <= ' '
      invariant i <= j <= |t| && Skip(t, j) == Skip(t, i)
      decreases |t| - j
    {
      j := j + 1;
    }
    assert j < |t| ==> t[j] in t;
  }

  // --- numbers ---

  // Reads a run of digits and adds them to the number read so far.
  method ReadDigits(t: string, i: nat, n: nat) returns (num: nat, m: nat)
    requires i <= |t|
    ensures num == DigitRun(t, i) && m == Accumulate(n, t[i..num])
  {
    num, m := i, n;
    ghost var end := DigitRun(t, i);
    while IsDigit(Peek(t, num))
      invariant i <= num <= end <= |t| && DigitRun(t, num) == end
      invariant Accumulate(m, t[num..end]) == Accumulate(n, t[i..end])
      decreases |t| - num
    {
      assert t[num..end][1..] == t[num + 1..end];
      m := m * 10 + DigitValue(t[num]);
      num := num + 1;
    }
  }

  // `parse_number`
  method ParseNumber(item: Node, t: string, i: nat) returns (num: nat)
    requires i <= |t|
    modifies item`kind, item`valueint, item`valuedouble
    ensures num == ScanNumber(t, i).next && item.kind == KNumber && item.valuedouble == ScanNumber(t, i).Value()
    ensures item.valueint == Truncate(item.valuedouble)
  {
    hide ScanWhole, ScanFraction, ScanExponent, Scan.Value;
    var s := ReadWhole(t, i);
    s := ReadFraction(t, s);
    s := ReadExponent(t, s);
    item.valuedouble := s.Value();
    item.valueint := Truncate(item.valuedouble);
    item.kind := KNumber;
    num := s.next;
  }

  // Its sign and whole digits.
  method ReadWhole(t: string, i: nat) returns (s: Scan)
    requires i <= |t|
    ensures s == ScanWhole(t, i)
  {
    var n: nat, sign, num := 0, 1, i;
    if Peek(t, num) == '-' {
      sign, num := -1, num + 1;
    }
    if Peek(t, num) == '0' {
      num := num + 1;
    }
    if '1' <= Peek(t, num) <= '9' {
      num, n := ReadDigits(t, num, n);
    } else {
      assert t[num..num] == "";
    }
    s := Scan(sign, n, 0, 0, num);
  }

  // Its fractional part.
  method ReadFraction(t: string, s: Scan) returns (r: Scan)
    requires s.next <= |t|
    ensures r == ScanFraction(t, s)
  {
    r := s;
    if Peek(t, s.next) == '.' && IsDigit(Peek(t, s.next + 1)) {
      var num, n := ReadDigits(t, s.next + 1, s.n);
      r := r.(n := n, scale := r.scale - (num - (s.next + 1)), next := num);
    }
  }

  // Its exponent.
  method ReadExponent(t: string, s: Scan) returns (r: Scan)
    requires s.next <= |t|
    ensures r == ScanExponent(t, s)
  {
    r := s;
    var num: nat, signsubscale: int := s.next, 1;
    if Peek(t, num) == 'e' || Peek(t, num) == 'E' {
      num := num + 1;
      if Peek(t, num) == '+' {
        num := num + 1;
      } else if Peek(t, num) == '-' {
        signsubscale, num := -1, num + 1;
      }
      var end, subscale := ReadDigits(t, num, 0);
      r := r.(subscale := subscale * signsubscale, next := end);
    }
  }

  // --- strings ---

  // `parse_hex4`
  method ParseHex4(t: string, i: nat) returns (h: nat)
    ensures h == Hex4(t, i)
  {
    var d := HexValue(Peek(t, i));
    if d < 0 {
      return 0;
    }
    h := d * 16;
    d := HexValue(Peek(t, i + 1));
    if d < 0 {
      return 0;
    }
    h := (h + d) * 16;
    d := HexValue(Peek(t, i + 2));
    if d < 0 {
      return 0;
    }
    h := (h + d) * 16;
    d := HexValue(Peek(t, i + 3));
    if d < 0 {
      return 0;
    }
    h := h + d;
  }

  // The length pass of `parse_string`.
  method MeasureString(t: string, i: nat) returns (len: nat, ptr: nat)
    requires i <= |t| && Measure(t, i).Extent?
    ensures Measure(t, i) == Extent(len, ptr)
  {
    ptr, len := i, 0;
    while !AtStringEnd(t, ptr)
      invariant i <= ptr <= |t| && Measure(t, ptr).Extent?
      invariant Measure(t, i) == Extent(len + Measure(t, ptr).len, Measure(t, ptr).end)
      decreases |t| - ptr
    {
      len := len + 1;
      if t[ptr] == '\\' {
        ptr := ptr + 1;
      }
      ptr := ptr + 1;
    }
  }

  // Writes a code point as UTF-8, from its last byte backwards.
  method WriteUtf8(out: array<char>, at: nat, u: nat) returns (ptr2: nat)
    requires u < 0x11_0000 && at + |Encode(u)| <= out.Length
    modifies out
    ensures ptr2 == at + |Encode(u)| && out[..ptr2] == old(out[..at]) + Encode(u)
  {
    hide Or, Encode;
    EncodeBytes(u);
    var uc := u;
    var len := if uc < 0x80 then 1 else if uc < 0x800 then 2 else if uc < 0x1_0000 then 3 else 4;
    ptr2 := at + len;
    // switch (len), every case falling through to the next
    if len == 4 {
      ptr2 := ptr2 - 1;
      uc := WriteContinuation(out, ptr2, uc);
    }
    if len >= 3 {
      ptr2 := ptr2 - 1;
      uc := WriteContinuation(out, ptr2, uc);
    }
    if len >= 2 {
      ptr2 := ptr2 - 1;
      uc := WriteContinuation(out, ptr2, uc);
    }
    ptr2 := ptr2 - 1;
    FirstByte(uc, len);
    out[ptr2] := Or(uc, FirstByteMark(len)) as char;
    ptr2 := ptr2 + len;
    assert out[..at] == old(out[..at]);
    assert |Encode(u)| == len && out[at] == Encode(u)[0];
    assert len >= 2 ==> out[at + 1] == Encode(u)[1];
    assert len >= 3 ==> out[at + 2] == Encode(u)[2];
    assert len >= 4 ==> out[at + 3] == Encode(u)[3];
    assert out[at..ptr2] == Encode(u);
    assert out[..ptr2] == out[..at] + out[at..ptr2];
  }

  // The bytes of a code point, in terms of the shifts that the source makes.
  lemma EncodeBytes(u: nat)
    requires u < 0x11_0000
    ensures u < 0x80 ==> Encode(u) == [(FirstByteMark(1) + u) as char]
    ensures 0x80 <= u < 0x800 ==>
      u / 64 < 32 && Encode(u) == [(FirstByteMark(2) + u / 64) as char, (0x80 + u % 64) as char]
    ensures 0x800 <= u < 0x1_0000 ==>
      && u / 64 / 64 < 16
      && Encode(u) == [(FirstByteMark(3) + u / 64 / 64) as char, (0x80 + u / 64 % 64) as char, (0x80 + u % 64) as char]
    ensures 0x1_0000 <= u ==>
      && u / 64 / 64 / 64 < 16
      && Encode(u) == [(FirstByteMark(4) + u / 64 / 64 / 64) as char, (0x80 + u / 64 / 64 % 64) as char,
                       (0x80 + u / 64 % 64) as char, (0x80 + u % 64) as char]
  {
  }

  // One continuation byte, from the low six bits.
  method WriteContinuation(out: array<char>, at: nat, uc: nat) returns (rest: nat)
    requires at < out.Length
    modifies out
    ensures out[at] == (0x80 + uc % 64) as char && rest == uc / 64
    ensures forall k :: 0 <= k < out.Length && k != at ==> out[k] == old(out[k])
  {
    Continuation(uc, 0x80, 0xBF);
    ShiftSix(uc, 6);
    hide And, Or, Shr;
    out[at] := And(Or(uc, 0x80), 0xBF) as char;
    rest := Shr(uc, 6);
  }

  // `\u` in the decode pass, k being the position of the 'u'.
  method DecodeUnicode(out: array<char>, at: nat, t: string, k: nat) returns (ptr2: nat, ptr: nat)
    requires k < |t| && UnicodeEscape(t, k).Parsed? && at + |UnicodeEscape(t, k).value| <= out.Length
    modifies out
    ensures ptr == UnicodeEscape(t, k).next && ptr2 == at + |UnicodeEscape(t, k).value|
    ensures out[..ptr2] == old(out[..at]) + UnicodeEscape(t, k).value
  {
    hide Hex4, Encode;
    ptr2 := at;
    var uc := ParseHex4(t, k + 1);
    ptr := k + 4;
    if Low(uc) || uc == 0 {
      return ptr2, ptr + 1;
    }
    if High(uc) {
      if Peek(t, ptr + 1) != '\\' || Peek(t, ptr + 2) != 'u' {
        return ptr2, ptr + 1;
      }
      var uc2 := ParseHex4(t, ptr + 3);
      ptr := ptr + 6;
      if !Low(uc2) {
        return ptr2, ptr + 1;
      }
      PairBits(uc, uc2, 0x3FF, 0x400);
      hide And, Or;
      uc := 0x1_0000 + Or(And(uc, 0x3FF) * 0x400, And(uc2, 0x3FF));
    }
    ptr2 := WriteUtf8(out, at, uc);
    ptr := ptr + 1;
  }

  // One turn of the decode pass.
  method DecodeOne(out: array<char>, at: nat, t: string, i: nat) returns (ptr2: nat, ptr: nat)
    requires i < |t| && !AtStringEnd(t, i) && DecodeStep(t, i).Parsed?
    requires at + |DecodeStep(t, i).value| <= out.Length
    modifies out
    ensures ptr == DecodeStep(t, i).next && ptr2 == at + |DecodeStep(t, i).value|
    ensures out[..ptr2] == old(out[..at]) + DecodeStep(t, i).value
  {
    hide UnicodeEscape;
    ptr2, ptr := at, i;
    if t[ptr] != '\\' {
      out[ptr2] := t[ptr];
      ptr2, ptr := ptr2 + 1, ptr + 1;
    } else {
      ptr := ptr + 1;
      match t[ptr] {
        case 'b' => out[ptr2] := '\U{0008}'; ptr2, ptr := ptr2 + 1, ptr + 1;
        case 'f' => out[ptr2] := '\U{000C}'; ptr2, ptr := ptr2 + 1, ptr + 1;
        case 'n' => out[ptr2] := '\n'; ptr2, ptr := ptr2 + 1, ptr + 1;
        case 'r' => out[ptr2] := '\r'; ptr2, ptr := ptr2 + 1, ptr + 1;
        case 't' => out[ptr2] := '\t'; ptr2, ptr := ptr2 + 1, ptr + 1;
        case 'u' => ptr2, ptr := DecodeUnicode(out, ptr2, t, ptr);
        case _ => out[ptr2] := t[ptr]; ptr2, ptr := ptr2 + 1, ptr + 1;
      }
    }
  }

  // Decoding a C string yields a C string.
  lemma {:induction false} DecodedCString(t: string, i: nat)
    requires CString(t) && i <= |t| && DecodeFrom(t, i).Parsed?
    ensures CString(DecodeFrom(t, i).value)
    decreases |t| - i
  {
    if !AtStringEnd(t, i) {
      StepCString(t, i);
      DecodedCString(t, DecodeStep(t, i).next);
    }
  }

  lemma StepCString(t: string, i: nat)
    requires CString(t) && i < |t| && !AtStringEnd(t, i) && DecodeStep(t, i).Parsed?
    ensures CString(DecodeStep(t, i).value)
  {
    hide Encode, Hex4;
    assert t[i] in t;
    assert i + 1 < |t| ==> t[i + 1] in t;
  }

  // The decode pass of `parse_string`.
  method DecodeString(out: array<char>, t: string, i: nat) returns (ptr2: nat, ptr: nat)
    requires i <= |t| && DecodeFrom(t, i).Parsed? && |DecodeFrom(t, i).value| < out.Length
    modifies out
    ensures ptr2 < out.Length && DecodeFrom(t, i) == Parsed(out[..ptr2], ptr)
  {
    hide DecodeStep;
    ptr2, ptr := 0, i;
    assert out[..0] + DecodeFrom(t, i).value == DecodeFrom(t, i).value;
    while !AtStringEnd(t, ptr)
      invariant i <= ptr <= |t| && ptr2 < out.Length && DecodeFrom(t, ptr).Parsed?
      invariant DecodeFrom(t, i) == Parsed(out[..ptr2] + DecodeFrom(t, ptr).value, DecodeFrom(t, ptr).next)
      decreases |t| - ptr
    {
      ghost var before, step := out[..ptr2], DecodeStep(t, ptr);
      ghost var rest := DecodeFrom(t, step.next).value;
      assert DecodeFrom(t, ptr).value == step.value + rest;
      assert before + (step.value + rest) == (before + step.value) + rest;
      ptr2, ptr := DecodeOne(out, ptr2, t, ptr);
    }
    assert out[..ptr2] + "" == out[..ptr2];
  }

  // `parse_string`. On success the item owns a new block with the decoded string.
  method ParseStringInto(h: Heap, item: Node, t: string, i: nat) returns (ok: bool, next: nat, ghost b: Block)
    requires CString(t) && i <= |t| && !ParseString(t, i).Undefined?
    modifies h, item`valuestring, item`kind
    ensures ok <==> ParseString(t, i).Parsed?
    ensures !ok ==> b == NoBlock && h.live == old(h.live)
    ensures !ok ==> item.valuestring == old(item.valuestring) && item.kind == old(item.kind)
    ensures ok ==>
      && next == ParseString(t, i).next && item.kind == KString && b.Block? && b.text == ParseString(t, i).value
      && fresh(b.a) && b.a !in old(h.live) && h.live == old(h.live) + {b.a} && Stored(item.valuestring, b)
  {
    hide Measure, DecodeFrom;
    b := NoBlock;
    if Peek(t, i) != '\"' {
      return false, 0, b;
    }
    var len, end := MeasureString(t, i + 1);
    var out := h.Malloc(len + 1);
    var ptr2, ptr := DecodeString(out, t, i + 1);
    DecodedCString(t, i + 1);
    out[ptr2] := '\0';
    if Peek(t, ptr) == '\"' {
      ptr := ptr + 1;
    }
    item.valuestring := out;
    item.kind := KString;
    b := Block(out, ParseString(t, i).value);
    assert out[0..0 + ptr2] == out[..ptr2];
    return true, ptr, b;
  }

  // --- values ---

  // The item n, which held it0 without value, now holds it and kids: all that is new is allocated, and
  // nothing else has been.
  twostate predicate Filled(h: Heap, n: Node, it0: Item, new it: Item, new kids: Forest)
    reads h, Own(n, it, kids)
  {
    && Complete(h, old(h.live), n, it0, it, kids)
    && n.next == old(n.next) && n.prev == old(n.prev)
    && fresh(h.live - old(h.live))
  }

  ghost predicate Complete(h: Heap, live0: set<object>, n: Node, it0: Item, it: Item, kids: Forest)
    reads h, Own(n, it, kids)
  {
    && Is(n, it, kids) && DistinctNode(n, it, kids) && it.name == it0.name && !it.reference && Plain(kids)
    && (BlockSet(it.val) + Blocks(kids)) !! live0
    && h.live == live0 + BlockSet(it.val) + Blocks(kids)
  }

  // An item whose value has not been set.
  ghost predicate Unset(h: Heap, n: Node, it0: Item)
    reads h, n`kind, n`isReference, n`valueint, n`valuedouble, n`name, n`valuestring, n`child, BlockSet(it0.name)
  {
    && it0.val == NoBlock && !it0.reference && Is(n, it0, Nil) && n.valuestring == null && n.child == null
    && it0.integer == 0 && it0.number == 0.0
    && n in h.live && BlockSet(it0.name) <= h.live
  }

  // `cJSON_New_Item`
  method NewUnset(h: Heap) returns (n: Node, ghost it0: Item)
    modifies h
    ensures fresh(n) && n !in old(h.live) && h.live == old(h.live) + {n}
    ensures Unset(h, n, it0) && it0.name == NoBlock && n.next == null && n.prev == null && Own(n, it0, Nil) == {n}
  {
    n := h.NewItem();
    it0 := Item(KFalse, false, 0, 0.0, NoBlock, NoBlock);
  }

  // Sets the type of an item without value.
  method SetKind(h: Heap, item: Node, kind: Kind, ghost it0: Item) returns (ghost it: Item)
    requires Unset(h, item, it0)
    modifies item`kind
    ensures it == it0.(kind := kind) && Filled(h, item, it0, it, Nil) && Unset(h, item, it)
  {
    item.kind := kind;
    it := it0.(kind := kind);
  }

  method TrueItem(h: Heap, item: Node, ghost it0: Item) returns (ghost it: Item)
    requires Unset(h, item, it0)
    modifies item`kind, item`valueint
    ensures it == it0.(kind := KTrue, integer := 1) && Filled(h, item, it0, it, Nil)
  {
    item.kind := KTrue;
    item.valueint := 1;
    it := it0.(kind := KTrue, integer := 1);
  }

  method NumberItem(h: Heap, item: Node, t: string, i: nat, ghost it0: Item) returns (next: nat, ghost it: Item)
    requires i <= |t| && Unset(h, item, it0)
    modifies item`kind, item`valueint, item`valuedouble
    ensures next == ScanNumber(t, i).next && it.kind == KNumber && it.number == ScanNumber(t, i).Value()
    ensures it.integer == Truncate(it.number) && it.val == NoBlock
    ensures Filled(h, item, it0, it, Nil)
  {
    next := ParseNumber(item, t, i);
    it := it0.(kind := KNumber, integer := item.valueint, number := item.valuedouble);
  }

  method StringItem(h: Heap, item: Node, t: string, i: nat, ghost it0: Item)
    returns (ok: bool, next: nat, ghost it: Item)
    requires CString(t) && i <= |t| && !ParseString(t, i).Undefined? && Unset(h, item, it0)
    modifies h, item`valuestring, item`kind
    ensures ok <==> ParseString(t, i).Parsed?
    ensures ok ==>
      && next == ParseString(t, i).next && it.kind == KString && it.val.Block? && it.val.text == ParseString(t, i).value
      && it.integer == 0 && it.number == 0.0
    ensures Filled(h, item, it0, it, Nil)
  {
    ghost var b;
    ok, next, b := ParseStringInto(h, item, t, i);
    it := it0.(kind := item.kind, val := b);
  }

  // `parse_value`
  method ParseValueInto(h: Heap, item: Node, t: string, i: nat, ghost it0: Item)
    returns (ok: bool, next: nat, ghost it: Item, ghost kids: Forest)
    requires CString(t) && i <= |t| && !ParseValue(t, i).Undefined? && Unset(h, item, it0)
    modifies h, item
    ensures Filled(h, item, it0, it, kids)
    ensures ok <==> ParseValue(t, i).Parsed?
    ensures ok ==> next == ParseValue(t, i).next && Means(it, kids, ParseValue(t, i).value)
    decreases |t| - i, 1
  {
    hide ParseString, ParseArray, ParseObject, ScanNumber;
    it, kids := it0, Nil;
    if StartsWith(t, i, "null") {
      it := SetKind(h, item, KNull, it0);
      return true, i + 4, it, kids;
    }
    if StartsWith(t, i, "false") {
      it := SetKind(h, item, KFalse, it0);
      return true, i + 5, it, kids;
    }
    if StartsWith(t, i, "true") {
      it := TrueItem(h, item, it0);
      return true, i + 4, it, kids;
    }
    if Peek(t, i) == '\"' {
      ok, next, it := StringItem(h, item, t, i, it0);
      return ok, next, it, kids;
    }
    if Peek(t, i) == '-' || IsDigit(Peek(t, i)) {
      next, it := NumberItem(h, item, t, i, it0);
      return true, next, it, kids;
    }
    if Peek(t, i) == '[' {
      ok, next, it, kids := ParseArrayInto(h, item, t, i, it0);
      return;
    }
    if Peek(t, i) == '{' {
      ok, next, it, kids := ParseObjectInto(h, item, t, i, it0);
      return;
    }
    return false, 0, it, kids;
  }

  // --- arrays ---

  // What the parser does after an element, k being the next position that is no white space.
  function AfterElem(t: string, k: nat): Outcome<Elems>
    requires k <= |t|
  {
    if Peek(t, k) == ',' then ParseElems(t, k + 1)
    else if Peek(t, k) == ']' then Parsed(ENil, k + 1)
    else Rejected
  }

  // The elements es, then the outcome r of the rest.
  ghost function Then(es: Elems, r: Outcome<Elems>): Outcome<Elems> {
    if r.Parsed? then Parsed(JoinElems(es, r.value), r.next) else r
  }

  lemma {:induction false} JoinElemsAssoc(a: Elems, b: Elems, c: Elems)
    ensures JoinElems(JoinElems(a, b), c) == JoinElems(a, JoinElems(b, c))
  {
    if a.ECons? {
      JoinElemsAssoc(a.tail, b, c);
    }
  }

  // One element of the specification, in terms of the loop.
  lemma ElemsTurn(t: string, i: nat, es: Elems)
    requires i <= |t|
    ensures var r := ParseValue(t, Skip(t, i));
      Then(es, ParseElems(t, i)) ==
        if r.Parsed? then Then(JoinElems(es, ECons(r.value, ENil)), AfterElem(t, Skip(t, r.next)))
        else if r.Rejected? then Rejected else Undefined
  {
    var r := ParseValue(t, Skip(t, i));
    hide ParseValue, Skip;
    if r.Parsed? {
      var rest := AfterElem(t, Skip(t, r.next));
      if rest.Parsed? {
        JoinElemsAssoc(es, ECons(r.value, ENil), rest.value);
      }
    }
  }

  // The elements of done have been read, and the next one is expected at j.
  ghost predicate ElemsDue(t: string, i: nat, done: Forest, j: nat) {
    && i <= |t| && j <= |t| && AllMade(done, false) && !ParseElems(t, i).Undefined?
    && ParseElems(t, i) == Then(ElemsOf(done), ParseElems(t, j))
  }

  // The elements of done have been read, up to next, or one of them is not as it should be.
  ghost predicate ElemsRead(t: string, i: nat, done: Forest, ok: bool, next: nat) {
    && i <= |t| && !ParseElems(t, i).Undefined?
    && (if ok then
          && next <= |t| && AllMade(done, false)
          && ParseElems(t, i) == Then(ElemsOf(done), AfterElem(t, next))
        else ParseElems(t, i).Rejected?)
  }

  lemma ElemsStart(t: string, i: nat)
    requires i <= |t| && !ParseElems(t, i).Undefined?
    ensures ElemsDue(t, i, Nil, i) && !ParseValue(t, Skip(t, i)).Undefined?
  {
    hide ParseElems;
    ElemsTurn(t, i, ENil);
  }

  lemma ElemsGo(t: string, i: nat, done: Forest, next: nat)
    requires ElemsRead(t, i, done, true, next) && Peek(t, next) == ','
    ensures ElemsDue(t, i, done, next + 1) && !ParseValue(t, Skip(t, next + 1)).Undefined?
  {
    hide ParseElems;
    ElemsTurn(t, next + 1, ElemsOf(done));
  }

  lemma ElemsStep(t: string, i: nat, done: Forest, j: nat, ok: bool, next: nat, child: Node, it: Item, kids: Forest)
    requires ElemsDue(t, i, done, j)
    requires var r := ParseValue(t, Skip(t, j));
      (ok <==> r.Parsed?) && !r.Undefined? && (ok ==> next == Skip(t, r.next) && Means(it, kids, r.value))
    requires it.name == NoBlock
    ensures ElemsRead(t, i, Append(done, One(child, it, kids)), ok, next)
  {
    hide ParseElems, ParseValue, Skip, AllMade, AfterElem, Append, ElemsOf;
    ElemsTurn(t, j, ElemsOf(done));
    Grown(done, child, it, kids);
  }

  lemma ElemsEnd(t: string, i: nat, done: Forest, ok: bool, next: nat)
    requires ElemsRead(t, i, done, ok, next) && (ok ==> Peek(t, next) != ',')
    ensures var r := ParseElems(t, i);
      && (r.Parsed? <==> ok && Peek(t, next) == ']')
      && (r.Parsed? ==> r.next == next + 1 && ElemsOf(done) == r.value && AllMade(done, false))
  {
    hide ParseElems, AllMade;
    JoinNothing(ElemsOf(done), MNil);
  }

  // The children parsed so far: the chain `done`, then the node child with what it holds. The parent's
  // chain starts at head, and live0 is what was allocated before.
  ghost predicate Growing(h: Heap, live0: set<object>, head: Node?, done: Forest, child: Node, it: Item, kids: Forest)
    reads h, Blocks(done), Own(child, it, kids)
  {
    && Chain(done, head, null, child) && child.prev == Last(done, null) && child.next == null && Is(child, it, kids)
    && Distinct(Append(done, One(child, it, kids))) && Plain(done) && Plain(kids) && !it.reference
    && Blocks(Append(done, One(child, it, kids))) !! live0
    && h.live == live0 + Blocks(Append(done, One(child, it, kids)))
  }

  // The same with a last node whose value is still to be set.
  ghost predicate Open(h: Heap, live0: set<object>, head: Node?, done: Forest, child: Node, it: Item)
    reads h, Blocks(done), child, BlockSet(it.name)
  {
    && Chain(done, head, null, child) && child.prev == Last(done, null) && child.next == null && Unset(h, child, it)
    && Distinct(done) && Plain(done) && Blocks(done) !! Own(child, it, Nil) && BlockSet(it.name) !! {child}
    && Blocks(done) !! live0 && Own(child, it, Nil) !! live0
    && h.live == live0 + Blocks(done) + Own(child, it, Nil)
  }

  // The first child.
  method FirstChild(h: Heap, item: Node) returns (child: Node, ghost it: Item)
    modifies h, item`child
    ensures fresh(child) && item.child == child && Open(h, old(h.live), child, Nil, child, it) && it.name == NoBlock
    ensures fresh(h.live - old(h.live))
  {
    child, it := NewUnset(h);
    item.child := child;
  }

  lemma BeforeNext(h: Heap, live0: set<object>, head: Node?, done: Forest, child: Node, it: Item, kids: Forest)
    requires Growing(h, live0, head, done, child, it, kids)
    ensures var before := Append(done, One(child, it, kids));
      Plain(before) && Last(before, null) == child && h !in Blocks(before)
    ensures BlockSet(it.val) + BlockSet(it.name) + Blocks(kids) + {child} + Blocks(done) <= h.live - {h}
  {
    HeapApart(h, Append(done, One(child, it, kids)));
    AppendBlocks(done, One(child, it, kids));
    AppendValues(done, One(child, it, kids));
    LastAppend(done, One(child, it, kids), null);
    LastOne(child, it, kids, Last(done, null));
    ChainOne(child, it, kids, null, null);
  }

  // A further child, linked behind the last one.
  method NextChild(h: Heap, ghost live0: set<object>, ghost head: Node?, ghost done: Forest, child: Node,
                   ghost it: Item, ghost kids: Forest)
    returns (newItem: Node, ghost it0: Item)
    requires Growing(h, live0, head, done, child, it, kids)
    modifies h, child`next
    ensures fresh(newItem) && Open(h, live0, head, Append(done, One(child, it, kids)), newItem, it0)
      && it0.name == NoBlock
    ensures fresh(h.live - old(h.live))
  {
    hide Distinct, DistinctNode, Chain, Append, Last, Plain, Blocks, Own;
    BeforeNext(h, live0, head, done, child, it, kids);
    newItem, it0 := NewUnset(h);
    SuffixObject(child, newItem, head, done, it, kids);
  }

  // What is allocated while the last child has no value yet.
  ghost predicate Apart(live: set<object>, live0: set<object>, done: Forest, child: Node, it: Item) {
    && live == live0 + Blocks(done) + {child} + BlockSet(it.name)
    && Blocks(done) !! live0 && {child} + BlockSet(it.name) !! live0 && Blocks(done) !! {child} + BlockSet(it.name)
  }

  lemma BeforeFill(h: Heap, live0: set<object>, head: Node?, done: Forest, child: Node, it: Item)
    requires Open(h, live0, head, done, child, it)
    ensures h !in Blocks(done) && Apart(h.live, live0, done, child, it)
    ensures Chain(done, head, null, child) && child.prev == Last(done, null) && child.next == null
    ensures Unset(h, child, it) && Distinct(done) && Plain(done)
  {
    HeapApart(h, done);
  }

  lemma AfterFill(h: Heap, live: set<object>, live0: set<object>, head: Node?, done: Forest, child: Node, it0: Item,
                  it: Item, kids: Forest)
    requires Chain(done, head, null, child) && child.prev == Last(done, null) && child.next == null
    requires Apart(live, live0, done, child, it0) && Distinct(done) && Plain(done)
    requires Complete(h, live, child, it0, it, kids)
    ensures Growing(h, live0, head, done, child, it, kids) && child in h.live - live0
  {
    hide Chain, Is, Distinct, DistinctNode, Plain, Blocks;
    AppendBlocks(done, One(child, it, kids));
    ChainOne(child, it, kids, null, null);
  }

  // Parses the value of the last child, between white space.
  method FillChild(h: Heap, ghost live0: set<object>, ghost head: Node?, ghost done: Forest, child: Node,
                   ghost it0: Item, t: string, i: nat)
    returns (ok: bool, next: nat, ghost it: Item, ghost kids: Forest)
    requires CString(t) && i <= |t| && !ParseValue(t, Skip(t, i)).Undefined? && Open(h, live0, head, done, child, it0)
    modifies h, child
    ensures Growing(h, live0, head, done, child, it, kids) && it.name == it0.name && child in h.live - live0
    ensures fresh(h.live - old(h.live))
    ensures var r := ParseValue(t, Skip(t, i));
      (ok <==> r.Parsed?) && (ok ==> next == Skip(t, r.next) && Means(it, kids, r.value))
    decreases |t| - i, 2
  {
    hide Open, Chain, Is, Distinct, DistinctNode, Plain, Blocks, Own, Append, Unset, Growing, ParseValue, Skip;
    BeforeFill(h, live0, head, done, child, it0);
    ghost var live := h.live;
    var value := SkipSpace(t, i);
    ok, value, it, kids := ParseValueInto(h, child, t, value, it0);
    next := 0;
    if ok {
      next := SkipSpace(t, value);
    }
    AfterFill(h, live, live0, head, done, child, it0, it, kids);
  }

  // An array or object item, apart from its children.
  ghost predicate Parent(n: Node, it: Item)
    reads n`kind, n`isReference, n`valueint, n`valuedouble, n`name, n`valuestring, BlockSet(it.name)
  {
    && it.val == NoBlock && !it.reference
    && n.kind == it.kind && n.isReference == it.reference && n.valueint == it.integer
    && n.valuedouble == it.number
    && Stored(n.name, it.name) && n.valuestring == null
  }

  lemma Starts(h: Heap, item: Node, it: Item)
    requires Unset(h, item, it)
    ensures Parent(item, it)
    ensures ElemsOf(Nil) == ENil && MembersOf(Nil) == MNil
  {
  }

  // The children of an item are all linked: the item owns them.
  lemma Finished(h: Heap, live0: set<object>, item: Node, it: Item, done: Forest, child: Node, cit: Item, ckids: Forest)
    requires Growing(h, live0, item.child, done, child, cit, ckids)
    requires Parent(item, it) && item in live0 && BlockSet(it.name) <= live0
    ensures Complete(h, live0, item, it, it, Append(done, One(child, cit, ckids)))
  {
    AppendValues(done, One(child, cit, ckids));
    AppendChain(done, One(child, cit, ckids), item.child, null, null);
    ChainOne(child, cit, ckids, Last(done, null), null);
  }

  // `parse_array`
  method ParseArrayInto(h: Heap, item: Node, t: string, i: nat, ghost it0: Item)
    returns (ok: bool, next: nat, ghost it: Item, ghost kids: Forest)
    requires CString(t) && i < |t| && t[i] == '[' && !ParseArray(t, i).Undefined? && Unset(h, item, it0)
    modifies h, item
    ensures Filled(h, item, it0, it, kids)
    ensures ok <==> ParseArray(t, i).Parsed?
    ensures ok ==> next == ParseArray(t, i).next && Means(it, kids, ParseArray(t, i).value)
    decreases |t| - i, 0
  {
    hide ParseValue, ParseElems, Skip, Unset;
    it := SetKind(h, item, KArray, it0);
    kids := Nil;
    var value := SkipSpace(t, i + 1);
    if Peek(t, value) == ']' {
      return true, value + 1, it, kids;
    }
    ok, next, kids := ParseChildren(h, item, t, value, it);
  }

  // The body of the loop of `parse_array`.
  method NextElem(h: Heap, ghost live0: set<object>, ghost head: Node?, ghost done: Forest, child: Node, ghost it: Item,
                  ghost kids: Forest, t: string, i: nat)
    returns (ok: bool, next: nat, newItem: Node, ghost it': Item, ghost kids': Forest)
    requires CString(t) && i <= |t| && !ParseValue(t, Skip(t, i)).Undefined?
    requires Growing(h, live0, head, done, child, it, kids)
    modifies h, child
    ensures Growing(h, live0, head, Append(done, One(child, it, kids)), newItem, it', kids')
      && newItem in h.live - live0 && it'.name == NoBlock
    ensures fresh(newItem) && fresh(h.live - old(h.live))
    ensures var r := ParseValue(t, Skip(t, i));
      (ok <==> r.Parsed?) && (ok ==> next == Skip(t, r.next) && Means(it', kids', r.value))
    decreases |t| - i, 3
  {
    hide ParseValue, Skip, Growing, Open, Append;
    newItem, it' := NextChild(h, live0, head, done, child, it, kids);
    ok, next, it', kids' := FillChild(h, live0, head, Append(done, One(child, it, kids)), newItem, it', t, i);
  }

  // The elements of an array, linked below the item.
  method ParseChildren(h: Heap, item: Node, t: string, i: nat, ghost it: Item)
    returns (ok: bool, next: nat, ghost kids: Forest)
    requires CString(t) && i <= |t| && !ParseElems(t, i).Undefined? && Unset(h, item, it)
    modifies h, item
    ensures Filled(h, item, it, it, kids)
    ensures ok <==> ParseElems(t, i).Parsed?
    ensures ok ==>
      next == ParseElems(t, i).next && ElemsOf(kids) == ParseElems(t, i).value && AllMade(kids, false)
    decreases |t| - i, 5
  {
    hide ParseValue, ParseElems, Skip, Growing, Open, Complete, Append, Blocks, Is, Chain, ElemsOf, AllMade, Means;
    hide Parent, ElemsDue, ElemsRead;
    ghost var live0, cit, ckids, done := h.live, it, Nil, Nil;
    var child;
    Starts(h, item, it);
    child, cit := FirstChild(h, item);
    ElemsStart(t, i);
    ok, next, cit, ckids := FillChild(h, live0, child, done, child, cit, t, i);
    kids := Append(done, One(child, cit, ckids));
    ElemsStep(t, i, done, i, ok, next, child, cit, ckids);
    while ok && Peek(t, next) == ','
      invariant kids == Append(done, One(child, cit, ckids)) && fresh(h.live - live0) && child in h.live - live0
      invariant Growing(h, live0, item.child, done, child, cit, ckids)
      invariant item.next == old(item.next) && item.prev == old(item.prev) && Parent(item, it)
      invariant ElemsRead(t, i, kids, ok, next) && (ok ==> i < next <= |t|)
      decreases ok, |t| - next
    {
      ghost var j := next + 1;
      ElemsGo(t, i, kids, next);
      ok, next, child, cit, ckids := NextElem(h, live0, item.child, done, child, cit, ckids, t, next + 1);
      done := kids;
      kids := Append(done, One(child, cit, ckids));
      ElemsStep(t, i, done, j, ok, next, child, cit, ckids);
    }
    Finished(h, live0, item, it, done, child, cit, ckids);
    ElemsEnd(t, i, kids, ok, next);
    ok := ok && Peek(t, next) == ']';
    next := next + 1;
  }

  lemma {:induction false} JoinNothing(es: Elems, ms: Members)
    ensures JoinElems(es, ENil) == es && JoinMembers(ms, MNil) == ms
    decreases es, ms
  {
    if es.ECons? {
      JoinNothing(es.tail, ms);
    } else if ms.MCons? {
      JoinNothing(es, ms.rest);
    }
  }

  // What a further child adds.
  lemma Grown(done: Forest, child: Node, it: Item, kids: Forest)
    ensures forall named | AllMade(done, named) && Made(it, kids) && (named <==> it.name.Block?) ::
      AllMade(Append(done, One(child, it, kids)), named)
    ensures Blocks(Append(done, One(child, it, kids))) == Blocks(done) + Own(child, it, kids)
    ensures ElemsOf(Append(done, One(child, it, kids))) == JoinElems(ElemsOf(done), ECons(ValueOf(it, kids), ENil))
    ensures it.name.Block? ==>
      MembersOf(Append(done, One(child, it, kids)))
        == JoinMembers(MembersOf(done), MCons(it.name.text, ValueOf(it, kids), MNil))
  {
    AppendBlocks(done, One(child, it, kids));
    AppendValues(done, One(child, it, kids));
    AppendMade(done, One(child, it, kids), true);
    AppendMade(done, One(child, it, kids), false);
    ChainOne(child, it, kids, null, null);
    assert ElemsOf(Nil) == ENil && MembersOf(Nil) == MNil;
  }

  // --- objects ---

  // What the parser does after a member.
  function AfterMember(t: string, k: nat): Outcome<Members>
    requires k <= |t|
  {
    if Peek(t, k) == ',' then ParseMembers(t, k + 1)
    else if Peek(t, k) == '}' then Parsed(MNil, k + 1)
    else Rejected
  }

  ghost function ThenMembers(ms: Members, r: Outcome<Members>): Outcome<Members> {
    if r.Parsed? then Parsed(JoinMembers(ms, r.value), r.next) else r
  }

  lemma {:induction false} JoinMembersAssoc(a: Members, b: Members, c: Members)
    ensures JoinMembers(JoinMembers(a, b), c) == JoinMembers(a, JoinMembers(b, c))
  {
    if a.MCons? {
      JoinMembersAssoc(a.rest, b, c);
    }
  }

  // One member of the specification, in terms of the loop.
  lemma MembersTurn(t: string, i: nat, ms: Members)
    requires i <= |t|
    ensures var r := ParseMember(t, i);
      ThenMembers(ms, ParseMembers(t, i)) ==
        if r.Parsed? then
          ThenMembers(JoinMembers(ms, MCons(r.value.0, r.value.1, MNil)), AfterMember(t, Skip(t, r.next)))
        else if r.Rejected? then Rejected else Undefined
  {
    var r := ParseMember(t, i);
    hide ParseMember, Skip;
    if r.Parsed? {
      var rest := AfterMember(t, Skip(t, r.next));
      if rest.Parsed? {
        JoinMembersAssoc(ms, MCons(r.value.0, r.value.1, MNil), rest.value);
      }
    }
  }

  // The members of done have been read, and the next one is expected at j.
  ghost predicate MembersDue(t: string, i: nat, done: Forest, j: nat) {
    && i <= |t| && j <= |t| && AllMade(done, true) && !ParseMembers(t, i).Undefined?
    && ParseMembers(t, i) == ThenMembers(MembersOf(done), ParseMembers(t, j))
  }

  // The members of done have been read, up to next, or one of them is not as it should be.
  ghost predicate MembersRead(t: string, i: nat, done: Forest, ok: bool, next: nat) {
    && i <= |t| && !ParseMembers(t, i).Undefined?
    && (if ok then
          && next <= |t| && AllMade(done, true)
          && ParseMembers(t, i) == ThenMembers(MembersOf(done), AfterMember(t, next))
        else ParseMembers(t, i).Rejected?)
  }

  lemma MembersStart(t: string, i: nat)
    requires i <= |t| && !ParseMembers(t, i).Undefined?
    ensures MembersDue(t, i, Nil, i) && !ParseMember(t, i).Undefined?
  {
    hide ParseMembers;
    MembersTurn(t, i, MNil);
  }

  lemma MembersGo(t: string, i: nat, done: Forest, next: nat)
    requires MembersRead(t, i, done, true, next) && Peek(t, next) == ','
    ensures MembersDue(t, i, done, next + 1) && !ParseMember(t, next + 1).Undefined?
  {
    hide ParseMembers;
    MembersTurn(t, next + 1, MembersOf(done));
  }

  lemma MembersStep(t: string, i: nat, done: Forest, j: nat, ok: bool, next: nat, child: Node, it: Item, kids: Forest)
    requires MembersDue(t, i, done, j)
    requires var r := ParseMember(t, j);
      && (ok <==> r.Parsed?) && !r.Undefined?
      && (ok ==>
            next == Skip(t, r.next) && it.name.Block? && it.name.text == r.value.0 && Means(it, kids, r.value.1))
    ensures MembersRead(t, i, Append(done, One(child, it, kids)), ok, next)
  {
    hide ParseMembers, ParseMember, Skip, AllMade, AfterMember, Append, MembersOf;
    MembersTurn(t, j, MembersOf(done));
    Grown(done, child, it, kids);
  }

  lemma MembersEnd(t: string, i: nat, done: Forest, ok: bool, next: nat)
    requires MembersRead(t, i, done, ok, next) && (ok ==> Peek(t, next) != ',')
    ensures var r := ParseMembers(t, i);
      && (r.Parsed? <==> ok && Peek(t, next) == '}')
      && (r.Parsed? ==> r.next == next + 1 && MembersOf(done) == r.value && AllMade(done, true))
  {
    hide ParseMembers, AllMade;
    JoinNothing(ENil, MembersOf(done));
  }

  // Parses a name, between white space, and moves it from the value string of the child to its name.
  method NameChild(h: Heap, ghost live0: set<object>, ghost head: Node?, ghost done: Forest, child: Node,
                   ghost it0: Item, t: string, i: nat)
    returns (ok: bool, next: nat, ghost it: Item)
    requires CString(t) && i <= |t| && !ParseString(t, Skip(t, i)).Undefined? && Open(h, live0, head, done, child, it0)
    requires it0.name == NoBlock
    modifies h, child`valuestring, child`kind, child`name
    ensures Open(h, live0, head, done, child, it) && fresh(h.live - old(h.live))
    ensures var r := ParseString(t, Skip(t, i));
      (ok <==> r.Parsed?) && (ok ==> next == Skip(t, r.next) && it.name.Block? && it.name.text == r.value)
  {
    hide Open, Chain, Distinct, Plain, Blocks, Own, Skip, ParseString;
    BeforeFill(h, live0, head, done, child, it0);
    ghost var b, live := NoBlock, h.live;
    var value := SkipSpace(t, i);
    ok, value, b := ParseStringInto(h, child, t, value);
    next := 0;
    it := it0;
    if ok {
      child.name := child.valuestring;
      child.valuestring := null;
      it := it0.(kind := KString, name := b);
      next := SkipSpace(t, value);
    }
    NoChildren();
    AfterName(h, live, live0, head, done, child, it0, it);
  }

  lemma NoChildren()
    ensures Chain(Nil, null, null, null)
  {
  }

  lemma AfterName(h: Heap, live: set<object>, live0: set<object>, head: Node?, done: Forest, child: Node, it0: Item,
                  it: Item)
    requires Chain(done, head, null, child) && child.prev == Last(done, null) && child.next == null
    requires Apart(live, live0, done, child, it0) && Distinct(done) && Plain(done) && it0.name == NoBlock
    requires Unset(h, child, it) && h.live == live + BlockSet(it.name) && BlockSet(it.name) !! live
    ensures Open(h, live0, head, done, child, it)
  {
  }

  // A name, a ':' and a value, parsed into the last child.
  method FillMember(h: Heap, ghost live0: set<object>, ghost head: Node?, ghost done: Forest, child: Node,
                    ghost it0: Item, t: string, i: nat)
    returns (ok: bool, next: nat, ghost it: Item, ghost kids: Forest)
    requires CString(t) && i <= |t| && !ParseMember(t, i).Undefined? && Open(h, live0, head, done, child, it0)
    requires it0.name == NoBlock
    modifies h, child
    ensures Growing(h, live0, head, done, child, it, kids) && child in h.live - live0
    ensures fresh(h.live - old(h.live))
    ensures var r := ParseMember(t, i);
      (ok <==> r.Parsed?)
      && (ok ==>
            next == Skip(t, r.next) && it.name.Block? && it.name.text == r.value.0 && Means(it, kids, r.value.1))
    decreases |t| - i, 3
  {
    hide ParseString, ParseValue, Skip, Open, Growing;
    ok, next, it := NameChild(h, live0, head, done, child, it0, t, i);
    kids := Nil;
    if !ok || Peek(t, next) != ':' {
      ok := false;
      Unfilled(h, live0, head, done, child, it);
      return;
    }
    ok, next, it, kids := FillChild(h, live0, head, done, child, it, t, next + 1);
  }

  // A last child without a value is a child all the same.
  lemma Unfilled(h: Heap, live0: set<object>, head: Node?, done: Forest, child: Node, it: Item)
    requires Open(h, live0, head, done, child, it)
    ensures Growing(h, live0, head, done, child, it, Nil) && child in h.live - live0
  {
    AppendBlocks(done, One(child, it, Nil));
    ChainOne(child, it, Nil, null, null);
  }

  // `parse_object`
  method ParseObjectInto(h: Heap, item: Node, t: string, i: nat, ghost it0: Item)
    returns (ok: bool, next: nat, ghost it: Item, ghost kids: Forest)
    requires CString(t) && i < |t| && t[i] == '{' && !ParseObject(t, i).Undefined? && Unset(h, item, it0)
    modifies h, item
    ensures Filled(h, item, it0, it, kids)
    ensures ok <==> ParseObject(t, i).Parsed?
    ensures ok ==> next == ParseObject(t, i).next && Means(it, kids, ParseObject(t, i).value)
    decreases |t| - i, 0
  {
    hide ParseMember, ParseMembers, Skip, Unset;
    it := SetKind(h, item, KObject, it0);
    kids := Nil;
    var value := SkipSpace(t, i + 1);
    if Peek(t, value) == '}' {
      return true, value + 1, it, kids;
    }
    ok, next, kids := ParseNamedChildren(h, item, t, value, it);
  }

  // The body of the loop of `parse_object`.
  method NextMember(h: Heap, ghost live0: set<object>, ghost head: Node?, ghost done: Forest, child: Node,
                    ghost it: Item, ghost kids: Forest, t: string, i: nat)
    returns (ok: bool, next: nat, newItem: Node, ghost it': Item, ghost kids': Forest)
    requires CString(t) && i <= |t| && !ParseMember(t, i).Undefined?
    requires Growing(h, live0, head, done, child, it, kids)
    modifies h, child
    ensures Growing(h, live0, head, Append(done, One(child, it, kids)), newItem, it', kids')
      && newItem in h.live - live0
    ensures fresh(newItem) && fresh(h.live - old(h.live))
    ensures var r := ParseMember(t, i);
      (ok <==> r.Parsed?)
      && (ok ==>
            next == Skip(t, r.next) && it'.name.Block? && it'.name.text == r.value.0 && Means(it', kids', r.value.1))
    decreases |t| - i, 4
  {
    hide ParseMember, Skip, Growing, Open, Append;
    newItem, it' := NextChild(h, live0, head, done, child, it, kids);
    ok, next, it', kids' := FillMember(h, live0, head, Append(done, One(child, it, kids)), newItem, it', t, i);
  }

  // The members of an object, linked below the item.
  method ParseNamedChildren(h: Heap, item: Node, t: string, i: nat, ghost it: Item)
    returns (ok: bool, next: nat, ghost kids: Forest)
    requires CString(t) && i <= |t| && !ParseMembers(t, i).Undefined? && Unset(h, item, it)
    modifies h, item
    ensures Filled(h, item, it, it, kids)
    ensures ok <==> ParseMembers(t, i).Parsed?
    ensures ok ==>
      next == ParseMembers(t, i).next && MembersOf(kids) == ParseMembers(t, i).value && AllMade(kids, true)
    decreases |t| - i, 5
  {
    hide ParseMember, ParseMembers, Skip, Growing, Open, Complete, Append, Blocks, Is, Chain, MembersOf, AllMade;
    hide Means, Parent, MembersDue, MembersRead;
    ghost var live0, cit, ckids, done := h.live, it, Nil, Nil;
    var child;
    Starts(h, item, it);
    child, cit := FirstChild(h, item);
    MembersStart(t, i);
    ok, next, cit, ckids := FillMember(h, live0, child, done, child, cit, t, i);
    kids := Append(done, One(child, cit, ckids));
    MembersStep(t, i, done, i, ok, next, child, cit, ckids);
    while ok && Peek(t, next) == ','
      invariant kids == Append(done, One(child, cit, ckids)) && fresh(h.live - live0) && child in h.live - live0
      invariant Growing(h, live0, item.child, done, child, cit, ckids)
      invariant item.next == old(item.next) && item.prev == old(item.prev) && Parent(item, it)
      invariant MembersRead(t, i, kids, ok, next) && (ok ==> i < next <= |t|)
      decreases ok, |t| - next
    {
      ghost var j := next + 1;
      MembersGo(t, i, kids, next);
      ok, next, child, cit, ckids := NextMember(h, live0, item.child, done, child, cit, ckids, t, next + 1);
      done := kids;
      kids := Append(done, One(child, cit, ckids));
      MembersStep(t, i, done, j, ok, next, child, cit, ckids);
    }
    Finished(h, live0, item, it, done, child, cit, ckids);
    MembersEnd(t, i, kids, ok, next);
    ok := ok && Peek(t, next) == '}';
    next := next + 1;
  }
}
