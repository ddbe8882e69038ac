/**
  Finding, detaching and adding members of an object by name (src/cJSON.c, lines 39-44 and 663-689).
 */
module NodeMembers {
  import opened JsonValue
  import opened CMemory
  import opened Nodes
  import opened NodeLists
  import opened Parsing

  // --- names ---

  // `tolower` in the C locale.
  function ToLower(c: char): char {
    if 'A' <= c <= 'Z' then (c as int + 32) as char else c
  }

  // The same char, or an ASCII letter in the other case.
  predicate SameChar(c: char, d: char) {
    || c == d
    || ('A' <= c <= 'Z' && d as int == c as int + 32)
    || ('A' <= d <= 'Z' && c as int == d as int + 32)
  }

  lemma LowerSame(c: char, d: char)
    ensures ToLower(c) == ToLower(d) <==> SameChar(c, d)
    ensures SameChar(c, ToLower(c)) && !('A' <= ToLower(c) <= 'Z')
  {
  }

  // Equal up to the case of ASCII letters.
  ghost predicate SameText(s: string, t: string) {
    |s| == |t| && forall i :: 0 <= i < |s| ==> SameChar(s[i], t[i])
  }

  // A name that is NULL is equal to NULL only.
  ghost predicate SameName(a: Block, b: Block) {
    if a.NoBlock? || b.NoBlock? then a == b else SameText(a.text, b.text)
  }

  // At i the texts differ for the first time, and order is the difference of the chars there in lower case.
  ghost predicate Differ(s: string, t: string, i: nat, order: int) {
    && i <= |s| && i <= |t| && (forall j :: 0 <= j < i ==> SameChar(s[j], t[j])) && !SameChar(Peek(s, i), Peek(t, i))
    && order == ToLower(Peek(s, i)) as int - ToLower(Peek(t, i)) as int
  }

  // `cJSON_strcasecmp`
  method StrCaseCmp(s1: array?<char>, s2: array?<char>, ghost b1: Block, ghost b2: Block) returns (order: int)
    requires Stored(s1, b1) && Stored(s2, b2)
    ensures order == 0 <==> SameName(b1, b2)
    ensures b1.Block? && b2.Block? && order != 0 ==> exists i :: Differ(b1.text, b2.text, i, order)
    ensures b1.Block? != b2.Block? ==> order == 1
  {
    if s1 == null {
      return if s2 == null then 0 else 1;
    }
    if s2 == null {
      return 1;
    }
    ghost var t1, t2 := b1.text, b2.text;
    CharsOf(s1, t1);
    CharsOf(s2, t2);
    var i := 0;
    while ToLower(s1[i]) == ToLower(s2[i])
      invariant i <= |t1| && i <= |t2|
      invariant forall j :: 0 <= j < i ==> SameChar(t1[j], t2[j])
      decreases |t1| - i
    {
      LowerSame(s1[i], s2[i]);
      if s1[i] == '\0' {
        return 0;
      }
      i := i + 1;
    }
    LowerSame(s1[i], s2[i]);
    order := ToLower(s1[i]) as int - ToLower(s2[i]) as int;
    assert Differ(t1, t2, i, order);
  }

  // --- finding ---

  // The position of the first member with a name; the number of members if there is none.
  ghost function NameAt(f: Forest, name: Block): nat {
    if f.Nil? || SameName(f.item.name, name) then 0 else 1 + NameAt(f.rest, name)
  }

  lemma {:induction false} FirstWithName(f: Forest, name: Block)
    ensures NameAt(f, name) <= Size(f)
    ensures NameAt(f, name) < Size(f) ==>
      Drop(f, NameAt(f, name)).Cons? && SameName(Drop(f, NameAt(f, name)).item.name, name)
    ensures forall k | 0 <= k < NameAt(f, name) :: Drop(f, k).Cons? && !SameName(Drop(f, k).item.name, name)
  {
    if f.Cons? && !SameName(f.item.name, name) {
      FirstWithName(f.rest, name);
      forall k | 0 <= k < NameAt(f, name)
        ensures Drop(f, k).Cons? && !SameName(Drop(f, k).item.name, name)
      {
        if k > 0 {
          assert Drop(f, k) == Drop(f.rest, k - 1);
        }
      }
    }
  }

  // The search by name: the first member that has it, and its position.
  method Find(object_: Node, key: array?<char>, ghost f: Forest, ghost name: Block) returns (i: nat, c: Node?)
    requires Children(object_, f) && Stored(key, name)
    ensures i == NameAt(f, name) && c == Head(Drop(f, i), null)
  {
    hide Chain, Distinct, Is, SameName, NameAt, Drop;
    i, c := 0, object_.child;
    ghost var left, prev := f, null;
    Starts(f);
    ChainHead(f, c, null, null);
    while c != null
      invariant Chain(left, c, prev, null) && left == Drop(f, i) && c == Head(left, null)
      invariant NameAt(f, name) == i + NameAt(left, name) && Stored(key, name)
      decreases left
    {
      ChainCons(left, c, prev, null);
      Named(c, left.item, left.kids);
      InMemory(left);
      InMemory(left.rest);
      var order := StrCaseCmp(c.name, key, left.item.name, name);
      if order == 0 {
        NameStep(left, name);
        return;
      }
      DropNext(f, i);
      NameStep(left, name);
      left, prev := left.rest, c;
      i, c := i + 1, c.next;
    }
    NameStep(left, name);
  }

  lemma NameStep(f: Forest, name: Block)
    ensures NameAt(f, name) == if f.Nil? || SameName(f.item.name, name) then 0 else 1 + NameAt(f.rest, name)
  {
  }

  lemma {:induction false} DropNext(f: Forest, k: nat)
    requires Drop(f, k).Cons?
    ensures Drop(f, k + 1) == Drop(f, k).rest
  {
    if k > 0 {
      DropNext(f.rest, k - 1);
    }
  }

  lemma Named(n: Node, it: Item, kids: Forest)
    requires Is(n, it, kids)
    ensures Stored(n.name, it.name)
  {
  }

  // `cJSON_GetObjectItem`
  method GetObjectItem(object_: Node, key: array?<char>, ghost f: Forest, ghost name: Block) returns (c: Node?)
    requires Children(object_, f) && Stored(key, name)
    ensures c == Head(Drop(f, NameAt(f, name)), null)
  {
    var i;
    i, c := Find(object_, key, f, name);
  }

  // `cJSON_DetachItemFromObject`: what it detaches is what `cJSON_GetObjectItem` returns.
  method DetachItemFromObject(object_: Node, key: array?<char>, ghost f: Forest, ghost name: Block) returns (c: Node?)
    requires Children(object_, f) && Stored(key, name)
    modifies object_`child, Tops(f)`next, Tops(f)`prev
    ensures Children(object_, Removed(f, NameAt(f, name)))
    ensures c == Head(Drop(f, NameAt(f, name)), null)
    ensures c != null ==> var e := Drop(f, NameAt(f, name));
      Detached(c, e.item, e.kids) && Own(c, e.item, e.kids) !! Blocks(Removed(f, NameAt(f, name))) + {object_}
  {
    hide Chain, Distinct, Is, NameAt, Detached, Blocks, Own, Append, Take, Drop;
    InMemory(f);
    var i;
    i, c := Find(object_, key, f, name);
    if c != null {
      c := DetachItemFromArray(object_, i, f);
    } else {
      AtEnd(f, i);
    }
  }

  // Frees the name of the item and gives it a copy of the key.
  method Rename(h: Heap, key: array<char>, item: Node, ghost it: Item, ghost kids: Forest, ghost text: string)
    returns (ghost it': Item)
    requires CString(text) && Holds(key, 0, text) && Detached(item, it, kids)
    requires BlockSet(it.name) <= h.live && key !in BlockSet(it.name)
    modifies h, BlockSet(it.name), item`name
    ensures it'.name.Block? && it'.name.text == text && fresh(it'.name.a) && it' == it.(name := it'.name)
    ensures Detached(item, it', kids) && h.live == old(h.live) - BlockSet(it.name) + {it'.name.a}
  {
    hide Chain, Distinct, Blocks;
    InMemory(kids);
    HeapApart(h, kids);
    if item.name != null {
      h.FreeBlock(item.name);
    }
    item.name := h.StrDup(key, text);
    it' := it.(name := Block(item.name, text));
  }

  // `cJSON_AddItemToObject`: the name is copied, and the old name of the item is freed first, so that it
  // must not be the name that is passed.
  method AddItemToObject(h: Heap, object_: Node, key: array<char>, item: Node, ghost f: Forest, ghost it: Item,
                         ghost kids: Forest, ghost text: string)
    returns (ghost it': Item)
    requires Children(object_, f) && CString(text) && Holds(key, 0, text)
    requires Detached(item, it, kids) && Own(item, it, kids) !! Blocks(f) + {object_}
    requires BlockSet(it.name) <= h.live && key !in BlockSet(it.name)
    modifies h, BlockSet(it.name), item`name, object_`child, Tops(f)`next, item`prev
    ensures it'.name.Block? && it'.name.text == text && fresh(it'.name.a) && it' == it.(name := it'.name)
    ensures Children(object_, Append(f, One(item, it', kids)))
    ensures h.live == old(h.live) - BlockSet(it.name) + {it'.name.a}
  {
    hide Chain, Distinct, DistinctNode, Is, Detached, Blocks, Append, Tops;
    InMemory(f);
    HeapApart(h, f);
    it' := Rename(h, key, item, it, kids, text);
    AddItemToArray(object_, item, f, it', kids);
  }

  // Gives the item a copy of the key for its name.
  method SetName(h: Heap, key: array<char>, item: Node, ghost it: Item, ghost kids: Forest, ghost text: string)
    returns (ghost it': Item)
    requires CString(text) && Holds(key, 0, text) && Detached(item, it, kids)
    modifies h, item`name
    ensures it'.name.Block? && it'.name.text == text && fresh(it'.name.a) && it' == it.(name := it'.name)
    ensures Detached(item, it', kids) && h.live == old(h.live) + {it'.name.a}
  {
    hide Chain, Distinct, Blocks;
    InMemory(kids);
    HeapApart(h, kids);
    item.name := h.StrDup(key, text);
    it' := it.(name := Block(item.name, text));
  }

  // `cJSON_ReplaceItemInObject`: the new item gets a copy of the name and takes the place of the first member with
  // it. A name that the new item had before is neither freed nor owned by anything any more.
  method ReplaceItemInObject(h: Heap, object_: Node, key: array<char>, newitem: Node, ghost f: Forest, ghost it: Item,
                             ghost kids: Forest, ghost text: string)
    returns (ghost it': Item)
    requires Children(object_, f) && Blocks(f) <= h.live && CString(text) && Holds(key, 0, text)
    requires Detached(newitem, it, kids) && Own(newitem, it, kids) !! Blocks(f) + {object_}
    requires Own(newitem, it, kids) <= h.live
    modifies h, OwnedAt(f, NameAt(f, Block(key, text))), object_`child, Tops(f)`next, Tops(f)`prev
    modifies newitem`name, newitem`next, newitem`prev
    ensures var k := NameAt(f, Block(key, text));
      && (Drop(f, k).Nil? ==> it' == it && Detached(newitem, it, kids) && Children(object_, f) && h.live == old(h.live))
      && (Drop(f, k).Cons? ==>
            && it'.name.Block? && it'.name.text == text && fresh(it'.name.a) && it' == it.(name := it'.name)
            && Children(object_, Replaced(f, k, newitem, it', kids))
            && h.live == old(h.live) - OwnedAt(f, k) + {it'.name.a}
            && BlockSet(it.name) <= h.live && BlockSet(it.name) !! Blocks(Replaced(f, k, newitem, it', kids)))
  {
    hide Chain, Distinct, Is, NameAt, Blocks, Append, Take, Drop, Tops, Holds;
    InMemory(f);
    InMemory(kids);
    HeapApart(h, f);
    HeapApart(h, kids);
    it' := it;
    ghost var name := Block(key, text);
    var i, c := Find(object_, key, f, name);
    if c != null {
      it' := SetName(h, key, newitem, it, kids, text);
      RemovedBlocks(f, i);
      ReplacedBlocks(f, i, newitem, it', kids);
      ReplaceItemInArray(h, object_, i, newitem, f, it', kids);
    } else {
      AtEnd(f, i);
    }
  }
}
