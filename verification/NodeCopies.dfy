/**
  References and copies (src/cJSON.c, lines 668-676 and 708-733): a reference shows the value and the
  children of another item without owning them, and a duplicate owns a copy of all that its original shows.
 */
module NodeCopies {
  import opened JsonValue
  import opened CMemory
  import opened Nodes
  import opened NodeLists
  import opened NodeViews

  // `create_reference`
  method CreateReference(h: Heap, item: Node, ghost it: Item) returns (ref: Node, ghost rit: Item)
    requires item.kind == it.kind && item.valueint == it.integer && item.valuedouble == it.number
    modifies h
    ensures fresh(ref) && ref !in old(h.live) && h.live == old(h.live) + {ref}
    ensures rit == Item(it.kind, true, it.integer, it.number, NoBlock, NoBlock) && Detached(ref, rit, Nil)
    ensures ref.child == item.child && ref.valuestring == item.valuestring
  {
    ref := h.NewItem();
    ref.kind, ref.valueint, ref.valuedouble := item.kind, item.valueint, item.valuedouble;
    ref.child, ref.valuestring := item.child, item.valuestring;
    ref.name := null;
    ref.isReference := true;
    ref.next, ref.prev := null, null;
    rit := Item(it.kind, true, it.integer, it.number, NoBlock, NoBlock);
  }

  // A reference shows the value and the children of its item, but not the name.
  lemma ReferenceShows(ref: Node, item: Node, it: Item, kids: Forest)
    requires ShowsNode(item, it, kids) && ref.child == item.child && ref.valuestring == item.valuestring
    requires ref.isReference && ref.name == null && ref.kind == item.kind
    requires ref.valueint == item.valueint && ref.valuedouble == item.valuedouble
    ensures ShowsNode(ref, it.(reference := true, name := NoBlock), kids)
  {
  }

  // `cJSON_AddItemReferenceToArray`
  method AddItemReferenceToArray(h: Heap, parent: Node, item: Node, ghost f: Forest, ghost it: Item)
    returns (ghost ref: Node, ghost rit: Item)
    requires Children(parent, f) && item.kind == it.kind && item.valueint == it.integer && item.valuedouble == it.number
    modifies h, parent`child, Tops(f)`next
    ensures fresh(ref) && ref !in old(h.live) && h.live == old(h.live) + {ref}
    ensures rit == Item(it.kind, true, it.integer, it.number, NoBlock, NoBlock)
    ensures ref.child == old(item.child) && ref.valuestring == old(item.valuestring)
    ensures Children(parent, Append(f, One(ref, rit, Nil)))
  {
    hide Chain, Distinct, Blocks, Append, Tops;
    HeapApart(h, f);
    InMemory(f);
    EmptyChain(null, null, null);
    var r;
    r, rit := CreateReference(h, item, it);
    AddItemToArray(parent, r, f, rit, Nil);
    ref := r;
  }

  // `cJSON_CreateArray`
  method CreateArray(h: Heap) returns (a: Node, ghost it: Item)
    modifies h
    ensures fresh(a) && a !in old(h.live) && h.live == old(h.live) + {a} && Detached(a, it, Nil) && a.child == null
    ensures it == Item(KArray, false, 0, 0.0, NoBlock, NoBlock)
  {
    a := h.NewItem();
    a.kind := KArray;
    it := Item(KArray, false, 0, 0.0, NoBlock, NoBlock);
  }

  // An array in no chain, apart from its children.
  ghost predicate Bare(a: Node)
    reads a
  {
    a.next == null && a.prev == null && a.kind == KArray && !a.isReference
    && a.valueint == 0 && a.valuedouble == 0.0
    && a.name == null && a.valuestring == null
  }

  // An array of references to any items, made and deleted again: every item keeps all that it owns.
  method ReferToAll(h: Heap, items: seq<Node>, ghost its: seq<Item>, ghost kids: seq<Forest>)
    requires |its| == |items| == |kids|
    requires forall i | 0 <= i < |items| :: Is(items[i], its[i], kids[i]) && Own(items[i], its[i], kids[i]) <= h.live
    modifies h
    ensures h.live == old(h.live)
    ensures forall i | 0 <= i < |items| :: Is(items[i], its[i], kids[i]) && Own(items[i], its[i], kids[i]) <= h.live
  {
    hide Is, Chain, Distinct, DistinctNode, Blocks, Append, Tops;
    forall i | 0 <= i < |items| ensures h !in Blocks(kids[i]) {
      HeapApart(h, kids[i]);
    }
    var a;
    ghost var it, f := Item(KArray, false, 0, 0.0, NoBlock, NoBlock), Nil;
    EmptyChain(null, null, null);
    a, it := CreateArray(h);
    Unnamed(a, it, Nil);
    for k := 0 to |items|
      invariant Bare(a) && Children(a, f) && fresh(Blocks(f)) && h.live == old(h.live) + {a} + Blocks(f)
      invariant Blocks(f) !! old(h.live)
      invariant forall i | 0 <= i < |items| :: Is(items[i], its[i], kids[i]) && Own(items[i], its[i], kids[i]) <= h.live
    {
      TopsOwned(f, null);
      ghost var ref;
      f, ref := Refer(h, a, items[k], f, its[k], kids[k]);
    }
    Whole(a, it, f);
    Delete(h, a, One(a, it, f), null);
  }

  method Refer(h: Heap, a: Node, item: Node, ghost f: Forest, ghost it: Item, ghost kids: Forest)
    returns (ghost now: Forest, ghost ref: Node)
    requires Children(a, f) && Is(item, it, kids)
    modifies h, a`child, Tops(f)`next
    ensures Children(a, now) && Blocks(now) == Blocks(f) + {ref}
    ensures fresh(ref) && ref !in old(h.live) && h.live == old(h.live) + {ref}
  {
    hide Is, Chain, Distinct, DistinctNode, Blocks, Append, Tops;
    HeapApart(h, f);
    InMemory(f);
    Kinds(item, it, kids);
    ghost var rit;
    ref, rit := AddItemReferenceToArray(h, a, item, f, it);
    AppendBlocks(f, One(ref, rit, Nil));
    ChainOne(ref, rit, Nil, null, null);
    EmptyChain(null, null, null);
    now := Append(f, One(ref, rit, Nil));
  }

  lemma Unnamed(a: Node, it: Item, kids: Forest)
    requires Is(a, it, kids) && it == Item(KArray, false, 0, 0.0, NoBlock, NoBlock)
    ensures a.kind == KArray && !a.isReference && a.valueint == 0 && a.valuedouble == 0.0
    ensures a.name == null && a.valuestring == null
    ensures Chain(kids, a.child, null, null)
  {
  }

  lemma Kinds(n: Node, it: Item, kids: Forest)
    requires Is(n, it, kids)
    ensures n.kind == it.kind && n.valueint == it.integer && n.valuedouble == it.number
  {
  }

  lemma Whole(a: Node, it: Item, f: Forest)
    requires Bare(a) && Children(a, f) && it == Item(KArray, false, 0, 0.0, NoBlock, NoBlock)
    ensures Chain(One(a, it, f), a, null, null) && Distinct(One(a, it, f))
    ensures Blocks(One(a, it, f)) == {a} + Blocks(f)
  {
    ChainOne(a, it, f, null, null);
  }

  // --- copies ---

  ghost predicate SameBlock(a: Block, b: Block) {
    a.Block? == b.Block? && (a.Block? ==> a.text == b.text)
  }

  // What a duplicate has in common with its original; it is never a reference.
  ghost predicate CopyOf(a: Item, b: Item) {
    && b.kind == a.kind && !b.reference && b.integer == a.integer && b.number == a.number
    && SameBlock(a.val, b.val) && SameBlock(a.name, b.name)
  }

  ghost predicate Copies(f: Forest, g: Forest) {
    if f.Nil? then g.Nil?
    else g.Cons? && CopyOf(f.item, g.item) && Copies(f.kids, g.kids) && Copies(f.rest, g.rest)
  }

  // A copy has the value of its original and holds no reference.
  lemma {:induction false} CopyValues(f: Forest, g: Forest)
    requires Copies(f, g)
    ensures ElemsOf(f) == ElemsOf(g) && MembersOf(f) == MembersOf(g) && Plain(g)
  {
    if f.Cons? {
      CopyValues(f.kids, g.kids);
      CopyValues(f.rest, g.rest);
    }
  }

  lemma {:induction false} CopiesAppend(f: Forest, g: Forest, f': Forest, g': Forest)
    requires Copies(f, g) && Copies(f', g')
    ensures Copies(Append(f, f'), Append(g, g'))
  {
    if f.Cons? {
      CopiesAppend(f.rest, g.rest, f', g');
    }
  }

  // A new item that owns nothing but what is new.
  ghost predicate New(live0: set<object>, h: Heap, n: Node, it: Item, kids: Forest)
    reads h, Own(n, it, kids)
  {
    Detached(n, it, kids) && !it.reference && Own(n, it, kids) !! live0 && h.live == live0 + Own(n, it, kids)
  }

  // Copies a string unless it is NULL.
  method CopyBlock(h: Heap, s: array?<char>, ghost b: Block) returns (copy: array?<char>, ghost nb: Block)
    requires Stored(s, b)
    modifies h
    ensures Stored(copy, nb) && SameBlock(b, nb)
    ensures fresh(BlockSet(nb)) && BlockSet(nb) !! old(h.live) && h.live == old(h.live) + BlockSet(nb)
  {
    copy, nb := null, NoBlock;
    if s != null {
      copy := h.StrDup(s, b.text);
      nb := Block(copy, b.text);
    }
  }

  // Both strings of an item.
  method CopyStrings(h: Heap, item: Node, ghost it: Item)
    returns (val: array?<char>, name: array?<char>, ghost valBlock: Block, ghost nameBlock: Block)
    requires Stored(item.valuestring, it.val) && Stored(item.name, it.name)
    modifies h
    ensures Stored(val, valBlock) && SameBlock(it.val, valBlock) && Stored(name, nameBlock)
      && SameBlock(it.name, nameBlock)
    ensures BlockSet(valBlock) !! BlockSet(nameBlock) && fresh(BlockSet(valBlock) + BlockSet(nameBlock))
    ensures BlockSet(valBlock) + BlockSet(nameBlock) !! old(h.live)
    ensures h.live == old(h.live) + BlockSet(valBlock) + BlockSet(nameBlock)
  {
    hide Holds, CString;
    val, valBlock := CopyBlock(h, item.valuestring, it.val);
    name, nameBlock := CopyBlock(h, item.name, it.name);
  }

  lemma NewLeaf(live0: set<object>, h: Heap, n: Node, it: Item)
    requires n.next == null && n.prev == null && n.child == null
    requires n.kind == it.kind && !n.isReference && !it.reference
    requires n.valueint == it.integer && n.valuedouble == it.number
    requires Stored(n.name, it.name) && Stored(n.valuestring, it.val)
    requires h.live == live0 + {n} + BlockSet(it.val) + BlockSet(it.name)
    requires {n} !! live0 && BlockSet(it.val) !! live0 + {n} && BlockSet(it.name) !! live0 + {n} + BlockSet(it.val)
    ensures New(live0, h, n, it, Nil) && Own(n, it, Nil) == {n} + BlockSet(it.val) + BlockSet(it.name)
  {
    EmptyChain(null, null, null);
    assert Is(n, it, Nil);
  }

  // The first half of `cJSON_Duplicate`: everything but the children.
  method CopyItem(h: Heap, item: Node, ghost it: Item, ghost kids: Forest) returns (newitem: Node, ghost nit: Item)
    requires ShowsNode(item, it, kids)
    modifies h
    ensures fresh(Own(newitem, nit, Nil)) && New(old(h.live), h, newitem, nit, Nil) && CopyOf(it, nit)
  {
    hide Shows, Chain, Is, New, Blocks, Distinct, DistinctNode, Own, Holds, CString;
    HeapApart(h, kids);
    InMemory(kids);
    ghost var val, name;
    newitem := h.NewItem();
    newitem.kind := item.kind;
    newitem.valueint := item.valueint;
    newitem.valuedouble := item.valuedouble;
    newitem.valuestring, newitem.name, val, name := CopyStrings(h, item, it);
    nit := Item(it.kind, false, it.integer, it.number, val, name);
    NewLeaf(old(h.live), h, newitem, nit);
  }

  // Links a copied child behind the last one, or below the new item if it is the first.
  method AttachChild(newitem: Node, nptr: Node?, newchild: Node, ghost nit: Item, ghost done: Forest, ghost cit: Item,
                     ghost ckids: Forest)
    requires Is(newitem, nit, done) && DistinctNode(newitem, nit, done) && !nit.reference && nptr == Last(done, null)
    requires Detached(newchild, cit, ckids) && Own(newchild, cit, ckids) !! Own(newitem, nit, done)
    modifies newitem`child, Tops(done)`next, newchild`prev
    ensures var now := Append(done, One(newchild, cit, ckids));
      && Is(newitem, nit, now) && DistinctNode(newitem, nit, now) && newchild == Last(now, null)
      && Own(newitem, nit, now) == Own(newitem, nit, done) + Own(newchild, cit, ckids)
  {
    hide Chain, Distinct, Blocks, Append, Last, Tops, Stored;
    InMemory(ckids);
    ChainOne(newchild, cit, ckids, null, null);
    LastAppend(done, One(newchild, cit, ckids), null);
    TopsOwned(done, null);
    ChainHead(done, newitem.child, null, null);
    LastOne(newchild, cit, ckids, nptr);
    if nptr != null {
      SetNext(nptr, newchild, done, newitem.child, null);
      newchild.prev := nptr;
    } else {
      newitem.child := newchild;
      EmptyChain(newchild, null, newchild);
    }
    ChainOne(newchild, cit, ckids, nptr, null);
    Joined(done, One(newchild, cit, ckids), newitem.child, null, null);
  }

  // `cJSON_Duplicate`
  method Duplicate(h: Heap, item: Node?, recurse: bool, ghost it: Item, ghost kids: Forest)
    returns (newitem: Node?, ghost nit: Item, ghost nkids: Forest)
    requires item != null ==> ShowsNode(item, it, kids)
    modifies h
    ensures newitem == null <==> item == null
    ensures item == null ==> h.live == old(h.live)
    ensures item != null ==>
      && fresh(Own(newitem, nit, nkids)) && New(old(h.live), h, newitem, nit, nkids) && CopyOf(it, nit)
      && if recurse then Copies(kids, nkids) else nkids == Nil
    decreases kids, 1
  {
    hide Shows, New, Is, DistinctNode, Blocks, CopyOf, Copies;
    nit, nkids := it, Nil;
    if item == null {
      return null, nit, nkids;
    }
    InMemory(kids);
    HeapApart(h, kids);
    ghost var live0 := h.live;
    newitem, nit := CopyItem(h, item, it, kids);
    if recurse {
      nkids := CopyChildren(h, item.child, newitem, live0, nit, kids);
    }
  }

  // Its loop over the children of the original.
  method CopyChildren(h: Heap, head: Node?, newitem: Node, ghost live0: set<object>, ghost nit: Item,
                      ghost kids: Forest)
    returns (ghost nkids: Forest)
    requires Shows(kids, head) && New(live0, h, newitem, nit, Nil)
    requires Own(newitem, nit, Nil) !! Blocks(kids)
    modifies h, newitem`child
    ensures New(live0, h, newitem, nit, nkids) && fresh(Blocks(nkids)) && Copies(kids, nkids)
    decreases kids, 0
  {
    hide Shows, New, Is, DistinctNode, Blocks, CopyOf, Copies, Append;
    nkids := Nil;
    var cptr, nptr := head, null;
    ghost var pre, left := Nil, kids;
    Begin(kids);
    ShowsEnd(left, cptr);
    while cptr != null
      invariant Shows(left, cptr) && (cptr == null ==> left.Nil?) && Append(pre, left) == kids && Copies(pre, nkids)
      invariant New(live0, h, newitem, nit, nkids) && fresh(Blocks(nkids)) && nptr == Last(nkids, null)
      invariant Own(newitem, nit, nkids) !! Blocks(kids) && Blocks(left) <= Blocks(kids)
      invariant left == kids || left < kids
      decreases left
    {
      ShowsCons(left, cptr);
      HeapApart(h, kids);
      InMemory(kids);
      TopsOwned(nkids, null);
      ghost var n, cit, ckids, rest := cptr, left.item, left.kids, left.rest;
      ghost var dit, dkids;
      nptr, dit, dkids := CopyChild(h, cptr, newitem, nptr, live0, nit, nkids, cit, ckids);
      CopiesOne(pre, nkids, n, cit, ckids, nptr, dit, dkids, rest);
      nkids := Append(nkids, One(nptr, dit, dkids));
      pre, left := Append(pre, One(n, cit, ckids)), rest;
      cptr := cptr.next;
      ShowsEnd(left, cptr);
    }
    AppendNothing(pre);
  }

  method CopyChild(h: Heap, cptr: Node, newitem: Node, nptr: Node?, ghost live0: set<object>, ghost nit: Item,
                   ghost nkids: Forest, ghost cit: Item, ghost ckids: Forest)
    returns (newchild: Node, ghost dit: Item, ghost dkids: Forest)
    requires ShowsNode(cptr, cit, ckids) && New(live0, h, newitem, nit, nkids) && nptr == Last(nkids, null)
    modifies h, newitem`child, Tops(nkids)`next
    ensures var now := Append(nkids, One(newchild, dit, dkids));
      && New(live0, h, newitem, nit, now) && newchild == Last(now, null)
      && Own(newitem, nit, now) == Own(newitem, nit, nkids) + Own(newchild, dit, dkids)
      && Blocks(now) == Blocks(nkids) + Own(newchild, dit, dkids)
    ensures fresh(Own(newchild, dit, dkids)) && CopyOf(cit, dit) && Copies(ckids, dkids)
    decreases ckids, 2
  {
    hide Shows, Chain, Distinct, Blocks, CopyOf, Copies, Append, Last, Is, DistinctNode;
    InMemory(nkids);
    HeapApart(h, nkids);
    TopsOwned(nkids, null);
    NotBelow(newitem, nit, nkids);
    newchild, dit, dkids := Duplicate(h, cptr, true, cit, ckids);
    assert Is(newitem, nit, nkids);
    AttachChild(newitem, nptr, newchild, nit, nkids, dit, dkids);
    AppendBlocks(nkids, One(newchild, dit, dkids));
    ChainOne(newchild, dit, dkids, null, null);
  }

  lemma NotBelow(n: Node, it: Item, kids: Forest)
    requires DistinctNode(n, it, kids)
    ensures n !in Blocks(kids)
  {
  }

  lemma Begin(kids: Forest)
    ensures Append(Nil, kids) == kids && Copies(Nil, Nil) && Last(Nil, null) == null && Blocks(Nil) == {}
  {
  }

  lemma {:induction false} AppendNothing(f: Forest)
    ensures Append(f, Nil) == f
  {
    if f.Cons? {
      AppendNothing(f.rest);
    }
  }

  lemma CopiesOne(pre: Forest, done: Forest, n: Node, it: Item, kids: Forest, n': Node, it': Item, kids': Forest,
                  rest: Forest)
    requires Copies(pre, done) && CopyOf(it, it') && Copies(kids, kids')
    ensures Copies(Append(pre, One(n, it, kids)), Append(done, One(n', it', kids')))
    ensures Append(Append(pre, One(n, it, kids)), rest) == Append(pre, Cons(n, it, kids, rest))
  {
    assert Copies(Nil, Nil);
    CopiesAppend(pre, done, One(n, it, kids), One(n', it', kids'));
    AppendAssoc(pre, One(n, it, kids), rest);
    assert Append(One(n, it, kids), rest) == Cons(n, it, kids, Append(Nil, rest));
  }

  // --- either can be deleted ---

  lemma CopyValue(it: Item, kids: Forest, nit: Item, nkids: Forest)
    requires CopyOf(it, nit) && Copies(kids, nkids)
    ensures ValueOf(nit, nkids) == ValueOf(it, kids)
  {
    CopyValues(kids, nkids);
  }

  // Duplicating an item and deleting the item, which may own references, leaves a copy with the value that the item
  // showed. What the item owns is described by it and kids, what it shows by shown and below.
  method DuplicateAndDelete(h: Heap, item: Node, ghost it: Item, ghost kids: Forest, ghost shown: Item,
                            ghost below: Forest)
    returns (copy: Node, ghost nit: Item, ghost nkids: Forest)
    requires Detached(item, it, kids) && Own(item, it, kids) <= h.live && ShowsNode(item, shown, below)
    modifies h, Own(item, it, kids)
    ensures New(old(h.live) - Own(item, it, kids), h, copy, nit, nkids)
    ensures ValueOf(nit, nkids) == ValueOf(shown, below) && Plain(nkids)
  {
    hide Is, Chain, Distinct, DistinctNode, Blocks, Plain, ShowsNode, CopyOf, Copies, ValueOf;
    HeapApart(h, kids);
    copy, nit, nkids := Duplicate(h, item, true, shown, below);
    CopyValue(shown, below, nit, nkids);
    CopyValues(below, nkids);
    InMemory(nkids);
    ChainOne(item, it, kids, null, null);
    Delete(h, item, One(item, it, kids), null);
  }

  // Duplicating an item and deleting the copy leaves everything as it was.
  method DuplicateAndDiscard(h: Heap, item: Node, recurse: bool, ghost it: Item, ghost kids: Forest)
    requires ShowsNode(item, it, kids)
    modifies h
    ensures h.live == old(h.live) && ShowsNode(item, it, kids)
  {
    hide Is, Chain, Distinct, DistinctNode, Blocks, Shows, CopyOf, Copies;
    HeapApart(h, kids);
    InMemory(kids);
    var copy;
    ghost var nit, nkids;
    copy, nit, nkids := Duplicate(h, item, recurse, it, kids);
    ChainOne(copy, nit, nkids, null, null);
    Delete(h, copy, One(copy, nit, nkids), null);
  }
}
