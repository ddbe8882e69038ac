/**
  The list operations of src/cJSON.c (lines 661-689): a container's children are a doubly linked chain,
  and adding, inserting, detaching and replacing act on it as on a sequence.
 */
module NodeLists {
  import opened Nodes

  // --- positions in a chain ---

  ghost function Take(f: Forest, k: nat): Forest {
    if f.Nil? || k == 0 then Nil else Cons(f.n, f.item, f.kids, Take(f.rest, k - 1))
  }

  ghost function Drop(f: Forest, k: nat): Forest {
    if f.Nil? || k == 0 then f else Drop(f.rest, k - 1)
  }

  // The nodes of a chain, without those below them.
  ghost function Tops(f: Forest): set<Node> {
    if f.Nil? then {} else {f.n} + Tops(f.rest)
  }

  // `which` as the loops count it: a negative index is the first.
  function At(which: int): nat {
    if which > 0 then which else 0
  }

  lemma {:induction false} TakeDrop(f: Forest, k: nat)
    ensures Append(Take(f, k), Drop(f, k)) == f
    ensures Drop(f, k).Cons? <==> k < Size(f)
    ensures Drop(f, k).Cons? ==> Drop(f, k).rest == Drop(f, k + 1)
    ensures Size(Take(f, k)) == if k < Size(f) then k else Size(f)
    ensures k >= Size(f) ==> Take(f, k) == f
    decreases f
  {
    if f.Cons? && k > 0 {
      TakeDrop(f.rest, k - 1);
    }
  }

  lemma {:induction false} TopsAppend(f: Forest, g: Forest)
    ensures Tops(Append(f, g)) == Tops(f) + Tops(g)
  {
    if f.Cons? {
      TopsAppend(f.rest, g);
    }
  }

  lemma {:induction false} TopsOwned(f: Forest, prev: Node?)
    ensures forall n <- Tops(f) :: n in Blocks(f)
    ensures f.Cons? ==> f.n in Tops(f) && Last(f, prev) != null && Last(f, prev) in Tops(f)
    ensures f.Nil? ==> Last(f, prev) == prev
    decreases f
  {
    if f.Cons? {
      TopsOwned(f.rest, f.n);
    }
  }

  // --- changing one link ---

  method SetPrev(c: Node, q: Node?, ghost f: Forest, ghost prev: Node?, ghost end: Node?)
    requires f.Cons? && f.n == c && Chain(f, c, prev, end) && Distinct(f)
    modifies c`prev
    ensures c.prev == q && Chain(f, c, q, end)
  {
    c.prev := q;
  }

  lemma {:induction false} SplitLast(f: Forest, prev: Node?) returns (g: Forest, n: Node, it: Item, kids: Forest)
    requires f.Cons?
    ensures f == Append(g, One(n, it, kids)) && Last(f, prev) == n
    decreases f
  {
    if f.rest.Nil? {
      g, n, it, kids := Nil, f.n, f.item, f.kids;
    } else {
      g, n, it, kids := SplitLast(f.rest, f.n);
      g := Cons(f.n, f.item, f.kids, g);
    }
  }

  method SetNext(p: Node, x: Node?, ghost f: Forest, ghost head: Node?, ghost end: Node?)
    requires f.Cons? && Chain(f, head, null, end) && Distinct(f) && p == Last(f, null)
    modifies p`next
    ensures p.next == x && Chain(f, head, null, x)
  {
    hide Chain, Distinct, DistinctNode, Blocks, Append, Last, Is;
    ghost var g, n, it, kids := SplitLast(f, null);
    LastApart(g, n, it, kids);
    AppendChain(g, One(n, it, kids), head, null, end);
    ChainOne(n, it, kids, Last(g, null), end);
    p.next := x;
    ChainOne(n, it, kids, Last(g, null), x);
    AppendChain(g, One(n, it, kids), head, null, x);
  }

  lemma LastApart(g: Forest, n: Node, it: Item, kids: Forest)
    requires Distinct(Append(g, One(n, it, kids)))
    ensures n !in Blocks(g) && n !in Blocks(kids)
  {
    AppendBlocks(g, One(n, it, kids));
    ChainOne(n, it, kids, null, null);
  }

  // --- walking ---

  // The walk to an index that the operations begin with: the chain is split where it stops.
  method Walk(parent: Node, which: int, ghost f: Forest) returns (c: Node?)
    requires Chain(f, parent.child, null, null)
    ensures c == Head(Drop(f, At(which)), null)
    ensures Chain(Take(f, At(which)), parent.child, null, c)
    ensures Chain(Drop(f, At(which)), c, Last(Take(f, At(which)), null), null)
  {
    hide Chain, Append, Size;
    c := parent.child;
    var left := which;
    ghost var k := 0;
    Starts(f);
    ChainHead(f, c, null, null);
    while c != null && left > 0
      invariant Chain(f, parent.child, null, null)
      invariant c == Head(Drop(f, k), null) && At(which) == k + At(left)
      invariant Chain(Drop(f, k), c, Last(Take(f, k), null), null)
      decreases left
    {
      Moves(f, k, null, c);
      c := c.next;
      left := left - 1;
      k := k + 1;
    }
    if c == null {
      NoMore(f, k);
      Stays(f, k, At(which));
    }
    TakeDrop(f, At(which));
    AppendChain(Take(f, At(which)), Drop(f, At(which)), parent.child, null, null);
  }

  lemma ChainHead(f: Forest, head: Node?, prev: Node?, end: Node?)
    requires Chain(f, head, prev, end)
    ensures head == Head(f, end)
  {
  }

  lemma NoMore(f: Forest, k: nat)
    requires Head(Drop(f, k), null) == null
    ensures Drop(f, k).Nil?
  {
  }

  lemma Starts(f: Forest)
    ensures Drop(f, 0) == f && Take(f, 0) == Nil
  {
  }

  lemma {:induction false} Moves(f: Forest, k: nat, prev: Node?, c: Node)
    requires Chain(Drop(f, k), c, Last(Take(f, k), prev), null)
    ensures Drop(f, k).Cons? && Drop(f, k).n == c && Drop(f, k + 1) == Drop(f, k).rest
    ensures Last(Take(f, k + 1), prev) == c && c.next == Head(Drop(f, k + 1), null)
    ensures Chain(Drop(f, k + 1), c.next, c, null)
    decreases f
  {
    if k == 0 {
      Starts(f);
      Starts(f.rest);
    } else if f.Cons? {
      Moves(f.rest, k - 1, f.n, c);
    }
  }

  lemma {:induction false} Stays(f: Forest, k: nat, m: nat)
    requires Drop(f, k).Nil? && k <= m
    ensures Take(f, m) == Take(f, k) == f && Drop(f, m).Nil?
    decreases f
  {
    if f.Cons? {
      Stays(f.rest, k - 1, m - 1);
    }
  }

  // --- the operations ---

  // f is the chain of the children of parent.
  ghost predicate Children(parent: Node, f: Forest)
    reads parent`child, Blocks(f)
  {
    Chain(f, parent.child, null, null) && Distinct(f) && parent !in Blocks(f)
  }

  // An item that is in no chain.
  ghost predicate Detached(n: Node, it: Item, kids: Forest)
    reads Own(n, it, kids)
  {
    n.next == null && n.prev == null && Is(n, it, kids) && DistinctNode(n, it, kids)
  }

  ghost function Optional(n: Node?): set<Node> {
    if n == null then {} else {n}
  }

  // Two parts of a chain, and what can be told apart in them.
  lemma Cut(f: Forest, k: nat)
    requires Distinct(f)
    ensures var done, left := Take(f, k), Drop(f, k);
      && f == Append(done, left) && Distinct(done) && Distinct(left)
      && Blocks(done) !! Blocks(left) && Blocks(f) == Blocks(done) + Blocks(left) && Tops(f) == Tops(done) + Tops(left)
  {
    TakeDrop(f, k);
    AppendBlocks(Take(f, k), Drop(f, k));
    TopsAppend(Take(f, k), Drop(f, k));
  }

  lemma Joined(f: Forest, g: Forest, head: Node?, prev: Node?, end: Node?)
    requires Chain(f, head, prev, Head(g, end)) && Chain(g, Head(g, end), Last(f, prev), end)
    requires Distinct(f) && Distinct(g) && Blocks(f) !! Blocks(g)
    ensures Chain(Append(f, g), head, prev, end) && Distinct(Append(f, g))
    ensures Blocks(Append(f, g)) == Blocks(f) + Blocks(g)
  {
    AppendChain(f, g, head, prev, end);
    AppendBlocks(f, g);
  }

  // `cJSON_AddItemToArray`
  method AddItemToArray(parent: Node, item: Node?, ghost f: Forest, ghost it: Item, ghost kids: Forest)
    requires Children(parent, f)
    requires item != null ==> Detached(item, it, kids) && Own(item, it, kids) !! Blocks(f) + {parent}
    modifies parent`child, Tops(f)`next, Optional(item)`prev
    ensures Children(parent, if item == null then f else Append(f, One(item, it, kids)))
  {
    hide Chain, Distinct, Blocks, Append, Last, Is, Tops;
    var c := parent.child;
    if item == null {
      return;
    }
    ChainHead(f, c, null, null);
    ChainOne(item, it, kids, null, null);
    if c == null {
      parent.child := item;
      ChainOne(item, it, kids, null, null);
      NoChildren(item, it, kids);
    } else {
      InMemory(f);
      InMemory(kids);
      c := LastChild(c, f);
      TopsOwned(f, null);
      SetNext(c, item, f, parent.child, null);
      item.prev := c;
      ChainOne(item, it, kids, c, null);
      Joined(f, One(item, it, kids), parent.child, null, null);
    }
  }

  lemma NoChildren(item: Node, it: Item, kids: Forest)
    ensures Append(Nil, One(item, it, kids)) == One(item, it, kids) && Blocks(Nil) == {}
  {
  }

  // Walks to the last child.
  method LastChild(head: Node, ghost f: Forest) returns (c: Node)
    requires Chain(f, head, null, null)
    ensures f.Cons? && c == Last(f, null)
  {
    hide Chain;
    c := head;
    ghost var left, prev := f, null;
    while c.next != null
      invariant Chain(left, c, prev, null) && Last(left, prev) == Last(f, null)
      decreases left
    {
      ChainCons(left, c, prev, null);
      ChainHead(left.rest, c.next, c, null);
      left, prev := left.rest, c;
      c := c.next;
    }
    ChainCons(left, c, prev, null);
    ChainHead(left.rest, c.next, c, null);
  }

  lemma ChainCons(f: Forest, c: Node, prev: Node?, end: Node?)
    requires Chain(f, c, prev, end) && end == null
    ensures f.Cons? && f.n == c && c.prev == prev && Is(c, f.item, f.kids) && Chain(f.rest, c.next, c, end)
    ensures Chain(f.rest, c.next, c, end) && c.next == Head(f.rest, end)
  {
  }

  lemma EmptyChain(head: Node?, prev: Node?, end: Node?)
    ensures Chain(Nil, head, prev, end) <==> head == end
    ensures Blocks(Nil) == {} && Distinct(Nil) && Tops(Nil) == {}
  {
  }

  // f with an item put before its k-th.
  ghost function Inserted(f: Forest, k: nat, n: Node, it: Item, kids: Forest): Forest {
    Append(Take(f, k), Cons(n, it, kids, Drop(f, k)))
  }

  ghost function Removed(f: Forest, k: nat): Forest {
    Append(Take(f, k), Drop(f, k + 1))
  }

  ghost function Replaced(f: Forest, k: nat, n: Node, it: Item, kids: Forest): Forest {
    if Drop(f, k).Nil? then f else Append(Take(f, k), Cons(n, it, kids, Drop(f, k + 1)))
  }

  lemma AtEnd(f: Forest, k: nat)
    requires Head(Drop(f, k), null) == null
    ensures Drop(f, k).Nil? && Take(f, k) == f && Removed(f, k) == f
  {
    Stays(f, k, k);
    Stays(f, k, k + 1);
    TakeDrop(f, k);
  }

  lemma InsertedAtEnd(f: Forest, k: nat, n: Node, it: Item, kids: Forest)
    requires Head(Drop(f, k), null) == null
    ensures Inserted(f, k, n, it, kids) == Append(f, One(n, it, kids))
  {
    AtEnd(f, k);
  }

  // A new first node, linked to the chain that follows it.
  lemma Pushed(n: Node, it: Item, kids: Forest, f: Forest, prev: Node?, end: Node?)
    requires Chain(f, n.next, n, end) && n.prev == prev && Is(n, it, kids)
    requires Distinct(f) && DistinctNode(n, it, kids) && Own(n, it, kids) !! Blocks(f)
    ensures Chain(Cons(n, it, kids, f), n, prev, end) && Distinct(Cons(n, it, kids, f))
    ensures Blocks(Cons(n, it, kids, f)) == Own(n, it, kids) + Blocks(f)
  {
  }

  // `cJSON_InsertItemInArray`
  method InsertItemInArray(parent: Node, which: int, newitem: Node, ghost f: Forest, ghost it: Item, ghost kids: Forest)
    requires Children(parent, f)
    requires Detached(newitem, it, kids) && Own(newitem, it, kids) !! Blocks(f) + {parent}
    modifies parent`child, Tops(f)`next, Tops(f)`prev, newitem`next, newitem`prev
    ensures Children(parent, Inserted(f, At(which), newitem, it, kids))
  {
    hide Chain, Distinct, Blocks, Append, Last, Is, Tops, Take, Drop;
    InMemory(f);
    InMemory(kids);
    ghost var k := At(which);
    Cut(f, k);
    var c := Walk(parent, which, f);
    if c == null {
      InsertedAtEnd(f, k, newitem, it, kids);
      AddItemToArray(parent, newitem, f, it, kids);
    } else {
      ChainCons(Drop(f, k), c, Last(Take(f, k), null), null);
      LinkBefore(parent, c, newitem, Take(f, k), Drop(f, k), it, kids);
    }
  }

  // The chain of the children of parent in two parts, the second beginning with c.
  ghost predicate Parts(parent: Node, done: Forest, c: Node, left: Forest)
    reads parent`child, Blocks(done), Blocks(left)
  {
    && Chain(done, parent.child, null, c) && Chain(left, c, Last(done, null), null)
    && Distinct(done) && Distinct(left) && Blocks(done) !! Blocks(left)
    && parent !in Blocks(done) && parent !in Blocks(left)
  }

  lemma PartsApart(parent: Node, done: Forest, c: Node, left: Forest)
    requires Parts(parent, done, c, left)
    ensures left.Cons? && left.n == c && c.prev == Last(done, null) && c.next == Head(left.rest, null)
    ensures parent.child == Head(done, c)
    ensures done.Cons? ==> c.prev != null && c.prev in Blocks(done) && c.prev in Tops(done)
    ensures done.Nil? ==> c.prev == null
    ensures c in Blocks(left) && c in Tops(left) && (parent.child == c <==> done.Nil?)
  {
    ChainCons(left, c, Last(done, null), null);
    TopsOwned(done, null);
    TopsOwned(left, null);
  }

  // Links the new item between c and what stands before c.
  method LinkBefore(parent: Node, c: Node, newitem: Node, ghost done: Forest, ghost left: Forest, ghost it: Item,
                    ghost kids: Forest)
    requires Parts(parent, done, c, left)
    requires Detached(newitem, it, kids) && Own(newitem, it, kids) !! Blocks(done) + Blocks(left) + {parent}
    modifies parent`child, Tops(done)`next, Tops(left)`prev, newitem`next, newitem`prev
    ensures Children(parent, Append(done, Cons(newitem, it, kids, left)))
  {
    hide Chain, Distinct, Blocks, Append, Last, Is, Tops;
    InMemory(kids);
    InMemory(done);
    InMemory(left);
    PartsApart(parent, done, c, left);
    newitem.next := c;
    newitem.prev := c.prev;
    SetPrev(c, newitem, left, Last(done, null), null);
    Pushed(newitem, it, kids, left, Last(done, null), null);
    TopsOwned(done, null);
    LinkLeft(parent, c, newitem, done, Cons(newitem, it, kids, left));
  }

  // `cJSON_DetachItemFromArray`
  method DetachItemFromArray(parent: Node, which: int, ghost f: Forest) returns (c: Node?)
    requires Children(parent, f)
    modifies parent`child, Tops(f)`next, Tops(f)`prev
    ensures Children(parent, Removed(f, At(which)))
    ensures c == Head(Drop(f, At(which)), null)
    ensures c != null ==> var e := Drop(f, At(which));
      Detached(c, e.item, e.kids) && Own(c, e.item, e.kids) !! Blocks(Removed(f, At(which))) + {parent}
  {
    hide Chain, Distinct, Blocks, Append, Last, Is, Tops, Take, Drop;
    InMemory(f);
    ghost var k := At(which);
    Cut(f, k);
    c := Walk(parent, which, f);
    if c == null {
      AtEnd(f, k);
      return;
    }
    TakeDrop(f, k);
    TopsOwned(Drop(f, k), null);
    ChainCons(Drop(f, k), c, Last(Take(f, k), null), null);
    Unlink(parent, c, Take(f, k), Drop(f, k));
  }

  // Links the neighbours of c, or the container and what follows, to each other.
  method Bypass(parent: Node, c: Node, ghost done: Forest, ghost g: Forest)
    requires Chain(done, parent.child, null, c) && c.prev == Last(done, null) && Chain(g, c.next, c, null)
    requires Distinct(done) && Distinct(g) && Blocks(done) !! Blocks(g)
    requires c !in Blocks(done) + Blocks(g) && parent !in Blocks(done) + Blocks(g)
    modifies parent`child, Tops(done)`next, Tops(g)`prev
    ensures Children(parent, Append(done, g))
  {
    hide Chain, Distinct, Blocks, Append, Last, Is, Tops;
    InMemory(done);
    InMemory(g);
    TopsOwned(done, null);
    TopsOwned(g, c);
    ChainHead(done, parent.child, null, c);
    ChainHead(g, c.next, c, null);
    if c.prev != null {
      SetNext(c.prev, c.next, done, parent.child, c);
    }
    if c.next != null {
      SetPrev(c.next, c.prev, g, c, null);
    }
    if c == parent.child {
      parent.child := c.next;
    }
    EmptyChain(null, Last(done, null), null);
    EmptyChain(parent.child, null, parent.child);
    Joined(done, g, parent.child, null, null);
  }

  lemma FirstApart(f: Forest)
    requires f.Cons? && Distinct(f)
    ensures Own(f.n, f.item, f.kids) !! Blocks(f.rest) && DistinctNode(f.n, f.item, f.kids) && Distinct(f.rest)
    ensures f.n !in Blocks(f.kids)
    ensures Blocks(f) == Own(f.n, f.item, f.kids) + Blocks(f.rest)
    ensures Tops(f) == {f.n} + Tops(f.rest)
  {
  }

  // What the first of the parts owns stands apart from the others.
  lemma CutOut(parent: Node, done: Forest, left: Forest)
    requires left.Cons? && Distinct(left) && Blocks(done) !! Blocks(left) && parent !in Blocks(done) + Blocks(left)
    ensures Own(left.n, left.item, left.kids) !! Blocks(Append(done, left.rest)) + {parent}
  {
    AppendBlocks(done, left.rest);
  }

  lemma SwappedOut(parent: Node, done: Forest, left: Forest, newitem: Node, it: Item, kids: Forest)
    requires left.Cons? && Distinct(left) && Blocks(done) !! Blocks(left) && parent !in Blocks(done) + Blocks(left)
    requires Own(newitem, it, kids) !! Blocks(left)
    ensures Own(left.n, left.item, left.kids) !! Blocks(Append(done, Cons(newitem, it, kids, left.rest))) + {parent}
  {
    CutOut(parent, done, left);
    AppendBlocks(done, left.rest);
    AppendBlocks(done, Cons(newitem, it, kids, left.rest));
  }

  // Links the neighbours of c to each other and clears the links of c.
  method Unlink(parent: Node, c: Node, ghost done: Forest, ghost left: Forest)
    requires Parts(parent, done, c, left)
    modifies parent`child, Tops(done)`next, Tops(left)`prev, c`next
    ensures left.Cons? && Children(parent, Append(done, left.rest))
    ensures Detached(c, left.item, left.kids)
    ensures Own(c, left.item, left.kids) !! Blocks(Append(done, left.rest)) + {parent}
  {
    hide Chain, Distinct, DistinctNode, Blocks, Append, Last, Is, Tops;
    InMemory(done);
    InMemory(left);
    PartsApart(parent, done, c, left);
    ChainCons(left, c, Last(done, null), null);
    FirstApart(left);
    CutOut(parent, done, left);
    TopsOwned(done, null);
    TopsOwned(left.rest, c);
    Bypass(parent, c, done, left.rest);
    assert Is(c, left.item, left.kids);
    c.prev := null;
    c.next := null;
  }

  // Links what stands before c, or the container, to the new item.
  method LinkLeft(parent: Node, c: Node, newitem: Node, ghost done: Forest, ghost g: Forest)
    requires Chain(done, parent.child, null, c) && c != newitem && c !in Blocks(done)
      && parent !in Blocks(done) + Blocks(g)
    requires Distinct(done) && Distinct(g) && Blocks(done) !! Blocks(g)
    requires g.Cons? && g.n == newitem && newitem.prev == Last(done, null) && Chain(g, newitem, Last(done, null), null)
    modifies parent`child, Tops(done)`next
    ensures Children(parent, Append(done, g))
  {
    hide Chain, Distinct, Blocks, Append, Last, Is, Tops;
    InMemory(g);
    TopsOwned(done, null);
    ChainHead(done, parent.child, null, c);
    EmptyChain(newitem, null, newitem);
    if c == parent.child {
      parent.child := newitem;
    } else {
      SetNext(newitem.prev, newitem, done, parent.child, c);
    }
    Joined(done, g, parent.child, null, null);
  }

  // Links the new item to what follows c.
  method LinkRight(c: Node, newitem: Node, ghost g: Forest, ghost it: Item, ghost kids: Forest)
    requires Chain(g, c.next, c, null) && Distinct(g) && c !in Blocks(g) && c !in Own(newitem, it, kids)
    requires Detached(newitem, it, kids) && Own(newitem, it, kids) !! Blocks(g)
    modifies newitem`next, newitem`prev, Tops(g)`prev
    ensures newitem.prev == c.prev && c.prev == old(c.prev)
    ensures Chain(Cons(newitem, it, kids, g), newitem, c.prev, null) && Distinct(Cons(newitem, it, kids, g))
    ensures Blocks(Cons(newitem, it, kids, g)) == Own(newitem, it, kids) + Blocks(g)
  {
    hide Chain, Distinct, Blocks, Append, Last, Is, Tops;
    InMemory(kids);
    InMemory(g);
    TopsOwned(g, c);
    ChainHead(g, c.next, c, null);
    newitem.next := c.next;
    newitem.prev := c.prev;
    if newitem.next != null {
      SetPrev(newitem.next, newitem, g, c, null);
    }
    EmptyChain(newitem.next, newitem, null);
    Pushed(newitem, it, kids, g, c.prev, null);
  }

  // Links the new item to the neighbours of c, or to the container.
  method Supplant(parent: Node, c: Node, newitem: Node, ghost done: Forest, ghost g: Forest, ghost it: Item,
                  ghost kids: Forest)
    requires Chain(done, parent.child, null, c) && c.prev == Last(done, null) && Chain(g, c.next, c, null)
    requires Distinct(done) && Distinct(g) && Blocks(done) !! Blocks(g)
    requires c !in Blocks(done) + Blocks(g) && parent !in Blocks(done) + Blocks(g)
    requires Detached(newitem, it, kids) && Own(newitem, it, kids) !! Blocks(done) + Blocks(g) + {parent, c}
    modifies parent`child, Tops(done)`next, Tops(g)`prev, newitem`next, newitem`prev
    ensures Children(parent, Append(done, Cons(newitem, it, kids, g)))
  {
    hide Chain, Distinct, Blocks, Append, Last, Is, Tops;
    InMemory(done);
    InMemory(g);
    TopsOwned(done, null);
    TopsOwned(g, c);
    LinkRight(c, newitem, g, it, kids);
    LinkLeft(parent, c, newitem, done, Cons(newitem, it, kids, g));
  }

  // The relinking of `cJSON_ReplaceItemInArray`: the new item stands where c stood, and c is in no chain.
  method LinkInstead(parent: Node, c: Node, newitem: Node, ghost done: Forest, ghost left: Forest, ghost it: Item,
                     ghost kids: Forest)
    requires Parts(parent, done, c, left)
    requires Detached(newitem, it, kids) && Own(newitem, it, kids) !! Blocks(done) + Blocks(left) + {parent}
    modifies parent`child, Tops(done)`next, Tops(left)`prev, c`next, newitem`next, newitem`prev
    ensures left.Cons? && Children(parent, Append(done, Cons(newitem, it, kids, left.rest)))
    ensures Detached(c, left.item, left.kids)
    ensures Own(c, left.item, left.kids) !! Blocks(Append(done, Cons(newitem, it, kids, left.rest))) + {parent}
  {
    hide Chain, Distinct, DistinctNode, Blocks, Append, Last, Is, Tops;
    InMemory(done);
    InMemory(left);
    PartsApart(parent, done, c, left);
    ChainCons(left, c, Last(done, null), null);
    FirstApart(left);
    TopsOwned(left.rest, c);
    TopsOwned(done, null);
    SwappedOut(parent, done, left, newitem, it, kids);
    Supplant(parent, c, newitem, done, left.rest, it, kids);
    assert Is(c, left.item, left.kids);
    c.next := null;
    c.prev := null;
  }

  // What the item at position k owns.
  ghost function OwnedAt(f: Forest, k: nat): set<object> {
    var e := Drop(f, k);
    if e.Nil? then {} else Own(e.n, e.item, e.kids)
  }

  lemma InsertedBlocks(f: Forest, k: nat, n: Node, it: Item, kids: Forest)
    ensures Blocks(Inserted(f, k, n, it, kids)) == Blocks(f) + Own(n, it, kids)
  {
    TakeDrop(f, k);
    AppendBlocks(Take(f, k), Drop(f, k));
    AppendBlocks(Take(f, k), Cons(n, it, kids, Drop(f, k)));
  }

  lemma RemovedBlocks(f: Forest, k: nat)
    requires Distinct(f)
    ensures Blocks(f) == Blocks(Removed(f, k)) + OwnedAt(f, k) && Blocks(Removed(f, k)) !! OwnedAt(f, k)
  {
    TakeDrop(f, k);
    AppendBlocks(Take(f, k), Drop(f, k));
    AppendBlocks(Take(f, k), Drop(f, k + 1));
    if Drop(f, k).Nil? {
      Stays(f, k, k + 1);
    }
  }

  lemma ReplacedBlocks(f: Forest, k: nat, n: Node, it: Item, kids: Forest)
    requires Drop(f, k).Cons? && Distinct(f)
    ensures Blocks(Replaced(f, k, n, it, kids)) == Blocks(f) - OwnedAt(f, k) + Own(n, it, kids)
  {
    RemovedBlocks(f, k);
    TakeDrop(f, k);
    AppendBlocks(Take(f, k), Drop(f, k + 1));
    AppendBlocks(Take(f, k), Cons(n, it, kids, Drop(f, k + 1)));
  }

  // `cJSON_ReplaceItemInArray`: the old item is deleted; without one, nothing happens.
  method ReplaceItemInArray(h: Heap, parent: Node, which: int, newitem: Node, ghost f: Forest, ghost it: Item,
                            ghost kids: Forest)
    requires Children(parent, f) && Blocks(f) <= h.live
    requires Detached(newitem, it, kids) && Own(newitem, it, kids) !! Blocks(f) + {parent}
    modifies h, OwnedAt(f, At(which)), parent`child, Tops(f)`next, Tops(f)`prev, newitem`next, newitem`prev
    ensures Children(parent, Replaced(f, At(which), newitem, it, kids))
    ensures h.live == old(h.live) - OwnedAt(f, At(which))
    ensures Drop(f, At(which)).Nil? ==> unchanged(newitem)
  {
    hide Chain, Distinct, Blocks, Append, Last, Is, Tops, Take, Drop;
    InMemory(f);
    InMemory(kids);
    HeapApart(h, f);
    ghost var k := At(which);
    Cut(f, k);
    var c := Walk(parent, which, f);
    if c == null {
      AtEnd(f, k);
      return;
    }
    ghost var e := Drop(f, k);
    TakeDrop(f, k);
    TopsOwned(e, null);
    ChainCons(e, c, Last(Take(f, k), null), null);
    FirstApart(e);
    LinkInstead(parent, c, newitem, Take(f, k), e, it, kids);
    ghost var g := Append(Take(f, k), Cons(newitem, it, kids, e.rest));
    InMemory(g);
    HeapApart(h, g);
    ChainOne(c, e.item, e.kids, null, null);
    Delete(h, c, One(c, e.item, e.kids), null);
  }
}
