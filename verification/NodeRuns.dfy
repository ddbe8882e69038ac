/**
  Runs of list operations on one container: whatever add, insert, detach and replace calls are made with
  items that are in no chain, the container's chain stays well formed, its contents are those of a
  sequence, and no block is lost or freed twice.
 */
module NodeRuns {
  import opened Nodes
  import opened NodeLists
  import opened NodeSequences

  // A call; the item it takes is given by its position among the items that the caller holds.
  datatype Edit = Add(i: nat) | Insert(which: int, i: nat) | Detach(which: int) | Replace(which: int, i: nat)

  // The children of the container, and the items that the caller holds.
  datatype State = State(list: Forest, held: Forest)

  ghost predicate Possible(s: State, e: Edit) {
    match e
    case Detach(_) => true
    case _ => e.i < Size(s.held)
  }

  ghost function After(s: State, e: Edit): State
    requires Possible(s, e)
  {
    TakeDrop(s.held, if e.Detach? then 0 else e.i);
    match e
    case Add(i) => var x := Drop(s.held, i); State(Append(s.list, One(x.n, x.item, x.kids)), Removed(s.held, i))
    case Insert(which, i) =>
      var x := Drop(s.held, i);
      State(Inserted(s.list, At(which), x.n, x.item, x.kids), Removed(s.held, i))
    case Detach(which) =>
      var x := Drop(s.list, At(which));
      if x.Nil? then s else State(Removed(s.list, At(which)), Append(s.held, One(x.n, x.item, x.kids)))
    case Replace(which, i) =>
      var x := Drop(s.held, i);
      if Drop(s.list, At(which)).Nil? then s
      else State(Replaced(s.list, At(which), x.n, x.item, x.kids), Removed(s.held, i))
  }

  // The items of a chain that are not linked to each other.
  ghost predicate Loose(f: Forest)
    reads Blocks(f)
  {
    f.Cons? ==> Detached(f.n, f.item, f.kids) && Loose(f.rest)
  }

  ghost function NodesOf(f: Forest): seq<Node> {
    if f.Nil? then [] else [f.n] + NodesOf(f.rest)
  }

  ghost function All(s: State): set<object> {
    Blocks(s.list) + Blocks(s.held)
  }

  ghost predicate Inv(h: Heap, parent: Node, held: seq<Node>, s: State)
    reads h, parent`child, All(s)
  {
    && Children(parent, s.list) && Loose(s.held) && Distinct(s.held) && Blocks(s.list) !! Blocks(s.held)
    && parent !in Blocks(s.held) && All(s) <= h.live && held == NodesOf(s.held)
  }

  // How a run may begin: with an empty container, and any live items that are in no chain and share no block.
  lemma Begins(h: Heap, parent: Node, items: Forest)
    requires parent.child == null && Loose(items) && Distinct(items)
    requires parent !in Blocks(items) && Blocks(items) <= h.live
    ensures Inv(h, parent, NodesOf(items), State(Nil, items))
  {
    EmptyChain(null, null, null);
  }

  // --- taking an item from those that are held, and adding one ---

  lemma {:induction false} Pick(f: Forest, i: nat)
    requires i < Size(f) && Distinct(f) && Loose(f)
    ensures Drop(f, i).Cons?
    ensures var x := Drop(f, i);
      && Detached(x.n, x.item, x.kids) && Own(x.n, x.item, x.kids) !! Blocks(Removed(f, i))
      && Distinct(Removed(f, i)) && Loose(Removed(f, i))
      && Blocks(f) == Own(x.n, x.item, x.kids) + Blocks(Removed(f, i))
  {
    if i > 0 {
      Pick(f.rest, i - 1);
    } else {
      Starts(f);
      Starts(f.rest);
    }
  }

  lemma {:induction false} PickNode(f: Forest, i: nat)
    requires i < Size(f)
    ensures |NodesOf(f)| == Size(f) && Drop(f, i).Cons? && NodesOf(f)[i] == Drop(f, i).n
    ensures NodesOf(Removed(f, i)) == NodesOf(f)[..i] + NodesOf(f)[i + 1..]
  {
    if i > 0 {
      PickNode(f.rest, i - 1);
    } else {
      Starts(f);
      Starts(f.rest);
      SizeNodes(f.rest);
    }
  }

  lemma {:induction false} SizeNodes(f: Forest)
    ensures |NodesOf(f)| == Size(f)
  {
    if f.Cons? {
      SizeNodes(f.rest);
    }
  }

  lemma {:induction false} PutAway(f: Forest, n: Node, it: Item, kids: Forest)
    requires Distinct(f) && Loose(f) && Detached(n, it, kids) && Own(n, it, kids) !! Blocks(f)
    ensures var g := Append(f, One(n, it, kids));
      && Distinct(g) && Loose(g) && Blocks(g) == Blocks(f) + Own(n, it, kids) && NodesOf(g) == NodesOf(f) + [n]
  {
    ChainOne(n, it, kids, null, null);
    if f.Cons? {
      PutAway(f.rest, n, it, kids);
    } else {
      assert Loose(Nil);
    }
  }

  // --- single calls ---

  method DoAdd(h: Heap, parent: Node, i: nat, held: seq<Node>, ghost s: State) returns (rest: seq<Node>)
    requires Inv(h, parent, held, s) && i < Size(s.held)
    modifies parent`child, All(s)
    ensures Inv(h, parent, rest, After(s, Add(i))) && h.live == old(h.live) && All(After(s, Add(i))) == All(s)
  {
    hide Chain, Is, Distinct, DistinctNode, Blocks, Loose, NodesOf, Tops, Append, Take, Drop;
    Pick(s.held, i);
    PickNode(s.held, i);
    ghost var x := Drop(s.held, i);
    InMemory(s.held);
    HeapApart(h, s.held);
    HeapApart(h, s.list);
    TopsOwned(s.list, null);
    AppendBlocks(s.list, One(x.n, x.item, x.kids));
    ChainOne(x.n, x.item, x.kids, null, null);
    AddItemToArray(parent, held[i], s.list, x.item, x.kids);
    rest := held[..i] + held[i + 1..];
  }

  method DoInsert(h: Heap, parent: Node, which: int, i: nat, held: seq<Node>, ghost s: State) returns (rest: seq<Node>)
    requires Inv(h, parent, held, s) && i < Size(s.held)
    modifies parent`child, All(s)
    ensures Inv(h, parent, rest, After(s, Insert(which, i))) && h.live == old(h.live)
    ensures All(After(s, Insert(which, i))) == All(s)
  {
    hide Chain, Is, Distinct, DistinctNode, Blocks, Loose, NodesOf, Tops, Append, Take, Drop;
    Pick(s.held, i);
    PickNode(s.held, i);
    ghost var x := Drop(s.held, i);
    InMemory(s.held);
    HeapApart(h, s.held);
    HeapApart(h, s.list);
    TopsOwned(s.list, null);
    InsertItemInArray(parent, which, held[i], s.list, x.item, x.kids);
    InsertedBlocks(s.list, At(which), x.n, x.item, x.kids);
    rest := held[..i] + held[i + 1..];
  }

  method DoDetach(h: Heap, parent: Node, which: int, held: seq<Node>, ghost s: State) returns (rest: seq<Node>)
    requires Inv(h, parent, held, s)
    modifies parent`child, All(s)
    ensures Inv(h, parent, rest, After(s, Detach(which))) && h.live == old(h.live)
    ensures All(After(s, Detach(which))) == All(s)
  {
    hide Chain, Is, Distinct, DistinctNode, Blocks, Loose, NodesOf, Tops, Append, Take, Drop;
    InMemory(s.held);
    HeapApart(h, s.held);
    HeapApart(h, s.list);
    TopsOwned(s.list, null);
    ghost var k := At(which);
    ghost var x := Drop(s.list, k);
    RemovedBlocks(s.list, k);
    var c := DetachItemFromArray(parent, which, s.list);
    rest := held;
    if c != null {
      PutAway(s.held, c, x.item, x.kids);
      rest := held + [c];
    } else {
      AtEnd(s.list, k);
    }
  }

  method DoReplace(h: Heap, parent: Node, which: int, i: nat, held: seq<Node>, ghost s: State) returns (rest: seq<Node>)
    requires Inv(h, parent, held, s) && i < Size(s.held)
    modifies h, parent`child, All(s)
    ensures Inv(h, parent, rest, After(s, Replace(which, i)))
    ensures All(After(s, Replace(which, i))) == All(s) - OwnedAt(s.list, At(which))
    ensures h.live == old(h.live) - (All(s) - All(After(s, Replace(which, i))))
  {
    hide Chain, Is, Distinct, DistinctNode, Blocks, Loose, NodesOf, Tops, Append, Take, Drop;
    Pick(s.held, i);
    PickNode(s.held, i);
    ghost var x := Drop(s.held, i);
    InMemory(s.held);
    HeapApart(h, s.held);
    HeapApart(h, s.list);
    TopsOwned(s.list, null);
    RemovedBlocks(s.list, At(which));
    if Drop(s.list, At(which)).Cons? {
      ReplacedBlocks(s.list, At(which), x.n, x.item, x.kids);
    }
    InMemory(s.list);
    var c := Walk(parent, which, s.list);
    ReplaceItemInArray(h, parent, which, held[i], s.list, x.item, x.kids);
    rest := if c == null then held else held[..i] + held[i + 1..];
  }

  // --- the same on sequences ---

  datatype Contents = Contents(list: seq<Entry>, held: seq<Entry>)

  ghost function ContentsOf(s: State): Contents {
    Contents(Entries(s.list), Entries(s.held))
  }

  ghost function Without(s: seq<Entry>, i: nat): seq<Entry>
    requires i < |s|
  {
    s[..i] + s[i + 1..]
  }

  // What a call does to the contents.
  ghost function Then(c: Contents, e: Edit): Contents
    requires e.Detach? || e.i < |c.held|
  {
    match e
    case Add(i) => Contents(c.list + [c.held[i]], Without(c.held, i))
    case Insert(which, i) =>
      var k := if which < 0 then 0 else if which < |c.list| then which else |c.list|;
      Contents(c.list[..k] + [c.held[i]] + c.list[k..], Without(c.held, i))
    case Detach(which) =>
      var k := if which < 0 then 0 else which;
      if k < |c.list| then Contents(Without(c.list, k), c.held + [c.list[k]]) else c
    case Replace(which, i) =>
      var k := if which < 0 then 0 else which;
      if k < |c.list| then Contents(c.list[k := c.held[i]], Without(c.held, i)) else c
  }

  lemma EntryAt(f: Forest, i: nat)
    requires i < Size(f)
    ensures |Entries(f)| == Size(f)
    ensures var x := Drop(f, i); x.Cons? && Entries(f)[i] == Entry(x.n, x.item, x.kids)
    ensures Entries(Removed(f, i)) == Without(Entries(f), i)
  {
    RemovedEntries(f, i);
    EntriesCut(f, i);
    TakeDrop(f, i);
  }

  lemma AfterContents(s: State, e: Edit)
    requires Possible(s, e)
    ensures |Entries(s.held)| == Size(s.held) && ContentsOf(After(s, e)) == Then(ContentsOf(s), e)
  {
    hide Entries, Append, Take, Drop, Size, Inserted, Removed, Replaced;
    EntriesSize(s.held);
    EntriesSize(s.list);
    if !e.Detach? {
      EntryAt(s.held, e.i);
    }
    match e {
      case Add(i) =>
        var x := Drop(s.held, i);
        AppendedEntries(s.list, x.n, x.item, x.kids);
      case Insert(which, i) =>
        var x := Drop(s.held, i);
        InsertedEntries(s.list, At(which), x.n, x.item, x.kids);
      case Detach(which) =>
        TakeDrop(s.list, At(which));
        if At(which) < Size(s.list) {
          EntryAt(s.list, At(which));
          var x := Drop(s.list, At(which));
          AppendedEntries(s.held, x.n, x.item, x.kids);
        }
      case Replace(which, i) =>
        TakeDrop(s.list, At(which));
        var x := Drop(s.held, i);
        ReplacedEntries(s.list, At(which), x.n, x.item, x.kids);
    }
  }

  // --- runs ---

  ghost predicate AllPossible(c: Contents, edits: seq<Edit>)
    decreases |edits|
  {
    edits != [] ==> (edits[0].Detach? || edits[0].i < |c.held|) && AllPossible(Then(c, edits[0]), edits[1..])
  }

  ghost function ThenAll(c: Contents, edits: seq<Edit>): Contents
    requires AllPossible(c, edits)
    decreases |edits|
  {
    if edits == [] then c else ThenAll(Then(c, edits[0]), edits[1..])
  }

  method Step(h: Heap, parent: Node, e: Edit, held: seq<Node>, ghost s: State)
    returns (rest: seq<Node>, ghost s': State)
    requires Inv(h, parent, held, s) && (e.Detach? || e.i < |ContentsOf(s).held|)
    modifies h, parent`child, All(s)
    ensures Inv(h, parent, rest, s') && ContentsOf(s') == Then(ContentsOf(s), e)
    ensures All(s') <= All(s) && h.live == old(h.live) - (All(s) - All(s'))
  {
    hide Inv, ContentsOf, Then, After, Blocks;
    HeldSize(s);
    s' := After(s, e);
    AfterContents(s, e);
    match e {
      case Add(i) => rest := DoAdd(h, parent, i, held, s);
      case Insert(which, i) => rest := DoInsert(h, parent, which, i, held, s);
      case Detach(which) => rest := DoDetach(h, parent, which, held, s);
      case Replace(which, i) => rest := DoReplace(h, parent, which, i, held, s);
    }
  }

  // Main theorem. After any run of calls the chain is well formed (see Linked) and its contents are those of
  // the sequence; what is no longer allocated is what was replaced.
  method Run(h: Heap, parent: Node, edits: seq<Edit>, held: seq<Node>, ghost s: State)
    returns (rest: seq<Node>, ghost s': State)
    requires Inv(h, parent, held, s) && AllPossible(ContentsOf(s), edits)
    modifies h, parent`child, All(s)
    ensures Inv(h, parent, rest, s') && ContentsOf(s') == ThenAll(ContentsOf(s), edits)
    ensures All(s') <= All(s) && h.live == old(h.live) - (All(s) - All(s'))
  {
    hide Inv, ContentsOf, Then, Blocks;
    rest, s' := held, s;
    assert edits[0..] == edits;
    for k := 0 to |edits|
      invariant Inv(h, parent, rest, s') && AllPossible(ContentsOf(s'), edits[k..])
      invariant ThenAll(ContentsOf(s'), edits[k..]) == ThenAll(ContentsOf(s), edits)
      invariant All(s') <= All(s) && h.live == old(h.live) - (All(s) - All(s'))
    {
      assert edits[k..][0] == edits[k] && edits[k..][1..] == edits[k + 1..];
      InvLive(h, parent, rest, s');
      rest, s' := Step(h, parent, edits[k], rest, s');
    }
  }

  lemma HeldSize(s: State)
    ensures |ContentsOf(s).held| == Size(s.held)
  {
    EntriesSize(s.held);
  }

  lemma InvLive(h: Heap, parent: Node, held: seq<Node>, s: State)
    requires Inv(h, parent, held, s)
    ensures All(s) <= h.live
  {
  }
}
