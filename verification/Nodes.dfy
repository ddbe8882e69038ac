/**
  cJSON nodes in memory: the doubly linked chains of children, the blocks a tree owns, and
  `cJSON_Delete` (src/cJSON.c, lines 70-93). The blocks that are allocated and not yet freed are kept
  in a ghost set, so that freeing a block twice, or one that is not allocated, cannot be proved safe.
 */
module Nodes {
  import opened JsonValue
  import opened CMemory

  // `type & 255`
  datatype Kind = KFalse | KTrue | KNull | KNumber | KString | KArray | KObject

  class Node {
    var next: Node?
    var prev: Node?
    var child: Node?
    var kind: Kind
    var isReference: bool
    var valuestring: array?<char>
    var valueint: int
    var valuedouble: real
    var name: array?<char>  // `string` in the source

    // A node after memset to 0.
    constructor ()
      ensures Zeroed()
    {
      next, prev, child := null, null, null;
      kind, isReference := KFalse, false;
      valuestring, valueint, valuedouble, name := null, 0, 0.0, null;
    }

    predicate Zeroed()
      reads this
    {
      && next == null && prev == null && child == null && kind == KFalse && !isReference
      && valuestring == null && valueint == 0 && valuedouble == 0.0 && name == null
    }
  }

  // The allocator: `cJSON_malloc` and `cJSON_free`.
  class Heap {
    ghost var live: set<object>

    constructor ()
      ensures live == {}
    {
      live := {};
    }

    // `cJSON_New_Item`
    method NewItem() returns (n: Node)
      modifies this
      ensures fresh(n) && n.Zeroed() && n !in old(live) && live == old(live) + {n}
    {
      n := new Node();
      live := live + {n};
    }

    method Malloc(size: nat) returns (a: array<char>)
      modifies this
      ensures fresh(a) && a.Length == size && a !in old(live) && live == old(live) + {a}
    {
      a := new char[size];
      live := live + {a};
    }

    // An array of pointers, all of them NULL after memset to 0.
    method MallocPointers(n: nat) returns (a: array<array?<char>>)
      modifies this
      ensures fresh(a) && a.Length == n && a !in old(live) && live == old(live) + {a}
    {
      a := new array?<char>[n](_ => null);
      live := live + {a};
    }

    // `cJSON_strdup`
    method StrDup(s: array<char>, ghost text: string) returns (copy: array<char>)
      requires CString(text) && Holds(s, 0, text)
      modifies this
      ensures fresh(copy) && copy !in old(live) && live == old(live) + {copy} && Holds(copy, 0, text)
    {
      var len := StrLen(s, 0, text);
      copy := Malloc(len + 1);
      CopyString(copy, 0, s, len, text);
      copy[len] := '\0';
      assert copy[..0 + len] == text;
      assert copy[0..0 + |text|] == text;
    }

    // After a node is freed, nothing is known about its fields.
    method FreeNode(n: Node)
      requires n in live
      modifies this, n
      ensures live == old(live) - {n}
    {
      live := live - {n};
    }

    method FreeBlock(a: array<char>)
      requires a in live
      modifies this, a
      ensures live == old(live) - {a}
    {
      live := live - {a};
    }

    method FreePointers(a: array<array?<char>>)
      requires a in live
      modifies this, a
      ensures live == old(live) - {a}
    {
      live := live - {a};
    }
  }

  // --- shapes ---

  // A string block that a node owns, and the C string in it.
  datatype Block = NoBlock | Block(a: array<char>, text: string)

  ghost function Pointer(b: Block): array?<char> {
    if b.Block? then b.a else null
  }

  // The cast of a double to int, for values in the range of int.
  function Truncate(d: real): (n: int)
    ensures d >= 0.0 ==> n as real <= d < n as real + 1.0
    ensures d < 0.0 ==> n as real - 1.0 < d <= n as real
  {
    if d >= 0.0 then d.Floor else -(-d).Floor
  }

  // What a node holds, apart from its links.
  datatype Item = Item(kind: Kind, reference: bool, integer: int, number: real, val: Block, name: Block)

  // A chain of siblings with all that it owns: first child and next sibling.
  datatype Forest = Nil | Cons(n: Node, item: Item, kids: Forest, rest: Forest)

  ghost function BlockSet(b: Block): set<object> {
    if b.Block? then {b.a} else {}
  }

  // The blocks of one node and of its children.
  ghost function Own(n: Node, it: Item, kids: Forest): set<object> {
    {n} + BlockSet(it.val) + BlockSet(it.name) + Blocks(kids)
  }

  ghost function Blocks(f: Forest): set<object> {
    match f
    case Nil => {}
    case Cons(n, it, kids, rest) => {n} + BlockSet(it.val) + BlockSet(it.name) + Blocks(kids) + Blocks(rest)
  }

  // No block occurs twice.
  ghost predicate Distinct(f: Forest)
    decreases f, 0
  {
    match f
    case Nil => true
    case Cons(n, it, kids, rest) => DistinctNode(n, it, kids) && Own(n, it, kids) !! Blocks(rest) && Distinct(rest)
  }

  ghost predicate DistinctNode(n: Node, it: Item, kids: Forest)
    decreases kids, 1
  {
    && n !in Blocks(kids) && BlockSet(it.val) !! BlockSet(it.name)
    && BlockSet(it.val) !! Blocks(kids) && BlockSet(it.name) !! Blocks(kids)
    && Distinct(kids)
  }

  ghost predicate Stored(p: array?<char>, b: Block)
    reads BlockSet(b)
  {
    p == Pointer(b) && (b.Block? ==> CString(b.text) && Holds(b.a, 0, b.text))
  }

  // The node n holds it, and kids is the chain of its children. A reference owns neither its value
  // string nor its children: those belong to the item it was made from.
  ghost predicate Is(n: Node, it: Item, kids: Forest)
    reads n`kind, n`isReference, n`valueint, n`valuedouble, n`name, n`valuestring, n`child
    reads BlockSet(it.val), BlockSet(it.name), Blocks(kids)
    decreases kids, 1
  {
    && n.kind == it.kind && n.isReference == it.reference && n.valueint == it.integer
    && n.valuedouble == it.number
    && Stored(n.name, it.name)
    && if it.reference then it.val == NoBlock && kids == Nil
       else Stored(n.valuestring, it.val) && Chain(kids, n.child, null, null)
  }

  // The siblings from head up to, and without, end: each one's next and prev are as they should be.
  ghost predicate Chain(f: Forest, head: Node?, prev: Node?, end: Node?)
    reads Blocks(f)
    decreases f, 0
  {
    match f
    case Nil => head == end
    case Cons(n, it, kids, rest) => head == n && n.prev == prev && Is(n, it, kids) && Chain(rest, n.next, n, end)
  }

  // `suffix_object`, after a chain of which prev is the last node: the chain now runs up to item.
  method SuffixObject(prev: Node, item: Node, ghost head: Node?, ghost done: Forest, ghost it: Item, ghost kids: Forest)
    requires Chain(done, head, null, prev) && prev.prev == Last(done, null) && Is(prev, it, kids)
    requires Distinct(Append(done, One(prev, it, kids))) && item !in Blocks(Append(done, One(prev, it, kids)))
    modifies prev`next, item`prev
    ensures prev.next == item && item.prev == prev
    ensures Chain(Append(done, One(prev, it, kids)), head, null, item)
  {
    hide Blocks, Distinct, Chain, Is, Append;
    Beside(prev, item, done, it, kids);
    prev.next := item;
    item.prev := prev;
    ChainOne(prev, it, kids, Last(done, null), item);
    AppendChain(done, One(prev, it, kids), head, null, item);
  }

  // What a further sibling, and the one before it, are not part of.
  lemma Beside(prev: Node, item: Node, done: Forest, it: Item, kids: Forest)
    requires Distinct(Append(done, One(prev, it, kids))) && item !in Blocks(Append(done, One(prev, it, kids)))
    ensures prev !in Blocks(done) && item !in Blocks(done) && prev !in Blocks(kids) && item !in Blocks(kids)
    ensures item != prev
  {
    AppendBlocks(done, One(prev, it, kids));
    ChainOne(prev, it, kids, null, null);
  }

  lemma ChainOne(n: Node, it: Item, kids: Forest, prev: Node?, end: Node?)
    ensures Chain(One(n, it, kids), n, prev, end) <==> n.prev == prev && n.next == end && Is(n, it, kids)
    ensures Blocks(One(n, it, kids)) == Own(n, it, kids)
    ensures Distinct(One(n, it, kids)) <==> DistinctNode(n, it, kids)
  {
    assert Blocks(Nil) == {};
  }

  // --- joining chains ---

  ghost function Append(f: Forest, g: Forest): Forest {
    match f
    case Nil => g
    case Cons(n, it, kids, rest) => Cons(n, it, kids, Append(rest, g))
  }

  ghost function One(n: Node, it: Item, kids: Forest): Forest {
    Cons(n, it, kids, Nil)
  }

  // The last node of a chain.
  ghost function Last(f: Forest, prev: Node?): Node? {
    if f.Nil? then prev else Last(f.rest, f.n)
  }

  ghost function Head(f: Forest, end: Node?): Node? {
    if f.Nil? then end else f.n
  }

  ghost function Size(f: Forest): nat {
    if f.Nil? then 0 else 1 + Size(f.rest)
  }

  lemma {:induction false} AppendBlocks(f: Forest, g: Forest)
    ensures Blocks(Append(f, g)) == Blocks(f) + Blocks(g)
    ensures Distinct(Append(f, g)) <==> Distinct(f) && Distinct(g) && Blocks(f) !! Blocks(g)
  {
    if f.Cons? {
      AppendBlocks(f.rest, g);
    }
  }

  lemma {:induction false} AppendChain(f: Forest, g: Forest, head: Node?, prev: Node?, end: Node?)
    ensures Chain(Append(f, g), head, prev, end)
      <==> Chain(f, head, prev, Head(g, end)) && Chain(g, Head(g, end), Last(f, prev), end)
    decreases f
  {
    if f.Cons? {
      AppendChain(f.rest, g, f.n.next, f.n, end);
    }
  }

  lemma {:induction false} LastAppend(f: Forest, g: Forest, prev: Node?)
    ensures Last(Append(f, g), prev) == Last(g, Last(f, prev))
  {
    if f.Cons? {
      LastAppend(f.rest, g, f.n);
    }
  }

  lemma {:induction false} AppendAssoc(f: Forest, g: Forest, h: Forest)
    ensures Append(Append(f, g), h) == Append(f, Append(g, h))
  {
    if f.Cons? {
      AppendAssoc(f.rest, g, h);
    }
  }

  // The allocator itself is no block.
  lemma {:induction false} HeapApart(h: Heap, f: Forest)
    ensures h !in Blocks(f)
  {
    if f.Cons? {
      HeapApart(h, f.kids);
      HeapApart(h, f.rest);
    }
  }

  // A chain that can be named consists of allocated objects, so calls that modify nothing leave it alone.
  lemma {:induction false} InMemory(f: Forest)
    ensures forall o <- Blocks(f) :: allocated(o)
  {
    if f.Cons? {
      InMemory(f.kids);
      InMemory(f.rest);
    }
  }

  // --- abstract values ---

  ghost function ValueOf(it: Item, kids: Forest): Json
    decreases kids, 1
  {
    match it.kind
    case KFalse => Bool(false)
    case KTrue => Bool(true)
    case KNull => Null
    case KNumber => Num(it.number)
    case KString => Str(if it.val.Block? then it.val.text else "")
    case KArray => Arr(ElemsOf(kids))
    case KObject => Obj(MembersOf(kids))
  }

  ghost function ElemsOf(f: Forest): Elems
    decreases f, 0
  {
    match f
    case Nil => ENil
    case Cons(_, it, kids, rest) => ECons(ValueOf(it, kids), ElemsOf(rest))
  }

  ghost function MembersOf(f: Forest): Members
    decreases f, 0
  {
    match f
    case Nil => MNil
    case Cons(_, it, kids, rest) =>
      MCons(if it.name.Block? then it.name.text else "", ValueOf(it, kids), MembersOf(rest))
  }

  // No item is a reference.
  ghost predicate Plain(f: Forest) {
    f.Cons? ==> !f.item.reference && Plain(f.kids) && Plain(f.rest)
  }

  ghost function JoinElems(a: Elems, b: Elems): Elems {
    if a.ENil? then b else ECons(a.head, JoinElems(a.tail, b))
  }

  ghost function JoinMembers(a: Members, b: Members): Members {
    if a.MNil? then b else MCons(a.name, a.value, JoinMembers(a.rest, b))
  }

  lemma {:induction false} AppendValues(f: Forest, g: Forest)
    ensures ElemsOf(Append(f, g)) == JoinElems(ElemsOf(f), ElemsOf(g))
    ensures MembersOf(Append(f, g)) == JoinMembers(MembersOf(f), MembersOf(g))
    ensures Plain(Append(f, g)) <==> Plain(f) && Plain(g)
  {
    if f.Cons? {
      AppendValues(f.rest, g);
    }
  }

  lemma LastOne(n: Node, it: Item, kids: Forest, prev: Node?)
    ensures Last(One(n, it, kids), prev) == n
    ensures Plain(One(n, it, kids)) <==> !it.reference && Plain(kids)
  {
  }

  // --- deleting ---

  // `cJSON_Delete`: frees c, its siblings after it, and everything they own, each block exactly once.
  method Delete(h: Heap, c: Node?, ghost f: Forest, ghost prev: Node?)
    requires Chain(f, c, prev, null) && Distinct(f) && Blocks(f) <= h.live
    modifies h, Blocks(f)
    ensures h.live == old(h.live) - Blocks(f)
    decreases f, 0
  {
    HeapApart(h, f);
    var cur := c;
    ghost var g, p := f, prev;
    while cur != null
      invariant Chain(g, cur, p, null) && Distinct(g) && Blocks(g) <= Blocks(f)
      invariant h.live == old(h.live) - (Blocks(f) - Blocks(g))
      invariant g == f || g < f
      decreases g
    {
      var next := cur.next;
      ghost var Cons(n, it, kids, rest) := g;
      hide Is, DistinctNode;
      DeleteItem(h, cur, it, kids);
      g, p, cur := rest, n, next;
    }
  }

  // The body of its loop: what one node owns, then the node.
  method DeleteItem(h: Heap, c: Node, ghost it: Item, ghost kids: Forest)
    requires Is(c, it, kids) && DistinctNode(c, it, kids) && Own(c, it, kids) <= h.live
    modifies h, Own(c, it, kids)
    ensures h.live == old(h.live) - Own(c, it, kids)
    decreases kids, 1
  {
    if !c.isReference && c.child != null {
      Delete(h, c.child, kids, null);
    }
    if !c.isReference && c.valuestring != null {
      h.FreeBlock(c.valuestring);
    }
    if c.name != null {
      h.FreeBlock(c.name);
    }
    h.FreeNode(c);
  }
}
