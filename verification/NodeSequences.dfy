/**
  Children as sequences: what the list operations do to the contents of a container, and what its links look like.
 */
module NodeSequences {
  import opened Nodes
  import opened NodeLists

  // A node with all that it holds.
  datatype Entry = Entry(n: Node, item: Item, kids: Forest)

  ghost function Entries(f: Forest): seq<Entry> {
    if f.Nil? then [] else [Entry(f.n, f.item, f.kids)] + Entries(f.rest)
  }

  lemma {:induction false} EntriesAppend(f: Forest, g: Forest)
    ensures Entries(Append(f, g)) == Entries(f) + Entries(g)
  {
    if f.Cons? {
      EntriesAppend(f.rest, g);
    }
  }

  lemma {:induction false} EntriesSize(f: Forest)
    ensures |Entries(f)| == Size(f)
  {
    if f.Cons? {
      EntriesSize(f.rest);
    }
  }

  // Where a walk of k steps stops.
  ghost function Stop(f: Forest, k: nat): nat {
    if k < Size(f) then k else Size(f)
  }

  lemma EntriesCut(f: Forest, k: nat)
    ensures |Entries(f)| == Size(f)
    ensures Entries(Take(f, k)) == Entries(f)[..Stop(f, k)] && Entries(Drop(f, k)) == Entries(f)[Stop(f, k)..]
  {
    TakeDrop(f, k);
    EntriesAppend(Take(f, k), Drop(f, k));
    EntriesSize(Take(f, k));
    EntriesSize(f);
  }

  // The walk to an index, negative ones counting as 0, stops at the item with the index or at NULL.
  lemma WalkStops(f: Forest, which: int)
    ensures var e, k := Entries(f), if which < 0 then 0 else which;
      Head(Drop(f, At(which)), null) == if k < |e| then e[k].n else null
  {
    hide Take, Drop, Append, Size;
    EntriesCut(f, At(which));
  }

  // `cJSON_InsertItemInArray` inserts; `cJSON_AddItemToArray` is the case k == Size(f).
  lemma InsertedEntries(f: Forest, k: nat, n: Node, it: Item, kids: Forest)
    ensures |Entries(f)| == Size(f)
    ensures Entries(Inserted(f, k, n, it, kids))
         == Entries(f)[..Stop(f, k)] + [Entry(n, it, kids)] + Entries(f)[Stop(f, k)..]
  {
    hide Take, Drop, Append;
    EntriesCut(f, k);
    EntriesAppend(Take(f, k), Cons(n, it, kids, Drop(f, k)));
    Middle(Entries(f)[..Stop(f, k)], Entry(n, it, kids), Entries(f)[Stop(f, k)..]);
  }

  lemma Middle(a: seq<Entry>, e: Entry, b: seq<Entry>)
    ensures a + ([e] + b) == a + [e] + b
  {
  }

  lemma AppendedEntries(f: Forest, n: Node, it: Item, kids: Forest)
    ensures Entries(Append(f, One(n, it, kids))) == Entries(f) + [Entry(n, it, kids)]
  {
    EntriesAppend(f, One(n, it, kids));
    assert Entries(Nil) == [];
  }

  // `cJSON_DetachItemFromArray` removes.
  lemma RemovedEntries(f: Forest, k: nat)
    ensures |Entries(f)| == Size(f)
    ensures Entries(Removed(f, k)) == if k < Size(f) then Entries(f)[..k] + Entries(f)[k + 1..] else Entries(f)
  {
    hide Take, Drop, Append;
    EntriesCut(f, k);
    EntriesCut(f, k + 1);
    EntriesAppend(Take(f, k), Drop(f, k + 1));
  }

  // `cJSON_ReplaceItemInArray` updates.
  lemma ReplacedEntries(f: Forest, k: nat, n: Node, it: Item, kids: Forest)
    ensures |Entries(f)| == Size(f)
    ensures Entries(Replaced(f, k, n, it, kids))
         == if k < Size(f) then Entries(f)[k := Entry(n, it, kids)] else Entries(f)
  {
    hide Take, Drop, Append;
    TakeDrop(f, k);
    EntriesCut(f, k);
    EntriesCut(f, k + 1);
    EntriesAppend(Take(f, k), Cons(n, it, kids, Drop(f, k + 1)));
    if k < Size(f) {
      Updated(Entries(f), k, Entry(n, it, kids));
    }
  }

  lemma Updated(s: seq<Entry>, k: nat, e: Entry)
    requires k < |s|
    ensures s[k := e] == s[..k] + ([e] + s[k + 1..])
  {
  }

  // --- links ---

  // The chain of the children of a container is acyclic, next and prev are mutual inverses along it, its
  // head has no prev and its last node no next.
  lemma Linked(parent: Node, f: Forest)
    requires Children(parent, f)
    ensures var e := Entries(f);
      && (e == [] <==> parent.child == null)
      && (e != [] ==> parent.child == e[0].n && e[0].n.prev == null && e[|e| - 1].n.next == null)
      && (forall i | 0 < i < |e| :: e[i - 1].n.next == e[i].n && e[i].n.prev == e[i - 1].n)
      && (forall i, j | 0 <= i < j < |e| :: e[i].n != e[j].n)
  {
    LinkedFrom(f, parent.child, null);
    NoRepeats(f);
  }

  lemma {:induction false} LinkedFrom(f: Forest, head: Node?, prev: Node?)
    requires Chain(f, head, prev, null)
    ensures var e := Entries(f);
      && (e == [] <==> head == null)
      && (e != [] ==> head == e[0].n && e[0].n.prev == prev && e[|e| - 1].n.next == null)
      && (forall i | 0 < i < |e| :: e[i - 1].n.next == e[i].n && e[i].n.prev == e[i - 1].n)
    decreases f
  {
    if f.Cons? {
      LinkedFrom(f.rest, f.n.next, f.n);
    }
  }

  lemma {:induction false} NoRepeats(f: Forest)
    requires Distinct(f)
    ensures forall i | 0 <= i < |Entries(f)| :: Entries(f)[i].n in Blocks(f)
    ensures forall i, j | 0 <= i < j < |Entries(f)| :: Entries(f)[i].n != Entries(f)[j].n
  {
    if f.Cons? {
      NoRepeats(f.rest);
    }
  }

  // --- detaching and inserting again ---

  lemma {:induction false} PutBack(f: Forest, k: nat)
    requires Drop(f, k).Cons?
    ensures var e := Drop(f, k); Inserted(Removed(f, k), k, e.n, e.item, e.kids) == f
    ensures Tops(Removed(f, k)) <= Tops(f) && Drop(f, k).n in Tops(f)
  {
    if k > 0 {
      PutBack(f.rest, k - 1);
    } else {
      Starts(f);
      Starts(f.rest);
    }
  }

  // The next and prev of every node of a chain.
  ghost function Links(f: Forest): seq<(Node?, Node?)>
    reads Tops(f)
  {
    if f.Nil? then [] else [(f.n.next, f.n.prev)] + Links(f.rest)
  }

  ghost function LinksOf(f: Forest, prev: Node?, end: Node?): seq<(Node?, Node?)> {
    if f.Nil? then [] else [(Head(f.rest, end), prev)] + LinksOf(f.rest, f.n, end)
  }

  lemma {:induction false} ChainLinks(f: Forest, head: Node?, prev: Node?, end: Node?)
    requires Chain(f, head, prev, end)
    ensures head == Head(f, end) && Links(f) == LinksOf(f, prev, end)
    decreases f
  {
    if f.Cons? {
      ChainLinks(f.rest, f.n.next, f.n, end);
    }
  }

  // Detaching an item and inserting it at the same place restores every link.
  method DetachAndInsert(parent: Node, which: int, ghost f: Forest)
    requires Children(parent, f) && At(which) < Size(f)
    modifies parent`child, Tops(f)`next, Tops(f)`prev
    ensures Children(parent, f) && parent.child == old(parent.child) && Links(f) == old(Links(f))
  {
    hide Is, Chain, Distinct, DistinctNode, Blocks, Append, Tops, Take, Drop;
    ghost var k := At(which);
    ChainLinks(f, parent.child, null, null);
    TakeDrop(f, k);
    PutBack(f, k);
    ghost var e := Drop(f, k);
    var c := DetachItemFromArray(parent, which, f);
    InsertItemInArray(parent, which, c, Removed(f, k), e.item, e.kids);
    ChainLinks(f, parent.child, null, null);
  }
}
