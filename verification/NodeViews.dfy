/**
  What can be read of a tree of nodes, whoever owns its parts: a chain as the printers and `cJSON_Duplicate`
  walk it, along child and next.
 */
module NodeViews {
  import opened JsonValue
  import opened CMemory
  import opened Nodes

  ghost predicate Shows(f: Forest, head: Node?)
    reads Blocks(f)
    decreases f, 0
  {
    match f
    case Nil => head == null
    case Cons(n, it, kids, rest) => head == n && ShowsNode(n, it, kids) && Shows(rest, n.next)
  }

  ghost predicate ShowsNode(n: Node, it: Item, kids: Forest)
    reads Own(n, it, kids)
    decreases kids, 1
  {
    && n.kind == it.kind && n.isReference == it.reference && n.valueint == it.integer
    && n.valuedouble == it.number
    && Stored(n.name, it.name) && Stored(n.valuestring, it.val) && Shows(kids, n.child)
  }

  // A chain without references shows what it holds.
  lemma {:induction false} PlainShows(f: Forest, head: Node?, prev: Node?)
    requires Chain(f, head, prev, null) && Plain(f)
    ensures Shows(f, head)
    decreases f
  {
    if f.Cons? {
      if f.n.child != null || f.kids.Cons? {
        PlainShows(f.kids, f.n.child, null);
      }
      PlainShows(f.rest, f.n.next, f.n);
    }
  }

  // An owned item without references shows what it owns.
  lemma OwnedShows(n: Node, it: Item, kids: Forest)
    requires Is(n, it, kids) && !it.reference && Plain(kids)
    ensures ShowsNode(n, it, kids)
  {
    PlainShows(kids, n.child, null);
  }

  lemma ShowsEnd(f: Forest, head: Node?)
    requires Shows(f, head)
    ensures head == null <==> f.Nil?
  {
  }

  lemma ShowsCons(f: Forest, head: Node)
    requires Shows(f, head)
    ensures f.Cons? && f.n == head && ShowsNode(head, f.item, f.kids) && Shows(f.rest, head.next)
    ensures Blocks(f) == Own(f.n, f.item, f.kids) + Blocks(f.rest)
  {
  }

  // `cJSON_GetArraySize`, and the count that the printers begin with.
  method ArraySize(first: Node?, ghost f: Forest) returns (n: nat)
    requires Shows(f, first)
    ensures n == Size(f)
  {
    hide Shows;
    n := 0;
    var child := first;
    ghost var left := f;
    ShowsEnd(left, child);
    while child != null
      invariant Shows(left, child) && Size(f) == n + Size(left) && (child == null <==> left.Nil?)
      decreases left
    {
      ShowsCons(left, child);
      n := n + 1;
      left := left.rest;
      child := child.next;
      ShowsEnd(left, child);
    }
  }

  // --- what can be printed ---

  // The source dereferences the name of every member and the value of every string, and prints the int of a
  // number that is equal to it.
  ghost predicate Ready(it: Item, kids: Forest)
    decreases kids, 1
  {
    && (it.kind == KString ==> it.val.Block?)
    && (it.kind == KNumber && Int32(it.number) ==> it.integer == it.number.Floor)
    && (it.kind == KArray || it.kind == KObject ==> AllReady(kids, it.kind == KObject))
  }

  ghost predicate AllReady(f: Forest, named: bool)
    decreases f, 0
  {
    f.Cons? ==> (named ==> f.item.name.Block?) && Ready(f.item, f.kids) && AllReady(f.rest, named)
  }

  // What the parser leaves in the other fields of an item: a string in strings only, names in the members of objects
  // only, the truncated double in the int of a number, 1 in that of true, and zeroes otherwise.
  ghost predicate Made(it: Item, kids: Forest)
    decreases kids, 1
  {
    && (it.val.Block? <==> it.kind == KString)
    && (it.kind == KNumber ==> it.integer == Truncate(it.number))
    && (it.kind != KNumber ==> it.number == 0.0 && it.integer == if it.kind == KTrue then 1 else 0)
    && if it.kind == KArray || it.kind == KObject then AllMade(kids, it.kind == KObject) else kids == Nil
  }

  ghost predicate AllMade(f: Forest, named: bool)
    decreases f, 0
  {
    f.Cons? ==> (named <==> f.item.name.Block?) && Made(f.item, f.kids) && AllMade(f.rest, named)
  }

  // What the parser makes of a value: an item that has the value.
  ghost predicate Means(it: Item, kids: Forest, v: Json) {
    ValueOf(it, kids) == v && Made(it, kids)
  }

  // It is ready to be printed.
  lemma {:induction false} MadeReady(it: Item, kids: Forest)
    requires Made(it, kids)
    ensures Ready(it, kids)
    decreases kids, 1
  {
    if it.kind == KArray || it.kind == KObject {
      AllMadeReady(kids, it.kind == KObject);
    }
  }

  lemma {:induction false} AllMadeReady(f: Forest, named: bool)
    requires AllMade(f, named)
    ensures AllReady(f, named)
    decreases f, 0
  {
    if f.Cons? {
      MadeReady(f.item, f.kids);
      AllMadeReady(f.rest, named);
    }
  }

  lemma {:induction false} AppendMade(f: Forest, g: Forest, named: bool)
    ensures AllMade(Append(f, g), named) <==> AllMade(f, named) && AllMade(g, named)
  {
    if f.Cons? {
      AppendMade(f.rest, g, named);
    }
  }

  ghost predicate PrintableNode(n: Node, it: Item, kids: Forest)
    reads Own(n, it, kids)
  {
    ShowsNode(n, it, kids) && Ready(it, kids) && Printable(ValueOf(it, kids))
  }

  ghost predicate PrintableItems(f: Forest, head: Node?)
    reads Blocks(f)
  {
    Shows(f, head) && AllReady(f, false) && PrintableElems(ElemsOf(f))
  }

  ghost predicate PrintableFields(f: Forest, head: Node?)
    reads Blocks(f)
  {
    Shows(f, head) && AllReady(f, true) && PrintableMembers(MembersOf(f))
  }

  lemma NodeParts(n: Node, it: Item, kids: Forest)
    requires PrintableNode(n, it, kids)
    ensures n.kind == it.kind
    ensures n.kind == KNumber ==>
      ValueOf(it, kids) == Num(n.valuedouble) && Int32(n.valuedouble) && n.valueint == n.valuedouble.Floor
    ensures n.kind == KString ==>
      it.val.Block? && n.valuestring == it.val.a && CString(it.val.text) && Holds(it.val.a, 0, it.val.text)
    ensures n.kind == KArray ==> PrintableItems(kids, n.child)
    ensures n.kind == KObject ==> PrintableFields(kids, n.child)
  {
  }

  lemma IsPrintable(n: Node, it: Item, kids: Forest)
    requires PrintableNode(n, it, kids)
    ensures Printable(ValueOf(it, kids))
  {
  }

  lemma RootPrintable(n: Node, f: Forest)
    requires f.Cons? && f.n == n && f.rest == Nil && Chain(f, n, null, null) && Plain(f)
    requires Made(f.item, f.kids) && Printable(ValueOf(f.item, f.kids))
    ensures PrintableNode(n, f.item, f.kids)
  {
    hide Made, Ready, Printable, ValueOf, ShowsNode;
    MadeReady(f.item, f.kids);
    OwnedShows(n, f.item, f.kids);
  }

  lemma FirstItem(f: Forest, head: Node)
    requires PrintableItems(f, head)
    ensures f.Cons? && f.n == head && PrintableNode(head, f.item, f.kids) && PrintableItems(f.rest, head.next)
    ensures ElemsOf(f) == ECons(ValueOf(f.item, f.kids), ElemsOf(f.rest))
    ensures head.next != null <==> ElemsOf(f.rest).ECons?
    ensures Blocks(f) == Own(f.n, f.item, f.kids) + Blocks(f.rest)
  {
    ShowsEnd(f.rest, head.next);
  }

  lemma NoItem(f: Forest, head: Node?)
    requires PrintableItems(f, head)
    ensures head == null <==> ElemsOf(f).ENil?
    ensures head == null <==> f.Nil?
  {
  }

  lemma FirstField(f: Forest, head: Node)
    requires PrintableFields(f, head)
    ensures f.Cons? && f.n == head && PrintableNode(head, f.item, f.kids) && PrintableFields(f.rest, head.next)
    ensures f.item.name.Block? && head.name == f.item.name.a
    ensures CString(f.item.name.text) && Holds(f.item.name.a, 0, f.item.name.text)
    ensures MembersOf(f) == MCons(f.item.name.text, ValueOf(f.item, f.kids), MembersOf(f.rest))
    ensures head.next != null <==> MembersOf(f.rest).MCons?
    ensures Blocks(f) == Own(f.n, f.item, f.kids) + Blocks(f.rest)
  {
    ShowsEnd(f.rest, head.next);
  }

  lemma NoField(f: Forest, head: Node?)
    requires PrintableFields(f, head)
    ensures head == null <==> MembersOf(f).MNil?
    ensures head == null <==> f.Nil?
  {
  }
}
