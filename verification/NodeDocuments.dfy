/**
  `cJSON_ParseWithOpts`: what parsing a document allocates, and that nothing of it is lost.
 */
module NodeDocuments {
  import opened JsonValue
  import opened Parsing
  import opened StringScans
  import opened Soundness
  import opened Nodes
  import opened NodeViews
  import opened NodeParser

  // `cJSON_ParseWithOpts`. A failed parse leaves the allocator as it was; a successful one returns a tree
  // that owns every block that is new, each exactly once, and is as Made says.
  method ParseWithOpts(h: Heap, value: string, nullTerminated: bool) returns (c: Node?, end: nat, ghost f: Forest)
    requires CString(value) && !Parse(value, nullTerminated).Undefined?
    modifies h
    ensures c == null <==> Parse(value, nullTerminated).Rejected?
    ensures c == null ==> h.live == old(h.live)
    ensures c != null ==> f.Cons? && f.n == c && f.rest == Nil && Chain(f, c, null, null) && Distinct(f) && Plain(f)
    ensures c != null ==> fresh(Blocks(f)) && Blocks(f) !! old(h.live) && h.live == old(h.live) + Blocks(f)
    ensures c != null ==> Parse(value, nullTerminated) == Parsed(ValueOf(f.item, f.kids), end) && Made(f.item, f.kids)
  {
    hide ParseValue, Skip, Chain, Is, Distinct, DistinctNode, Plain, Blocks, Complete, Unset, Made;
    ghost var it, kids;
    c, it := NewUnset(h);
    ghost var it0 := it;
    var start := SkipSpace(value, 0);
    var ok;
    ok, end, it, kids := ParseValueInto(h, c, value, start, it);
    f := One(c, it, kids);
    Alone(h, old(h.live), c, it0, it, kids);
    HeapApart(h, f);
    if !ok {
      Delete(h, c, f, null);
      return null, 0, f;
    }
    if nullTerminated {
      end := SkipSpace(value, end);
      if Peek(value, end) != '\0' {
        Delete(h, c, f, null);
        return null, 0, f;
      }
    }
  }

  // A filled root is a chain of its own, which owns all that is new.
  lemma Alone(h: Heap, live0: set<object>, c: Node, it0: Item, it: Item, kids: Forest)
    requires Complete(h, live0 + {c}, c, it0, it, kids) && it0.name == NoBlock && c.next == null && c.prev == null
    requires c !in live0
    ensures Chain(One(c, it, kids), c, null, null) && Distinct(One(c, it, kids)) && Plain(One(c, it, kids))
    ensures Blocks(One(c, it, kids)) !! live0 && h.live == live0 + Blocks(One(c, it, kids))
  {
    hide Chain, Is, Distinct, DistinctNode, Plain, Blocks;
    ChainOne(c, it, kids, null, null);
    LastOne(c, it, kids, null);
  }

  // The same with a condition on the text that can be checked before the call.
  method ParseComplete(h: Heap, value: string, nullTerminated: bool) returns (c: Node?, end: nat, ghost f: Forest)
    requires CString(value) && CompleteEscapes(value)
    modifies h
    ensures c == null <==> Parse(value, nullTerminated).Rejected?
    ensures nullTerminated ==> (c != null <==> exists before, s, after :: IsDocument(value, before, s, after))
    ensures c == null ==> h.live == old(h.live)
    ensures c != null ==> f.Cons? && f.n == c && f.rest == Nil && Chain(f, c, null, null) && Distinct(f) && Plain(f)
    ensures c != null ==> fresh(Blocks(f)) && Blocks(f) !! old(h.live) && h.live == old(h.live) + Blocks(f)
    ensures c != null ==> Parse(value, nullTerminated) == Parsed(ValueOf(f.item, f.kids), end) && Made(f.item, f.kids)
  {
    hide Parse, IsDocument, StringsFrom, Chain, Distinct, Plain, Blocks, Made;
    Defined(value, nullTerminated);
    if nullTerminated {
      ExactLanguage(value, Null);
    }
    c, end, f := ParseWithOpts(h, value, nullTerminated);
  }

  // Parsing any text with complete escapes and deleting what it returns frees every block that was allocated.
  method ParseCompleteThenDelete(h: Heap, value: string, nullTerminated: bool)
    requires CString(value) && CompleteEscapes(value)
    modifies h
    ensures h.live == old(h.live)
  {
    Defined(value, nullTerminated);
    ParseThenDelete(h, value, nullTerminated);
  }

  // Parsing any text and deleting what it returns frees every block that was allocated.
  method ParseThenDelete(h: Heap, value: string, nullTerminated: bool)
    requires CString(value) && !Parse(value, nullTerminated).Undefined?
    modifies h
    ensures h.live == old(h.live)
  {
    hide Parse;
    var c, end;
    ghost var f;
    c, end, f := ParseWithOpts(h, value, nullTerminated);
    if c != null {
      Delete(h, c, f, null);
    }
  }
}
