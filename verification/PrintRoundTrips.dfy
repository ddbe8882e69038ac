/**
  The printers, the parser and the minifier together, on trees of nodes.
 */
module PrintRoundTrips {
  import opened JsonValue
  import opened CMemory
  import opened Parsing
  import opened RenderText
  import opened RoundTrip
  import opened Soundness
  import opened MinifyDocuments
  import opened Nodes
  import opened NodeViews
  import opened NodeDocuments
  import PrintAllocated
  import PrintBuffered
  import PrintBuffers

  // Printing a tree, parsing the text and freeing it gives a new tree with the same value, and nothing else is new.
  method PrintAndParse(h: Heap, item: Node, fmt: bool, ghost it: Item, ghost kids: Forest)
    returns (c: Node?, ghost f: Forest)
    requires PrintableNode(item, it, kids)
    modifies h
    ensures c != null && f.Cons? && f.n == c && f.rest == Nil && Chain(f, c, null, null) && Distinct(f) && Plain(f)
    ensures fresh(Blocks(f)) && h.live == old(h.live) + Blocks(f)
    ensures ValueOf(f.item, f.kids) == ValueOf(it, kids) && PrintableNode(c, f.item, f.kids)
  {
    hide Render, Parse, Holds, PrintableNode, ValueOf, Chain, Distinct, Blocks, Plain, Ready, Made, Printable;
    ghost var text := Render(ValueOf(it, kids), fmt, 0);
    IsPrintable(item, it, kids);
    RenderCString(ValueOf(it, kids), fmt, 0);
    PrintParse(ValueOf(it, kids), fmt, true);
    var out := PrintAllocated.Print(h, item, fmt, it, kids);
    var s := CMemory.Text(out, text);
    var end;
    c, end, f := ParseWithOpts(h, s, true);
    h.FreeBlock(out);
    RootPrintable(c, f);
  }

  // Parsing a document of null, booleans, int32 numbers, C strings, arrays and objects, and printing what it returns,
  // gives the text of its value.
  method ParseAndPrint(h: Heap, value: string, fmt: bool) returns (c: Node?, out: array?<char>, ghost f: Forest)
    requires CString(value) && CompleteEscapes(value)
    requires Parse(value, true).Parsed? ==> Printable(Parse(value, true).value)
    modifies h
    ensures out != null <==> Parse(value, true).Parsed?
    ensures out != null ==> Holds(out, 0, Render(Parse(value, true).value, fmt, 0))
    ensures out != null ==> c != null && f.Cons? && PrintableNode(c, f.item, f.kids)
    ensures out != null ==> Chain(f, c, null, null) && Distinct(f) && fresh(Blocks(f)) && fresh(out)
    ensures out == null ==> h.live == old(h.live)
    ensures out != null ==>
      h.live == old(h.live) + Blocks(f) + {out} && old(h.live) !! Blocks(f) + {out} && out !in Blocks(f)
  {
    hide Render, Parse, Holds, ValueOf, Chain, Distinct, Blocks, Plain, Printable, Made, CompleteEscapes;
    hide PrintableNode, IsDocument;
    var end;
    c, end, f := ParseComplete(h, value, true);
    out := null;
    if c != null {
      RootPrintable(c, f);
      InMemory(f.kids);
      assert forall o <- Own(c, f.item, f.kids) :: allocated(o);
      InMemory(f);
      HeapApart(h, f);
      HeapApart(h, f.kids);
      out := PrintAllocated.Print(h, c, fmt, f.item, f.kids);
    }
  }

  // Parsing a text, printing the tree, deleting it and freeing the print: the text of the value is what is left.
  method Reformat(h: Heap, value: string, fmt: bool) returns (ok: bool, text: string)
    requires CString(value) && CompleteEscapes(value)
    requires Parse(value, true).Parsed? ==> Printable(Parse(value, true).value)
    modifies h
    ensures ok <==> Parse(value, true).Parsed?
    ensures ok ==> text == Render(Parse(value, true).value, fmt, 0)
    ensures h.live == old(h.live)
  {
    hide Render, Parse, Holds, ValueOf, Chain, Distinct, Blocks, Printable, Made, CompleteEscapes, PrintableNode;
    var c, out;
    ghost var f;
    c, out, f := ParseAndPrint(h, value, fmt);
    ok, text := out != null, "";
    if ok {
      InMemory(f);
      HeapApart(h, f);
      RenderCString(Parse(value, true).value, fmt, 0);
      text := CMemory.Text(out, Render(Parse(value, true).value, fmt, 0));
      h.FreeBlock(out);
      Delete(h, c, f, null);
    }
  }

  // Both printers write the same text, whatever the buffer starts with.
  method PrintTwice(h: Heap, item: Node, prebuffer: nat, fmt: bool, ghost it: Item, ghost kids: Forest)
    returns (simple: array<char>, buffered: array<char>, start: nat)
    requires PrintableNode(item, it, kids) && prebuffer >= 1
    requires |Render(ValueOf(it, kids), fmt, 0)| + PrintBuffered.SLACK <= PrintBuffers.MAX_SIZE
    modifies h
    ensures var text := Render(ValueOf(it, kids), fmt, 0);
      CString(text) && Holds(simple, 0, text) && start == 0 && Holds(buffered, start, text)
    ensures h.live == old(h.live) + {simple} + {buffered}
  {
    hide Render, Holds, PrintableNode, ValueOf, Blocks;
    InMemory(kids);
    assert forall o <- Own(item, it, kids) :: allocated(o);
    IsPrintable(item, it, kids);
    RenderCString(ValueOf(it, kids), fmt, 0);
    HeapApart(h, kids);
    simple := PrintAllocated.Print(h, item, fmt, it, kids);
    buffered, start := PrintBuffered.Print(h, item, prebuffer, fmt, it, kids);
  }

  // Minifying the formatted text in place leaves the unformatted one.
  method PrintAndMinify(h: Heap, item: Node, ghost it: Item, ghost kids: Forest) returns (out: array<char>)
    requires PrintableNode(item, it, kids)
    modifies h
    ensures Holds(out, 0, Render(ValueOf(it, kids), false, 0)) && h.live == old(h.live) + {out}
  {
    hide Render, Holds, PrintableNode, ValueOf;
    IsPrintable(item, it, kids);
    RenderCString(ValueOf(it, kids), true, 0);
    MinifyPretty(ValueOf(it, kids));
    out := PrintAllocated.Print(h, item, true, it, kids);
    Minify.Minify(out, Render(ValueOf(it, kids), true, 0));
  }
}
