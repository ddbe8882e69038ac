/**
  `printbuffer`, `ensure` and `update` (src/cJSON.c, lines 119-144): one growing buffer shared by all
  printing functions, and what its growth costs.
 */
module PrintBuffers {
  import opened Bits
  import opened JsonValue
  import opened CMemory
  import opened Nodes

  // Sizes above 2^30 do not survive `pow2gt` on a 32-bit int.
  const MAX_SIZE: nat := 0x4000_0000

  class PrintBuffer {
    const heap: Heap
    var buffer: array<char>
    var length: nat
    var offset: nat
    ghost var growths: nat  // how often `ensure` has replaced the buffer
    ghost var copied: nat   // how many chars it has copied in all

    // Growth is amortised: less than `length` chars have been copied so far.
    ghost predicate Valid()
      reads this, heap
    {
      && buffer.Length == length && offset <= length && buffer in heap.live
      && copied < length
      && if growths == 0 then copied == 0 else IsPow2(length)
    }

    // The text s has been emitted.
    ghost predicate Emitted(s: string)
      reads this`buffer, buffer
    {
      |s| <= buffer.Length && buffer[..|s|] == s
    }

    // The buffer holds the C string s.
    ghost predicate Terminated(s: string)
      reads this`buffer, buffer
    {
      Emitted(s) && |s| < buffer.Length && buffer[|s|] == '\0'
    }

    // What is live besides the buffer.
    ghost function Others(): set<object>
      reads this`buffer, heap
    {
      heap.live - {buffer}
    }

    constructor (h: Heap, prebuffer: nat)
      requires prebuffer >= 1
      modifies h
      ensures Valid() && fresh(buffer) && length == prebuffer && offset == 0 && growths == 0
      ensures heap == h && Others() == old(h.live)
    {
      heap := h;
      var block := h.Malloc(prebuffer);
      buffer := block;
      length := prebuffer;
      offset := 0;
      growths := 0;
      copied := 0;
    }

    // `ensure`: room for `needed` more chars. The old contents are kept; every growth after the first
    // at least doubles the buffer.
    method Ensure(needed: nat, ghost pre: string) returns (at: nat)
      requires Valid() && offset + needed <= MAX_SIZE
      requires Emitted(pre)
      modifies this, buffer, heap
      ensures Valid() && at == offset == old(offset) && offset + needed <= length
      ensures length == old(length) <==> old(offset) + needed <= old(length)
      ensures length == old(length) ==> buffer == old(buffer) && growths == old(growths) && copied == old(copied)
      ensures length != old(length) ==>
        && fresh(buffer) && IsPow2(length) && length > old(length)
        && growths == old(growths) + 1 && copied == old(copied) + old(length)
        && (old(growths) > 0 ==> length >= 2 * old(length))
        && (forall q: nat :: IsPow2(q) && old(offset) + needed <= q ==> length <= q)
      ensures old(length) <= buffer.Length && buffer[..old(length)] == old(buffer[..])
      ensures Emitted(pre) && Others() == old(Others())
    {
      var total := needed + offset;
      if total <= length {
        return offset;
      }
      var newSize := Pow2gt(total);
      if growths > 0 {
        Doubles(length, newSize);
      }
      var newBuffer := heap.Malloc(newSize);
      // memcpy(newbuffer, p->buffer, p->length)
      forall i | 0 <= i < length {
        newBuffer[i] := buffer[i];
      }
      growths, copied := growths + 1, copied + length;
      assert newBuffer[..length] == buffer[..];
      assert buffer[..|pre|] == buffer[..][..|pre|] == newBuffer[..length][..|pre|] == newBuffer[..|pre|];
      heap.FreeBlock(buffer);
      length := newSize;
      buffer := newBuffer;
      return offset;
    }

    // `update`: where the text that was last written ends.
    method Update(ghost pre: string, ghost s: string) returns (end: nat)
      requires CString(s) && Terminated(pre + s) && |pre| <= offset <= |pre + s|
      ensures end == |pre + s| < buffer.Length
    {
      ghost var rest := s[offset - |pre|..];
      assert buffer[offset..|pre + s|] == rest by {
        assert buffer[offset..|pre + s|] == buffer[..|pre + s|][offset..] == (pre + s)[offset..];
      }
      assert CString(rest);
      var n := StrLen(buffer, offset, rest);
      end := offset + n;
    }

    // Writes chars at the offset, after the text pre.
    method Put(s: string, ghost pre: string)
      requires Valid() && Emitted(pre) && offset == |pre| && offset + |s| <= length
      modifies buffer
      ensures Emitted(pre + s)
    {
      Write(buffer, offset, s);
      assert buffer[..offset] == pre ==> buffer[..offset + |s|] == pre + s;
    }

    // Writes chars and a terminator at the offset, after the text pre.
    method PutString(s: string, ghost pre: string)
      requires Valid() && Emitted(pre) && offset == |pre| && offset + |s| < length
      modifies buffer
      ensures Terminated(pre + s) && Emitted(pre + s)
    {
      StrCpy(buffer, offset, s);
    }
  }

  // The pattern of ensuring room, writing some chars and moving the offset behind them.
  method Emit(p: PrintBuffer, needed: nat, s: string, ghost pre: string)
    requires p.Valid() && p.Emitted(pre) && p.offset == |pre| && |s| <= needed && |pre| + needed <= MAX_SIZE
    modifies p, p.buffer, p.heap
    ensures p.Valid() && (p.buffer == old(p.buffer) || fresh(p.buffer)) && p.Others() == old(p.Others())
    ensures p.Emitted(pre + s) && p.offset == |pre + s|
  {
    var at := p.Ensure(needed, pre);
    p.Put(s, pre);
    p.offset := p.offset + |s|;
  }

  // The same with a terminator after the chars.
  method EmitString(p: PrintBuffer, s: string, ghost pre: string)
    requires p.Valid() && p.Emitted(pre) && p.offset == |pre| && |pre| + |s| < MAX_SIZE
    modifies p, p.buffer, p.heap
    ensures p.Valid() && (p.buffer == old(p.buffer) || fresh(p.buffer)) && p.Others() == old(p.Others())
    ensures p.Emitted(pre + s) && p.offset == |pre + s|
  {
    var at := p.Ensure(|s| + 1, pre);
    p.PutString(s, pre);
    p.offset := p.offset + |s|;
  }

  // A power of two above another one is at least twice as large.
  lemma Doubles(a: nat, b: nat)
    requires IsPow2(a) && IsPow2(b) && a < b
    ensures b >= 2 * a
  {
    var j: nat :| Pow2(j) == a;
    var k: nat :| Pow2(k) == b;
    if k <= j {
      PowMonotone(k, j);
    } else {
      PowMonotone(j + 1, k);
    }
  }

  // --- the cost of a run ---

  // The lengths of the buffer over a run: each request is offset + needed, and `ensure` keeps the
  // length or makes it the least power of two that is large enough.
  ghost predicate Grows(length: nat, request: nat, next: nat) {
    if request <= length then next == length
    else IsPow2(next) && request <= next && forall q: nat :: IsPow2(q) && request <= q ==> next <= q
  }

  ghost predicate Run(lengths: seq<nat>, requests: seq<nat>) {
    |lengths| == |requests| + 1 && forall i :: 0 <= i < |requests| ==> Grows(lengths[i], requests[i], lengths[i + 1])
  }

  // The chars copied by a run.
  ghost function Copied(lengths: seq<nat>): nat {
    if |lengths| < 2 then 0
    else
      var n := |lengths| - 1;
      Copied(lengths[..n]) + if lengths[n] == lengths[n - 1] then 0 else lengths[n - 1]
  }

  // Over any run of requests, fewer chars are copied than the final buffer holds; and once the length
  // is a power of two, it stays one and every change at least doubles it.
  lemma {:induction false} AmortisedGrowth(lengths: seq<nat>, requests: seq<nat>)
    requires Run(lengths, requests) && lengths[0] >= 1
    ensures Copied(lengths) < lengths[|requests|]
    ensures lengths[|requests|] == lengths[0] ==> Copied(lengths) == 0
    ensures forall i, j :: 0 <= i < j <= |requests| && lengths[i] != lengths[0] && lengths[j] != lengths[i] ==>
      lengths[j] >= 2 * lengths[i]
    decreases |requests|
  {
    hide Run, Grows, IsPow2;
    RunSize(lengths, requests);
    if |requests| > 0 {
      var n := |requests|;
      RunPrefix(lengths, requests);
      AmortisedGrowth(lengths[..n], requests[..n - 1]);
      Ascends(lengths, requests, 0, n - 1);
      Ascends(lengths, requests, n - 1, n);
    }
    forall i, j | 0 <= i < j <= |requests| && lengths[i] != lengths[0] && lengths[j] != lengths[i]
      ensures lengths[j] >= 2 * lengths[i]
    {
      LaterGrowthDoubles(lengths, requests, i, j);
    }
  }

  lemma RunSize(lengths: seq<nat>, requests: seq<nat>)
    requires Run(lengths, requests)
    ensures |lengths| == |requests| + 1
  {
  }

  lemma RunPrefix(lengths: seq<nat>, requests: seq<nat>)
    requires Run(lengths, requests) && |requests| > 0
    ensures Run(lengths[..|requests|], requests[..|requests| - 1])
  {
    forall i | 0 <= i < |requests| - 1
      ensures Grows(lengths[..|requests|][i], requests[..|requests| - 1][i], lengths[..|requests|][i + 1])
    {
      assert Grows(lengths[i], requests[i], lengths[i + 1]);
    }
  }

  lemma LaterGrowthDoubles(lengths: seq<nat>, requests: seq<nat>, i: nat, j: nat)
    requires Run(lengths, requests) && i < j <= |requests|
    requires lengths[i] != lengths[0] && lengths[j] != lengths[i]
    ensures lengths[j] >= 2 * lengths[i]
  {
    Ascends(lengths, requests, 0, i);
    Ascends(lengths, requests, i, j);
    PowersAfterFirst(lengths, requests);
    Doubles(lengths[i], lengths[j]);
  }

  lemma {:induction false} PowersAfterFirst(lengths: seq<nat>, requests: seq<nat>)
    requires Run(lengths, requests)
    ensures forall i :: 0 <= i <= |requests| ==> lengths[i] == lengths[0] || IsPow2(lengths[i])
  {
    for i := 0 to |requests|
      invariant forall k :: 0 <= k <= i ==> lengths[k] == lengths[0] || IsPow2(lengths[k])
    {
      assert Grows(lengths[i], requests[i], lengths[i + 1]);
    }
  }

  lemma {:induction false} Ascends(lengths: seq<nat>, requests: seq<nat>, i: nat, j: nat)
    requires Run(lengths, requests) && i <= j <= |requests|
    ensures lengths[i] <= lengths[j]
    decreases j
  {
    if i < j {
      Ascends(lengths, requests, i, j - 1);
      assert Grows(lengths[j - 1], requests[j - 1], lengths[j]);
    }
  }
}
