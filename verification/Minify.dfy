/**
  `cJSON_Minify` (src/cJSON.c, lines 735-750): white space and comments are removed in place, string
  literals are kept. The method works on the array; its result is given by MinifyFrom, of which the
  properties are proved: it removes exactly what stands between tokens.
 */
module Minify {
  import opened JsonValue
  import opened CMemory
  import opened Parsing

  // What is left of a text, or Beyond when the source would read past its end.
  datatype Kept = Kept(text: string) | Beyond {
    function After(s: string): Kept {
      if Kept? then Kept(s + text) else Beyond
    }
  }

  predicate Space(c: char) {
    c == ' ' || c == '\t' || c == '\r' || c == '\n'
  }

  function LineEnd(t: string, i: nat): (j: nat)
    requires i <= |t|
    ensures i <= j <= |t| && (j < |t| ==> t[j] == '\n') && (i < |t| && t[i] != '\n' ==> i < j)
    decreases |t| - i
  {
    if i < |t| && t[i] != '\n' then LineEnd(t, i + 1) else i
  }

  // The first position from i on where a star is followed by a slash, or |t|.
  function BlockEnd(t: string, i: nat): (j: nat)
    requires i <= |t|
    ensures i <= j <= |t| && (j < |t| ==> j + 1 < |t|)
    decreases |t| - i
  {
    if i == |t| || (t[i] == '*' && Peek(t, i + 1) == '/') then i else BlockEnd(t, i + 1)
  }

  // The position after the quote that closes a literal, or |t| + 1 when none does.
  function LiteralEnd(t: string, i: nat): (j: nat)
    requires i <= |t| + 1
    ensures i <= j <= |t| + 1
    decreases |t| + 1 - i
  {
    if i >= |t| then |t| + 1
    else if t[i] == '\"' then i + 1
    else LiteralEnd(t, if t[i] == '\\' then i + 2 else i + 1)
  }

  // What one turn of the main loop copies and where it goes on; past |t| when it leaves the text.
  datatype Turn = Turn(out: string, next: nat)

  function TurnAt(t: string, i: nat): (u: Turn)
    requires i < |t|
    ensures i < u.next
  {
    if Space(t[i]) then Turn("", i + 1)
    else if t[i] == '/' && Peek(t, i + 1) == '/' then Turn("", LineEnd(t, i))
    else if t[i] == '/' && Peek(t, i + 1) == '*' then Turn("", BlockEnd(t, i) + 2)
    else if t[i] == '\"' then
      var j := LiteralEnd(t, i + 1);
      Turn(if j <= |t| then t[i..j] else "", j)
    else Turn([t[i]], i + 1)
  }

  // The text from i on, minified.
  function MinifyFrom(t: string, i: nat): Kept
    requires i <= |t|
    decreases |t| - i
  {
    if i == |t| then Kept("")
    else
      var u := TurnAt(t, i);
      if u.next > |t| then Beyond else MinifyFrom(t, u.next).After(u.out)
  }

  // --- the method ---

  // The C string t in a is replaced by its minified text; nothing after its terminator changes.
  method Minify(a: array<char>, ghost t: string)
    requires CString(t) && Holds(a, 0, t) && MinifyFrom(t, 0).Kept?
    modifies a
    ensures Holds(a, 0, MinifyFrom(t, 0).text)
    ensures |MinifyFrom(t, 0).text| <= |t|
    ensures forall k :: |t| < k < a.Length ==> a[k] == old(a[k])
  {
    hide MinifyFrom, TurnAt, Kept.After;
    var json, into := 0, 0;
    ghost var out, s := "", a[..];
    Chars(s, t);
    Ends(t);
    while a[json] != '\0'
      invariant into == |out| <= json <= |t| < a.Length == |s| && a[..into] == out
      invariant forall k :: json <= k < |s| ==> a[k] == s[k]
      invariant MinifyFrom(t, json).Kept? && MinifyFrom(t, 0) == MinifyFrom(t, json).After(out)
      decreases |t| - json
    {
      OneTurn(t, json, out);
      out := out + TurnAt(t, json).out;
      json, into := Advance(a, json, into, t);
    }
    a[into] := '\0';
    assert MinifyFrom(t, 0) == Kept(out);
    assert a[..into] == out;
  }

  // The body of the main loop.
  method Advance(a: array<char>, json: nat, into: nat, ghost t: string) returns (next: nat, to: nat)
    requires CString(t) && into <= json < |t| < a.Length && TurnAt(t, json).next <= |t|
    requires forall k :: json <= k <= |t| ==> a[k] == Peek(t, k)
    modifies a
    ensures next == TurnAt(t, json).next && to == into + |TurnAt(t, json).out| <= next
    ensures a[..to] == old(a[..into]) + TurnAt(t, json).out
    ensures forall k :: next <= k < a.Length ==> a[k] == old(a[k])
  {
    hide LineEnd, BlockEnd, LiteralEnd;
    next, to := json, into;
    if a[json] == ' ' || a[json] == '\t' || a[json] == '\r' || a[json] == '\n' {
      next := json + 1;
    } else if a[json] == '/' && a[json + 1] == '/' {
      next := SkipLine(a, json, t);
    } else if a[json] == '/' && a[json + 1] == '*' {
      next := SkipBlock(a, json, t);
    } else if a[json] == '\"' {
      next, to := CopyLiteral(a, json, into, t);
    } else {
      a[into] := a[json];
      next, to := json + 1, into + 1;
    }
  }

  // Moves to the end of a line comment.
  method SkipLine(a: array<char>, json: nat, ghost t: string) returns (next: nat)
    requires CString(t) && json <= |t| < a.Length
    requires forall k :: json <= k <= |t| ==> a[k] == Peek(t, k)
    ensures next == LineEnd(t, json)
  {
    next := json;
    Terminated(t);
    while a[next] != '\0' && a[next] != '\n'
      invariant json <= next <= |t| && LineEnd(t, next) == LineEnd(t, json)
      decreases |t| - next
    {
      next := next + 1;
    }
  }

  // Moves past a block comment, its end mark included.
  method SkipBlock(a: array<char>, json: nat, ghost t: string) returns (next: nat)
    requires CString(t) && json <= |t| < a.Length
    requires forall k :: json <= k <= |t| ==> a[k] == Peek(t, k)
    ensures next == BlockEnd(t, json) + 2
  {
    next := json;
    Terminated(t);
    while a[next] != '\0' && !(a[next] == '*' && a[next + 1] == '/')
      invariant json <= next <= |t| && BlockEnd(t, next) == BlockEnd(t, json)
      decreases |t| - next
    {
      next := next + 1;
    }
    next := next + 2;
  }

  // Copies a string literal, quotes included, down to position into.
  method CopyLiteral(a: array<char>, json: nat, into: nat, ghost t: string) returns (next: nat, to: nat)
    requires CString(t) && into <= json < |t| < a.Length && t[json] == '\"'
    requires forall k :: json <= k <= |t| ==> a[k] == Peek(t, k)
    requires LiteralEnd(t, json + 1) <= |t|
    modifies a
    ensures next == LiteralEnd(t, json + 1) && to == into + (next - json)
    ensures a[..to] == old(a[..into]) + t[json..next]
    ensures forall k :: next <= k < a.Length ==> a[k] == old(a[k])
  {
    hide LiteralEnd;
    ghost var before := a[..into];
    Terminated(t);
    assert before + t[json..json] == before;
    next, to := Put(a, json, into, before, json, t);
    while a[next] != '\0' && a[next] != '\"'
      invariant json < next <= |t| && to == into + (next - json) && a[..to] == before + t[json..next]
      invariant forall k :: next <= k < a.Length ==> a[k] == old(a[k])
      invariant LiteralEnd(t, next) == LiteralEnd(t, json + 1)
      decreases |t| - next
    {
      LiteralStep(t, next);
      if a[next] == '\\' {
        next, to := Put(a, next, to, before, json, t);
      }
      next, to := Put(a, next, to, before, json, t);
    }
    LiteralEnds(t, next);
    next, to := Put(a, next, to, before, json, t);
  }

  // Copies one char of a literal, when `before` and t from position start on stand below into.
  method Put(a: array<char>, json: nat, into: nat, ghost before: string, ghost start: nat, ghost t: string)
    returns (next: nat, to: nat)
    requires start <= json < |t| < a.Length && into == |before| + (json - start) <= json
    requires a[..into] == before + t[start..json] && a[json] == t[json]
    modifies a
    ensures next == json + 1 && to == into + 1 && a[..to] == before + t[start..next]
    ensures forall k :: next <= k < a.Length ==> a[k] == old(a[k])
  {
    a[into] := a[json];
    next, to := json + 1, into + 1;
    assert a[..to] == a[..into] + [t[json]];
    assert t[start..next] == t[start..json] + [t[json]];
  }

  lemma LiteralEnds(t: string, i: nat)
    requires i <= |t|
    ensures i == |t| ==> LiteralEnd(t, i) == |t| + 1
    ensures i < |t| && t[i] == '\"' ==> LiteralEnd(t, i) == i + 1
  {
  }

  lemma LiteralStep(t: string, i: nat)
    requires i < |t| && t[i] != '\"' && LiteralEnd(t, i) <= |t|
    ensures var j := if t[i] == '\\' then i + 2 else i + 1;
      j <= |t| && LiteralEnd(t, j) == LiteralEnd(t, i)
  {
  }

  lemma Ends(t: string)
    ensures MinifyFrom(t, 0) == MinifyFrom(t, 0).After("")
    ensures forall out: string :: MinifyFrom(t, |t|).After(out) == Kept(out)
  {
    forall out: string
      ensures MinifyFrom(t, |t|).After(out) == Kept(out)
    {
      assert out + "" == out;
    }
    if MinifyFrom(t, 0).Kept? {
      assert "" + MinifyFrom(t, 0).text == MinifyFrom(t, 0).text;
    }
  }

  lemma OneTurn(t: string, i: nat, out: string)
    requires i < |t| && MinifyFrom(t, i).Kept? && MinifyFrom(t, 0) == MinifyFrom(t, i).After(out)
    ensures var u := TurnAt(t, i);
      && u.next <= |t| && MinifyFrom(t, u.next).Kept?
      && MinifyFrom(t, 0) == MinifyFrom(t, u.next).After(out + u.out)
  {
    var u := TurnAt(t, i);
    assert out + (u.out + MinifyFrom(t, u.next).text) == (out + u.out) + MinifyFrom(t, u.next).text;
  }

  lemma Terminated(t: string)
    requires CString(t)
    ensures forall k :: 0 <= k < |t| ==> t[k] != '\0'
  {
    forall k | 0 <= k < |t|
      ensures t[k] != '\0'
    {
      assert t[k] in t;
    }
  }

  lemma Chars(s: string, t: string)
    requires CString(t) && |t| < |s| && s[..|t|] == t && s[|t|] == '\0'
    ensures forall k :: 0 <= k <= |t| ==> s[k] == Peek(t, k)
    ensures forall k :: 0 <= k < |t| ==> t[k] != '\0'
  {
    Terminated(t);
    forall k | 0 <= k < |t|
      ensures s[k] == t[k]
    {
      assert s[..|t|][k] == t[k];
    }
  }
}
