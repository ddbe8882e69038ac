/**
  First occurrences: what `strstr` and `memstr` (src/usefull.c, lines 178-204) return.
 */
module Search {
  import opened JsonValue
  import opened CMemory

  // key occurs in t at position i.
  predicate At(t: string, i: int, key: string) {
    0 <= i && i + |key| <= |t| && t[i..i + |key|] == key
  }

  // The first occurrence of key from position i on, or -1.
  function Find(t: string, key: string, i: nat): (r: int)
    requires i <= |t|
    ensures r == -1 || (i <= r && At(t, r, key))
    ensures forall j | i <= j < (if r < 0 then |t| + 1 else r) :: !At(t, j, key)
    decreases |t| - i
  {
    if At(t, i, key) then i else if i == |t| then -1 else Find(t, key, i + 1)
  }

  lemma FindIs(t: string, key: string, i: nat, k: nat)
    requires i <= k && At(t, k, key) && forall j | i <= j < k :: !At(t, j, key)
    ensures Find(t, key, i) == k
  {
  }

  // Positions without an occurrence can be left out of a search.
  lemma FindFrom(t: string, key: string, i: nat, k: nat)
    requires i <= k <= |t| && forall j | i <= j < k :: !At(t, j, key)
    ensures Find(t, key, i) == Find(t, key, k)
  {
    var r, q := Find(t, key, i), Find(t, key, k);
    if r >= 0 {
      assert At(t, r, key);
    }
    if q >= 0 {
      assert At(t, q, key);
    }
  }

  // --- positions ---

  // s stands at the end of t, from position b on.
  predicate Ends(t: string, b: nat, s: string) {
    b <= |t| && t[b..] == s
  }

  lemma Itself(t: string)
    ensures Ends(t, 0, t)
  {
  }

  lemma EndsIn(t: string, b: nat, s: string)
    requires Ends(t, b, s)
    ensures |t| == b + |s|
  {
  }

  lemma Slice(t: string, b: nat, a: string, rest: string)
    requires Ends(t, b, a + rest)
    ensures b + |a| <= |t| && t[b..b + |a|] == a && t[b + |a|..] == rest
  {
    assert t[b..][..|a|] == t[b..b + |a|] && t[b..][|a|..] == t[b + |a|..];
  }

  // --- the library's loops ---

  // `memcmp(a + i, key, strlen(key)) == 0`
  method Matches(a: array<char>, i: nat, key: string) returns (same: bool)
    requires i + |key| <= a.Length
    ensures same <==> a[i..i + |key|] == key
  {
    for k := 0 to |key|
      invariant a[i..i + k] == key[..k]
    {
      assert a[i..i + |key|][k] == a[i + k];
      if a[i + k] != key[k] {
        return false;
      }
      assert a[i..i + k + 1] == a[i..i + k] + [a[i + k]];
    }
    assert key[..|key|] == key;
    return true;
  }

  // `memstr`, on the len bytes from position from on: the first occurrence, or -1 for NULL. The first byte is
  // compared before the rest.
  method MemStr(a: array<char>, from: nat, len: int, key: string) returns (p: int)
    requires from + len <= a.Length && (len < 0 ==> from <= a.Length)
    ensures len <= 0 || key == "" ==> p == -1
    ensures len > 0 && key != "" ==>
      var r := Find(a[from..from + len], key, 0);
      p == if r < 0 then -1 else from + r
  {
    if len <= 0 || key == "" {
      return -1;
    }
    ghost var t := a[from..from + len];
    var last := len - |key| + 1;
    var i := 0;
    while i < last
      invariant 0 <= i && forall j | 0 <= j < i :: !At(t, j, key)
    {
      assert t[i..i + |key|] == a[from + i..from + i + |key|];
      if a[from + i] == key[0] {
        var same := Matches(a, from + i, key);
        if same {
          FindIs(t, key, 0, i);
          return from + i;
        }
      } else {
        assert t[i..i + |key|][0] != key[0];
      }
      i := i + 1;
    }
    p := -1;
  }

  // `strstr` from position i of the C string t.
  method StrStr(a: array<char>, i: nat, key: string, ghost t: string) returns (p: int)
    requires CString(t) && Holds(a, 0, t) && i <= |t| && key != "" && CString(key)
    ensures p == Find(t, key, i)
  {
    p := i;
    CharsOf(a, t);
    while a[p] != '\0'
      invariant i <= p <= |t| && forall j | i <= j < p :: !At(t, j, key)
      decreases |t| - p
    {
      var same := Starts(a, p, key, t);
      if same {
        FindIs(t, key, i, p);
        return;
      }
      p := p + 1;
    }
    p := -1;
  }

  lemma Differs(t: string, p: nat, key: string, k: nat)
    requires k < |key| && (p + k >= |t| || t[p + k] != key[k])
    ensures !At(t, p, key)
  {
    if p + |key| <= |t| {
      assert t[p..p + |key|][k] == t[p + k];
    }
  }

  // The key stands at position p of the C string t; the comparison stops at the terminator.
  method Starts(a: array<char>, p: nat, key: string, ghost t: string) returns (same: bool)
    requires CString(t) && Holds(a, 0, t) && p <= |t| && CString(key)
    ensures same <==> At(t, p, key)
  {
    CharsOf(a, t);
    var k := 0;
    while k < |key|
      invariant k <= |key| && p + k <= |t| && t[p..p + k] == key[..k]
    {
      assert key[k] in key;
      if a[p + k] != key[k] {
        Differs(t, p, key, k);
        return false;
      }
      assert t[p..p + k + 1] == t[p..p + k] + [t[p + k]];
      k := k + 1;
    }
    assert key[..|key|] == key;
    return true;
  }
}
