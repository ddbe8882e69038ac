/**
  The C library calls and char writes that the printers use, on arrays of chars.
 */
module CMemory {
  import opened JsonValue

  // The C string s is stored in a from position i on.
  ghost predicate Holds(a: array<char>, i: nat, s: string)
    reads a
  {
    i + |s| < a.Length && a[i..i + |s|] == s && a[i + |s|] == '\0'
  }

  // The chars of a C string, one by one.
  lemma CharsOf(a: array<char>, t: string)
    requires CString(t) && Holds(a, 0, t)
    ensures |t| < a.Length && a[|t|] == '\0'
    ensures forall i | 0 <= i < |t| :: a[i] == t[i] && t[i] != '\0'
  {
    assert a[0..|t|] == t;
  }

  // `*ptr++ = c` for every char of s, from position at on.
  method Write(a: array<char>, at: nat, s: string)
    requires at + |s| <= a.Length
    modifies a
    ensures a[..at + |s|] == old(a[..at]) + s
    ensures forall k :: at + |s| <= k < a.Length ==> a[k] == old(a[k])
  {
    for k := 0 to |s|
      invariant a[..at + k] == old(a[..at]) + s[..k]
      invariant forall j :: at + k <= j < a.Length ==> a[j] == old(a[j])
    {
      a[at + k] := s[k];
      assert a[..at + k + 1] == a[..at + k] + [s[k]];
      assert s[..k + 1] == s[..k] + [s[k]];
    }
    assert s[..|s|] == s;
  }

  // `strcpy`
  method StrCpy(a: array<char>, at: nat, s: string)
    requires at + |s| < a.Length
    modifies a
    ensures a[..at + |s|] == old(a[..at]) + s && Holds(a, at, s)
    ensures forall k :: at + |s| < k < a.Length ==> a[k] == old(a[k])
  {
    Write(a, at, s);
    assert a[at..at + |s|] == a[..at + |s|][at..] == s;
    a[at + |s|] := '\0';
  }

  // `*ptr = 0`
  method PutNul(a: array<char>, at: nat)
    requires at < a.Length
    modifies a
    ensures a[..at] == old(a[..at])
  {
    a[at] := '\0';
  }

  // `memcpy` of the C string text that src holds, without its terminator.
  method CopyString(dst: array<char>, at: nat, src: array<char>, n: nat, ghost text: string)
    requires dst != src && Holds(src, 0, text) && n == |text| && at + n <= dst.Length
    modifies dst
    ensures dst[..at + n] == old(dst[..at]) + text
    ensures forall k :: at + n <= k < dst.Length ==> dst[k] == old(dst[k])
  {
    for k := 0 to n
      invariant dst[..at + k] == old(dst[..at]) + text[..k]
      invariant forall j :: at + k <= j < dst.Length ==> dst[j] == old(dst[j])
    {
      assert src[0..n][k] == text[k];
      dst[at + k] := src[k];
      assert dst[..at + k + 1] == dst[..at + k] + [text[k]];
      assert text[..k + 1] == text[..k] + [text[k]];
    }
    assert text[..n] == text;
  }

  // `strlen`
  method StrLen(a: array<char>, at: nat, ghost s: string) returns (n: nat)
    requires CString(s) && Holds(a, at, s)
    ensures n == |s|
  {
    n := 0;
    while a[at + n] != '\0'
      invariant n <= |s|
      decreases |s| - n
    {
      assert n < |s| by { assert a[at + |s|] == '\0'; }
      n := n + 1;
    }
  }

  // The C string in an array, as a value.
  method Text(a: array<char>, ghost t: string) returns (s: string)
    requires CString(t) && Holds(a, 0, t)
    ensures s == t
  {
    var n := StrLen(a, 0, t);
    s := a[..n];
    assert a[0..|t|] == a[..n];
  }
}
