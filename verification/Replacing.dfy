/**
  `str_replace` (src/data_use.c, lines 343-400), with which the service undoes the escaping of '/' in file ids.
 */
module Replacing {
  import opened JsonValue
  import opened CMemory
  import opened Search

  // Every occurrence of key, from the left, becomes rep.
  function Replace(s: string, key: string, rep: string): string
    requires key != ""
    decreases |s|
  {
    var p := Find(s, key, 0);
    if p < 0 then s else s[..p] + rep + Replace(s[p + |key|..], key, rep)
  }

  lemma AtShift(s: string, key: string, i: nat, j: nat)
    requires i <= j && i <= |s|
    ensures At(s, j, key) <==> At(s[i..], j - i, key)
  {
    if j + |key| <= |s| {
      assert s[j..j + |key|] == s[i..][j - i..j - i + |key|];
    }
  }

  lemma FindShift(s: string, key: string, i: nat)
    requires i <= |s|
    ensures var p, r := Find(s, key, i), Find(s[i..], key, 0); p == if r < 0 then -1 else i + r
  {
    hide At;
    var p, r := Find(s, key, i), Find(s[i..], key, 0);
    FindFits(s, key, i);
    forall j: nat | i <= j ensures At(s, j, key) <==> At(s[i..], j - i, key) {
      AtShift(s, key, i, j);
    }
    if r >= 0 {
      FindIs(s, key, i, i + r);
    }
  }

  lemma FindFits(s: string, key: string, i: nat)
    requires i <= |s|
    ensures var p := Find(s, key, i); p >= 0 ==> p + |key| <= |s| && s[p..p + |key|] == key
  {
  }

  lemma FindBound(s: string, key: string, i: nat)
    requires i <= |s|
    ensures Find(s, key, i) >= 0 ==> i <= Find(s, key, i) <= |s| - |key|
  {
  }

  // --- char by char ---

  lemma ReplaceHere(s: string, key: string, rep: string)
    requires key != "" && At(s, 0, key)
    ensures Replace(s, key, rep) == rep + Replace(s[|key|..], key, rep)
  {
    assert Find(s, key, 0) == 0;
    assert s[..0] + rep == rep;
  }

  lemma ReplaceLater(s: string, key: string, rep: string)
    requires key != "" && s != "" && !At(s, 0, key)
    ensures Replace(s, key, rep) == [s[0]] + Replace(s[1..], key, rep)
  {
    hide At, Find, Replace;
    FindShift(s, key, 1);
    FindBound(s[1..], key, 0);
    FindFrom(s, key, 0, 1);
    var r := Find(s[1..], key, 0);
    if r >= 0 {
      var before, rest := s[1..][..r], s[1 + r + |key|..];
      AfterHead(s, r, r + |key|);
      ReplaceFirst(s, key, rep, 1 + r, [s[0]] + before, rest);
      ReplaceFirst(s[1..], key, rep, r, before, rest);
      assert [s[0]] + before + rep + Replace(rest, key, rep) == [s[0]] + (before + rep + Replace(rest, key, rep));
    } else {
      ReplaceNothing(s, key, rep);
      ReplaceNothing(s[1..], key, rep);
    }
  }

  lemma AfterHead(s: string, p: nat, r: nat)
    requires p <= r < |s|
    ensures s[..1 + p] == [s[0]] + s[1..][..p] && s[1 + r..] == s[1..][r..]
  {
  }

  lemma ReplaceNothing(s: string, key: string, rep: string)
    requires key != "" && Find(s, key, 0) < 0
    ensures Replace(s, key, rep) == s
  {
  }

  lemma ReplaceFirst(s: string, key: string, rep: string, r: nat, before: string, rest: string)
    requires key != "" && r == Find(s, key, 0) && r + |key| <= |s| && before == s[..r] && rest == s[r + |key|..]
    ensures Replace(s, key, rep) == before + rep + Replace(rest, key, rep)
  {
    hide Find, At;
  }

  lemma {:induction false} ReplaceLength(s: string, key: string, rep: string)
    requires key != "" && |rep| < |key|
    ensures |Replace(s, key, rep)| <= |s|
    ensures Replace(s, key, rep) == s <==> forall i | 0 <= i < |s| :: !At(s, i, key)
    decreases |s|
  {
    hide At;
    FindFits(s, key, 0);
    var p := Find(s, key, 0);
    if p >= 0 {
      ReplaceLength(s[p + |key|..], key, rep);
    }
  }

  // --- slashes ---

  const ESCAPED := "%2F"

  function EscapeSlashes(s: string): string {
    if s == "" then "" else (if s[0] == '/' then ESCAPED else [s[0]]) + EscapeSlashes(s[1..])
  }

  function Unescape(s: string): string {
    Replace(s, ESCAPED, "/")
  }

  lemma AtEscaped(s: string)
    ensures At(s, 0, ESCAPED) <==> |s| >= 3 && s[0] == '%' && s[1] == '2' && s[2] == 'F'
  {
    if |s| >= 3 {
      assert s[..3] == [s[0], s[1], s[2]];
    }
  }

  lemma {:induction false} EscapeHead(s: string)
    ensures At(EscapeSlashes(s), 0, ESCAPED) <==> s != "" && (s[0] == '/' || At(s, 0, ESCAPED))
  {
    var e := EscapeSlashes(s);
    AtEscaped(s);
    AtEscaped(e);
    if s != "" && s[0] != '/' {
      assert e == [s[0]] + EscapeSlashes(s[1..]);
      if |s| > 1 && s[1] != '/' {
        assert EscapeSlashes(s[1..]) == [s[1]] + EscapeSlashes(s[1..][1..]);
        assert s[1..][1..] == s[2..];
        if |s| > 2 && s[2] != '/' {
          assert EscapeSlashes(s[2..]) == [s[2]] + EscapeSlashes(s[2..][1..]);
        }
      }
    }
  }

  lemma {:induction false} NoSlashes(s: string)
    ensures '/' !in EscapeSlashes(s)
  {
    if s != "" {
      NoSlashes(s[1..]);
    }
  }

  // Escaping makes no difference to what is unescaped.
  lemma {:induction false} UnescapeEscape(s: string)
    ensures Unescape(EscapeSlashes(s)) == Unescape(s) && '/' !in EscapeSlashes(s)
    decreases |s|
  {
    hide At, Replace;
    var e := EscapeSlashes(s);
    NoSlashes(s);
    EscapeHead(s);
    if s == "" {
    } else if s[0] == '/' {
      ReplaceHere(e, ESCAPED, "/");
      AtEscaped(s);
      ReplaceLater(s, ESCAPED, "/");
      assert e[3..] == EscapeSlashes(s[1..]);
      UnescapeEscape(s[1..]);
    } else if At(s, 0, ESCAPED) {
      AtEscaped(s);
      EscapeKey(s);
      ReplaceHere(e, ESCAPED, "/");
      ReplaceHere(s, ESCAPED, "/");
      UnescapeEscape(s[3..]);
    } else {
      ReplaceLater(e, ESCAPED, "/");
      ReplaceLater(s, ESCAPED, "/");
      assert e[1..] == EscapeSlashes(s[1..]);
      UnescapeEscape(s[1..]);
    }
  }

  lemma EscapeKey(s: string)
    requires |s| >= 3 && s[0] == '%' && s[1] == '2' && s[2] == 'F'
    ensures |EscapeSlashes(s)| >= 3 && EscapeSlashes(s)[3..] == EscapeSlashes(s[3..])
  {
    assert EscapeSlashes(s) == [s[0]] + EscapeSlashes(s[1..]);
    assert s[1..][1..] == s[2..] && s[2..][1..] == s[3..];
    assert EscapeSlashes(s[1..]) == [s[1]] + EscapeSlashes(s[2..]);
    assert EscapeSlashes(s[2..]) == [s[2]] + EscapeSlashes(s[3..]);
  }

  // Main theorem. An id is recovered from its escaped form exactly when it does not contain `%2F` itself.
  lemma Recovered(id: string)
    ensures Unescape(EscapeSlashes(id)) == id <==> forall i | 0 <= i < |id| :: !At(id, i, "%2F")
  {
    hide At;
    UnescapeEscape(id);
    ReplaceLength(id, ESCAPED, "/");
  }

  // The shortest id that is not.
  lemma EscapeNotRecovered()
    ensures Unescape(EscapeSlashes("%2F")) == "/"
  {
    UnescapeEscape(ESCAPED);
    ReplaceHere(ESCAPED, ESCAPED, "/");
    assert ESCAPED[3..] == "" && ESCAPED[..3] == ESCAPED;
  }

  // --- the source's method ---

  lemma SliceOfSlice(t: string, q: nat, p: nat, r: nat)
    requires q <= p <= r <= |t|
    ensures t[q..][..p - q] == t[q..p] && t[q..][r - q..] == t[r..]
  {
  }

  lemma ReplaceAt(t: string, key: string, rep: string, q: nat, p: nat)
    requires key != "" && q <= |t| && p == Find(t, key, q)
    ensures q <= p && p + |key| <= |t|
    ensures Replace(t[q..], key, rep) == t[q..p] + rep + Replace(t[p + |key|..], key, rep)
  {
    hide At, Replace, Find;
    FindShift(t, key, q);
    FindBound(t, key, q);
    SliceOfSlice(t, q, p, p + |key|);
    ReplaceFirst(t[q..], key, rep, p - q, t[q..p], t[p + |key|..]);
  }

  lemma ReplaceNone(t: string, key: string, rep: string, q: nat)
    requires key != "" && q <= |t| && Find(t, key, q) == -1
    ensures Replace(t[q..], key, rep) == t[q..]
  {
    FindShift(t, key, q);
  }

  lemma Regroup(a: string, b: string, c: string, d: string)
    ensures a + (b + c + d) == a + b + c + d
  {
  }

  // Clears src and copies back as much as it held before.
  method CopyBack(src: array<char>, strBuf: string, srcLen: nat)
    requires srcLen < src.Length
    modifies src
    ensures Holds(src, 0, if |strBuf| > srcLen then strBuf[..srcLen] else strBuf)
  {
    for k := 0 to srcLen + 1
      invariant forall i | 0 <= i < k :: src[i] == '\0'
    {
      src[k] := '\0';
    }
    var n := if |strBuf| > srcLen then srcLen else |strBuf|;
    for k := 0 to n
      invariant forall i | 0 <= i < k :: src[i] == strBuf[i]
      invariant forall i | k <= i <= srcLen :: src[i] == '\0'
    {
      src[k] := strBuf[k];
    }
    assert src[0..n] == strBuf[..n];
  }

  // `str_replace`: the text grows in strBuf, and as much of it as src has room for is copied back.
  method StrReplace(src: array<char>, key: string, rep: string, ghost t: string)
    requires CString(t) && CString(key) && CString(rep) && key != "" && Holds(src, 0, t)
    modifies src
    ensures var r := Replace(t, key, rep); Holds(src, 0, if |r| > |t| then r[..|t|] else r)
  {
    hide At, Find, Replace;
    ghost var all := Replace(t, key, rep);
    CharsOf(src, t);
    var srcLen := StrLen(src, 0, t);
    var strBuf := "";
    var q := 0;
    assert t[q..] == t && strBuf + all == all;
    var p := StrStr(src, q, key, t);
    while p >= 0
      invariant 0 <= q <= |t| && p == Find(t, key, q) && all == strBuf + Replace(t[q..], key, rep)
      invariant Holds(src, 0, t)
      decreases |t| - q
    {
      CharsOf(src, t);
      ReplaceAt(t, key, rep, q, p);
      Regroup(strBuf, t[q..p], rep, Replace(t[p + |key|..], key, rep));
      assert src[q..p] == t[q..p];
      strBuf := strBuf + src[q..p];
      strBuf := strBuf + rep;
      q := p + |key|;
      p := StrStr(src, q, key, t);
    }
    CharsOf(src, t);
    ReplaceNone(t, key, rep, q);
    assert src[q..srcLen] == t[q..];
    if src[q] != '\0' {
      strBuf := strBuf + src[q..srcLen];
    }
    assert strBuf == all;
    CopyBack(src, strBuf, srcLen);
  }
}
