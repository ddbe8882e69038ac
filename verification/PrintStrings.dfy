/**
  `print_string_ptr` and `print_number`: the room they reserve is what they write.
 */
module PrintStrings {
  import opened JsonValue
  import opened CMemory

  // Chars that are not written as they are.
  predicate Special(c: char) {
    c < ' ' || c == '\"' || c == '\\'
  }

  lemma {:induction false} EscapeJoin(a: string, b: string)
    ensures Escape(a + b) == Escape(a) + Escape(b)
    decreases |a|
  {
    hide EscapeChar;
    if a == "" {
      assert a + b == b;
    } else {
      EscapeJoin(a[1..], b);
      assert (a + b)[1..] == a[1..] + b;
      assert EscapeChar(a[0]) + (Escape(a[1..]) + Escape(b)) == (EscapeChar(a[0]) + Escape(a[1..])) + Escape(b);
    }
  }

  lemma EscapeOne(s: string, k: nat)
    requires k < |s|
    ensures Escape(s[..k + 1]) == Escape(s[..k]) + EscapeChar(s[k])
    ensures |Escape(s[..k + 1])| <= |Escape(s)|
  {
    assert s[..k + 1] == s[..k] + [s[k]];
    EscapeJoin(s[..k], [s[k]]);
    EscapeSingle(s[k]);
    assert s == s[..k + 1] + s[k + 1..];
    EscapeJoin(s[..k + 1], s[k + 1..]);
  }

  lemma EscapeSingle(c: char)
    ensures Escape([c]) == EscapeChar(c)
  {
    assert [c][1..] == "";
    assert EscapeChar(c) + "" == EscapeChar(c);
  }

  lemma PlainChar(c: char)
    requires !Special(c)
    ensures EscapeChar(c) == [c]
  {
  }

  // The path without escapes writes the same text as the escaping one.
  lemma {:induction false} NothingToEscape(s: string)
    requires forall c | c in s :: !Special(c)
    ensures Escape(s) == s
    decreases |s|
  {
    hide Special, EscapeChar;
    if s != "" {
      assert s[0] in s;
      PlainChar(s[0]);
      NothingToEscape(s[1..]);
      assert s == [s[0]] + s[1..];
    }
  }

  // The flag loop of `print_string_ptr`.
  method NeedsEscape(str: array<char>, ghost s: string) returns (flag: bool)
    requires CString(s) && Holds(str, 0, s)
    ensures flag <==> exists c | c in s :: Special(c)
  {
    CharsOf(str, s);
    flag := false;
    var ptr := 0;
    while str[ptr] != '\0'
      invariant ptr <= |s| && (flag <==> exists j :: 0 <= j < ptr && Special(s[j]))
      decreases |s| - ptr
    {
      flag := flag || Special(str[ptr]);
      ptr := ptr + 1;
    }
    if flag {
      ghost var j :| 0 <= j < |s| && Special(s[j]);
      assert s[j] in s;
    }
  }

  // Its length loop: one for the char, one more for a short escape, five more for `\u00XX`.
  method EscapedLength(str: array<char>, ghost s: string) returns (len: nat)
    requires CString(s) && Holds(str, 0, s)
    ensures len == |Escape(s)|
  {
    CharsOf(str, s);
    len := 0;
    var ptr := 0;
    while str[ptr] != '\0'
      invariant ptr <= |s| && len == |Escape(s[..ptr])|
      decreases |s| - ptr
    {
      var n := TokenLength(str[ptr]);
      len := len + n;
      EscapeOne(s, ptr);
      ptr := ptr + 1;
    }
    assert s[..|s|] == s;
  }

  // What one char adds.
  method TokenLength(token: char) returns (len: nat)
    ensures len == |EscapeChar(token)|
  {
    len := 1;
    if token in "\"\\\U{0008}\U{000C}\n\r\t" {
      len := len + 1;
    } else if token < ' ' {
      len := len + 5;
    }
  }

  // What `print_string_ptr` reserves at its single allocation.
  method Room(str: array<char>, ghost s: string) returns (flag: bool, needed: nat)
    requires CString(s) && Holds(str, 0, s)
    ensures flag <==> exists c | c in s :: Special(c)
    ensures needed == |Quoted(s)| + 1
  {
    flag := NeedsEscape(str, s);
    if flag {
      needed := EscapedLength(str, s);
    } else {
      NothingToEscape(s);
      needed := StrLen(str, 0, s);
    }
    needed := needed + 3;
  }

  // Writes the quoted string and its terminator into the room at position at.
  method WriteQuoted(out: array<char>, at: nat, str: array<char>, flag: bool, ghost s: string)
    requires CString(s) && Holds(str, 0, s) && str != out
    requires flag <==> exists c | c in s :: Special(c)
    requires at + |Quoted(s)| < out.Length
    modifies out
    ensures out[..at + |Quoted(s)|] == old(out[..at]) + Quoted(s) && out[at + |Quoted(s)|] == '\0'
    ensures forall k :: at + |Quoted(s)| < k < out.Length ==> out[k] == old(out[k])
  {
    hide Escape, Holds;
    Write(out, at, "\"");
    var ptr2 := WriteBody(out, at + 1, str, flag, s);
    assert out[..ptr2] == old(out[..at]) + ("\"" + Escape(s));
    Write(out, ptr2, "\"\0");
    assert out[..ptr2 + 2][..ptr2 + 1] == out[..ptr2 + 1];
    assert out[ptr2 + 1] == out[..ptr2 + 2][ptr2 + 1];
  }

  // What stands between the quotes; it may also overwrite the char after the text.
  method WriteBody(out: array<char>, at: nat, str: array<char>, flag: bool, ghost s: string) returns (ptr2: nat)
    requires CString(s) && Holds(str, 0, s) && str != out
    requires flag <==> exists c | c in s :: Special(c)
    requires at + |Escape(s)| < out.Length
    modifies out
    ensures ptr2 == at + |Escape(s)| && out[..ptr2] == old(out[..at]) + Escape(s)
    ensures forall k :: ptr2 < k < out.Length ==> out[k] == old(out[k])
  {
    hide Escape, Holds;
    if !flag {
      // strcpy
      NothingToEscape(s);
      var len := StrLen(str, 0, s);
      CopyString(out, at, str, len, s);
      ptr2 := at + len;
    } else {
      ptr2 := WriteEscaped(out, at, str, s);
    }
  }

  // The escaping loop; it may also overwrite the char after the text.
  method WriteEscaped(out: array<char>, at: nat, str: array<char>, ghost s: string) returns (ptr2: nat)
    requires CString(s) && Holds(str, 0, s) && str != out && at + |Escape(s)| < out.Length
    modifies out
    ensures ptr2 == at + |Escape(s)| && out[..ptr2] == old(out[..at]) + Escape(s)
    ensures forall k :: ptr2 < k < out.Length ==> out[k] == old(out[k])
  {
    hide EscapeChar, Escape, Holds;
    ptr2 := at;
    EscapeNothing(s);
    CharsOf(str, s);
    ghost var pre := out[..at];
    var ptr := 0;
    while str[ptr] != '\0'
      invariant ptr <= |s| < str.Length && Holds(str, 0, s)
      invariant ptr2 == at + |Escape(s[..ptr])| <= at + |Escape(s)|
      invariant out[..ptr2] == pre + Escape(s[..ptr])
      invariant forall j :: at + |Escape(s)| < j < out.Length ==> out[j] == old(out[j])
      decreases |s| - ptr
    {
      CharsOf(str, s);
      EscapeOne(s, ptr);
      ptr2 := WriteChar(out, ptr2, str[ptr]);
      assert (pre + Escape(s[..ptr])) + EscapeChar(s[ptr]) == pre + Escape(s[..ptr + 1]);
      ptr := ptr + 1;
    }
    CharsOf(str, s);
    assert s[..|s|] == s;
  }

  lemma EscapeNothing(s: string)
    ensures Escape(s[..0]) == ""
  {
  }

  method WriteChar(out: array<char>, at: nat, token: char) returns (ptr2: nat)
    requires at + |EscapeChar(token)| < out.Length
    modifies out
    ensures ptr2 == at + |EscapeChar(token)| && out[..ptr2] == old(out[..at]) + EscapeChar(token)
    ensures forall k :: ptr2 < k < out.Length ==> out[k] == old(out[k])
  {
    ptr2 := at;
    if token > '\U{001F}' && token != '\"' && token != '\\' {
      Write(out, ptr2, [token]);
      ptr2 := ptr2 + 1;
    } else {
      Write(out, ptr2, "\\");
      ptr2 := WriteEscape(out, ptr2 + 1, token);
    }
    assert out[..ptr2] == old(out[..at]) + EscapeChar(token);
  }

  // What follows the backslash.
  method WriteEscape(out: array<char>, at: nat, token: char) returns (ptr2: nat)
    requires Special(token) && at - 1 + |EscapeChar(token)| < out.Length
    modifies out
    ensures ptr2 == at + |EscapeChar(token)| - 1 && out[..ptr2] == old(out[..at]) + EscapeChar(token)[1..]
    ensures forall k :: ptr2 < k < out.Length ==> out[k] == old(out[k])
  {
    ptr2 := at;
    match token {
      case '\\' => Write(out, ptr2, "\\"); ptr2 := ptr2 + 1;
      case '\"' => Write(out, ptr2, "\""); ptr2 := ptr2 + 1;
      case '\U{0008}' => Write(out, ptr2, "b"); ptr2 := ptr2 + 1;
      case '\U{000C}' => Write(out, ptr2, "f"); ptr2 := ptr2 + 1;
      case '\n' => Write(out, ptr2, "n"); ptr2 := ptr2 + 1;
      case '\r' => Write(out, ptr2, "r"); ptr2 := ptr2 + 1;
      case '\t' => Write(out, ptr2, "t"); ptr2 := ptr2 + 1;
      case _ =>
        // sprintf(ptr2, "u%04x", token)
        StrCpy(out, ptr2, "u00" + [HexDigit(token as int / 16), HexDigit(token as int % 16)]);
        ptr2 := ptr2 + 5;
    }
  }

  // The digits of an int32 number fit where `print_number` reserves 21 chars.
  lemma {:induction false} DecimalLength(n: nat, k: nat)
    requires n < Ten(k) && k > 0
    ensures |Decimal(n)| <= k
  {
    if n >= 10 {
      DecimalLength(n / 10, k - 1);
    }
  }

  function Ten(k: nat): nat {
    if k == 0 then 1 else 10 * Ten(k - 1)
  }

  lemma SignedLength(n: int)
    requires -0x8000_0000 <= n <= 0x7FFF_FFFF
    ensures 1 <= |Signed(n)| <= 11
  {
    assert Ten(10) == 100_0000_0000 by { assert Ten(5) == 10_0000; }
    DecimalLength(if n < 0 then -n else n, 10);
  }
}
