/**
  Taking the file name and the file out of a multipart body (src/usefull.c, lines 73-137; the shape of the
  body is that of section 5.1.1 of RFC 2046).
 */
module Uploads {
  import opened JsonValue
  import opened CMemory
  import opened Search

  const DASHES := "---------"
  const FILENAME := "filename="
  const CRLF := "\r\n"

  // Where the n-th line ends, searching on from the '\n' of the line before.
  function LineEnd(t: string, n: nat): (e: int)
    requires n > 0
    ensures e == -1 || (0 <= e <= |t| - 2 && At(t, e, CRLF))
  {
    if n == 1 then Find(t, CRLF, 0)
    else
      var e := LineEnd(t, n - 1);
      if e < 0 then -1 else Find(t, CRLF, e + 1)
  }

  // Broken: the source uses a position that was not found, or a negative length.
  datatype Slice = Slice(s: string) | Broken

  // From ten chars after the start of `filename=` to the one before the end of the second line.
  function NameIn(t: string): Slice {
    var f, l := Find(t, FILENAME, 0), LineEnd(t, 2);
    if f < 0 || l < 0 || f + 10 > l - 1 then Broken else Slice(t[f + 10..l - 1])
  }

  // What stands two chars before the first run of nine dashes.
  function DataIn(rest: string): Slice {
    var s := Find(rest, DASHES, 0);
    if s < 2 then Broken else Slice(rest[..s - 2])
  }

  // What `upload_file` takes from a body of which t is the part before the first NUL.
  function Extract(body: string, t: string): (r: (Slice, Slice))
    requires t <= body
  {
    var l := LineEnd(t, 4);
    (NameIn(t), if l < 0 then Broken else DataIn(body[l + 2..]))
  }

  // A delimiter line, a header line that ends in filename="...", another header line, an empty line, the
  // data, and the delimiter again.
  datatype Upload = Upload(delim: string, before: string, name: string, header: string, data: string, after: string)

  function Head(u: Upload): string {
    u.delim + ("\r\n" + FromHeader(u))
  }

  function FromHeader(u: Upload): string {
    u.before + "filename=\"" + u.name + "\"" + ("\r\n" + FromSecond(u))
  }

  function FromSecond(u: Upload): string {
    u.header + ("\r\n" + ("" + ("\r\n" + "")))
  }

  function Tail(u: Upload): string {
    u.data + ("\r\n" + (u.delim + u.after))
  }

  function Body(u: Upload): string {
    Head(u) + Tail(u)
  }

  // A line without line ends or NUL.
  predicate OneLine(s: string) {
    '\r' !in s && '\n' !in s && '\0' !in s
  }

  predicate WellFormed(u: Upload) {
    && OneLine(u.delim) && OneLine(u.before) && OneLine(u.name) && OneLine(u.header) && DASHES <= u.delim
    && forall j | 0 <= j < |u.delim| + 2 + |u.before| ::
         !At(u.delim + "\r\n" + u.before + "filename=", j, "filename=")
  }

  // No nine dashes in a row.
  predicate NoRun(s: string) {
    forall i | 0 <= i < |s| :: !At(s, i, "---------")
  }

  // --- lines ---

  lemma AfterLine(t: string, b: nat, x: string, rest: string)
    requires Ends(t, b, x + ("\r\n" + rest))
    ensures Ends(t, b + |x| + 2, rest) && At(t, b + |x|, CRLF)
    ensures forall i | 0 <= i < |x| :: t[b + i] == x[i]
    ensures t[b + |x|] == '\r' && t[b + |x| + 1] == '\n'
  {
    var s := x + ("\r\n" + rest);
    assert forall i | 0 <= i < |s| :: t[b + i] == t[b..][i] == s[i];
    assert s[|x|] == '\r' && s[|x| + 1] == '\n';
    assert t[b + |x| + 2..] == s[|x| + 2..] == rest;
  }

  // The search for the end of a line may begin at the '\n' before it.
  lemma Line(t: string, b: nat, from: nat, s: string, x: string, rest: string)
    requires Ends(t, b, s) && s == x + ("\r\n" + rest) && OneLine(x)
    requires from == b || (from == b - 1 && t[from] == '\n')
    ensures Find(t, CRLF, from) == b + |x| && Ends(t, b + |x| + 2, rest) && t[b + |x| + 1] == '\n'
  {
    AfterLine(t, b, x, rest);
    forall j | from <= j < b + |x| ensures !At(t, j, CRLF) {
      if j >= b {
        assert t[j] == x[j - b] && x[j - b] in x;
      }
      NotCrLf(t, j);
    }
    FindIs(t, CRLF, from, b + |x|);
  }

  lemma NotCrLf(t: string, j: nat)
    requires j < |t| && t[j] != '\r'
    ensures !At(t, j, CRLF)
  {
    if j + 2 <= |t| {
      assert t[j..j + 2][0] == t[j];
    }
  }

  // The ends of the four lines, whatever follows them.
  lemma FourLines(t: string, d: string, h1: string, h2: string, s1: string, s2: string, s3: string, s4: string)
    requires OneLine(d) && OneLine(h1) && OneLine(h2) && t == d + ("\r\n" + s1) && s1 == h1 + ("\r\n" + s2)
    requires s2 == h2 + ("\r\n" + s3) && s3 == "" + ("\r\n" + s4)
    ensures LineEnd(t, 2) == |d| + 2 + |h1|
    ensures LineEnd(t, 4) == |d| + 2 + |h1| + 2 + |h2| + 2 && Ends(t, LineEnd(t, 4) + 2, s4)
  {
    hide Ends, Find, At, OneLine, LineEnd;
    Itself(t);
    Line(t, 0, 0, t, d, s1);
    var b1 := |d| + 2;
    Line(t, b1, b1 - 1, s1, h1, s2);
    EmptyLine();
    TwoLines(t, b1 + |h1| + 2, s2, h2, s3, "", s4);
    LineEnds(t);
  }

  lemma EmptyLine()
    ensures OneLine("")
  {
  }

  lemma TwoLines(t: string, b: nat, s: string, x: string, s': string, x': string, s'': string)
    requires b > 0 && Ends(t, b, s) && b <= |t| && t[b - 1] == '\n' && OneLine(x) && OneLine(x')
    requires s == x + ("\r\n" + s') && s' == x' + ("\r\n" + s'')
    ensures var e := b + |x|;
      && Find(t, CRLF, b - 1) == e && e < |t| && Find(t, CRLF, e + 1) == e + 2 + |x'|
      && Ends(t, e + 2 + |x'| + 2, s'')
  {
    hide Ends, Find, At, OneLine;
    Line(t, b, b - 1, s, x, s');
    Line(t, b + |x| + 2, b + |x| + 1, s', x', s'');
  }

  lemma LineEnds(t: string)
    ensures LineEnd(t, 1) == Find(t, CRLF, 0)
    ensures LineEnd(t, 1) >= 0 ==> LineEnd(t, 2) == Find(t, CRLF, LineEnd(t, 1) + 1)
    ensures LineEnd(t, 2) >= 0 ==> LineEnd(t, 3) == Find(t, CRLF, LineEnd(t, 2) + 1)
    ensures LineEnd(t, 3) >= 0 ==> LineEnd(t, 4) == Find(t, CRLF, LineEnd(t, 3) + 1)
  {
    hide Find, At;
  }

  // --- the name ---

  lemma AtPrefix(t: string, pre: string, j: nat, key: string)
    requires pre <= t && j + |key| <= |pre|
    ensures At(t, j, key) <==> At(pre, j, key)
  {
    assert t[..|pre|][j..j + |key|] == t[j..j + |key|];
  }

  lemma FileNameAt(t: string, pre: string, key: string, rest: string)
    requires t == pre + key + rest && forall j | 0 <= j < |pre| :: !At(pre + key, j, key)
    ensures Find(t, key, 0) == |pre|
  {
    forall j | 0 <= j <= |pre| ensures At(t, j, key) <==> At(pre + key, j, key) {
      AtPrefix(t, pre + key, j, key);
    }
    FindIs(t, key, 0, |pre|);
  }

  // --- the data ---

  // The data ends at the first run of nine dashes, which is that of the delimiter if the data has none.
  lemma DataEnd(data: string, rest: string)
    requires DASHES <= rest
    ensures var s := Find(data + ("\r\n" + rest), DASHES, 0);
      0 <= s <= |data| + 2 && (s == |data| + 2 <==> NoRun(data))
  {
    var t := data + ("\r\n" + rest);
    var pre := data + "\r\n";
    assert t == pre + rest;
    assert t[|pre|..|pre| + 9] == rest[..9];
    assert At(t, |pre|, DASHES);
    forall i | 0 <= i < |pre| ensures At(t, i, DASHES) <==> At(data, i, DASHES) {
      if i + 9 <= |data| {
        AtPrefix(t, data, i, DASHES);
      } else {
        var k := if i <= |data| then |data| else |data| + 1;
        assert t[k] == pre[k] != '-';
        NotDash(t, i, k);
      }
    }
    if NoRun(data) {
      FindIs(t, DASHES, 0, |pre|);
    }
  }

  lemma NotDash(t: string, i: nat, k: nat)
    requires i <= k < i + 9 && k < |t| && t[k] != '-'
    ensures !At(t, i, DASHES)
  {
    if i + 9 <= |t| {
      assert t[i..i + 9][k - i] == t[k];
      assert DASHES[k - i] == '-';
    }
  }

  // --- main theorem ---

  // t is the body up to its first NUL, which can only be in the data or behind it.
  predicate Readable(u: Upload, t: string) {
    Head(u) <= t && t <= Body(u)
  }

  lemma Regroup(d: string, a: string, n: string, h: string, m: string)
    ensures
      var t := d + ("\r\n" + (a + "filename=\"" + n + "\"" + ("\r\n" + (h + ("\r\n" + ("" + ("\r\n" + ""))))))) + m;
      && t == d + ("\r\n" + (a + "filename=\"" + n + "\"" + ("\r\n" + (h + ("\r\n" + ("" + ("\r\n" + m)))))))
      && t == d + "\r\n" + a + FILENAME
              + ("\"" + n + ("\"" + ("\r\n" + (h + ("\r\n" + ("" + ("\r\n" + m)))))))
  {
    assert "filename=\"" == FILENAME + "\"";
    var r := h + ("\r\n" + ("" + ("\r\n" + m)));
    assert "\r\n" + (h + ("\r\n" + ("" + ("\r\n" + "")))) + m == "\r\n" + r;
    var x := a + FILENAME;
    assert a + "filename=\"" + n + "\"" == x + ("\"" + n + "\"");
    assert a + "filename=\"" + n + "\"" + ("\r\n" + r) == x + ("\"" + n + ("\"" + ("\r\n" + r)));
  }

  lemma NameSlice(t: string, pre: string, name: string, rest: string)
    requires t == pre + FILENAME + ("\"" + name + rest)
    ensures |pre| + 10 + |name| <= |t| && t[|pre| + 10..|pre| + 10 + |name|] == name
  {
    var x := pre + FILENAME + "\"";
    assert t == x + name + rest;
    assert t[|x|..|x| + |name|] == name;
  }

  lemma HeaderLine(a: string, n: string)
    requires OneLine(a) && OneLine(n)
    ensures OneLine(a + "filename=\"" + n + "\"")
  {
  }

  lemma HeadLines(u: Upload, t: string, m: string)
    requires WellFormed(u) && t == Head(u) + m
    ensures LineEnd(t, 2) == |u.delim| + 2 + |u.before| + 10 + |u.name| + 1
    ensures LineEnd(t, 4) >= 0 && LineEnd(t, 4) + 2 == |Head(u)|
  {
    hide OneLine, Find, LineEnd, Ends, At;
    var h1 := u.before + "filename=\"" + u.name + "\"";
    var s3 := "" + ("\r\n" + m);
    var s2 := u.header + ("\r\n" + s3);
    Regroup(u.delim, u.before, u.name, u.header, m);
    HeaderLine(u.before, u.name);
    FourLines(t, u.delim, h1, u.header, h1 + ("\r\n" + s2), s2, s3, m);
  }

  lemma HeadName(u: Upload, t: string, m: string)
    requires WellFormed(u) && t == Head(u) + m
    ensures var b := |u.delim| + 2 + |u.before|;
      Find(t, FILENAME, 0) == b && b + 10 + |u.name| <= |t| && t[b + 10..b + 10 + |u.name|] == u.name
  {
    hide OneLine, Find, Head;
    var rest := "\"" + ("\r\n" + (u.header + ("\r\n" + ("" + ("\r\n" + m)))));
    var pre := u.delim + "\r\n" + u.before;
    HeadText(u, m);
    Regroup(u.delim, u.before, u.name, u.header, m);
    FileNameAt(t, pre, FILENAME, "\"" + u.name + rest);
    NameSlice(t, pre, u.name, rest);
  }

  lemma HeadText(u: Upload, m: string)
    ensures Head(u) == u.delim + ("\r\n" + (u.before + "filename=\"" + u.name + "\""
      + ("\r\n" + (u.header + ("\r\n" + ("" + ("\r\n" + "")))))))
  {
  }

  // Main theorem. The name is always right; the data is, exactly when it has no nine dashes in a row.
  lemma Extraction(u: Upload, t: string)
    requires WellFormed(u) && Readable(u, t)
    ensures var (name, data) := Extract(Body(u), t);
      name == Slice(u.name) && (data == Slice(u.data) <==> NoRun(u.data))
  {
    hide WellFormed, At, Find, LineEnd, Head, NoRun, DataIn;
    var m := t[|Head(u)|..];
    HeadLines(u, t, m);
    HeadName(u, t, m);
    Delimited(u);
    DataFound(u.data, u.delim + u.after);
    assert Body(u)[LineEnd(t, 4) + 2..] == Tail(u);
  }

  lemma Delimited(u: Upload)
    requires WellFormed(u)
    ensures DASHES <= u.delim + u.after
  {
  }

  lemma DataFound(data: string, rest: string)
    requires DASHES <= rest
    ensures DataIn(data + ("\r\n" + rest)) == Slice(data) <==> NoRun(data)
  {
    hide NoRun, Find;
    var t := data + ("\r\n" + rest);
    DataEnd(data, rest);
    assert t[..|data|] == data;
  }

  // --- the source's method ---

  // The loop over n line ends, from the start of the buffer.
  method SkipLines(src: array<char>, n: nat, ghost t: string) returns (s: int)
    requires n > 0 && CString(t) && Holds(src, 0, t) && LineEnd(t, n) >= 0
    ensures s == LineEnd(t, n)
  {
    hide Holds, Find, At, LineEnd;
    var q := 0;
    s := 0;
    for i := 0 to n
      invariant 0 <= q <= |t| && (i == 0 ==> q == 0)
      invariant i > 0 ==> s == LineEnd(t, i) >= 0 && q == s + 1
    {
      LineEndStep(t, i + 1, n);
      s := StrStr(src, q, CRLF, t);
      q := s + 1;
    }
  }

  lemma {:induction false} LineEndStep(t: string, m: nat, n: nat)
    requires 0 < m <= n && LineEnd(t, n) >= 0
    ensures 0 <= LineEnd(t, m) < |t|
    ensures m == 1 ==> LineEnd(t, m) == Find(t, CRLF, 0)
    ensures m > 1 ==> 0 <= LineEnd(t, m - 1) < |t| && LineEnd(t, m) == Find(t, CRLF, LineEnd(t, m - 1) + 1)
  {
    hide Find;
    if m < n {
      LineEndStep(t, m, n - 1);
    }
  }

  // Clears the name buffer, copies the name and ends it.
  method CopyName(filename: array<char>, src: array<char>, p: nat, n: nat, ghost t: string)
    requires src != filename && CString(t) && Holds(src, 0, t) && p + n <= |t| && n < filename.Length
    modifies filename
    ensures Holds(filename, 0, t[p..p + n])
  {
    CharsOf(src, t);
    for k := 0 to n + 1 {
      filename[k] := '\0';
    }
    for k := 0 to n
      invariant forall i | 0 <= i < k :: filename[i] == t[p + i]
    {
      filename[k] := src[p + k];
    }
    filename[n] := '\0';
    assert filename[0..n] == t[p..p + n];
  }

  lemma DataThere(rest: string)
    requires DataIn(rest).Slice?
    ensures var r := Find(rest, DASHES, 0); 2 <= r < |rest| && DataIn(rest) == Slice(rest[..r - 2])
  {
  }

  // `upload_file`, on the len bytes of src, of which t is the part before the first NUL; file is what is
  // written to the file.
  method UploadFile(src: array<char>, len: nat, filename: array<char>, ghost t: string) returns (file: string)
    requires len <= src.Length && src != filename && CString(t) && Holds(src, 0, t) && t <= src[..len]
    requires var (name, data) := Extract(src[..len], t); name.Slice? && data.Slice? && |name.s| < filename.Length
    modifies filename
    ensures var (name, data) := Extract(old(src[..len]), t); Holds(filename, 0, name.s) && file == data.s
  {
    hide Holds, Find, At, LineEnd;
    var q := 0;
    var p := StrStr(src, q, FILENAME, t);
    p := p + 10;
    var s := SkipLines(src, 2, t);
    q := s + 1;
    q := q - 2;
    var nameLen := q - p;
    CopyName(filename, src, p, nameLen, t);
    p := SkipLines(src, 4, t);
    p := p + 2;
    ghost var rest := src[..len][p..];
    assert rest == src[p..p + (len - p)];
    DataThere(rest);
    s := MemStr(src, p, len - p, DASHES);
    s := s - 2;
    file := src[p..s];
    assert file == rest[..s - p];
  }

  // On every body of the expected shape whose data has no nine dashes in a row, name and data come out right.
  method UploadWellFormed(src: array<char>, len: nat, filename: array<char>, ghost u: Upload, ghost t: string)
    returns (file: string)
    requires WellFormed(u) && Readable(u, t) && NoRun(u.data) && |u.name| < filename.Length
    requires len <= src.Length && src != filename && src[..len] == Body(u) && CString(t) && Holds(src, 0, t)
    modifies filename
    ensures Holds(filename, 0, u.name) && file == u.data
  {
    hide WellFormed, Extract, Body, NoRun, Holds;
    Extraction(u, t);
    file := UploadFile(src, len, filename, t);
  }

  // Nine dashes are taken for the delimiter: of data that consists of them nothing is left, two chars too few.
  lemma DashesLost(u: Upload, t: string)
    requires WellFormed(u) && Readable(u, t) && u.data == "---------"
    ensures Extract(Body(u), t) == (Slice(u.name), Broken)
  {
    hide WellFormed, At, Find, LineEnd, Head;
    Extraction(u, t);
    HeadLines(u, t, t[|Head(u)|..]);
    assert Body(u)[LineEnd(t, 4) + 2..] == Tail(u);
    DashesFirst(Tail(u), u.delim + u.after);
  }

  lemma DashesFirst(s: string, rest: string)
    requires s == DASHES + ("\r\n" + rest)
    ensures Find(s, DASHES, 0) == 0 && DataIn(s) == Broken
  {
    assert s[0..9] == DASHES;
    FindIs(s, DASHES, 0, 0);
  }
}
