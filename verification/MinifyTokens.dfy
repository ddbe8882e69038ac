/**
  Minifying keeps the tokens of a text and removes everything between them: for any sequence of
  tokens, for JSON documents, and for pretty-printed values.
 */
module MinifyTokens {
  import opened Parsing
  import opened Grammar
  import opened Completeness
  import opened Minify

  // A text cut into what is removed, string literals, and runs of other chars.
  datatype Lexeme = Removed(p: Piece) | Literal(cs: seq<StrChar>) | Word(w: string)

  function LexemeText(l: Lexeme): string {
    match l
    case Removed(p) => PieceText(p)
    case Literal(cs) => StringText(cs)
    case Word(w) => w
  }

  function LexText(ls: seq<Lexeme>): string {
    if ls == [] then "" else LexemeText(ls[0]) + LexText(ls[1..])
  }

  // The tokens of a text, one after the other.
  function Bare(ls: seq<Lexeme>): seq<Lexeme> {
    if ls == [] then [] else (if ls[0].Removed? then [] else [ls[0]]) + Bare(ls[1..])
  }

  // A line comment ends at its newline. The body of a block comment holds no "*/", and must not
  // start with a slash: the source would take "/*/" for a whole comment.
  predicate Removable(p: Piece) {
    match p
    case Blank(c) => c in " \t\r\n"
    case LineComment(body) => '\n' !in body
    case BlockComment(body) => NoClose("*" + body)
  }

  predicate NoClose(s: string) {
    forall k :: 0 <= k < |s| - 1 ==> !(s[k] == '*' && s[k + 1] == '/')
  }

  // Everything else is kept: a slash too, unless another one or a star follows.
  predicate WordAt(w: string, i: nat)
    requires i < |w|
  {
    w[i] !in " \t\r\n\"" && (w[i] == '/' ==> i + 1 < |w| && w[i + 1] !in "/*")
  }

  predicate WordOk(w: string) {
    forall i | 0 <= i < |w| :: WordAt(w, i)
  }

  predicate LexemeOk(l: Lexeme) {
    match l
    case Removed(p) => Removable(p)
    case Literal(cs) => CharsOk(cs)
    case Word(w) => WordOk(w)
  }

  predicate LexOk(ls: seq<Lexeme>) {
    forall l | l in ls :: LexemeOk(l)
  }

  // --- one lexeme ---

  lemma {:induction false} FindsLineEnd(t: string, i: nat, s: string)
    requires '\n' !in s && IsAt(t, i, s + "\n")
    ensures LineEnd(t, i) == i + |s|
    decreases |s|
  {
    First(t, i, s + "\n");
    if s != "" {
      assert s + "\n" == [s[0]] + (s[1..] + "\n");
      Split(t, i, [s[0]], s[1..] + "\n");
      FindsLineEnd(t, i + 1, s[1..]);
    }
  }

  lemma {:induction false} FindsBlockEnd(t: string, i: nat, s: string)
    requires NoClose(s) && IsAt(t, i, s + "*/")
    ensures BlockEnd(t, i) == i + |s| && i + |s| + 2 <= |t|
    decreases |s|
  {
    First(t, i, s + "*/");
    if s == "" {
      assert t[i..i + 2][1] == '/';
    } else {
      var rest := s[1..] + "*/";
      assert s + "*/" == [s[0]] + rest;
      Split(t, i, [s[0]], rest);
      First(t, i + 1, rest);
      assert |s| > 1 ==> rest[0] == s[1];
      NoCloseTail(s);
      FindsBlockEnd(t, i + 1, s[1..]);
    }
  }

  lemma {:induction false} EndsBy(t: string, i: nat, k: nat)
    requires i <= k < |t| && t[k] == '*' && Peek(t, k + 1) == '/'
    ensures BlockEnd(t, i) <= k
    decreases k - i
  {
    if i < k {
      EndsBy(t, i + 1, k);
    }
  }

  lemma NoCloseTail(s: string)
    requires NoClose(s) && s != ""
    ensures NoClose(s[1..])
  {
    var r := s[1..];
    forall k | 0 <= k < |r| - 1
      ensures !(r[k] == '*' && r[k + 1] == '/')
    {
      assert r[k] == s[k + 1] && r[k + 1] == s[(k + 1) + 1];
    }
  }

  lemma {:induction false} FindsLiteralEnd(t: string, i: nat, cs: seq<StrChar>)
    requires CharsOk(cs) && CharsAt(t, i, cs) && Peek(t, i + |CharsText(cs)|) == '\"'
    ensures LiteralEnd(t, i) == i + |CharsText(cs)| + 1
    decreases |cs|
  {
    hide CharsOk, IsAt, HexValue;
    if cs != [] {
      var j := NextChar(t, i, cs);
      FindsLiteralEnd(t, j, cs[1..]);
      SkipsChar(t, i);
      if cs[0].Unicode? {
        HexAt(t, i + 2, cs[0].hex);
        SkipsPlain(t, i + 5);
        SkipsPlain(t, i + 4);
        SkipsPlain(t, i + 3);
        SkipsPlain(t, i + 2);
      }
    }
  }

  lemma SkipsChar(t: string, i: nat)
    requires i < |t| && !AtStringEnd(t, i)
    ensures var j := if t[i] == '\\' then i + 2 else i + 1; j <= |t| + 1 && LiteralEnd(t, i) == LiteralEnd(t, j)
  {
  }

  lemma SkipsPlain(t: string, i: nat)
    requires i < |t| && Plain(t[i])
    ensures LiteralEnd(t, i) == LiteralEnd(t, i + 1)
  {
  }

  lemma {:induction false} KeepsWord(t: string, i: nat, w: string)
    requires IsAt(t, i, w) && WordOk(w)
    ensures MinifyFrom(t, i) == MinifyFrom(t, i + |w|).After(w)
    decreases |w|
  {
    hide TurnAt, Kept.After, WordAt;
    if w == "" {
      AfterNothing(MinifyFrom(t, i));
    } else {
      First(t, i, w);
      WordTurn(t, i, w);
      WordRest(w);
      assert w == [w[0]] + w[1..];
      Split(t, i, [w[0]], w[1..]);
      KeepsWord(t, i + 1, w[1..]);
      AfterAfter(MinifyFrom(t, i + |w|), [w[0]], w[1..]);
    }
  }

  lemma WordTurn(t: string, i: nat, w: string)
    requires w != "" && WordAt(w, 0) && i < |t| && IsAt(t, i, w)
    ensures TurnAt(t, i) == Turn([w[0]], i + 1)
  {
    assert t[i..i + |w|][0] == t[i];
    if |w| > 1 {
      assert t[i..i + |w|][1] == t[i + 1];
    }
  }

  lemma WordRest(w: string)
    requires w != "" && WordOk(w)
    ensures WordOk(w[1..])
  {
    var rest := w[1..];
    forall i | 0 <= i < |rest| ensures WordAt(rest, i) {
      assert WordAt(w, i + 1);
    }
  }

  lemma AfterNothing(k: Kept)
    ensures k.After("") == k
  {
    if k.Kept? {
      assert "" + k.text == k.text;
    }
  }

  lemma AfterAfter(k: Kept, a: string, b: string)
    ensures k.After(b).After(a) == k.After(a + b)
  {
    if k.Kept? {
      assert a + (b + k.text) == (a + b) + k.text;
    }
  }

  lemma KeepsLiteral(t: string, i: nat, cs: seq<StrChar>)
    requires CharsOk(cs) && IsAt(t, i, StringText(cs))
    ensures MinifyFrom(t, i) == MinifyFrom(t, i + |StringText(cs)|).After(StringText(cs))
  {
    StringAt(t, i, cs);
    FindsLiteralEnd(t, i + 1, cs);
  }

  lemma RemovesPiece(t: string, i: nat, p: Piece)
    requires Removable(p) && IsAt(t, i, PieceText(p))
    ensures MinifyFrom(t, i) == MinifyFrom(t, i + |PieceText(p)|)
  {
    var j := i + |PieceText(p)|;
    AfterNothing(MinifyFrom(t, j));
    First(t, i, PieceText(p));
    match p {
      case Blank(c) =>
      case LineComment(body) => RemovesLine(t, i, body);
      case BlockComment(body) => RemovesBlock(t, i, body);
    }
  }

  lemma RemovesLine(t: string, i: nat, body: string)
    requires '\n' !in body && IsAt(t, i, "//" + body + "\n")
    ensures MinifyFrom(t, i) == MinifyFrom(t, i + |body| + 3)
  {
    hide MinifyFrom, IsAt, LineEnd, BlockEnd, LiteralEnd;
    assert "//" == "/" + "/";
    CommentAt(t, i, "/", body, "\n");
    FindsLineEnd(t, i + 2, body);
    LineEndStep(t, i);
    LineEndStep(t, i + 1);
    var j := i + |body| + 2;
    Drops(t, i, j);
    Drops(t, j, j + 1);
  }

  lemma CommentAt(t: string, i: nat, second: string, body: string, close: string)
    requires |second| == 1 && close != "" && IsAt(t, i, "/" + second + body + close)
    ensures i + 2 + |body| < |t| && t[i] == '/' && t[i + 1] == second[0] && t[i + 2 + |body|] == close[0]
    ensures IsAt(t, i + 1, second + body + close) && IsAt(t, i + 2, body + close)
  {
    assert "/" + second + body + close == "/" + (second + (body + close));
    OpenAt(t, i, "/", second + (body + close));
    assert second + (body + close) == second + body + close;
    OpenAt(t, i + 1, second, body + close);
    Split(t, i + 2, body, close);
    First(t, i + 2 + |body|, close);
  }

  // A turn that copies nothing.
  lemma Drops(t: string, i: nat, j: nat)
    requires i < |t|
    requires j <= |t| && TurnAt(t, i) == Turn("", j)
    ensures MinifyFrom(t, i) == MinifyFrom(t, j)
  {
    AfterNothing(MinifyFrom(t, j));
  }

  lemma LineEndStep(t: string, i: nat)
    requires i < |t| && t[i] != '\n'
    ensures LineEnd(t, i) == LineEnd(t, i + 1)
  {
  }

  lemma RemovesBlock(t: string, i: nat, body: string)
    requires NoClose("*" + body) && IsAt(t, i, "/*" + body + "*/")
    ensures MinifyFrom(t, i) == MinifyFrom(t, i + |body| + 4)
  {
    assert "/*" == "/" + "*";
    CommentAt(t, i, "*", body, "*/");
    FindsBlockEnd(t, i + 1, "*" + body);
    assert BlockEnd(t, i) == BlockEnd(t, i + 1);
    hide MinifyFrom;
    Drops(t, i, i + |body| + 4);
  }

  lemma ClosesEarly(t: string, i: nat, s: string)
    requires !NoClose(s) && IsAt(t, i, s)
    ensures BlockEnd(t, i) < i + |s| - 1
  {
    var k :| 0 <= k < |s| - 1 && s[k] == '*' && s[k + 1] == '/';
    assert t[i..i + |s|][k] == t[i + k] && t[i..i + |s|][k + 1] == t[i + k + 1];
    EndsBy(t, i, i + k);
  }

  // A turn removes a whole block comment exactly when the body holds no "*/" and does not start with '/'.
  lemma BlockCommentTurn(t: string, i: nat, body: string)
    requires IsAt(t, i, "/*" + body + "*/")
    ensures TurnAt(t, i) == Turn("", i + |body| + 4) <==> Removable(BlockComment(body))
  {
    hide IsAt, BlockEnd, LineEnd, LiteralEnd, NoClose;
    var s := "*" + body;
    assert "/*" == "/" + "*";
    CommentAt(t, i, "*", body, "*/");
    BlockEndStep(t, i);
    if NoClose(s) {
      FindsBlockEnd(t, i + 1, s);
    } else {
      Split(t, i + 1, s, "*/");
      ClosesEarly(t, i + 1, s);
    }
  }

  // The shortest comment that is not: what follows its first three chars is kept.
  lemma ShortBlockComment()
    ensures MinifyFrom("/*/x*/", 0) == Kept("x*/")
  {
    var t := "/*/x*/";
    assert TurnAt(t, 0) == Turn("", 3);
    assert MinifyFrom(t, 3) == Kept("x*/");
  }

  lemma BlockEndStep(t: string, i: nat)
    requires i < |t| && t[i] != '*'
    ensures BlockEnd(t, i) == BlockEnd(t, i + 1)
  {
  }

  // --- any sequence of tokens ---

  lemma {:induction false} KeepsTokens(t: string, i: nat, ls: seq<Lexeme>)
    requires LexOk(ls) && IsAt(t, i, LexText(ls))
    ensures MinifyFrom(t, i) == MinifyFrom(t, i + |LexText(ls)|).After(LexText(Bare(ls)))
    decreases |ls|
  {
    hide IsAt, MinifyFrom, LexemeText, LexemeOk, Kept.After, Bare;
    Inside(t, i, LexText(ls));
    if ls == [] {
      assert Bare(ls) == ls by { BareEmpty(); }
      AfterNothing(MinifyFrom(t, i));
    } else {
      var l, rest := ls[0], ls[1..];
      assert l in ls;
      assert LexOk(rest);
      Split(t, i, LexemeText(l), LexText(rest));
      var j, n := i + |LexemeText(l)|, i + |LexText(ls)|;
      Inside(t, j, LexText(rest));
      KeepsTokens(t, j, rest);
      OneLexeme(t, i, l);
      AfterAfter(MinifyFrom(t, n), if l.Removed? then "" else LexemeText(l), LexText(Bare(rest)));
      BareText(ls);
    }
  }

  lemma Inside(t: string, i: nat, s: string)
    requires IsAt(t, i, s)
    ensures i + |s| <= |t|
  {
  }

  lemma OneLexeme(t: string, i: nat, l: Lexeme)
    requires LexemeOk(l) && IsAt(t, i, LexemeText(l))
    ensures MinifyFrom(t, i)
      == MinifyFrom(t, i + |LexemeText(l)|).After(if l.Removed? then "" else LexemeText(l))
  {
    hide MinifyFrom, Removable, CharsOk, PieceText, StringText;
    match l {
      case Removed(p) =>
        RemovesPiece(t, i, p);
        AfterNothing(MinifyFrom(t, i));
      case Literal(cs) => KeepsLiteral(t, i, cs);
      case Word(w) => KeepsWord(t, i, w);
    }
  }

  lemma BareEmpty()
    ensures Bare([]) == []
  {
  }

  lemma BareText(ls: seq<Lexeme>)
    requires ls != []
    ensures LexText(Bare(ls)) == (if ls[0].Removed? then "" else LexemeText(ls[0])) + LexText(Bare(ls[1..]))
  {
    if !ls[0].Removed? {
      assert Bare(ls) == [ls[0]] + Bare(ls[1..]);
      assert ([ls[0]] + Bare(ls[1..]))[1..] == Bare(ls[1..]);
    } else {
      assert Bare(ls) == [] + Bare(ls[1..]) == Bare(ls[1..]);
    }
  }

  // Main theorem for token sequences: minifying yields the tokens and nothing else. The text may end
  // in a line comment without a newline.
  lemma MinifyLexemes(ls: seq<Lexeme>, open: string)
    requires LexOk(ls)
    requires open == "" || ("//" <= open && '\n' !in open)
    ensures MinifyFrom(LexText(ls) + open, 0) == Kept(LexText(Bare(ls)))
  {
    hide LexText, Bare, MinifyFrom, LexOk, IsAt;
    var t, n := LexText(ls) + open, |LexText(ls)|;
    Whole(t);
    Split(t, 0, LexText(ls), open);
    KeepsTokens(t, 0, ls);
    RemovesOpen(t, n, open);
    assert LexText(Bare(ls)) + "" == LexText(Bare(ls));
  }

  lemma RemovesOpen(t: string, i: nat, open: string)
    requires IsAt(t, i, open) && i + |open| == |t|
    requires open == "" || ("//" <= open && '\n' !in open)
    ensures MinifyFrom(t, i) == Kept("")
  {
    if open != "" {
      assert t[i..i + |open|][0] == '/' && t[i..i + |open|][1] == '/';
      FindsEnd(t, i, open);
      assert TurnAt(t, i) == Turn("", |t|);
      AfterNothing(Kept(""));
    }
  }

  lemma {:induction false} FindsEnd(t: string, i: nat, s: string)
    requires '\n' !in s && IsAt(t, i, s) && i + |s| == |t|
    ensures LineEnd(t, i) == |t|
    decreases |s|
  {
    if s != "" {
      First(t, i, s);
      assert s == [s[0]] + s[1..];
      Split(t, i, [s[0]], s[1..]);
      FindsEnd(t, i + 1, s[1..]);
    }
  }

  lemma {:induction false} BareOk(ls: seq<Lexeme>)
    requires LexOk(ls)
    ensures LexOk(Bare(ls)) && Bare(Bare(ls)) == Bare(ls)
    decreases |ls|
  {
    if ls != [] {
      assert ls[0] in ls;
      assert LexOk(ls[1..]);
      BareOk(ls[1..]);
      var b := Bare(ls[1..]);
      if ls[0].Removed? {
        assert Bare(ls) == [] + b == b;
      } else {
        assert Bare(ls) == [ls[0]] + b;
        assert ([ls[0]] + b)[1..] == b;
      }
    }
  }

  // Minifying twice is minifying once.
  lemma MinifyIdempotent(ls: seq<Lexeme>, open: string)
    requires LexOk(ls)
    requires open == "" || ("//" <= open && '\n' !in open)
    ensures var k := MinifyFrom(LexText(ls) + open, 0);
      k.Kept? && MinifyFrom(k.text, 0) == k
  {
    hide LexText, Bare, MinifyFrom, LexOk;
    MinifyLexemes(ls, open);
    BareOk(ls);
    MinifyLexemes(Bare(ls), "");
    assert LexText(Bare(ls)) + "" == LexText(Bare(ls));
  }
}
