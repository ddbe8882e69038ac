/**
  The records that describe uploaded files: `write_redis` builds them (src/usefull.c, lines 292-322) and
  `get_value_by_redis` takes them apart again (src/data_use.c, lines 11-153).
 */
module Records {
  import opened JsonValue
  import opened CMemory
  import opened Search

  datatype Info = Info(id: string, url: string, name: string, time: string, user: string, kind: string)

  // What follows the first k fields.
  function Record(r: Info): string {
    r.id + ("||" + FromUrl(r))
  }

  function FromUrl(r: Info): string {
    r.url + ("||" + FromName(r))
  }

  function FromName(r: Info): string {
    r.name + ("||" + FromTime(r))
  }

  function FromTime(r: Info): string {
    r.time + ("||" + FromUser(r))
  }

  function FromUser(r: Info): string {
    r.user + ("||" + r.kind)
  }

  // --- decoding ---

  // Broken: the source takes a length from a search that found nothing, or copies a negative one.
  datatype Decoded = Value(s: string) | Broken

  function Cut(s: string, max: nat): string {
    if |s| > max then s[..max] else s
  }

  // Where the text after the n-th separator begins, or -1.
  function Begin(t: string, n: nat): (b: int)
    ensures -1 <= b <= |t|
  {
    if n == 0 then 0
    else
      var b := Begin(t, n - 1);
      if b < 0 then -1
      else
        var e := Find(t, "||", b);
        if e < 0 then -1 else e + 2
  }

  // What stands between the (n-1)-st separator and the n-th.
  function Between(t: string, n: nat, max: nat): Decoded
    requires n > 0
  {
    var b := Begin(t, n - 1);
    if b < 0 then Broken
    else
      var e := Find(t, "||", b);
      if e < 0 then Broken else Value(Cut(t[b..e], max))
  }

  // The value that `get_value_by_redis` leaves in a buffer of zeroes.
  function Field(t: string, k: int, max: nat): Decoded {
    var p := Find(t, "||||", 0);
    if 1 <= k <= 3 then Between(t, k, max)
    else if k == 4 && p >= 0 then
      var b := Begin(t, 3);
      if b < 0 || b > p then Broken else Value(Cut(t[b..p], max))
    else if k == 4 then Between(t, 4, max)
    else if k == 5 && p >= 0 then Value("")
    else if k == 5 then Between(t, 5, max)
    else if k == 6 && p >= 0 then Value(t[p + 4..])
    else if k == 6 then
      var b := Begin(t, 5);
      if b < 0 then Broken else Value(Cut(t[b..], max))
    else Value("")
  }

  // --- when a record can be taken apart ---

  // Neither two bars in a row nor a bar at the end.
  predicate Clean(x: string) {
    forall i | 0 <= i < |x| && x[i] == '|' :: i + 1 < |x| && x[i + 1] != '|'
  }

  predicate FourAt(u: string, i: nat)
    requires i < |u| - 3
  {
    u[i] == u[i + 1] == u[i + 2] == u[i + 3] == '|'
  }

  // No four bars in a row.
  predicate NoFour(s: string) {
    forall i: nat | i < |s| - 3 :: !FourAt(s, i)
  }

  predicate Separable(r: Info) {
    && Clean(r.id) && Clean(r.url) && Clean(r.name) && r.url != "" && r.name != ""
    && (r.user == "" ==> NoFour("||" + r.time + "|||"))
    && (r.user != "" ==> Clean(r.time) && r.time != "" && Clean(r.user) && NoFour("||" + r.kind))
  }

  predicate Fits(r: Info, max: nat) {
    && |r.id| <= max && |r.url| <= max && |r.name| <= max && |r.time| <= max
    && (r.user != "" ==> |r.user| <= max && |r.kind| <= max)
  }

  // Every field decodes to itself.
  predicate Recovered(r: Info, max: nat) {
    var t := Record(r);
    && Field(t, 1, max) == Value(r.id) && Field(t, 2, max) == Value(r.url) && Field(t, 3, max) == Value(r.name)
    && Field(t, 4, max) == Value(r.time) && Field(t, 5, max) == Value(r.user) && Field(t, 6, max) == Value(r.kind)
  }

  // --- single separators ---

  lemma Next(t: string, b: nat, x: string, rest: string)
    requires Ends(t, b, x + ("||" + rest))
    ensures Ends(t, b + |x| + 2, rest) && At(t, b + |x|, "||") && t[b..b + |x|] == x
    ensures forall i | 0 <= i < |x| :: t[b + i] == x[i]
    ensures t[b + |x|] == t[b + |x| + 1] == '|'
  {
    var s := x + ("||" + rest);
    assert forall i | 0 <= i < |s| :: t[b + i] == t[b..][i] == s[i];
    assert s[|x|] == '|' && s[|x| + 1] == '|';
    assert t[b + |x| + 2..] == s[|x| + 2..] == rest;
  }

  lemma Bars(t: string, j: int)
    ensures At(t, j, "||") <==> 0 <= j < |t| - 1 && t[j] == t[j + 1] == '|'
  {
    if 0 <= j < |t| - 1 {
      assert t[j..j + 2] == [t[j], t[j + 1]];
    }
  }

  // The search for the next separator stops where x ends, exactly when x is clean.
  lemma Separator(t: string, b: nat, x: string, rest: string, max: nat)
    requires Ends(t, b, x + ("||" + rest))
    ensures var e := Find(t, "||", b);
      && b <= e <= b + |x| && (e == b + |x| <==> Clean(x)) && (Cut(t[b..e], max) == x <==> Clean(x) && |x| <= max)
  {
    hide At, Find, Clean, Ends;
    SeparatorFound(t, b, x, rest);
    Next(t, b, x, rest);
  }

  lemma SeparatorFound(t: string, b: nat, x: string, rest: string)
    requires Ends(t, b, x + ("||" + rest))
    ensures var e := Find(t, "||", b); b <= e <= b + |x| && (e == b + |x| <==> Clean(x))
  {
    Next(t, b, x, rest);
    var e := Find(t, "||", b);
    Bars(t, e);
    forall j | b <= j < b + |x|
      ensures At(t, j, "||") <==> x[j - b] == '|' && (j - b + 1 == |x| || x[j - b + 1] == '|')
    {
      Bars(t, j);
    }
    if Clean(x) {
      FindIs(t, "||", b, b + |x|);
    } else {
      var i :| 0 <= i < |x| && x[i] == '|' && !(i + 1 < |x| && x[i + 1] != '|');
      assert At(t, b + i, "||");
    }
  }

  // --- the first three fields ---

  function UrlAt(r: Info): nat {
    |r.id| + 2
  }

  function NameAt(r: Info): nat {
    UrlAt(r) + |r.url| + 2
  }

  function TimeAt(r: Info): nat {
    NameAt(r) + |r.name| + 2
  }

  function UserAt(r: Info): nat {
    TimeAt(r) + |r.time| + 2
  }

  function KindAt(r: Info): nat {
    UserAt(r) + |r.user| + 2
  }

  lemma Layout(r: Info)
    ensures var t := Record(r);
      && Ends(t, 0, Record(r)) && Ends(t, UrlAt(r), FromUrl(r)) && Ends(t, NameAt(r), FromName(r))
      && Ends(t, TimeAt(r), FromTime(r)) && Ends(t, UserAt(r), FromUser(r)) && Ends(t, KindAt(r), r.kind)
  {
    hide Ends, Record, FromUrl, FromName, FromTime, FromUser;
    Unfold(r);
    Itself(Record(r));
    var u, n, w, v := FromUrl(r), FromName(r), FromTime(r), FromUser(r);
    Five(Record(r), r.id, u, r.url, n, r.name, w, r.time, v, r.user, r.kind);
  }

  lemma Five(t: string, a: string, s1: string, b: string, s2: string, c: string, s3: string, d: string, s4: string,
             e: string, s5: string)
    requires Ends(t, 0, t) && t == a + ("||" + s1) && s1 == b + ("||" + s2) && s2 == c + ("||" + s3)
    requires s3 == d + ("||" + s4) && s4 == e + ("||" + s5)
    ensures var i := |a| + 2; var j := i + |b| + 2; var k := j + |c| + 2; var m := k + |d| + 2;
      Ends(t, i, s1) && Ends(t, j, s2) && Ends(t, k, s3) && Ends(t, m, s4) && Ends(t, m + |e| + 2, s5)
  {
    hide Ends;
    var j := |a| + 2 + |b| + 2;
    Two(t, 0, t, a, s1, b, s2);
    Two(t, j, s2, c, s3, d, s4);
    After(t, j + |c| + 2 + |d| + 2, s4, e, s5);
  }

  lemma Two(t: string, b: nat, s: string, x: string, s': string, x': string, s'': string)
    requires Ends(t, b, s) && s == x + ("||" + s') && s' == x' + ("||" + s'')
    ensures Ends(t, b + |x| + 2, s') && Ends(t, b + |x| + 2 + |x'| + 2, s'')
  {
    After(t, b, s, x, s');
    After(t, b + |x| + 2, s', x', s'');
  }

  lemma After(t: string, b: nat, s: string, x: string, rest: string)
    requires Ends(t, b, s) && s == x + ("||" + rest)
    ensures Ends(t, b + |x| + 2, rest)
  {
    Next(t, b, x, rest);
  }

  // The n-th field, when the n-1 before it are found.
  lemma OneField(t: string, n: nat, b: nat, x: string, rest: string, max: nat)
    requires n > 0 && Begin(t, n - 1) == b && Ends(t, b, x + ("||" + rest))
    ensures Between(t, n, max) == Value(x) <==> Clean(x) && |x| <= max
    ensures Clean(x) ==> Begin(t, n) == b + |x| + 2
  {
    Separator(t, b, x, rest, max);
  }

  lemma FirstThree(r: Info, max: nat)
    ensures var t := Record(r);
      (Between(t, 1, max) == Value(r.id) && Between(t, 2, max) == Value(r.url) && Between(t, 3, max) == Value(r.name))
      <==> (Clean(r.id) && Clean(r.url) && Clean(r.name) && |r.id| <= max && |r.url| <= max && |r.name| <= max)
    ensures Clean(r.id) && Clean(r.url) && Clean(r.name) ==> Begin(Record(r), 3) == TimeAt(r)
  {
    hide Ends, Clean, Between, Begin, Record, FromUrl, FromName, FromTime;
    var t := Record(r);
    Layout(r);
    BeginNone(t);
    Unfold(r);
    OneField(t, 1, 0, r.id, FromUrl(r), max);
    if Clean(r.id) {
      OneField(t, 2, UrlAt(r), r.url, FromName(r), max);
      if Clean(r.url) {
        OneField(t, 3, NameAt(r), r.name, FromTime(r), max);
      }
    }
  }

  lemma BeginNone(t: string)
    ensures Begin(t, 0) == 0
  {
  }

  lemma Unfold(r: Info)
    ensures Record(r) == r.id + ("||" + FromUrl(r)) && FromUrl(r) == r.url + ("||" + FromName(r))
    ensures FromName(r) == r.name + ("||" + FromTime(r)) && FromTime(r) == r.time + ("||" + FromUser(r))
    ensures FromUser(r) == r.user + ("||" + r.kind)
  {
  }

  // --- four bars ---

  lemma FourBars(t: string, j: int)
    ensures At(t, j, "||||") <==> 0 <= j < |t| - 3 && t[j] == t[j + 1] == t[j + 2] == t[j + 3] == '|'
  {
    if 0 <= j < |t| - 3 {
      assert t[j..j + 4] == [t[j], t[j + 1], t[j + 2], t[j + 3]];
    }
  }

  // None begin in a clean field, nor in the separator before it.
  lemma NoneIn(t: string, b: nat, x: string, rest: string)
    requires Ends(t, b, x + ("||" + rest)) && Clean(x)
    ensures forall j | b <= j < b + |x| :: !At(t, j, "||||")
    ensures x != "" ==> forall j | b - 2 <= j < b :: !At(t, j, "||||")
  {
    Next(t, b, x, rest);
    forall j | b - (if x == "" then 0 else 2) <= j < b + |x| ensures !At(t, j, "||||") {
      FourBars(t, j);
      if j >= b {
        assert t[j] == x[j - b];
        assert t[j + 1] == (if j - b + 1 < |x| then x[j - b + 1] else '|');
      } else {
        assert t[b] == x[0];
        assert t[b + 1] == (if 1 < |x| then x[1] else '|');
      }
    }
  }

  // An empty field leaves four bars behind.
  lemma EmptyField(t: string, b: nat, x: string, rest: string)
    requires Ends(t, b, x + ("||" + ("||" + rest)))
    ensures At(t, b + |x|, "||||")
  {
    hide At, Ends;
    NextBars(t, b, x, "||" + rest);
    Leading("||" + rest);
    NextBars(t, b + |x| + 2, "", rest);
    FourBars(t, b + |x|);
  }

  lemma NextBars(t: string, b: nat, x: string, rest: string)
    requires Ends(t, b, x + ("||" + rest))
    ensures Ends(t, b + |x| + 2, rest) && b + |x| + 1 < |t| && t[b + |x|] == t[b + |x| + 1] == '|'
  {
    hide At, Ends;
    Next(t, b, x, rest);
    Bars(t, b + |x|);
  }

  lemma Leading(s: string)
    ensures "" + s == s
  {
  }

  // In a record whose first three fields are clean and not empty, the search may start after the name.
  lemma SearchFromTime(r: Info)
    requires Clean(r.id) && Clean(r.url) && Clean(r.name) && r.url != "" && r.name != ""
    ensures Find(Record(r), "||||", 0) == Find(Record(r), "||||", TimeAt(r) - 2)
    ensures forall j | 0 <= j < TimeAt(r) - 2 :: !At(Record(r), j, "||||")
  {
    hide Ends, Clean, At, Record, FromUrl, FromName, FromTime, FromUser;
    var t := Record(r);
    Layout(r);
    Unfold(r);
    NoneIn(t, 0, r.id, FromUrl(r));
    NoneIn(t, UrlAt(r), r.url, FromName(r));
    NoneIn(t, NameAt(r), r.name, FromTime(r));
    EndsIn(t, TimeAt(r), FromTime(r));
    FindFrom(t, "||||", 0, TimeAt(r) - 2);
  }

  lemma CharsAt(t: string, b: nat, u: string)
    requires At(t, b, u)
    ensures b + |u| <= |t| && forall i | 0 <= i < |u| :: t[b + i] == u[i]
  {
    forall i | 0 <= i < |u| ensures t[b + i] == u[i] {
      assert t[b..b + |u|][i] == t[b + i];
    }
  }

  lemma NoFourIn(t: string, b: nat, u: string)
    requires At(t, b, u)
    ensures NoFour(u) <==> forall j | b <= j < b + |u| - 3 :: !At(t, j, "||||")
  {
    hide At, FourAt;
    CharsAt(t, b, u);
    forall j | b <= j < b + |u| - 3
      ensures At(t, j, "||||") <==> FourAt(u, j - b)
    {
      FourIn(t, b, u, j);
    }
    forall i | 0 <= i < |u| - 3
      ensures FourAt(u, i) <==> At(t, b + i, "||||")
    {
      FourIn(t, b, u, b + i);
    }
  }

  lemma FourIn(t: string, b: nat, u: string, j: nat)
    requires b + |u| <= |t| && (forall i | 0 <= i < |u| :: t[b + i] == u[i]) && b <= j < b + |u| - 3
    ensures At(t, j, "||||") <==> FourAt(u, j - b)
  {
    hide At;
    var i := j - b;
    assert t[b + i] == u[i] && t[b + (i + 1)] == u[i + 1] && t[b + (i + 2)] == u[i + 2] && t[b + (i + 3)] == u[i + 3];
    FourBars(t, j);
  }

  // Without a user, the four bars are found where the time ends, exactly when none begin before.
  lemma TimeBeforeBars(t: string, b: nat, time: string, kind: string)
    requires b >= 2 && Ends(t, b - 2, "||" + time + "|||" + ("|" + kind))
    ensures var p := Find(t, "||||", b - 2);
      b - 2 <= p <= b + |time| && (p == b + |time| <==> NoFour("||" + time + "|||"))
  {
    var u := "||" + time + "|||";
    assert t[b - 2..] == u + ("|" + kind);
    assert t[b - 2..][..|u|] == u;
    NoFourIn(t, b - 2, u);
    var s := "||" + time;
    assert u + ("|" + kind) == s + ("||||" + kind);
    assert t[b - 2..][|s|..|s| + 4] == "||||";
    assert At(t, b + |time|, "||||");
    if NoFour(u) {
      FindIs(t, "||||", b - 2, b + |time|);
    }
  }

  // With a user and clean fields before the kind, there are four bars exactly where the kind follows.
  lemma BarsBeforeKind(t: string, b: nat, kind: string)
    requires b >= 2 && Ends(t, b - 2, "||" + kind)
    ensures Find(t, "||||", b - 2) == -1 <==> NoFour("||" + kind)
  {
    NoFourIn(t, b - 2, "||" + kind);
  }

  // --- the last three fields ---

  lemma BeforeSeparator(t: string, b: nat, s: string, x: string, rest: string)
    requires Ends(t, b, s) && s == x + ("||" + rest)
    ensures Ends(t, b + |x|, "||" + rest)
  {
    assert t[b..][|x|..] == t[b + |x|..];
  }

  lemma LastWithoutUser(t: string, b: nat, time: string, kind: string, max: nat)
    requires b >= 2 && Begin(t, 3) == b && Find(t, "||||", 0) == Find(t, "||||", b - 2)
    requires Ends(t, b - 2, "||" + time + "|||" + ("|" + kind))
    ensures (Field(t, 4, max) == Value(time) && Field(t, 5, max) == Value("") && Field(t, 6, max) == Value(kind))
       <==> (NoFour("||" + time + "|||") && |time| <= max)
  {
    hide Begin, NoFour, Ends, Between, Find, At;
    TimeBeforeBars(t, b, time, kind);
    Regroup(time, kind);
    Slice(t, b - 2, "||" + time + "||||", kind);
    Slice(t, b - 2, "||" + time, "||||" + kind);
    AfterTwo(t, b, time);
  }

  lemma AfterTwo(t: string, b: nat, time: string)
    requires 2 <= b <= b + |time| <= |t| && t[b - 2..b + |time|] == "||" + time
    ensures t[b..b + |time|] == time
  {
    assert t[b - 2..b + |time|][2..] == t[b..b + |time|];
  }

  lemma Regroup(time: string, kind: string)
    ensures "||" + time + "|||" + ("|" + kind) == "||" + time + "||||" + kind == "||" + time + ("||||" + kind)
    ensures "||" + time + "|||" + ("|" + kind) == "||" + (time + ("||" + ("" + ("||" + kind))))
  {
  }

  lemma LastWithUser(t: string, b: nat, r: Info, max: nat)
    requires b >= 2 && Begin(t, 3) == b && Find(t, "||||", 0) == Find(t, "||||", b - 2) && r.user != ""
    requires Ends(t, b - 2, "||" + (r.time + ("||" + (r.user + ("||" + r.kind)))))
    ensures (Field(t, 4, max) == Value(r.time) && Field(t, 5, max) == Value(r.user)
             && Field(t, 6, max) == Value(r.kind))
       <==> (Clean(r.time) && r.time != "" && Clean(r.user) && NoFour("||" + r.kind)
             && |r.time| <= max && |r.user| <= max && |r.kind| <= max)
  {
    hide Begin, NoFour, Ends, Between, Clean, Find, At;
    var f5 := r.user + ("||" + r.kind);
    var s := r.time + ("||" + f5);
    var b5 := b + |r.time| + 2;
    AfterBars(t, b - 2, s);
    After(t, b, s, r.time, f5);
    After(t, b5, f5, r.user, r.kind);
    OneField(t, 4, b, r.time, f5, max);
    if r.time == "" {
      NoTime(t, b - 2, r.time, f5);
    } else if Clean(r.time) {
      OneField(t, 5, b5, r.user, r.kind, max);
      EndsIn(t, b5 + |r.user| + 2, r.kind);
      Rest(t, b5 + |r.user| + 2, r.kind);
      if Clean(r.user) {
        BarsWithUser(t, b, r.time, r.user, r.kind);
      }
    }
  }

  lemma Rest(t: string, b: nat, s: string)
    requires Ends(t, b, s)
    ensures b <= |t| && t[b..] == s
  {
  }

  lemma AfterBars(t: string, b: nat, s: string)
    requires Ends(t, b, "||" + s)
    ensures Ends(t, b + 2, s)
  {
    Slice(t, b, "||", s);
  }

  predicate Found(t: string, b: nat) {
    0 <= Find(t, "||||", 0) <= b
  }

  lemma NoTime(t: string, b: nat, time: string, rest: string)
    requires time == "" && Ends(t, b, "||" + (time + ("||" + rest)))
    ensures At(t, b, "||||") && Find(t, "||||", b) == b && Found(t, b)
  {
    assert "||" + (time + ("||" + rest)) == "" + ("||" + ("||" + rest));
    EmptyField(t, b, "", rest);
  }

  // No four bars begin before the separator in front of the kind.
  lemma BarsWithUser(t: string, b: nat, time: string, user: string, kind: string)
    requires b >= 2 && Ends(t, b, time + ("||" + (user + ("||" + kind))))
    requires Clean(time) && time != "" && Clean(user) && user != ""
    ensures Find(t, "||||", b - 2) == -1 <==> NoFour("||" + kind)
  {
    hide Ends, Clean, At, NoFour;
    var f5 := user + ("||" + kind);
    var b5 := b + |time| + 2;
    var b6 := b5 + |user| + 2;
    After(t, b, time + ("||" + f5), time, f5);
    NoneIn(t, b, time, f5);
    NoneIn(t, b5, user, kind);
    BeforeSeparator(t, b5, f5, user, kind);
    EndsIn(t, b6 - 2, "||" + kind);
    FindFrom(t, "||||", b - 2, b6 - 2);
    BarsBeforeKind(t, b6, kind);
  }

  // --- main theorem ---

  lemma WithoutUser(r: Info, max: nat)
    requires Clean(r.id) && Clean(r.url) && Clean(r.name) && r.url != "" && r.name != "" && r.user == ""
    ensures var t := Record(r);
      (Field(t, 4, max) == Value(r.time) && Field(t, 5, max) == Value(r.user) && Field(t, 6, max) == Value(r.kind))
      <==> (NoFour("||" + r.time + "|||") && |r.time| <= max)
  {
    hide Ends, Clean, Begin, NoFour, Find, Field, Record, FromUrl, FromName, FromTime, FromUser;
    var t, b := Record(r), TimeAt(r);
    FirstThree(r, max);
    Layout(r);
    SearchFromTime(r);
    Unfold(r);
    BeforeSeparator(t, NameAt(r), FromName(r), r.name, FromTime(r));
    Regroup(r.time, r.kind);
    LastWithoutUser(t, b, r.time, r.kind, max);
  }

  lemma WithUser(r: Info, max: nat)
    requires Clean(r.id) && Clean(r.url) && Clean(r.name) && r.url != "" && r.name != "" && r.user != ""
    ensures var t := Record(r);
      (Field(t, 4, max) == Value(r.time) && Field(t, 5, max) == Value(r.user) && Field(t, 6, max) == Value(r.kind))
      <==> (Clean(r.time) && r.time != "" && Clean(r.user) && NoFour("||" + r.kind)
            && |r.time| <= max && |r.user| <= max && |r.kind| <= max)
  {
    hide Ends, Clean, Begin, NoFour, Find, Field, Record, FromUrl, FromName, FromTime, FromUser;
    var t, b := Record(r), TimeAt(r);
    FirstThree(r, max);
    Layout(r);
    SearchFromTime(r);
    Unfold(r);
    BeforeSeparator(t, NameAt(r), FromName(r), r.name, FromTime(r));
    LastWithUser(t, b, r, max);
  }

  // With an empty URL or name the four bars come too early: the time cannot be decoded.
  lemma NothingBetween(r: Info, max: nat)
    requires Clean(r.id) && Clean(r.url) && Clean(r.name) && (r.url == "" || r.name == "")
    ensures Field(Record(r), 4, max) == Broken
  {
    hide Ends, Clean, At, Find, Begin, Between, Record, FromUrl, FromName, FromTime;
    var t := Record(r);
    Layout(r);
    Unfold(r);
    FirstThree(r, max);
    if r.url == "" {
      BeforeSeparator(t, 0, t, r.id, FromUrl(r));
      NoTime(t, |r.id|, r.url, FromName(r));
    } else {
      BeforeSeparator(t, UrlAt(r), FromUrl(r), r.url, FromName(r));
      NoTime(t, NameAt(r) - 2, r.name, FromTime(r));
    }
  }

  // Main theorem. Every field of a record decodes to itself exactly when the record is separable.
  lemma RoundTrip(r: Info, max: nat)
    ensures Recovered(r, max) <==> Separable(r) && Fits(r, max)
  {
    hide Clean, NoFour, Record, Between, Find, Begin;
    FirstThree(r, max);
    if Clean(r.id) && Clean(r.url) && Clean(r.name) {
      if r.url == "" || r.name == "" {
        NothingBetween(r, max);
      } else if r.user == "" {
        WithoutUser(r, max);
      } else {
        WithUser(r, max);
      }
    }
  }

  // An id that ends in a bar loses it: the separator is found one char too early.
  lemma BarLost(r: Info, max: nat)
    requires r.id == "a|" && max >= 1
    ensures Field(Record(r), 1, max) == Value("a") && !Recovered(r, max)
  {
    hide FromUrl;
    var t := Record(r);
    assert t[1..3] == "||" && t[0..2] == "a|";
    FindIs(t, "||", 0, 1);
    BetweenFirst(t, max);
  }

  lemma BetweenFirst(t: string, max: nat)
    requires Find(t, "||", 0) == 1 && |t| > 1 && max >= 1
    ensures Field(t, 1, max) == Value(t[0..1])
  {
    hide Find;
    assert Begin(t, 0) == 0;
  }

  // --- long fields ---

  // No other field has a number.
  function Nth(r: Info, k: int): string {
    match k
    case 1 => r.id
    case 2 => r.url
    case 3 => r.name
    case 4 => r.time
    case 5 => r.user
    case 6 => r.kind
    case _ => ""
  }

  // A field of a separable record is cut when it is too long, but for the kind in a record without a user.
  lemma LongFields(r: Info, k: int, max: nat)
    requires Separable(r)
    ensures var x := Nth(r, k);
      Field(Record(r), k, max) == Value(if |x| > max && (k != 6 || r.user != "") then x[..max] else x)
  {
    hide Separable, Record, Field, Recovered, Cut;
    var t := Record(r);
    var n := |r.id| + |r.url| + |r.name| + |r.time| + |r.user| + |r.kind| + 1;
    RoundTrip(r, n);
    FieldKnown(r, k, n);
    CutShort(t, k, n, max);
    CutPrefix(Nth(r, k), max);
    if r.user == "" {
      NoUser(r);
    } else {
      UserKnown(r, n);
    }
  }

  lemma FieldKnown(r: Info, k: int, n: nat)
    requires Recovered(r, n)
    ensures Field(Record(r), k, n) == Value(Nth(r, k))
  {
    hide Field;
    NoSuchField(Record(r), k, n);
  }

  lemma UserKnown(r: Info, n: nat)
    requires Recovered(r, n) && r.user != ""
    ensures Find(Record(r), "||||", 0) < 0
  {
    hide Find, Record, Between;
  }

  lemma CutPrefix(s: string, max: nat)
    ensures Cut(s, max) == if |s| > max then s[..max] else s
  {
  }

  lemma NoSuchField(t: string, k: int, max: nat)
    ensures k < 1 || k > 6 ==> Field(t, k, max) == Value("")
  {
  }

  lemma NoUser(r: Info)
    requires r.user == ""
    ensures Find(Record(r), "||||", 0) >= 0
  {
    hide Ends, At, Record, FromUrl, FromName, FromTime;
    Layout(r);
    Unfold(r);
    Leading("||" + r.kind);
    EmptyField(Record(r), TimeAt(r), r.time, r.kind);
    assert At(Record(r), TimeAt(r) + |r.time|, "||||");
  }

  // With another maximum the same field is cut elsewhere.
  lemma CutShort(t: string, k: int, n: nat, max: nat)
    requires Field(t, k, n).Value? && |Field(t, k, n).s| < n
    ensures var uncut := k == 6 && Find(t, "||||", 0) >= 0;
      var x := Field(t, k, n).s;
      Field(t, k, max) == Value(if uncut then x else Cut(x, max))
  {
    hide Find, Begin;
  }

  // --- tidy records ---

  predicate Tidy(x: string) {
    Clean(x) && (x != "" ==> x[0] != '|')
  }

  predicate TidyRecord(r: Info) {
    && Tidy(r.id) && Tidy(r.url) && Tidy(r.name) && Tidy(r.time) && Tidy(r.user) && Tidy(r.kind)
    && r.id != "" && r.url != "" && r.name != "" && r.time != "" && r.kind != ""
  }

  // A record whose fields have no bars at their ends and no two in a row is separable, with or without user.
  lemma TidySeparable(r: Info)
    requires TidyRecord(r)
    ensures Separable(r)
  {
    TidyTime(r.time);
    TidyKind(r.kind);
  }

  lemma TidyTime(x: string)
    requires Tidy(x) && x != ""
    ensures NoFour("||" + x + "|||")
  {
    var u := "||" + x + "|||";
    assert u[2] == x[0];
    forall i | 2 <= i < |x| + 2 ensures u[i] == x[i - 2] {
    }
  }

  lemma TidyKind(x: string)
    requires Tidy(x) && x != ""
    ensures NoFour("||" + x)
  {
    var u := "||" + x;
    assert u[2] == x[0];
    forall i | 2 <= i < |u| ensures u[i] == x[i - 2] {
    }
  }

  // What the decoder relies on: there are four bars in a row exactly when there is no user.
  lemma BarsMeanNoUser(r: Info)
    requires TidyRecord(r)
    ensures Find(Record(r), "||||", 0) >= 0 <==> r.user == ""
  {
    hide Ends, NoFour, Record, FromUrl, FromName, FromTime, FromUser;
    var t, b := Record(r), TimeAt(r);
    Layout(r);
    SearchFromTime(r);
    Unfold(r);
    if r.user == "" {
      assert FromUser(r) == "||" + r.kind;
      EmptyField(t, b, r.time, r.kind);
    } else {
      TidyKind(r.kind);
      BarsWithUser(t, b, r.time, r.user, r.kind);
    }
  }

  // --- the source's methods ---

  // `strcat(redis_value_buf, s)`
  method StrCat(buf: array<char>, s: string, ghost t: string)
    requires CString(t) && CString(s) && Holds(buf, 0, t) && |t| + |s| < buf.Length
    modifies buf
    ensures Holds(buf, 0, t + s) && CString(t + s)
  {
    var n := StrLen(buf, 0, t);
    assert buf[0..|t|] == buf[..|t|];
    StrCpy(buf, n, s);
    assert buf[0..|t + s|] == buf[..n + |s|];
  }

  // The part of `write_redis` that fills the zeroed buffer redis_value_buf.
  method WriteRecord(buf: array<char>, r: Info)
    requires CString(r.id) && CString(r.url) && CString(r.name) && CString(r.time) && CString(r.user) && CString(r.kind)
    requires |Record(r)| < buf.Length && buf[0] == '\0'
    modifies buf
    ensures Holds(buf, 0, Record(r))
    ensures Record(r) == r.id + "||" + r.url + "||" + r.name + "||" + r.time + "||" + r.user + "||" + r.kind
  {
    hide Holds, Record;
    ghost var t := "";
    Flat(r);
    StartEmpty(buf);
    t := AppendField(buf, r.id, t);
    t := AppendField(buf, r.url, t);
    t := AppendField(buf, r.name, t);
    t := AppendField(buf, r.time, t);
    t := AppendField(buf, r.user, t);
    StrCat(buf, r.kind, t);
  }

  lemma StartEmpty(buf: array<char>)
    requires buf.Length > 0 && buf[0] == '\0'
    ensures Holds(buf, 0, "")
  {
  }

  lemma Flat(r: Info)
    ensures Record(r)
         == "" + r.id + "||" + r.url + "||" + r.name + "||" + r.time + "||" + r.user + "||" + r.kind
  {
    var a := "" + r.id + "||";
    var b := a + r.url + "||";
    var c := b + r.name + "||";
    var d := c + r.time + "||";
    assert Record(r) == a + FromUrl(r) == b + FromName(r) == c + FromTime(r) == d + FromUser(r);
  }

  method AppendField(buf: array<char>, s: string, ghost t: string) returns (ghost t': string)
    requires CString(t) && CString(s) && Holds(buf, 0, t) && |t| + |s| + 2 < buf.Length
    modifies buf
    ensures t' == t + s + "||" && Holds(buf, 0, t') && CString(t')
  {
    StrCat(buf, s, t);
    StrCat(buf, "||", t + s);
    t' := t + s + "||";
  }

  // The loop over n separators: where the n-th stands and ends, and where the field before it begins.
  method Separators(a: array<char>, n: nat, ghost t: string) returns (first: int, begin: int, end: int)
    requires CString(t) && Holds(a, 0, t) && n > 1 && Begin(t, n) >= 0
    ensures first == Begin(t, n - 1) && begin == Begin(t, n) && end == begin - 2 == Find(t, "||", first)
  {
    hide Holds, Find, Begin;
    first, begin, end := 0, 0, 0;
    BeginNone(t);
    for i := 0 to n
      invariant begin == Begin(t, i) && 0 <= begin <= |t|
      invariant i > 0 ==> Begin(t, i - 1) >= 0 && end == begin - 2 == Find(t, "||", Begin(t, i - 1))
      invariant i >= n - 1 ==> first == Begin(t, n - 1)
    {
      BeginMonotone(t, i + 1, n);
      BeginStep(t, i);
      end := StrStr(a, begin, "||", t);
      begin := end + 2;
      if i + 2 == n {
        first := begin;
      }
    }
  }

  lemma BeginStep(t: string, n: nat)
    requires Begin(t, n + 1) >= 0
    ensures Begin(t, n) >= 0
    ensures var e := Find(t, "||", Begin(t, n)); e >= 0 && Begin(t, n + 1) == e + 2
  {
  }

  lemma {:induction false} BeginMonotone(t: string, m: nat, n: nat)
    requires m <= n && Begin(t, n) >= 0
    ensures Begin(t, m) >= 0
  {
    if m < n {
      BeginMonotone(t, m, n - 1);
    }
  }

  predicate Zeroed(a: array<char>)
    reads a
  {
    forall i | 0 <= i < a.Length :: a[i] == '\0'
  }

  // Copies n chars, or maxLen if that is less, without a terminator.
  method CopyOut(value: array<char>, a: array<char>, from: nat, n: nat, maxLen: nat, ghost t: string)
    requires CString(t) && Holds(a, 0, t) && from + n <= |t| && value != a && Zeroed(value)
    requires |Cut(t[from..from + n], maxLen)| < value.Length
    modifies value
    ensures Holds(value, 0, Cut(t[from..from + n], maxLen))
  {
    var len := if n > maxLen then maxLen else n;
    CharsOf(a, t);
    for k := 0 to len
      invariant forall i | 0 <= i < k :: value[i] == t[from + i]
      invariant forall i | k <= i < value.Length :: value[i] == '\0'
    {
      value[k] := a[from + k];
    }
    assert value[0..len] == Cut(t[from..from + n], maxLen);
  }

  // What stands between the last two of n separators.
  method CopyBetween(a: array<char>, n: nat, value: array<char>, maxLen: nat, ghost t: string)
    requires CString(t) && Holds(a, 0, t) && value != a && Zeroed(value) && n > 1
    requires var f := Between(t, n, maxLen); f.Value? && |f.s| < value.Length
    modifies value
    ensures Holds(value, 0, Between(t, n, maxLen).s)
  {
    hide Holds, Find, Cut, Begin, Zeroed;
    BetweenFound(t, n, maxLen);
    var first, begin, end := Separators(a, n, t);
    CopyOut(value, a, first, end - first, maxLen, t);
  }

  lemma BetweenFound(t: string, n: nat, max: nat)
    requires n > 0 && Between(t, n, max).Value?
    ensures Begin(t, n) >= 0 && Begin(t, n - 1) >= 0
    ensures var b, e := Begin(t, n - 1), Begin(t, n) - 2;
      e == Find(t, "||", b) && b <= e <= |t| && Between(t, n, max) == Value(Cut(t[b..e], max))
  {
  }

  // What follows position from.
  method CopyRest(a: array<char>, from: nat, value: array<char>, maxLen: nat, unbounded: bool, ghost t: string)
    requires CString(t) && Holds(a, 0, t) && value != a && Zeroed(value) && from <= |t|
    requires |if unbounded then t[from..] else Cut(t[from..], maxLen)| < value.Length
    modifies value
    ensures Holds(value, 0, if unbounded then t[from..] else Cut(t[from..], maxLen))
  {
    assert a[from..from + |t[from..]|] == a[0..|t|][from..] == t[from..];
    var n := StrLen(a, from, t[from..]);
    assert t[from..from + n] == t[from..];
    CopyOut(value, a, from, n, if unbounded then n else maxLen, t);
  }

  // `memset(value, 0, 10)`
  method ClearTen(value: array<char>)
    requires Zeroed(value) && value.Length >= 10
    modifies value
    ensures Holds(value, 0, "")
  {
    for k := 0 to 10
      invariant Zeroed(value)
    {
      value[k] := '\0';
    }
  }

  // `get_value_by_redis`, on a record from which the field can be taken, into a buffer of zeroes.
  method GetValueByRedis(a: array<char>, wordNum: int, value: array<char>, maxLen: nat, ghost t: string)
    requires CString(t) && Holds(a, 0, t) && value != a && Zeroed(value) && value.Length >= 10
    requires var f := Field(t, wordNum, maxLen); f.Value? && |f.s| < value.Length
    modifies value
    ensures Holds(value, 0, Field(t, wordNum, maxLen).s)
  {
    hide Holds, Find, Begin, Cut, Between, Zeroed;
    if wordNum == 1 {
      FirstBetween(t, maxLen);
      var end := StrStr(a, 0, "||", t);
      CopyOut(value, a, 0, end, maxLen, t);
    } else if wordNum == 2 || wordNum == 3 {
      CopyBetween(a, wordNum, value, maxLen, t);
    } else if 4 <= wordNum <= 6 {
      var p := StrStr(a, 0, "||||", t);
      if wordNum == 4 && p >= 0 {
        var first, begin, end := Separators(a, 3, t);
        CopyOut(value, a, begin, p - begin, maxLen, t);
      } else if wordNum == 5 && p >= 0 {
        ClearTen(value);
      } else if wordNum == 6 && p >= 0 {
        CopyRest(a, p + 4, value, maxLen, true, t);
      } else if wordNum == 6 {
        var first, begin, end := Separators(a, 5, t);
        CopyRest(a, begin, value, maxLen, false, t);
      } else {
        CopyBetween(a, wordNum, value, maxLen, t);
      }
    } else {
      AlreadyEmpty(value);
    }
  }

  lemma FirstBetween(t: string, max: nat)
    requires Between(t, 1, max).Value?
    ensures var e := Find(t, "||", 0); 0 <= e <= |t| && Between(t, 1, max) == Value(Cut(t[0..e], max))
  {
    BetweenFound(t, 1, max);
  }

  lemma AlreadyEmpty(value: array<char>)
    requires Zeroed(value) && value.Length > 0
    ensures Holds(value, 0, "")
  {
  }

  // Writing a record and taking a field from it gives the field; any other number gives nothing.
  method WriteAndRead(buf: array<char>, r: Info, k: int, value: array<char>, maxLen: nat)
    requires CString(r.id) && CString(r.url) && CString(r.name) && CString(r.time) && CString(r.user) && CString(r.kind)
    requires |Record(r)| < buf.Length && buf[0] == '\0' && value != buf && Zeroed(value) && value.Length >= 10
    requires Separable(r) && Fits(r, maxLen) && |Nth(r, k)| < value.Length
    modifies buf, value
    ensures Holds(value, 0, Nth(r, k))
  {
    hide Holds, Record, Separable, Fits, Field;
    RoundTrip(r, maxLen);
    NoSuchField(Record(r), k, maxLen);
    RecordCString(r);
    WriteRecord(buf, r);
    GetValueByRedis(buf, k, value, maxLen, Record(r));
  }

  lemma RecordCString(r: Info)
    requires CString(r.id) && CString(r.url) && CString(r.name) && CString(r.time) && CString(r.user) && CString(r.kind)
    ensures CString(Record(r))
  {
  }
}
