/**
  The upload service: uploads and clicks in any order, and what the list of files then shows
  (src/usefull.c, lines 292-328; src/data_use.c, lines 205-264 and 324-335; src/data_cgi.c, lines 55-84).
 */
module Service {
  import opened JsonValue
  import opened CMemory
  import opened Search
  import opened Records
  import opened Replacing

  const RECORD_SIZE := 1024    // VALUES_ID_SIZE
  const FILE_ID_SIZE := 256    // FILE_ID_LEN
  const URL_SIZE := 256
  const NAME_SIZE := 256
  const TIME_SIZE := 64        // TIME_STRING_LEN
  const USER_SIZE := 64
  const SUFFIX_SIZE := 8       // SUFFIX_LEN
  const SHOWN_USER_SIZE := 128

  // --- the store ---

  // ZSCORE; the source takes a missing member for -1.
  function Score(scores: map<string, int>, member: string): int {
    if member in scores then scores[member] else -1
  }

  // ZINCRBY 1
  function Incremented(scores: map<string, int>, member: string): map<string, int> {
    scores[member := 1 + if member in scores then scores[member] else 0]
  }

  // FILE_INFO_LIST and FILE_HOT_ZSET
  class Store {
    var list: seq<string>
    var scores: map<string, int>

    constructor ()
      ensures list == [] && scores == map[]
    {
      list, scores := [], map[];
    }

    // LPUSH
    method ListPush(value: string)
      modifies this`list
      ensures list == [value] + old(list)
    {
      list := [value] + list;
    }

    method Increment(member: string)
      modifies this`scores
      ensures scores == Incremented(old(scores), member)
    {
      scores := Incremented(scores, member);
    }

    method GetScore(member: string) returns (score: int)
      ensures score == Score(scores, member)
    {
      score := if member in scores then scores[member] else -1;
    }
  }

  // --- requests ---

  predicate Storable(r: Info) {
    CStrings(r) && |Record(r)| < RECORD_SIZE
  }

  predicate CStrings(r: Info) {
    CString(r.id) && CString(r.url) && CString(r.name) && CString(r.time) && CString(r.user) && CString(r.kind)
  }

  // What the buffers of the upload request can hold.
  predicate Bounded(r: Info) {
    && CStrings(r) && |r.id| < FILE_ID_SIZE && |r.url| < URL_SIZE && |r.name| < NAME_SIZE
    && |r.time| < TIME_SIZE && |r.user| < USER_SIZE && |r.kind| < SUFFIX_SIZE
  }

  // So a record always fits the buffer it is built in, and no field is cut when it is decoded.
  lemma BoundedStorable(r: Info)
    requires Bounded(r)
    ensures Storable(r) && Fits(r, RECORD_SIZE - 1)
  {
    assert |Record(r)| == |r.id| + |r.url| + |r.name| + |r.time| + |r.user| + |r.kind| + 10;
  }

  // `write_redis`
  method WriteRedis(store: Store, info: Info)
    requires Storable(info)
    modifies store
    ensures store.list == [Record(info)] + old(store.list) && store.scores == Incremented(old(store.scores), info.id)
  {
    hide Holds, Record;
    var buf := new char[RECORD_SIZE](_ => '\0');
    WriteRecord(buf, info);
    RecordCString(info);
    var value := CMemory.Text(buf, Record(info));
    store.ListPush(value);
    store.Increment(info.id);
  }

  // The `increase` request: `str_replace` on the file id of the request, then `increase_file_pv`.
  method Increase(store: Store, request: string)
    requires CString(request) && |request| < FILE_ID_SIZE
    modifies store
    ensures store.list == old(store.list) && store.scores == Incremented(old(store.scores), Unescape(request))
  {
    hide Holds, Replace, At;
    var fileId := new char[FILE_ID_SIZE](_ => '\0');
    StrCpy(fileId, 0, request);
    StrReplace(fileId, ESCAPED, "/", request);
    ReplaceLength(request, ESCAPED, "/");
    UnescapeCString(request);
    var id := CMemory.Text(fileId, Unescape(request));
    store.Increment(id);
  }

  lemma {:induction false} UnescapeCString(s: string)
    requires CString(s)
    ensures CString(Unescape(s))
    decreases |s|
  {
    hide At;
    var p := Find(s, ESCAPED, 0);
    FindFits(s, ESCAPED, 0);
    if p >= 0 {
      UnescapeCString(s[p + 3..]);
    }
  }

  // --- runs ---

  // A click sends the file id with its slashes escaped.
  datatype Event = Upload(info: Info) | Click(id: string)

  predicate Valid(e: Event) {
    match e
    case Upload(r) => Storable(r)
    case Click(id) => CString(EscapeSlashes(id)) && |EscapeSlashes(id)| < FILE_ID_SIZE
  }

  // The uploads of a run, newest first.
  function Uploads(run: seq<Event>): seq<Info> {
    if run == [] then []
    else
      var e, before := run[|run| - 1], Uploads(run[..|run| - 1]);
      if e.Upload? then [e.info] + before else before
  }

  function Stored(infos: seq<Info>): seq<string> {
    if infos == [] then [] else [Record(infos[0])] + Stored(infos[1..])
  }

  // The file whose score an event increments.
  function Counted(e: Event): string {
    if e.Upload? then e.info.id else Unescape(EscapeSlashes(e.id))
  }

  function Scores(run: seq<Event>): map<string, int> {
    if run == [] then map[] else Incremented(Scores(run[..|run| - 1]), Counted(run[|run| - 1]))
  }

  method Serve(run: seq<Event>) returns (store: Store)
    requires forall e | e in run :: Valid(e)
    ensures fresh(store) && store.list == Stored(Uploads(run)) && store.scores == Scores(run)
  {
    hide Record, Incremented, Counted;
    store := new Store();
    assert run[..0] == [];
    for k := 0 to |run|
      invariant store.list == Stored(Uploads(run[..k])) && store.scores == Scores(run[..k]) && fresh(store)
    {
      assert run[..k + 1][..k] == run[..k];
      assert run[k] in run;
      Turn(run[k]);
      match run[k] {
        case Upload(info) => WriteRedis(store, info);
        case Click(id) => Increase(store, EscapeSlashes(id));
      }
    }
    assert run[..|run|] == run;
  }

  lemma Turn(e: Event)
    ensures Counted(e) == if e.Upload? then e.info.id else Unescape(EscapeSlashes(e.id))
  {
  }

  // --- what the list shows ---

  function UploadsOf(run: seq<Event>, id: string): nat {
    if run == [] then 0
    else UploadsOf(run[..|run| - 1], id) + var e := run[|run| - 1]; if e.Upload? && e.info.id == id then 1 else 0
  }

  function ClicksOn(run: seq<Event>, id: string): nat {
    if run == [] then 0
    else ClicksOn(run[..|run| - 1], id) + if run[|run| - 1] == Click(id) then 1 else 0
  }

  // The clicks whose file id comes out as id.
  function ClicksTaken(run: seq<Event>, id: string): nat {
    if run == [] then 0
    else
      ClicksTaken(run[..|run| - 1], id)
      + var e := run[|run| - 1]; if e.Click? && Unescape(EscapeSlashes(e.id)) == id then 1 else 0
  }

  // The score of a file is the number of its uploads and of the clicks on it.
  lemma {:induction false} ScoreCounts(run: seq<Event>, id: string)
    ensures var n := UploadsOf(run, id) + ClicksTaken(run, id);
      (id in Scores(run) <==> n > 0) && Score(Scores(run), id) == if n == 0 then -1 else n
    decreases |run|
  {
    if run != [] {
      ScoreCounts(run[..|run| - 1], id);
    }
  }

  predicate NoKey(id: string) {
    forall i | 0 <= i < |id| :: !At(id, i, "%2F")
  }

  // No id with `%2F` in it is clicked: then every click counts for the id it names.
  lemma {:induction false} ClicksAreTaken(run: seq<Event>, id: string)
    requires forall e | e in run && e.Click? :: NoKey(e.id)
    ensures ClicksTaken(run, id) == ClicksOn(run, id)
    decreases |run|
  {
    if run != [] {
      var before, e := run[..|run| - 1], run[|run| - 1];
      assert e in run;
      hide At, Unescape, EscapeSlashes;
      ClicksAreTaken(before, id);
      if e.Click? {
        Replacing.Recovered(e.id);
      }
    }
  }

  lemma {:induction false} StoredAt(infos: seq<Info>, i: nat)
    requires i < |infos|
    ensures |Stored(infos)| == |infos| && Stored(infos)[i] == Record(infos[i])
  {
    hide Record;
    if i > 0 {
      StoredAt(infos[1..], i - 1);
    } else {
      StoredLength(infos);
    }
  }

  lemma {:induction false} StoredLength(infos: seq<Info>)
    ensures |Stored(infos)| == |infos|
  {
    if infos != [] {
      StoredLength(infos[1..]);
    }
  }

  // What `read_redis_to_json` takes from a record, and the score less one.
  datatype Entry = Entry(id: string, name: string, user: string, time: string, url: string, pv: int)

  // The field can be taken, and fits the buffer that receives it.
  predicate Taken(t: string, k: int, size: nat) {
    var f := Field(t, k, RECORD_SIZE - 1);
    f.Value? && |f.s| < size && CString(f.s)
  }

  predicate Displayed(t: string) {
    && CString(t) && Taken(t, 1, FILE_ID_SIZE) && Taken(t, 3, NAME_SIZE) && Taken(t, 5, SHOWN_USER_SIZE)
    && Taken(t, 4, TIME_SIZE) && Taken(t, 2, URL_SIZE)
  }

  function FieldOf(t: string, k: int): string
    requires Field(t, k, RECORD_SIZE - 1).Value?
  {
    Field(t, k, RECORD_SIZE - 1).s
  }

  function EntryOf(t: string, scores: map<string, int>): Entry
    requires Displayed(t)
  {
    Entry(FieldOf(t, 1), FieldOf(t, 3), FieldOf(t, 5), FieldOf(t, 4), FieldOf(t, 2), Score(scores, FieldOf(t, 1)) - 1)
  }

  // What a run should make of an upload: its arguments, and the number of clicks on the file, plus the number of
  // uploads of it beyond the first.
  function ShownAs(run: seq<Event>, r: Info): Entry {
    Entry(r.id, r.name, r.user, r.time, r.url, ClicksTaken(run, r.id) + UploadsOf(run, r.id) - 1)
  }

  // Main theorem. After any run, the i-th entry of the list shows the i-th latest upload.
  lemma Shown(run: seq<Event>, i: nat)
    requires i < |Uploads(run)| && Separable(Uploads(run)[i]) && Bounded(Uploads(run)[i])
    ensures var list, info := Stored(Uploads(run)), Uploads(run)[i];
      && |list| == |Uploads(run)| && list[i] == Record(info) && Records.Recovered(info, RECORD_SIZE - 1)
      && Displayed(list[i]) && EntryOf(list[i], Scores(run)) == ShownAs(run, info)
  {
    hide Record, Field, Separable, Fits, Stored, Scores;
    var info := Uploads(run)[i];
    StoredAt(Uploads(run), i);
    Listed(run, i);
    BoundedStorable(info);
    RecordCString(info);
    Records.RoundTrip(info, RECORD_SIZE - 1);
    ScoreCounts(run, info.id);
  }

  lemma {:induction false} Listed(run: seq<Event>, i: nat)
    requires i < |Uploads(run)|
    ensures Upload(Uploads(run)[i]) in run && UploadsOf(run, Uploads(run)[i].id) > 0
    decreases |run|
  {
    var before, e := run[..|run| - 1], run[|run| - 1];
    if e.Click? {
      Listed(before, i);
    } else if i > 0 {
      Listed(before, i - 1);
    }
  }

  // A file uploaded once shows the number of clicks on it.
  lemma ShownClicks(run: seq<Event>, i: nat)
    requires i < |Uploads(run)| && Separable(Uploads(run)[i]) && Bounded(Uploads(run)[i])
    requires UploadsOf(run, Uploads(run)[i].id) == 1 && forall e | e in run && e.Click? :: NoKey(e.id)
    ensures var list := Stored(Uploads(run));
      && i < |list| && Displayed(list[i])
      && EntryOf(list[i], Scores(run)).pv == ClicksOn(run, Uploads(run)[i].id)
  {
    hide Record, Field, Separable, Stored, Scores, NoKey, EntryOf, Displayed;
    Shown(run, i);
    ClicksAreTaken(run, Uploads(run)[i].id);
  }

  // --- showing a page of the list ---

  // One field of a record, taken into a buffer that has been cleared.
  method TakeField(value: array<char>, k: int, size: nat, ghost t: string) returns (s: string)
    requires CString(t) && Holds(value, 0, t) && Taken(t, k, size) && size >= 10
    ensures s == FieldOf(t, k)
  {
    hide Holds, Field, Zeroed;
    var buffer := NewZeroed(size);
    GetValueByRedis(value, k, buffer, RECORD_SIZE - 1, t);
    s := CMemory.Text(buffer, FieldOf(t, k));
  }

  // `memset(file_id, 0, 256)`, and the same for the other buffers.
  method NewZeroed(n: nat) returns (a: array<char>)
    ensures fresh(a) && a.Length == n && Zeroed(a)
  {
    a := new char[n](_ => '\0');
  }

  // The body of the loop of `read_redis_to_json`.
  method ShowEntry(store: Store, t: string) returns (entry: Entry)
    requires Displayed(t)
    ensures entry == EntryOf(t, store.scores)
  {
    hide Holds, Field, Taken, FieldOf;
    var value := new char[|t| + 1];
    StrCpy(value, 0, t);
    var id := TakeField(value, 1, FILE_ID_SIZE, t);
    var name := TakeField(value, 3, NAME_SIZE, t);
    var user := TakeField(value, 5, SHOWN_USER_SIZE, t);
    var time := TakeField(value, 4, TIME_SIZE, t);
    var url := TakeField(value, 2, URL_SIZE, t);
    var score := store.GetScore(id);
    entry := Entry(id, name, user, time, url, score - 1);
  }

  // The number of records that `rop_range_list` copies: LRANGE yields those from position from to endId, but no more
  // than endId of them are copied.
  function PageSize(n: nat, from: nat, cnt: nat): nat
    requires cnt > 0
  {
    var elements, endId := AtMost(n - from, cnt), from + cnt - 1;
    if elements > endId then endId else elements
  }

  function AtMost(n: int, cnt: nat): nat {
    if n < 0 then 0 else if n > cnt then cnt else n
  }

  // The k-th entry asked for is shown.
  predicate OnPage(n: nat, from: nat, cnt: nat, k: nat) {
    from + k < n && k < cnt && (from > 0 || k + 1 < cnt)
  }

  lemma PageCovers(n: nat, from: nat, cnt: nat)
    requires cnt > 0
    ensures forall k: nat :: k < PageSize(n, from, cnt) <==> OnPage(n, from, cnt, k)
  {
  }

  // So a page shows all that it was asked for exactly when it does not begin at the head of the list, or the list is
  // shorter than what was asked for; otherwise the last entry is missing.
  lemma PageWhole(n: nat, from: nat, cnt: nat)
    requires cnt > 0
    ensures (forall k: nat | from + k < n && k < cnt :: OnPage(n, from, cnt, k)) <==> from > 0 || n < cnt
    ensures from == 0 && n >= cnt ==> PageSize(n, from, cnt) == cnt - 1
  {
    if from == 0 && n >= cnt {
      var k := cnt - 1;
      assert from + k < n && k < cnt && !OnPage(n, from, cnt, k);
    }
  }

  method ShowPage(store: Store, from: nat, cnt: nat) returns (page: seq<Entry>)
    requires cnt > 0 && forall t | t in store.list :: Displayed(t)
    ensures forall k: nat :: k < |page| <==> OnPage(|store.list|, from, cnt, k)
    ensures forall k | 0 <= k < |page| ::
      from + k < |store.list| && page[k] == EntryOf(store.list[from + k], store.scores)
  {
    hide Displayed, EntryOf, OnPage;
    PageCovers(|store.list|, from, cnt);
    page := [];
    for k := 0 to PageSize(|store.list|, from, cnt)
      invariant |page| == k && from + k <= |store.list| + from
      invariant forall j | 0 <= j < k ::
        from + j < |store.list| && Displayed(store.list[from + j])
        && page[j] == EntryOf(store.list[from + j], store.scores)
    {
      var t := store.list[from + k];
      var entry := ShowEntry(store, t);
      page := page + [entry];
    }
  }

  // Main theorem. After any run of uploads and clicks a page shows the latest uploads, newest first.
  method ServeAndShow(run: seq<Event>, from: nat, cnt: nat) returns (page: seq<Entry>)
    requires cnt > 0 && forall e | e in run :: Valid(e)
    requires forall e | e in run && e.Upload? :: Separable(e.info) && Bounded(e.info)
    ensures forall k: nat :: k < |page| <==> OnPage(|Uploads(run)|, from, cnt, k)
    ensures forall k | 0 <= k < |page| ::
      from + k < |Uploads(run)| && page[k] == ShownAs(run, Uploads(run)[from + k])
  {
    hide Separable, Bounded, Valid, Displayed, EntryOf, Record, Stored, Scores, OnPage, ShownAs;
    var store := Serve(run);
    ghost var infos := Uploads(run);
    StoredLength(infos);
    forall i | 0 <= i < |infos|
      ensures Displayed(store.list[i]) && EntryOf(store.list[i], store.scores) == ShownAs(run, infos[i])
    {
      Listed(run, i);
      Shown(run, i);
    }
    page := ShowPage(store, from, cnt);
    forall k | 0 <= k < |page|
      ensures from + k < |infos| && page[k] == ShownAs(run, infos[from + k])
    {
      var i, entry := from + k, page[k];
      assert entry == EntryOf(store.list[i], store.scores);
    }
  }
}
