/**
 * Decoding stored log events: one event at a time against the dictionary table,
 * and a page of events through a bounded cache of whole dictionaries whose
 * entries expire. The table may change over time and other calls may change the
 * cache while a query is awaited.
 */
module BatchDecode {
  import opened Bytes
  import opened Decimal
  import On9logPacket

  type Artifact = nat
  type Render = (string, seq<On9logPacket.Arg>) -> Option<string>

  const DICTIONARY_TTL_MS := 60_000
  const DICTIONARY_CACHE_MAX := 200

  datatype Row = Row(kind: string, address: int, value: string)

  datatype RawEvent = RawEvent(
    artifact: Option<Artifact>,
    packetType: nat,
    tagId: Option<int>,
    fmtId: Option<int>,
    rawPacket: seq<Byte>
  )

  datatype Decoded = Decoded(tag: Option<string>, message: Option<string>)

  const NOTHING := Decoded(None, None)

  /** The dictionary table: what it holds for an artifact at a moment. */
  type Table = (int, Artifact) -> seq<Row>

  /** An artifact has at most one row per kind and address. */
  ghost predicate Unique(rows: seq<Row>) {
    forall i, j :: 0 <= i < j < |rows| ==> rows[i].kind != rows[j].kind || rows[i].address != rows[j].address
  }

  ghost predicate UniqueRows(db: Table) {
    forall t, a :: Unique(db(t, a))
  }

  // --- One event against the table -----------------------------------------

  function FindUnique(rows: seq<Row>, kind: string, address: int): Option<string> {
    if rows == [] then None
    else if rows[0].kind == kind && rows[0].address == address then Some(rows[0].value)
    else FindUnique(rows[1..], kind, address)
  }

  predicate Decodable(e: RawEvent) {
    e.packetType == On9logPacket.LOG && e.artifact.Some? && e.tagId.Some? && e.fmtId.Some?
  }

  function DecodeRawEvent(db: Table, t: int, e: RawEvent, render: Render): Decoded {
    if !Decodable(e) then NOTHING
    else
      var rows := db(t, e.artifact.value);
      var tag := FindUnique(rows, "tag", e.tagId.value);
      var fmt := FindUnique(rows, "format", e.fmtId.value);
      if tag.None? || fmt.None? then NOTHING
      else
        var packet := On9logPacket.Parse(e.rawPacket);
        if packet.None? then Decoded(tag, None)
        else if !packet.value.Log? then NOTHING
        else Decoded(tag, render(fmt.value, packet.value.args))
  }

  predicate HasRow(rows: seq<Row>, kind: string, address: int, value: string) {
    Row(kind, address, value) in rows
  }

  ghost predicate NoRow(rows: seq<Row>, kind: string, address: int) {
    forall value :: !HasRow(rows, kind, address, value)
  }

  /** A row is found exactly when the artifact has it, and nothing is found exactly when it has none at the address. */
  lemma {:induction false} FoundRow(rows: seq<Row>, kind: string, address: int, value: string)
    requires Unique(rows)
    ensures FindUnique(rows, kind, address) == Some(value) <==> HasRow(rows, kind, address, value)
    ensures FindUnique(rows, kind, address).None? <==> NoRow(rows, kind, address)
  {
    if rows != [] {
      FoundRow(rows[1..], kind, address, value);
      HeadTail(rows);
      var first := rows[0];
      if first.kind == kind && first.address == address {
        assert HasRow(rows, kind, address, first.value);
        forall v | HasRow(rows, kind, address, v) ensures v == first.value {
          var i :| 0 <= i < |rows| && rows[i] == Row(kind, address, v);
        }
      } else {
        forall v ensures HasRow(rows, kind, address, v) <==> HasRow(rows[1..], kind, address, v) {}
      }
    }
  }

  /** A log event with its artifact, tag address and format address. */
  predicate LogEvent(e: RawEvent) { e.packetType == 0 && e.artifact.Some? && e.tagId.Some? && e.fmtId.Some? }

  /**
   * A log event shows the value of the row of kind tag at its tag address, and renders that of the row of kind format
   * at its format address with the arguments of its packet. Without either row it shows nothing; if its packet does
   * not parse it shows the tag alone.
   */
  lemma EventMeaning(db: Table, t: int, e: RawEvent, render: Render, tag: string, fmt: string)
    requires UniqueRows(db)
    ensures !LogEvent(e) ==> DecodeRawEvent(db, t, e, render) == Decoded(None, None)
    ensures LogEvent(e) ==>
      var rows := db(t, e.artifact.value);
      && (HasRow(rows, "tag", e.tagId.value, tag) && HasRow(rows, "format", e.fmtId.value, fmt) ==>
            DecodeRawEvent(db, t, e, render) ==
              match On9logPacket.Parse(e.rawPacket)
              case None => Decoded(Some(tag), None)
              case Some(packet) =>
                if packet.Log? then Decoded(Some(tag), render(fmt, packet.args)) else Decoded(None, None))
      && (NoRow(rows, "tag", e.tagId.value) || NoRow(rows, "format", e.fmtId.value) ==>
            DecodeRawEvent(db, t, e, render) == Decoded(None, None))
  {
    if LogEvent(e) {
      var rows := db(t, e.artifact.value);
      FoundRow(rows, "tag", e.tagId.value, tag);
      FoundRow(rows, "format", e.fmtId.value, fmt);
    }
  }

  // --- Whole dictionaries --------------------------------------------------

  function Key(kind: string, address: int): string {
    kind + ":" + IntText(address)
  }

  /** A key names one kind and one address, whatever the kind is called. */
  lemma KeyInjective(k: string, a: int, l: string, b: int)
    ensures Key(k, a) == Key(l, b) <==> k == l && a == b
  {
    if Key(k, a) == Key(l, b) {
      IntTextChars(a);
      IntTextChars(b);
      SplitAtLast(':', k, IntText(a), l, IntText(b));
      IntTextInjective(a, b);
    }
  }

  function Dictionary(rows: seq<Row>): map<string, string> {
    if rows == [] then map[]
    else
      var last := rows[|rows| - 1];
      Dictionary(rows[..|rows| - 1])[Key(last.kind, last.address) := last.value]
  }

  function Get(dict: map<string, string>, key: string): Option<string> {
    if key in dict then Some(dict[key]) else None
  }

  lemma {:induction false} FindUniqueLast(rows: seq<Row>, last: Row, kind: string, address: int)
    requires Unique(rows + [last])
    ensures FindUnique(rows + [last], kind, address) ==
      if last.kind == kind && last.address == address then Some(last.value) else FindUnique(rows, kind, address)
  {
    var all := rows + [last];
    if rows != [] {
      assert all[0] == rows[0] && all[|rows|] == last;
      assert all[1..] == rows[1..] + [last];
      FindUniqueLast(rows[1..], last, kind, address);
    }
  }

  /** Looking a key up in the dictionary is looking the row up in the table. */
  lemma {:induction false} DictionaryLookup(rows: seq<Row>, kind: string, address: int)
    requires Unique(rows)
    ensures Get(Dictionary(rows), Key(kind, address)) == FindUnique(rows, kind, address)
  {
    if rows != [] {
      var front, last := rows[..|rows| - 1], rows[|rows| - 1];
      assert rows == front + [last];
      DictionaryLookup(front, kind, address);
      KeyInjective(kind, address, last.kind, last.address);
      FindUniqueLast(front, last, kind, address);
    }
  }

  method LoadDictionary(rows: seq<Row>) returns (dict: map<string, string>)
    ensures dict == Dictionary(rows)
  {
    dict := map[];
    for i := 0 to |rows|
      invariant dict == Dictionary(rows[..i])
    {
      dict := dict[Key(rows[i].kind, rows[i].address) := rows[i].value];
      assert rows[..i + 1][..i] == rows[..i];
    }
    assert rows[..|rows|] == rows;
  }

  // --- The cache -----------------------------------------------------------

  datatype Entry = Entry(id: Artifact, dict: map<string, string>, expiresAt: int)

  /** Artifacts in the order in which they were first cached. */
  predicate Distinct(c: seq<Entry>) {
    forall i, j :: 0 <= i < j < |c| ==> c[i].id != c[j].id
  }

  /** The dictionary is what the table held at `q`. */
  ghost predicate ReadAt(db: Table, a: Artifact, dict: map<string, string>, q: int) {
    dict == Dictionary(db(q, a))
  }

  ghost predicate ReadWithin(db: Table, a: Artifact, dict: map<string, string>, from: int, to: int) {
    exists q :: from <= q <= to && ReadAt(db, a, dict, q)
  }

  /** The entry was read from the table by a query that took at most `latency` and whose result came before `now`. */
  ghost predicate Genuine(db: Table, e: Entry, latency: nat, now: int) {
    var loaded := e.expiresAt - DICTIONARY_TTL_MS;
    loaded <= now && ReadWithin(db, e.id, e.dict, loaded - latency, loaded)
  }

  ghost predicate AllGenuine(db: Table, c: seq<Entry>, latency: nat, now: int) {
    forall i :: 0 <= i < |c| ==> Genuine(db, c[i], latency, now)
  }

  ghost predicate ValidCache(db: Table, c: seq<Entry>, latency: nat, now: int) {
    Distinct(c) && |c| <= DICTIONARY_CACHE_MAX && AllGenuine(db, c, latency, now)
  }

  function Lookup(c: seq<Entry>, a: Artifact): (r: Option<Entry>)
    ensures r.Some? ==> r.value in c && r.value.id == a
    ensures r.None? ==> forall e :: e in c ==> e.id != a
  {
    if c == [] then None else if c[0].id == a then Some(c[0]) else Lookup(c[1..], a)
  }

  /** A cached artifact keeps its place; a new one goes last. */
  function Put(c: seq<Entry>, e: Entry): (r: seq<Entry>)
    ensures |r| <= |c| + 1
    ensures forall x :: x in r ==> x in c || x == e
    ensures e in r
  {
    if c == [] then [e]
    else if c[0].id == e.id then [e] + c[1..]
    else [c[0]] + Put(c[1..], e)
  }

  function Unexpired(c: seq<Entry>, now: int): seq<Entry> {
    if c == [] then []
    else
      var last := c[|c| - 1];
      Unexpired(c[..|c| - 1], now) + if last.expiresAt < now then [] else [last]
  }

  function Newest(c: seq<Entry>): seq<Entry> {
    if |c| <= DICTIONARY_CACHE_MAX then c else c[|c| - DICTIONARY_CACHE_MAX..]
  }

  /** Over the limit, expired entries go first, then the oldest ones. */
  function Evicted(c: seq<Entry>, now: int): seq<Entry> {
    if |c| <= DICTIONARY_CACHE_MAX then c else Newest(Unexpired(c, now))
  }

  lemma {:induction false} PutDistinct(c: seq<Entry>, e: Entry)
    requires Distinct(c)
    ensures Distinct(Put(c, e))
  {
    if c != [] && c[0].id != e.id {
      var rest := Put(c[1..], e);
      PutDistinct(c[1..], e);
      forall j | 0 <= j < |rest| ensures rest[j].id != c[0].id {
        assert rest[j] in rest;
        if rest[j] != e { assert rest[j] in c[1..]; }
      }
    } else if c != [] {
      var r := [e] + c[1..];
      forall j | 1 <= j < |r| ensures r[j].id != e.id { assert r[j] == c[j]; }
    }
  }

  lemma {:induction false} UnexpiredKeeps(c: seq<Entry>, now: int)
    requires Distinct(c)
    ensures Distinct(Unexpired(c, now))
    ensures forall e :: e in Unexpired(c, now) <==> e in c && e.expiresAt >= now
  {
    if c != [] {
      var front, last := c[..|c| - 1], c[|c| - 1];
      assert c == front + [last];
      UnexpiredKeeps(front, now);
      forall i | 0 <= i < |Unexpired(front, now)| ensures Unexpired(front, now)[i].id != last.id {
        assert Unexpired(front, now)[i] in front;
      }
    }
  }

  /** Eviction only removes entries, down to the limit, and drops an unexpired one only if those alone exceed it. */
  lemma EvictedKeeps(c: seq<Entry>, now: int)
    requires Distinct(c)
    ensures Distinct(Evicted(c, now)) && |Evicted(c, now)| <= DICTIONARY_CACHE_MAX
    ensures forall e :: e in Evicted(c, now) ==> e in c
    ensures |Unexpired(c, now)| <= DICTIONARY_CACHE_MAX ==>
      forall e :: e in c && e.expiresAt >= now ==> e in Evicted(c, now)
  {
    UnexpiredKeeps(c, now);
  }

  /** Replaces the artifact's entry where it stands, or goes last. */
  lemma {:induction false} PutMeaning(c: seq<Entry>, e: Entry, k: nat)
    ensures (forall x :: x in c ==> x.id != e.id) ==> Put(c, e) == c + [e]
    ensures k < |c| && c[k].id == e.id && Distinct(c) ==> Put(c, e) == c[k := e]
    decreases |c|
  {
    if c != [] && c[0].id != e.id {
      PutMeaning(c[1..], e, if k == 0 then 0 else k - 1);
    }
  }

  lemma {:induction false} UnexpiredPlace(c: seq<Entry>, now: int, i: nat)
    requires i < |c| && c[i].expiresAt >= now
    ensures var k := |Unexpired(c[..i], now)|; k < |Unexpired(c, now)| && Unexpired(c, now)[k] == c[i]
    decreases |c|
  {
    var front := c[..|c| - 1];
    if i < |c| - 1 {
      assert front[..i] == c[..i];
      UnexpiredPlace(front, now, i);
    } else {
      assert front == c[..i];
    }
  }

  lemma UnexpiredPlaces(c: seq<Entry>, now: int, i: nat, j: nat) returns (k: nat, l: nat)
    requires i < j < |c| && c[i].expiresAt >= now && c[j].expiresAt >= now
    ensures var u := Unexpired(c, now); k < l < |u| && u[k] == c[i] && u[l] == c[j]
  {
    k, l := |Unexpired(c[..i], now)|, |Unexpired(c[..j], now)|;
    UnexpiredPlace(c, now, i);
    UnexpiredPlace(c, now, j);
    UnexpiredPlace(c[..j], now, i);
    assert c[..j][..i] == c[..i];
  }

  /**
   * Up to 200 entries nothing is evicted. Beyond, all expired entries go, as many of the others stay as fit, and an
   * entry only goes if every unexpired one cached before it goes.
   */
  lemma EvictionOrder(c: seq<Entry>, now: int)
    requires Distinct(c)
    ensures |c| <= 200 ==> Evicted(c, now) == c
    ensures |c| > 200 ==>
      && (forall e :: e in Evicted(c, now) ==> e.expiresAt >= now)
      && |Evicted(c, now)| == (if |Unexpired(c, now)| <= 200 then |Unexpired(c, now)| else 200)
      && forall i, j :: 0 <= i < j < |c| && c[i] in Evicted(c, now) && c[j].expiresAt >= now ==> c[j] in Evicted(c, now)
  {
    UnexpiredKeeps(c, now);
    if |c| > 200 {
      forall i, j | 0 <= i < j < |c| && c[i] in Evicted(c, now) && c[j].expiresAt >= now
        ensures c[j] in Evicted(c, now)
      {
        var k, l := UnexpiredPlaces(c, now, i, j);
        LaterStays(Unexpired(c, now), k, l);
      }
    }
  }

  lemma LaterStays(u: seq<Entry>, k: nat, l: nat)
    requires Distinct(u) && k < l < |u| && u[k] in Newest(u)
    ensures u[l] in Newest(u)
  {
    if |u| > DICTIONARY_CACHE_MAX {
      var cut := |u| - DICTIONARY_CACHE_MAX;
      var m :| 0 <= m < |Newest(u)| && Newest(u)[m] == u[k];
      assert u[m + cut].id == u[k].id;
      assert Newest(u)[l - cut] == u[l];
    }
  }

  lemma GenuineLater(db: Table, c: seq<Entry>, latency: nat, now: int, later: int)
    requires AllGenuine(db, c, latency, now) && now <= later
    ensures AllGenuine(db, c, latency, later)
  {
    forall i | 0 <= i < |c| ensures Genuine(db, c[i], latency, later) {
      assert Genuine(db, c[i], latency, now);
    }
  }

  /** Storing a freshly read dictionary and evicting keeps the cache valid. */
  lemma {:induction false} StoreKeeps(db: Table, c: seq<Entry>, e: Entry, latency: nat, now: int, later: int)
    requires ValidCache(db, c, latency, now) && Genuine(db, e, latency, now) && now <= later
    ensures ValidCache(db, Evicted(Put(c, e), later), latency, later)
  {
    PutDistinct(c, e);
    EvictedKeeps(Put(c, e), later);
    var r := Evicted(Put(c, e), later);
    GenuineLater(db, c, latency, now, later);
    forall i | 0 <= i < |r| ensures Genuine(db, r[i], latency, later) {
      assert r[i] in r;
    }
  }

  // --- Obtaining one dictionary --------------------------------------------

  /**
   * How a call and what surrounds it unfold in time. A query issued at moment `n` sees the table at `seen(n)` and
   * returns at `back(n)`, before moment `n + 1`, unless it fails; `others(n)` is what other calls have made of the
   * cache by then.
   */
  datatype Schedule = Schedule(
    clock: nat -> int,
    seen: nat -> int,
    back: nat -> int,
    fails: nat -> bool,
    others: nat -> seq<Entry>
  )

  ghost predicate Ticking(s: Schedule) {
    forall i: nat, j: nat :: i <= j ==> s.clock(i) <= s.clock(j)
  }

  ghost predicate Queries(s: Schedule, latency: nat) {
    forall n: nat {:trigger s.seen(n)} ::
      s.clock(n) <= s.seen(n) <= s.back(n) <= s.clock(n + 1) && s.back(n) <= s.clock(n) + latency
  }

  /** Whatever other calls left in the cache while a query was awaited is valid. */
  ghost predicate Interference(db: Table, s: Schedule, latency: nat) {
    forall n: nat {:trigger s.others(n)} :: ValidCache(db, s.others(n), latency, s.back(n))
  }

  ghost predicate Timed(db: Table, s: Schedule, latency: nat) {
    Ticking(s) && Queries(s, latency) && Interference(db, s, latency)
  }

  /** The cached entry that serves a request: present and not expired. */
  function Hit(c: seq<Entry>, id: Artifact, now: int): (r: Option<Entry>)
    ensures r.Some? ==> r.value in c && r.value.id == id && r.value.expiresAt >= now
  {
    var cached := Lookup(c, id);
    if cached.Some? && cached.value.expiresAt >= now then cached else None
  }

  /** No dictionary where the query failed. */
  datatype Fetch = Fetch(dict: Option<map<string, string>>, entries: seq<Entry>, ticks: nat)

  function FetchFrom(db: Table, c: seq<Entry>, id: Artifact, s: Schedule, n: nat): Fetch {
    var hit := Hit(c, id, s.clock(n));
    if hit.Some? then Fetch(Some(hit.value.dict), c, n)
    else if s.fails(n) then Fetch(None, s.others(n), n + 1)
    else
      var dict := Dictionary(db(s.seen(n), id));
      var entry := Entry(id, dict, s.back(n) + DICTIONARY_TTL_MS);
      Fetch(Some(dict), Evicted(Put(s.others(n), entry), s.clock(n + 1)), n + 1)
  }

  /** The cache stays valid, and a dictionary obtained was read at most the lifetime plus one query ago. */
  ghost predicate Kept(db: Table, id: Artifact, f: Fetch, s: Schedule, n: nat, latency: nat) {
    && n <= f.ticks && ValidCache(db, f.entries, latency, s.clock(f.ticks))
    && (f.dict.Some? ==> ReadWithin(db, id, f.dict.value, s.clock(n) - DICTIONARY_TTL_MS - latency, s.clock(f.ticks)))
  }

  lemma FetchKeeps(db: Table, c: seq<Entry>, id: Artifact, s: Schedule, n: nat, latency: nat)
    requires Timed(db, s, latency) && ValidCache(db, c, latency, s.clock(n))
    ensures Kept(db, id, FetchFrom(db, c, id, s, n), s, n, latency)
  {
    if Hit(c, id, s.clock(n)).Some? {
      FetchHit(db, c, id, s, n, latency);
    } else if s.fails(n) {
      FetchFails(db, c, id, s, n, latency);
    } else {
      Moment(db, s, n, latency);
      FetchLoads(db, c, id, s, n, latency);
    }
  }

  lemma FetchHit(db: Table, c: seq<Entry>, id: Artifact, s: Schedule, n: nat, latency: nat)
    requires ValidCache(db, c, latency, s.clock(n)) && Hit(c, id, s.clock(n)).Some?
    ensures Kept(db, id, FetchFrom(db, c, id, s, n), s, n, latency)
  {
    HitKeeps(db, c, id, s.clock(n), latency);
  }

  lemma FetchFails(db: Table, c: seq<Entry>, id: Artifact, s: Schedule, n: nat, latency: nat)
    requires Timed(db, s, latency) && Hit(c, id, s.clock(n)).None? && s.fails(n)
    ensures Kept(db, id, FetchFrom(db, c, id, s, n), s, n, latency)
  {
    Moment(db, s, n, latency);
    ValidLater(db, s.others(n), latency, s.back(n), s.clock(n + 1));
  }

  lemma FetchLoads(db: Table, c: seq<Entry>, id: Artifact, s: Schedule, n: nat, latency: nat)
    requires s.clock(n) <= s.seen(n) <= s.back(n) <= s.clock(n + 1) && s.back(n) <= s.clock(n) + latency
    requires ValidCache(db, s.others(n), latency, s.back(n)) && Hit(c, id, s.clock(n)).None? && !s.fails(n)
    ensures Kept(db, id, FetchFrom(db, c, id, s, n), s, n, latency)
  {
    LoadKeeps(db, s.others(n), id, s.seen(n), s.back(n), s.clock(n + 1), s.clock(n), latency);
  }

  lemma Moment(db: Table, s: Schedule, n: nat, latency: nat)
    requires Timed(db, s, latency)
    ensures s.clock(n) <= s.seen(n) <= s.back(n) <= s.clock(n + 1) && s.back(n) <= s.clock(n) + latency
    ensures ValidCache(db, s.others(n), latency, s.back(n)) && s.clock(0) <= s.clock(n)
  {
    assert s.clock(n) <= s.seen(n);
    assert ValidCache(db, s.others(n), latency, s.back(n));
  }

  lemma ValidLater(db: Table, c: seq<Entry>, latency: nat, now: int, later: int)
    requires ValidCache(db, c, latency, now) && now <= later
    ensures ValidCache(db, c, latency, later)
  {
    GenuineLater(db, c, latency, now, later);
  }

  lemma HitKeeps(db: Table, c: seq<Entry>, id: Artifact, now: int, latency: nat)
    requires ValidCache(db, c, latency, now) && Hit(c, id, now).Some?
    ensures ReadWithin(db, id, Hit(c, id, now).value.dict, now - DICTIONARY_TTL_MS - latency, now)
  {
    assert Genuine(db, Hit(c, id, now).value, latency, now);
  }

  /** Storing what a query read at `seen` and returned at `back`. */
  lemma LoadKeeps(db: Table, c: seq<Entry>, id: Artifact, seen: int, back: int, next: int, issued: int, latency: nat)
    requires ValidCache(db, c, latency, back) && issued <= seen <= back <= next && back <= issued + latency
    ensures var dict := Dictionary(db(seen, id));
      && ValidCache(db, Evicted(Put(c, Entry(id, dict, back + DICTIONARY_TTL_MS)), next), latency, next)
      && ReadWithin(db, id, dict, issued - DICTIONARY_TTL_MS - latency, next)
  {
    var dict := Dictionary(db(seen, id));
    assert ReadAt(db, id, dict, seen);
    StoreKeeps(db, c, Entry(id, dict, back + DICTIONARY_TTL_MS), latency, back, next);
  }

  // --- How stale a served dictionary can be --------------------------------

  /** An entry read at `q` and loaded at `l` is only served within one lifetime of its reading exactly when l is q. */
  lemma EntryStaleness(e: Entry, q: int, l: int)
    requires q <= l && e.expiresAt == l + DICTIONARY_TTL_MS
    ensures (forall t :: Hit([e], e.id, t).Some? ==> t - q <= DICTIONARY_TTL_MS) <==> l == q
  {
    assert Lookup([e], e.id) == Some(e);
    assert Hit([e], e.id, e.expiresAt).Some?;
  }

  /** Every cache that may arise with queries of at most this latency serves dictionaries at most one lifetime old. */
  ghost predicate DocumentedBound(latency: nat) {
    forall db: Table, c: seq<Entry>, now: int, id: Artifact, t: int ::
      ValidCache(db, c, latency, now) && now <= t && Hit(c, id, t).Some? ==>
        ReadWithin(db, id, Hit(c, id, t).value.dict, t - DICTIONARY_TTL_MS, t)
  }

  lemma InstantQueriesFresh(db: Table, c: seq<Entry>, now: int, id: Artifact, t: int)
    requires ValidCache(db, c, 0, now) && now <= t && Hit(c, id, t).Some?
    ensures ReadWithin(db, id, Hit(c, id, t).value.dict, t - DICTIONARY_TTL_MS, t)
  {
    assert Genuine(db, Hit(c, id, t).value, 0, now);
  }

  const NEW_ROW := Row("tag", 0, "new")

  /** A table whose rows appear just after time 0. */
  function Growing(t: int, a: Artifact): seq<Row> { if t <= 0 then [] else [NEW_ROW] }

  /** A query that reads at time 0 and takes `latency`, then a request one lifetime after its return. */
  function SlowQuery(latency: nat): Schedule {
    var late := latency + DICTIONARY_TTL_MS;
    Schedule(
      (n: nat) => if n == 0 then 0 else late,
      (n: nat) => if n == 0 then 0 else late,
      (n: nat) => if n == 0 then latency else late,
      (n: nat) => false,
      (n: nat) => [])
  }

  /** What that query leaves in the cache. */
  function SlowEntry(latency: nat): Entry { Entry(0, map[], latency + DICTIONARY_TTL_MS) }

  lemma SlowQueryTimed(latency: nat)
    ensures UniqueRows(Growing) && Timed(Growing, SlowQuery(latency), latency)
  {
    GrowingUnique();
    SlowTicking(latency);
    SlowQueries(latency);
    SlowInterference(latency);
  }

  lemma SlowInterference(latency: nat)
    ensures Interference(Growing, SlowQuery(latency), latency)
  {
    var s := SlowQuery(latency);
    forall n: nat ensures ValidCache(Growing, s.others(n), latency, s.back(n)) {
      EmptyValid(Growing, latency, s.back(n));
    }
  }

  lemma SlowTicking(latency: nat)
    ensures Ticking(SlowQuery(latency))
  {
  }

  lemma SlowQueries(latency: nat)
    ensures Queries(SlowQuery(latency), latency)
  {
  }

  lemma GrowingUnique()
    ensures UniqueRows(Growing)
  {
    forall t, a ensures Unique(Growing(t, a)) {
    }
  }

  lemma EmptyValid(db: Table, latency: nat, now: int)
    ensures ValidCache(db, [], latency, now)
  {
  }

  lemma SlowQueryLoads(latency: nat)
    ensures FetchFrom(Growing, [], 0, SlowQuery(latency), 0) == Fetch(Some(map[]), [SlowEntry(latency)], 1)
  {
    assert Dictionary(Growing(0, 0)) == map[];
    assert Put([], SlowEntry(latency)) == [SlowEntry(latency)];
  }

  lemma SlowEntryServed(latency: nat)
    ensures Hit([SlowEntry(latency)], 0, latency + DICTIONARY_TTL_MS) == Some(SlowEntry(latency))
    ensures FetchFrom(Growing, [SlowEntry(latency)], 0, SlowQuery(latency), 1)
      == Fetch(Some(map[]), [SlowEntry(latency)], 1)
  {
    assert Lookup([SlowEntry(latency)], 0) == Some(SlowEntry(latency));
  }

  lemma SlowEntryValid(latency: nat)
    ensures ValidCache(Growing, [SlowEntry(latency)], latency, latency + DICTIONARY_TTL_MS)
  {
    assert ReadAt(Growing, 0, map[], 0);
  }

  lemma SlowEntryStale(from: int, to: int)
    requires from > 0
    ensures !ReadWithin(Growing, 0, map[], from, to)
  {
    forall t | t > 0 ensures !ReadAt(Growing, 0, map[], t) {
      DictionaryLookup([NEW_ROW], "tag", 0);
    }
  }

  /** The stale hit: with any latency at all, a dictionary is served later than one lifetime after it was read. */
  lemma StaleHit(latency: nat)
    requires latency > 0
    ensures var s := SlowQuery(latency);
      var first := FetchFrom(Growing, [], 0, s, 0);
      var second := FetchFrom(Growing, first.entries, 0, s, 1);
      && UniqueRows(Growing) && Timed(Growing, s, latency)
      && first.ticks == 1 && second.ticks == 1
      && first.dict == second.dict == Some(map[])
      && s.clock(1) - s.seen(0) == DICTIONARY_TTL_MS + latency
      && !ReadWithin(Growing, 0, map[], s.clock(1) - DICTIONARY_TTL_MS, s.clock(1))
  {
    SlowQueryTimed(latency);
    SlowQueryLoads(latency);
    SlowEntryServed(latency);
    SlowEntryStale(latency, latency + DICTIONARY_TTL_MS);
  }

  /** The documented bound of one lifetime holds exactly when queries take no time. */
  lemma StalenessExact(latency: nat)
    ensures DocumentedBound(latency) <==> latency == 0
  {
    if latency == 0 {
      forall db: Table, c: seq<Entry>, now: int, id: Artifact, t: int
        | ValidCache(db, c, latency, now) && now <= t && Hit(c, id, t).Some?
        ensures ReadWithin(db, id, Hit(c, id, t).value.dict, t - DICTIONARY_TTL_MS, t)
      {
        InstantQueriesFresh(db, c, now, id, t);
      }
    } else {
      SlowBreaksBound(latency);
    }
  }

  lemma SlowBreaksBound(latency: nat)
    requires latency > 0
    ensures !DocumentedBound(latency)
  {
    var c, t := [SlowEntry(latency)], latency + DICTIONARY_TTL_MS;
    SlowEntryValid(latency);
    SlowEntryServed(latency);
    SlowEntryStale(latency, t);
    assert ValidCache(Growing, c, latency, t) && Hit(c, 0, t).Some?;
  }

  // --- A page of events ----------------------------------------------------

  /** The event was decoded as it would be on its own at some moment of the window. */
  ghost predicate DecodedWithin(db: Table, e: RawEvent, d: Decoded, render: Render, from: int, to: int) {
    exists t :: from <= t <= to && d == DecodeRawEvent(db, t, e, render)
  }

  lemma DecodeWithDictionary(db: Table, e: RawEvent, dict: map<string, string>, t: int)
    requires UniqueRows(db) && Decodable(e) && ReadAt(db, e.artifact.value, dict, t)
    ensures Get(dict, Key("tag", e.tagId.value)) == FindUnique(db(t, e.artifact.value), "tag", e.tagId.value)
    ensures Get(dict, Key("format", e.fmtId.value)) == FindUnique(db(t, e.artifact.value), "format", e.fmtId.value)
  {
    DictionaryLookup(db(t, e.artifact.value), "tag", e.tagId.value);
    DictionaryLookup(db(t, e.artifact.value), "format", e.fmtId.value);
  }

  /** If the table does not change in the window, every position holds exactly what decoding its event alone gives. */
  lemma {:induction false} SteadyTable(
      db: Table, events: seq<RawEvent>, out: seq<Decoded>, render: Render, from: int, to: int)
    requires |out| == |events|
    requires forall i :: 0 <= i < |events| ==> DecodedWithin(db, events[i], out[i], render, from, to)
    requires forall t, a :: from <= t <= to ==> db(t, a) == db(to, a)
    ensures forall i :: 0 <= i < |events| ==> out[i] == DecodeRawEvent(db, to, events[i], render)
  {
    forall i | 0 <= i < |events| ensures out[i] == DecodeRawEvent(db, to, events[i], render) {
      assert DecodedWithin(db, events[i], out[i], render, from, to);
    }
  }

  /** The artifacts of a page, each once, in the order in which they first occur. */
  function Artifacts(events: seq<RawEvent>): seq<Artifact> {
    if events == [] then []
    else
      var front, a := Artifacts(events[..|events| - 1]), events[|events| - 1].artifact;
      if a.None? || a.value in front then front else front + [a.value]
  }

  lemma {:induction false} ArtifactsCover(events: seq<RawEvent>, e: RawEvent)
    requires e in events && e.artifact.Some?
    ensures e.artifact.value in Artifacts(events)
  {
    var front := events[..|events| - 1];
    if e in front {
      ArtifactsCover(front, e);
    } else {
      assert events == front + [events[|events| - 1]];
    }
  }

  /** No artifact is fetched twice, nor one that no event names. */
  lemma {:induction false} ArtifactsOnce(events: seq<RawEvent>)
    ensures var ids := Artifacts(events);
      && (forall i, j :: 0 <= i < j < |ids| ==> ids[i] != ids[j])
      && (forall a :: a in ids <==> Names(events, a))
  {
    if events != [] {
      var front, last := events[..|events| - 1], events[|events| - 1];
      ArtifactsOnce(front);
      forall a: Artifact ensures Names(events, a) <==> Names(front, a) || last.artifact == Some(a) {
        NamesLast(events, a);
      }
    }
  }

  predicate Names(events: seq<RawEvent>, a: Artifact) {
    exists i :: 0 <= i < |events| && events[i].artifact == Some(a)
  }

  lemma NamesLast(events: seq<RawEvent>, a: Artifact)
    requires events != []
    ensures Names(events, a) <==> Names(events[..|events| - 1], a) || events[|events| - 1].artifact == Some(a)
  {
    var front := events[..|events| - 1];
    if Names(front, a) {
      var i :| 0 <= i < |front| && front[i].artifact == Some(a);
      assert events[i].artifact == Some(a);
    }
    if Names(events, a) && events[|events| - 1].artifact != Some(a) {
      var i :| 0 <= i < |events| && events[i].artifact == Some(a);
      assert front[i].artifact == Some(a);
    }
  }

  type Dictionaries = map<Artifact, map<string, string>>

  /** The dictionaries of a page; none once a query has failed. */
  datatype Fetched = Fetched(dictionaries: Option<Dictionaries>, entries: seq<Entry>, ticks: nat)

  function FetchAll(db: Table, c: seq<Entry>, ids: seq<Artifact>, s: Schedule): Fetched {
    if ids == [] then Fetched(Some(map[]), c, 0)
    else FetchNext(db, FetchAll(db, c, ids[..|ids| - 1], s), ids[|ids| - 1], s)
  }

  function FetchNext(db: Table, so: Fetched, id: Artifact, s: Schedule): Fetched {
    if so.dictionaries.None? then so
    else
      var f := FetchFrom(db, so.entries, id, s, so.ticks);
      if f.dict.None? then Fetched(None, f.entries, f.ticks)
      else Fetched(Some(so.dictionaries.value[id := f.dict.value]), f.entries, f.ticks)
  }

  ghost predicate AllRead(db: Table, dictionaries: Dictionaries, from: int, to: int) {
    forall a :: a in dictionaries ==> ReadWithin(db, a, dictionaries[a], from, to)
  }

  lemma FetchNextKeeps(db: Table, so: Fetched, id: Artifact, s: Schedule, latency: nat, from: int)
    requires Timed(db, s, latency) && ValidCache(db, so.entries, latency, s.clock(so.ticks))
    requires from == s.clock(0) - DICTIONARY_TTL_MS - latency
    requires so.dictionaries.Some? ==> AllRead(db, so.dictionaries.value, from, s.clock(so.ticks))
    ensures var r := FetchNext(db, so, id, s);
      && ValidCache(db, r.entries, latency, s.clock(r.ticks))
      && (r.dictionaries.Some? ==> AllRead(db, r.dictionaries.value, from, s.clock(r.ticks)))
  {
    if so.dictionaries.Some? {
      FetchKeeps(db, so.entries, id, s, so.ticks, latency);
      Moment(db, s, so.ticks, latency);
      var f := FetchFrom(db, so.entries, id, s, so.ticks);
      assert s.clock(so.ticks) <= s.clock(f.ticks);
      if f.dict.Some? {
        AddRead(db, so.dictionaries.value, id, f.dict.value, s.clock(so.ticks), from, s.clock(f.ticks));
      }
    }
  }

  lemma AddRead(db: Table, dictionaries: Dictionaries, id: Artifact, dict: map<string, string>, before: int,
      from: int, to: int)
    requires AllRead(db, dictionaries, from, before) && before <= to
    requires exists low :: low >= from && ReadWithin(db, id, dict, low, to)
    ensures AllRead(db, dictionaries[id := dict], from, to)
  {
  }

  /** After any part of a page: the cache is valid and every dictionary is recent. */
  lemma {:induction false} FetchAllKeeps(db: Table, c: seq<Entry>, ids: seq<Artifact>, s: Schedule, latency: nat)
    requires Timed(db, s, latency) && ValidCache(db, c, latency, s.clock(0))
    ensures var r := FetchAll(db, c, ids, s);
      && ValidCache(db, r.entries, latency, s.clock(r.ticks))
      && (r.dictionaries.Some? ==>
            AllRead(db, r.dictionaries.value, s.clock(0) - DICTIONARY_TTL_MS - latency, s.clock(r.ticks)))
  {
    if ids != [] {
      var front, last := ids[..|ids| - 1], ids[|ids| - 1];
      FetchAllKeeps(db, c, front, s, latency);
      FetchNextKeeps(db, FetchAll(db, c, front, s), last, s, latency, s.clock(0) - DICTIONARY_TTL_MS - latency);
    }
  }

  /** A page has all its dictionaries, unless its last query failed. */
  lemma {:induction false} FetchAllHas(db: Table, c: seq<Entry>, ids: seq<Artifact>, s: Schedule)
    ensures var r := FetchAll(db, c, ids, s);
      && (r.dictionaries.Some? ==> forall a :: a in ids ==> a in r.dictionaries.value)
      && (r.dictionaries.None? ==> r.ticks > 0 && s.fails(r.ticks - 1))
  {
    if ids != [] {
      var front, last := ids[..|ids| - 1], ids[|ids| - 1];
      FetchAllHas(db, c, front, s);
      assert ids == front + [last];
    }
  }

  method ArtifactIds(events: seq<RawEvent>) returns (ids: seq<Artifact>)
    ensures ids == Artifacts(events)
  {
    ids := [];
    for k := 0 to |events|
      invariant ids == Artifacts(events[..k])
    {
      assert events[..k + 1][..k] == events[..k];
      if events[k].artifact.Some? && events[k].artifact.value !in ids {
        ids := ids + [events[k].artifact.value];
      }
    }
    assert events[..|events|] == events;
  }

  /** The second half of a batch: every event against the dictionaries in memory. */
  method DecodeAll(ghost db: Table, events: seq<RawEvent>, dictionaries: Dictionaries, render: Render,
      ghost from: int, ghost to: int)
    returns (out: seq<Decoded>)
    requires UniqueRows(db) && from <= to && AllRead(db, dictionaries, from, to)
    requires forall e :: e in events && e.artifact.Some? ==> e.artifact.value in dictionaries
    ensures |out| == |events|
    ensures forall i :: 0 <= i < |events| ==> DecodedWithin(db, events[i], out[i], render, from, to)
  {
    out := [];
    for k := 0 to |events|
      invariant |out| == k
      invariant forall i :: 0 <= i < k ==> DecodedWithin(db, events[i], out[i], render, from, to)
    {
      var d := DecodeOne(db, events[k], dictionaries, render, from, to);
      out := out + [d];
    }
  }

  method DecodeOne(ghost db: Table, e: RawEvent, dictionaries: Dictionaries, render: Render,
      ghost from: int, ghost to: int)
    returns (d: Decoded)
    requires UniqueRows(db) && from <= to && AllRead(db, dictionaries, from, to)
    requires e.artifact.Some? ==> e.artifact.value in dictionaries
    ensures DecodedWithin(db, e, d, render, from, to)
  {
    if e.packetType != On9logPacket.LOG || e.artifact.None? || e.tagId.None? || e.fmtId.None? {
      assert DecodeRawEvent(db, to, e, render) == NOTHING;
      return NOTHING;
    }
    var dict := dictionaries[e.artifact.value];
    var tag := Get(dict, Key("tag", e.tagId.value));
    var fmt := Get(dict, Key("format", e.fmtId.value));
    ghost var t :| from <= t <= to && ReadAt(db, e.artifact.value, dict, t);
    DecodeWithDictionary(db, e, dict, t);
    if tag.None? || fmt.None? {
      d := NOTHING;
    } else {
      var packet := On9logPacket.Parse(e.rawPacket);
      if packet.None? {
        d := Decoded(tag, None);
      } else if !packet.value.Log? {
        d := NOTHING;
      } else {
        d := Decoded(tag, render(fmt.value, packet.value.args));
      }
    }
    assert d == DecodeRawEvent(db, t, e, render);
  }

  class DictionaryCache {
    var entries: seq<Entry>

    method DropExpired(now: int)
      modifies this
      ensures entries == Unexpired(old(entries), now)
    {
      var all, kept := entries, [];
      for i := 0 to |all|
        invariant kept == Unexpired(all[..i], now)
      {
        assert all[..i + 1][..i] == all[..i];
        if all[i].expiresAt >= now { kept := kept + [all[i]]; }
      }
      assert all[..|all|] == all;
      entries := kept;
    }

    method DropOldest()
      modifies this
      ensures entries == Newest(old(entries))
    {
      while |entries| > DICTIONARY_CACHE_MAX
        invariant Newest(entries) == Newest(old(entries))
      {
        entries := entries[1..];
      }
    }

    method Evict(now: int)
      modifies this
      ensures entries == Evicted(old(entries), now)
    {
      if |entries| > DICTIONARY_CACHE_MAX {
        DropExpired(now);
        DropOldest();
      }
    }

    /** The dictionary of an artifact: the cached one unless it is missing or expired. */
    method Obtain(db: Table, id: Artifact, s: Schedule, n: nat) returns (dict: Option<map<string, string>>, ticks: nat)
      modifies this
      ensures Fetch(dict, entries, ticks) == FetchFrom(db, old(entries), id, s, n)
    {
      var cached := Lookup(entries, id);
      if cached.Some? && cached.value.expiresAt >= s.clock(n) {
        return Some(cached.value.dict), n;
      }
      entries := s.others(n);
      if s.fails(n) { return None, n + 1; }
      var loaded := LoadDictionary(db(s.seen(n), id));
      entries := Put(entries, Entry(id, loaded, s.back(n) + DICTIONARY_TTL_MS));
      Evict(s.clock(n + 1));
      return Some(loaded), n + 1;
    }

    /**
     * Decodes a page, unless a query fails. Every position holds what decoding its event alone gives at some moment
     * no earlier than the cache lifetime plus one query before the call, and the cache ends within its limit.
     */
    method DecodeEventsBatch(db: Table, events: seq<RawEvent>, render: Render, s: Schedule, ghost latency: nat)
      returns (out: Option<seq<Decoded>>, ticks: nat)
      requires UniqueRows(db) && Timed(db, s, latency) && ValidCache(db, entries, latency, s.clock(0))
      modifies this
      ensures var all := FetchAll(db, old(entries), Artifacts(events), s);
        (out.None? <==> all.dictionaries.None?) && entries == all.entries && ticks == all.ticks
      ensures out.None? ==> ticks > 0 && s.fails(ticks - 1)
      ensures out.Some? ==>
        && |out.value| == |events|
        && forall i :: 0 <= i < |events| ==>
             DecodedWithin(db, events[i], out.value[i], render, s.clock(0) - DICTIONARY_TTL_MS - latency,
               s.clock(ticks))
      ensures ValidCache(db, entries, latency, s.clock(ticks))
    {
      ghost var start := entries;
      var ids := ArtifactIds(events);
      var dictionaries: Dictionaries := map[];
      ticks := 0;
      for k := 0 to |ids|
        invariant Fetched(Some(dictionaries), entries, ticks) == FetchAll(db, start, ids[..k], s)
      {
        assert ids[..k + 1][..k] == ids[..k];
        FetchAllStep(db, start, ids, k, s);
        var dict;
        dict, ticks := Obtain(db, ids[k], s, ticks);
        if dict.None? {
          FetchAllKeeps(db, start, ids, s, latency);
          FetchAllHas(db, start, ids, s);
          return None, ticks;
        }
        dictionaries := dictionaries[ids[k] := dict.value];
      }
      assert ids[..|ids|] == ids;
      FetchAllKeeps(db, start, ids, s, latency);
      FetchAllHas(db, start, ids, s);
      forall e | e in events && e.artifact.Some? ensures e.artifact.value in dictionaries { ArtifactsCover(events, e); }
      var decoded := DecodeAll(
        db, events, dictionaries, render, s.clock(0) - DICTIONARY_TTL_MS - latency, s.clock(ticks));
      out := Some(decoded);
    }
  }

  /** One more artifact; and a failed fetch stays failed. */
  lemma {:induction false} FetchAllStep(db: Table, c: seq<Entry>, ids: seq<Artifact>, k: nat, s: Schedule)
    requires k < |ids|
    ensures FetchAll(db, c, ids[..k + 1], s) == FetchNext(db, FetchAll(db, c, ids[..k], s), ids[k], s)
    ensures FetchAll(db, c, ids[..k + 1], s).dictionaries.None? ==>
      FetchAll(db, c, ids, s) == FetchAll(db, c, ids[..k + 1], s)
    decreases |ids|
  {
    assert ids[..k + 1][..k] == ids[..k];
    if k + 1 == |ids| {
      assert ids[..k + 1] == ids;
    } else {
      var front := ids[..|ids| - 1];
      assert front[..k + 1] == ids[..k + 1] && front[..k] == ids[..k];
      FetchAllStep(db, c, front, k, s);
    }
  }
}
