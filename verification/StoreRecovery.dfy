/** Dumping the application into cells, reading it back, and reopening a store over its log. */
module StoreRecovery {
  import opened Types
  import opened Payload
  import opened Application
  import opened ApplicationInvariant
  import opened ApplicationSnapshot
  import opened ApplicationImport
  import opened AppliedStore
  import Core = RaftCore

  // ---------------------------------------------------------------- full cells

  /** The cells are true of the state, each written once, and are exactly those of `keys`. */
  ghost predicate Covering(cells: seq<Cell>, app: App, identity: string, term: Term, keys: set<CellKey>) {
    && CellsDistinct(cells)
    && (forall i {:trigger cells[i]} :: 0 <= i < |cells| ==>
        cells[i].content == ContentOf(app, identity, term, cells[i].key) && cells[i].key in keys)
    && (forall k {:trigger Touches(cells, k)} :: k in keys ==> Touches(cells, k))
  }

  lemma JoinCells(a: seq<Cell>, b: seq<Cell>, app: App, identity: string, term: Term, ka: set<CellKey>,
                  kb: set<CellKey>)
    requires Covering(a, app, identity, term, ka) && Covering(b, app, identity, term, kb) && ka !! kb
    ensures Covering(a + b, app, identity, term, ka + kb)
  {
    var c := a + b;
    forall i, j | 0 <= i < j < |c| ensures c[i].key != c[j].key {
      assert i < |a| ==> c[i] == a[i];
      assert j < |a| ==> c[j] == a[j];
      assert i >= |a| ==> c[i] == b[i - |a|];
      assert j >= |a| ==> c[j] == b[j - |a|];
    }
    forall k | k in ka + kb ensures Touches(c, k) {
      if k in ka {
        assert Touches(a, k);
        var i :| 0 <= i < |a| && a[i].key == k;
        assert c[i].key == k;
      } else {
        assert Touches(b, k);
        var i :| 0 <= i < |b| && b[i].key == k;
        assert c[|a| + i].key == k;
      }
    }
  }

  lemma OneCell(k: CellKey, app: App, identity: string, term: Term)
    ensures Covering([Cell(k, ContentOf(app, identity, term, k))], app, identity, term, {k})
  {
    assert [Cell(k, ContentOf(app, identity, term, k))][0].key == k;
  }

  function ValueKeys(values: seq<(Text, Text)>): set<CellKey> {
    set i | 0 <= i < |values| :: ValueCell(values[i].0)
  }

  function RetryKeys(id: LogIndex, rows: seq<KeyRow>): set<CellKey> {
    set i | 0 <= i < |rows| :: Retry(id, rows[i].key)
  }

  function RowKeys(row: SessionRow): set<CellKey> {
    {Nonce(row.nonce), Header(row.id)} + RetryKeys(row.id, row.keys)
  }

  function SessionKeys(rows: seq<SessionRow>): set<CellKey> {
    set i, k | 0 <= i < |rows| && k in RowKeys(rows[i]) :: k
  }

  method ValueCells(s: Snapshot, app: App, identity: string, term: Term) returns (cells: seq<Cell>)
    requires Lists(s, app)
    ensures Covering(cells, app, identity, term, ValueKeys(s.values))
  {
    cells := [];
    var n := 0;
    while n < |s.values|
      invariant n <= |s.values| && Covering(cells, app, identity, term, ValueKeys(s.values[..n]))
    {
      var (key, value) := s.values[n];
      MapOfAt(s.values, n);
      OneCell(ValueCell(key), app, identity, term);
      JoinCells(cells, [Cell(ValueCell(key), Some(Value(value)))], app, identity, term, ValueKeys(s.values[..n]),
                {ValueCell(key)});
      assert ValueKeys(s.values[..n + 1]) == ValueKeys(s.values[..n]) + {ValueCell(key)} by {
        assert s.values[..n + 1][n] == s.values[n];
        assert forall i :: 0 <= i < n ==> s.values[..n + 1][i] == s.values[..n][i];
      }
      cells := cells + [Cell(ValueCell(key), Some(Value(value)))];
      n := n + 1;
    }
    assert s.values[..n] == s.values;
  }

  method RetryRows(row: SessionRow, app: App, identity: string, term: Term) returns (cells: seq<Cell>)
    requires KeysDistinct(row) && row.id in app.sessions && app.sessions[row.id] == ToSession(row)
    ensures Covering(cells, app, identity, term, RetryKeys(row.id, row.keys))
  {
    cells := [];
    var n := 0;
    while n < |row.keys|
      invariant n <= |row.keys| && Covering(cells, app, identity, term, RetryKeys(row.id, row.keys[..n]))
    {
      var r := row.keys[n];
      MapOfAt(KeyPairs(row.keys), n);
      OneCell(Retry(row.id, r.key), app, identity, term);
      assert forall i :: 0 <= i < n ==> KeyPairs(row.keys)[i].0 != KeyPairs(row.keys)[n].0;
      JoinCells(cells, [Cell(Retry(row.id, r.key), Some(RetryRecord(r)))], app, identity, term,
                RetryKeys(row.id, row.keys[..n]), {Retry(row.id, r.key)});
      assert RetryKeys(row.id, row.keys[..n + 1]) == RetryKeys(row.id, row.keys[..n]) + {Retry(row.id, r.key)} by {
        assert row.keys[..n + 1][n] == r;
        assert forall i :: 0 <= i < n ==> row.keys[..n + 1][i] == row.keys[..n][i];
      }
      cells := cells + [Cell(Retry(row.id, r.key), Some(RetryRecord(r)))];
      n := n + 1;
    }
    assert row.keys[..n] == row.keys;
  }

  method RowCells(row: SessionRow, app: App, identity: string, term: Term) returns (cells: seq<Cell>)
    requires KeysDistinct(row) && row.id in app.sessions && app.sessions[row.id] == ToSession(row)
    requires row.nonce in app.registrations && app.registrations[row.nonce] == row.id
    ensures Covering(cells, app, identity, term, RowKeys(row))
  {
    var retries := RetryRows(row, app, identity, term);
    var nonce, header := [Cell(Nonce(row.nonce), Some(Id(row.id)))],
                         [Cell(Header(row.id), Some(SessionHeader(row.registered, row.closed)))];
    OneCell(Nonce(row.nonce), app, identity, term);
    OneCell(Header(row.id), app, identity, term);
    JoinCells(nonce, header, app, identity, term, {Nonce(row.nonce)}, {Header(row.id)});
    JoinCells(nonce + header, retries, app, identity, term, {Nonce(row.nonce)} + {Header(row.id)},
              RetryKeys(row.id, row.keys));
    assert {Nonce(row.nonce)} + {Header(row.id)} + RetryKeys(row.id, row.keys) == RowKeys(row);
    cells := nonce + header + retries;
  }

  lemma RowsApart(rows: seq<SessionRow>, n: nat)
    requires SessionsDistinct(rows) && n < |rows|
    ensures SessionKeys(rows[..n]) !! RowKeys(rows[n])
    ensures SessionKeys(rows[..n + 1]) == SessionKeys(rows[..n]) + RowKeys(rows[n])
  {
    forall k | k in SessionKeys(rows[..n]) ensures k !in RowKeys(rows[n]) {
      var i :| 0 <= i < n && k in RowKeys(rows[..n][i]);
      assert NoncePairs(rows)[i].0 != NoncePairs(rows)[n].0 && SessionPairs(rows)[i].0 != SessionPairs(rows)[n].0;
    }
    assert rows[..n + 1][n] == rows[n] && forall i :: 0 <= i < n ==> rows[..n + 1][i] == rows[..n][i];
  }

  /** The whole application as cells. */
  method FullCells(app: App, identity: string, term: Term) returns (cells: seq<Cell>)
    requires Paired(app.registrations, app.sessions.Keys)
    ensures CellsTrue(cells, app, identity, term)
    ensures Dump(WriteAll(map[], cells), app, identity, term)
  {
    var s := Export(app);
    cells := ListCells(s, app, identity, term);
    forall k | ContentOf(app, identity, term, k).Some?
      ensures k in {Meta} + ValueKeys(s.values) + SessionKeys(s.sessions)
    {
      FullKeys(s, app, identity, term, k);
    }
    FullDump(cells, app, identity, term, {Meta} + ValueKeys(s.values) + SessionKeys(s.sessions));
  }

  method ListCells(s: Snapshot, app: App, identity: string, term: Term) returns (cells: seq<Cell>)
    requires Lists(s, app)
    ensures Covering(cells, app, identity, term, {Meta} + ValueKeys(s.values) + SessionKeys(s.sessions))
  {
    var meta := [Cell(Meta, Some(State(MetadataOf(app, identity, term))))];
    var values := ValueCells(s, app, identity, term);
    var sessions := SessionCells(s, app, identity, term);
    OneCell(Meta, app, identity, term);
    JoinCells(meta, values, app, identity, term, {Meta}, ValueKeys(s.values));
    NamespacesApart(s);
    JoinCells(meta + values, sessions, app, identity, term, {Meta} + ValueKeys(s.values), SessionKeys(s.sessions));
    cells := meta + values + sessions;
  }

  lemma NamespacesApart(s: Snapshot)
    ensures {Meta} + ValueKeys(s.values) !! SessionKeys(s.sessions)
  {
    forall k | k in SessionKeys(s.sessions) ensures !k.Meta? && !k.ValueCell? {
      var i :| 0 <= i < |s.sessions| && k in RowKeys(s.sessions[i]);
    }
  }

  lemma JoinRow(rows: seq<SessionRow>, n: nat, cells: seq<Cell>, own: seq<Cell>, app: App, identity: string, term: Term)
    requires SessionsDistinct(rows) && n < |rows| && Covering(cells, app, identity, term, SessionKeys(rows[..n]))
    requires Covering(own, app, identity, term, RowKeys(rows[n]))
    ensures Covering(cells + own, app, identity, term, SessionKeys(rows[..n + 1]))
  {
    RowsApart(rows, n);
    JoinCells(cells, own, app, identity, term, SessionKeys(rows[..n]), RowKeys(rows[n]));
  }

  method SessionCells(s: Snapshot, app: App, identity: string, term: Term) returns (cells: seq<Cell>)
    requires Lists(s, app)
    ensures Covering(cells, app, identity, term, SessionKeys(s.sessions))
  {
    cells := [];
    var n := 0;
    while n < |s.sessions|
      invariant n <= |s.sessions| && Covering(cells, app, identity, term, SessionKeys(s.sessions[..n]))
    {
      SessionListed(s, app, n);
      var own := RowCells(s.sessions[n], app, identity, term);
      JoinRow(s.sessions, n, cells, own, app, identity, term);
      cells := cells + own;
      n := n + 1;
    }
    assert s.sessions[..n] == s.sessions;
  }

  lemma SessionListed(s: Snapshot, app: App, n: nat)
    requires Lists(s, app) && n < |s.sessions|
    ensures var row := s.sessions[n];
      && KeysDistinct(row) && row.id in app.sessions && app.sessions[row.id] == ToSession(row)
      && row.nonce in app.registrations && app.registrations[row.nonce] == row.id
  {
    MapOfAt(NoncePairs(s.sessions), n);
    MapOfAt(SessionPairs(s.sessions), n);
  }

  lemma FullKeys(s: Snapshot, app: App, identity: string, term: Term, k: CellKey)
    requires Lists(s, app) && ContentOf(app, identity, term, k).Some?
    ensures k in {Meta} + ValueKeys(s.values) + SessionKeys(s.sessions)
  {
    match k
    case Meta =>
    case ValueCell(key) =>
      var i := MapOfFrom(s.values, key);
    case Nonce(nonce) =>
      var i := MapOfFrom(NoncePairs(s.sessions), nonce);
      assert k in RowKeys(s.sessions[i]);
    case Header(id) =>
      var i := MapOfFrom(SessionPairs(s.sessions), id);
      assert k in RowKeys(s.sessions[i]);
    case Retry(id, key) =>
      var i := MapOfFrom(SessionPairs(s.sessions), id);
      MapOfAt(SessionPairs(s.sessions), i);
      var j := MapOfFrom(KeyPairs(s.sessions[i].keys), key);
      assert s.sessions[i].keys[j].key == key;
      assert k in RowKeys(s.sessions[i]);
  }

  lemma {:induction false} FullDump(cells: seq<Cell>, app: App, identity: string, term: Term, keys: set<CellKey>)
    requires Covering(cells, app, identity, term, keys) && Meta in keys
    requires forall k :: ContentOf(app, identity, term, k).Some? ==> k in keys
    ensures CellsTrue(cells, app, identity, term) && Dump(WriteAll(map[], cells), app, identity, term)
  {
    assert Touches(cells, Meta);
    forall k ensures Held(WriteAll(map[], cells), k) == ContentOf(app, identity, term, k) {
      WrittenHeld(map[], cells, k);
      if Touches(cells, k) {
        var i :| 0 <= i < |cells| && cells[i].key == k;
        assert cells[i].content == ContentOf(app, identity, term, k);
      } else {
        assert k !in keys;
      }
    }
  }

  // ---------------------------------------------------------------- reading cells back

  /** No state with paired nonces and sessions has these rows as its dump. */
  ghost predicate NoDump(rows: Rows) {
    forall app: App, identity: string, term: Term {:trigger Dump(rows, app, identity, term)} ::
      Paired(app.registrations, app.sessions.Keys) ==> !Dump(rows, app, identity, term)
  }

  predicate RowTyped(k: CellKey, c: Content) {
    match k
    case Meta => c.State?
    case ValueCell(_) => c.Value?
    case Nonce(_) => c.Id?
    case Header(_) => c.SessionHeader?
    case Retry(_, key) => c.RetryRecord? && c.row.key == key
  }

  /** What the rows read so far amount to, by namespace. */
  datatype Gathered = Gathered(
    meta: Option<Metadata>,
    values: map<Text, Text>,
    registrations: map<Text, LogIndex>,
    owners: map<LogIndex, Text>,
    headers: map<LogIndex, Content>,
    retries: map<LogIndex, map<Text, KeyRecord>>)

  function RetriesOf(g: Gathered, id: LogIndex): map<Text, KeyRecord> {
    if id in g.retries then g.retries[id] else map[]
  }

  function Gather(g: Gathered, k: CellKey, c: Content): Gathered
    requires RowTyped(k, c)
  {
    match k
    case Meta => g.(meta := Some(c.metadata))
    case ValueCell(key) => g.(values := g.values[key := c.text])
    case Nonce(nonce) => g.(registrations := g.registrations[nonce := c.id], owners := g.owners[c.id := nonce])
    case Header(id) => g.(headers := g.headers[id := c])
    case Retry(id, key) => g.(retries := g.retries[id := RetriesOf(g, id)[key := ToRecord(c.row)]])
  }

  ghost predicate Reads(done: Rows, g: Gathered) {
    && (forall k {:trigger Held(done, k)} :: GatheredAt(done, g, k))
    && (forall id {:trigger id in g.owners} :: id in g.owners ==>
        g.owners[id] in g.registrations && g.registrations[g.owners[id]] == id)
    && (forall n {:trigger n in g.registrations} :: n in g.registrations ==>
        g.registrations[n] in g.owners && g.owners[g.registrations[n]] == n)
    && (forall id {:trigger id in g.retries} :: id in g.retries ==> g.retries[id] != map[])
    && (forall id {:trigger id in g.headers} :: id in g.headers ==> g.headers[id].SessionHeader?)
  }

  /** What the gathered maps say a cell holds. */
  function ContentIn(g: Gathered, k: CellKey): Option<Content> {
    match k
    case Meta => if g.meta.Some? then Some(State(g.meta.value)) else None
    case ValueCell(key) => if key in g.values then Some(Value(g.values[key])) else None
    case Nonce(nonce) => if nonce in g.registrations then Some(Id(g.registrations[nonce])) else None
    case Header(id) => if id in g.headers then Some(g.headers[id]) else None
    case Retry(id, key) =>
      if key in RetriesOf(g, id) then Some(RetryRecord(RowOf(key, RetriesOf(g, id)[key]))) else None
  }

  ghost predicate GatheredAt(done: Rows, g: Gathered, k: CellKey) {
    Held(done, k) == ContentIn(g, k)
  }

  lemma GatherKeeps(done: Rows, g: Gathered, k: CellKey, c: Content)
    requires Reads(done, g) && k !in done && RowTyped(k, c) && (k.Nonce? ==> c.id !in g.owners)
    ensures Reads(done[k := c], Gather(g, k, c))
  {
    var after, g' := done[k := c], Gather(g, k, c);
    assert GatheredAt(done, g, k) by { assert Held(done, k) == Held(done, k); }
    forall q ensures GatheredAt(after, g', q) {
      assert Held(done, q) == ContentIn(g, q) by { assert GatheredAt(done, g, q); }
      if q == k {
        assert k.Retry? ==> RowOf(k.key, ToRecord(c.row)) == c.row;
      } else {
        GatherOther(g, k, c, q);
      }
    }
  }

  lemma GatherOther(g: Gathered, k: CellKey, c: Content, q: CellKey)
    requires RowTyped(k, c) && q != k
    ensures ContentIn(Gather(g, k, c), q) == ContentIn(g, q)
  {
  }

  lemma UntypedNoDump(rows: Rows, k: CellKey)
    requires k in rows && !RowTyped(k, rows[k])
    ensures NoDump(rows)
  {
    forall app: App, identity: string, term: Term | Paired(app.registrations, app.sessions.Keys)
      ensures !Dump(rows, app, identity, term)
    {
      assert Held(rows, k) != ContentOf(app, identity, term, k);
    }
  }

  lemma SharedNoDump(rows: Rows, a: Text, b: Text)
    requires a != b && Held(rows, Nonce(a)).Some? && Held(rows, Nonce(a)) == Held(rows, Nonce(b))
      && RowTyped(Nonce(a), rows[Nonce(a)])
    ensures NoDump(rows)
  {
    forall app: App, identity: string, term: Term | Paired(app.registrations, app.sessions.Keys)
      ensures !Dump(rows, app, identity, term)
    {
      assert a in app.registrations && b in app.registrations ==> app.registrations[a] != app.registrations[b];
      assert Held(rows, Nonce(a)) != ContentOf(app, identity, term, Nonce(a))
        || Held(rows, Nonce(b)) != ContentOf(app, identity, term, Nonce(b));
    }
  }

  ghost predicate Split(rows: Rows, done: Rows, rest: Rows) {
    && done.Keys !! rest.Keys && done.Keys + rest.Keys == rows.Keys
    && (forall k {:trigger done[k]} :: k in done ==> k in rows && done[k] == rows[k])
    && (forall k {:trigger rest[k]} :: k in rest ==> k in rows && rest[k] == rows[k])
  }

  lemma SplitStep(rows: Rows, done: Rows, rest: Rows, k: CellKey)
    requires Split(rows, done, rest) && k in rest
    ensures Split(rows, done[k := rest[k]], rest - {k}) && k !in done && rest[k] == rows[k]
  {
  }

  lemma NothingRead()
    ensures Reads(map[], Gathered(None, map[], map[], map[], map[], map[]))
  {
    var none := Gathered(None, map[], map[], map[], map[], map[]);
    forall k ensures GatheredAt(map[], none, k) { }
  }

  /** Sort the rows by namespace; a malformed row or a shared session means no state has this dump. */
  method Collect(rows: Rows) returns (r: Option<Gathered>)
    ensures r.Some? ==> Reads(rows, r.value)
    ensures r.None? ==> NoDump(rows)
  {
    var g := Gathered(None, map[], map[], map[], map[], map[]);
    var rest: Rows := rows;
    ghost var done: Rows := map[];
    NothingRead();
    while rest != map[]
      invariant Reads(done, g) && Split(rows, done, rest)
      decreases |rest|
    {
      var k :| k in rest;
      var c := rest[k];
      SplitStep(rows, done, rest, k);
      if !RowTyped(k, c) {
        UntypedNoDump(rows, k);
        return None;
      }
      if k.Nonce? && c.id in g.owners {
        SharedOwner(done, rest, rows, g, k, c);
        return None;
      }
      GatherKeeps(done, g, k, c);
      g, rest, done := Gather(g, k, c), rest - {k}, done[k := c];
    }
    assert done == rows;
    r := Some(g);
  }

  lemma SharedOwner(done: Rows, rest: Rows, rows: Rows, g: Gathered, k: CellKey, c: Content)
    requires Reads(done, g) && Split(rows, done, rest) && k.Nonce? && c.Id? && c.id in g.owners && k in rest
      && rest[k] == c
    ensures NoDump(rows)
  {
    var a := g.owners[c.id];
    assert GatheredAt(done, g, Nonce(a)) by { assert Held(done, Nonce(a)) == Held(done, Nonce(a)); }
    assert Held(rows, Nonce(a)) == Some(Id(c.id));
    SharedNoDump(rows, a, k.nonce);
  }

  /** Every session has its registration, and every registration and retry record its session. */
  predicate Complete(g: Gathered) {
    && g.meta.Some? && (forall id :: id in g.headers ==> id in g.owners)
    && (forall id :: id in g.owners ==> id in g.headers)
    && (forall id :: id in g.retries ==> id in g.headers)
  }

  lemma IncompleteNoDump(rows: Rows, g: Gathered)
    requires Reads(rows, g) && !Complete(g)
    ensures NoDump(rows)
  {
    forall app: App, identity: string, term: Term | Paired(app.registrations, app.sessions.Keys)
      ensures !Dump(rows, app, identity, term)
    {
      if Dump(rows, app, identity, term) {
        DumpComplete(rows, g, app, identity, term);
        assert false;
      }
    }
  }

  lemma SameContent(rows: Rows, g: Gathered, app: App, identity: string, term: Term, k: CellKey)
    requires Reads(rows, g) && Dump(rows, app, identity, term)
    ensures ContentIn(g, k) == ContentOf(app, identity, term, k)
  {
    assert Held(rows, k) == ContentOf(app, identity, term, k);
    assert GatheredAt(rows, g, k);
  }

  lemma DumpComplete(rows: Rows, g: Gathered, app: App, identity: string, term: Term)
    requires Reads(rows, g) && Dump(rows, app, identity, term) && Paired(app.registrations, app.sessions.Keys)
    ensures Complete(g)
  {
    SameContent(rows, g, app, identity, term, Meta);
    forall id | id in g.headers ensures id in g.owners {
      SameContent(rows, g, app, identity, term, Header(id));
      assert Named(app.registrations, id);
      var n :| n in app.registrations && app.registrations[n] == id;
      SameContent(rows, g, app, identity, term, Nonce(n));
    }
    forall id | id in g.owners ensures id in g.headers {
      var n := g.owners[id];
      SameContent(rows, g, app, identity, term, Nonce(n));
      assert app.registrations[n] == id;
      SameContent(rows, g, app, identity, term, Header(id));
    }
    forall id | id in g.retries ensures id in g.headers {
      var key :| key in g.retries[id];
      SameContent(rows, g, app, identity, term, Retry(id, key));
      SameContent(rows, g, app, identity, term, Header(id));
    }
  }

  function Assemble(g: Gathered, applied: LogIndex): App
    requires g.meta.Some? && forall id :: id in g.headers ==> g.headers[id].SessionHeader?
  {
    App(g.values, g.registrations,
        map id | id in g.headers :: ClientSession(g.headers[id].registered, g.headers[id].closed, RetriesOf(g, id)),
        applied, g.meta.value.retainedKeys, g.meta.value.retainedPayloadBytes)
  }

  lemma AssembledContent(g: Gathered, identity: string, applied: LogIndex, k: CellKey)
    requires Complete(g) && (forall id :: id in g.headers ==> g.headers[id].SessionHeader?)
    requires g.meta.value.version == 1 && g.meta.value.identity == identity && g.meta.value.index == applied
    ensures ContentIn(g, k) == ContentOf(Assemble(g, applied), identity, g.meta.value.term, k)
  {
  }

  lemma AssembledDump(rows: Rows, g: Gathered, identity: string, applied: LogIndex)
    requires Reads(rows, g) && Complete(g)
    requires g.meta.value.version == 1 && g.meta.value.identity == identity && g.meta.value.index == applied
    ensures var app := Assemble(g, applied);
      Dump(rows, app, identity, g.meta.value.term) && Paired(app.registrations, app.sessions.Keys)
  {
    var app := Assemble(g, applied);
    forall k ensures Held(rows, k) == ContentOf(app, identity, g.meta.value.term, k) {
      assert GatheredAt(rows, g, k);
      AssembledContent(g, identity, applied, k);
    }
    forall id | id in app.sessions.Keys ensures Named(app.registrations, id) {
      assert id in g.owners && app.registrations[g.owners[id]] == id;
    }
  }

  /** `rows` is what a store holds of a portable state at `applied`, last entry of term `term`. */
  ghost predicate Stored(hash: Hash, rows: Rows, app: App, identity: string, term: Term, applied: LogIndex) {
    Portable(hash, app) && app.lastApplied == applied && term > 0 && Dump(rows, app, identity, term)
  }

  /** Decoding is exact: it accepts the dumps of portable states at the engine's watermark, and nothing
      else, and returns the state and its term. */
  method Decode(hash: Hash, rows: Rows, applied: LogIndex, identity: string) returns (r: Option<(App, Term)>)
    ensures applied == 0 ==> r == if rows == map[] then Some((EMPTY, 0)) else None
    ensures applied > 0 && r.Some? ==> Stored(hash, rows, r.value.0, identity, r.value.1, applied)
    ensures applied > 0 && r.None? ==> forall app, term :: !Stored(hash, rows, app, identity, term, applied)
  {
    if applied == 0 { return if rows == map[] then Some((EMPTY, 0)) else None; }
    var collected := Collect(rows);
    if collected.None? {
      NothingStored(hash, rows, identity, applied);
      return None;
    }
    var g := collected.value;
    if !Complete(g) {
      IncompleteNoDump(rows, g);
      NothingStored(hash, rows, identity, applied);
      return None;
    }
    var meta := g.meta.value;
    if meta.version != 1 || meta.index != applied || meta.identity != identity || meta.term == 0 {
      forall app, term ensures !Stored(hash, rows, app, identity, term, applied) {
        if Dump(rows, app, identity, term) { SameContent(rows, g, app, identity, term, Meta); }
      }
      return None;
    }
    AssembledDump(rows, g, identity, applied);
    var app := Assemble(g, applied);
    var s := Export(app);
    var imported := Import(hash, s, applied);
    if imported.None? {
      forall other, term ensures !Stored(hash, rows, other, identity, term, applied) {
        if Dump(rows, other, identity, term) { DumpDetermines(rows, app, other, identity, meta.term, term); }
      }
      return None;
    }
    r := Some((imported.value, meta.term));
  }

  lemma NothingStored(hash: Hash, rows: Rows, identity: string, applied: LogIndex)
    requires NoDump(rows)
    ensures forall app, term :: !Stored(hash, rows, app, identity, term, applied)
  {
  }

  // ---------------------------------------------------------------- raw rows

  /** The JSON parsers of the three structured cells. */
  datatype Parser = Parser(
    metadata: Bytes -> Option<Metadata>,
    header: Bytes -> Option<(SessionResult, Option<SessionResult>)>,
    record: Bytes -> Option<KeyRow>)

  /** What the bytes of a cell parse to, by its namespace. */
  function ContentFrom(p: Parser, k: CellKey, b: Bytes): Option<Content> {
    match k
    case Meta => (match p.metadata(b) case Some(m) => Some(State(m)) case None => None)
    case ValueCell(_) => if ValidUtf8(b) then Some(Value(b)) else None
    case Nonce(_) => if |b| == 8 then Some(Id(FromBe(b))) else None
    case Header(_) => (match p.header(b) case Some(h) => Some(SessionHeader(h.0, h.1)) case None => None)
    case Retry(_, _) => (match p.record(b) case Some(r) => Some(RetryRecord(r)) case None => None)
  }

  predicate RowParses(p: Parser, row: (Bytes, Bytes)) {
    DecodeKey(row.0).Some? && ContentFrom(p, DecodeKey(row.0).value, row.1).Some?
  }

  /** No key twice, every key in a known namespace, every content readable. */
  predicate Parsable(p: Parser, raw: seq<(Bytes, Bytes)>) {
    && (forall i, j :: 0 <= i < j < |raw| ==> raw[i].0 != raw[j].0)
    && forall i :: 0 <= i < |raw| ==> RowParses(p, raw[i])
  }

  /** The cell a raw row names holds what the row says. */
  predicate RowHeld(p: Parser, row: (Bytes, Bytes), rows: Rows) {
    RowParses(p, row) && Held(rows, DecodeKey(row.0).value) == ContentFrom(p, DecodeKey(row.0).value, row.1)
  }

  predicate Mentions(raw: seq<(Bytes, Bytes)>, k: CellKey) {
    exists i :: 0 <= i < |raw| && DecodeKey(raw[i].0) == Some(k)
  }

  /** `rows` are exactly what the raw rows say. */
  ghost predicate Reflects(p: Parser, raw: seq<(Bytes, Bytes)>, rows: Rows) {
    (forall i :: 0 <= i < |raw| ==> RowHeld(p, raw[i], rows)) && forall k :: k in rows ==> Mentions(raw, k)
  }

  lemma ReflectsOne(p: Parser, raw: seq<(Bytes, Bytes)>, a: Rows, b: Rows)
    requires Reflects(p, raw, a) && Reflects(p, raw, b)
    ensures a == b
  {
    forall k ensures Held(a, k) == Held(b, k) {
      if k in a || k in b {
        assert Mentions(raw, k);
        var i :| 0 <= i < |raw| && DecodeKey(raw[i].0) == Some(k);
        assert RowHeld(p, raw[i], a) && RowHeld(p, raw[i], b);
      }
    }
    assert forall k :: k in a ==> Held(a, k) == Some(a[k]);
    assert forall k :: k in b ==> Held(b, k) == Some(b[k]);
  }

  /** Different key bytes name different cells. */
  lemma KeysApart(a: Bytes, b: Bytes)
    requires a != b && DecodeKey(a).Some? && DecodeKey(b).Some?
    ensures DecodeKey(a) != DecodeKey(b)
  {
    DecodedKey(a);
    DecodedKey(b);
  }

  lemma HeldStill(p: Parser, row: (Bytes, Bytes), rows: Rows, k: CellKey, c: Content)
    requires RowHeld(p, row, rows) && DecodeKey(row.0) != Some(k)
    ensures RowHeld(p, row, rows[k := c])
  {
  }

  lemma MentionsSnoc(raw: seq<(Bytes, Bytes)>, row: (Bytes, Bytes), k: CellKey)
    requires Mentions(raw, k) || DecodeKey(row.0) == Some(k)
    ensures Mentions(raw + [row], k)
  {
    var more := raw + [row];
    if Mentions(raw, k) {
      var i :| 0 <= i < |raw| && DecodeKey(raw[i].0) == Some(k);
      assert more[i] == raw[i];
    } else {
      assert more[|raw|] == row;
    }
  }

  lemma {:induction false} ReflectsSnoc(p: Parser, raw: seq<(Bytes, Bytes)>, row: (Bytes, Bytes), rows: Rows)
    requires Reflects(p, raw, rows) && RowParses(p, row) && forall i :: 0 <= i < |raw| ==> raw[i].0 != row.0
    ensures var k := DecodeKey(row.0).value; Reflects(p, raw + [row], rows[k := ContentFrom(p, k, row.1).value])
  {
    var k, more := DecodeKey(row.0).value, raw + [row];
    var c := ContentFrom(p, k, row.1).value;
    forall i | 0 <= i < |more| ensures RowHeld(p, more[i], rows[k := c]) {
      if i < |raw| {
        assert RowHeld(p, raw[i], rows);
        KeysApart(raw[i].0, row.0);
        HeldStill(p, raw[i], rows, k, c);
      }
    }
    forall q | q in rows[k := c] ensures Mentions(more, q) { MentionsSnoc(raw, row, q); }
  }

  function KeyBytes(raw: seq<(Bytes, Bytes)>): set<Bytes> {
    set i | 0 <= i < |raw| :: raw[i].0
  }

  lemma BadRow(p: Parser, raw: seq<(Bytes, Bytes)>, n: nat)
    requires n < |raw| && (raw[n].0 in KeyBytes(raw[..n]) || !RowParses(p, raw[n]))
    ensures !Parsable(p, raw)
  {
    if raw[n].0 in KeyBytes(raw[..n]) {
      var i :| 0 <= i < n && raw[..n][i].0 == raw[n].0;
      assert raw[i].0 == raw[n].0;
    }
  }

  lemma GoodRow(p: Parser, raw: seq<(Bytes, Bytes)>, row: (Bytes, Bytes))
    requires Parsable(p, raw) && row.0 !in KeyBytes(raw) && RowParses(p, row)
    ensures Parsable(p, raw + [row]) && KeyBytes(raw + [row]) == KeyBytes(raw) + {row.0}
    ensures forall i :: 0 <= i < |raw| ==> raw[i].0 != row.0
  {
    var more := raw + [row];
    forall i | 0 <= i < |raw| ensures raw[i].0 != row.0 { assert raw[i].0 in KeyBytes(raw); }
    assert more[|raw|] == row && forall i :: 0 <= i < |raw| ==> more[i] == raw[i];
  }

  /** The scan over raw rows: accepts exactly the parsable ones. */
  method ParseRows(p: Parser, raw: seq<(Bytes, Bytes)>) returns (r: Option<Rows>)
    ensures r.Some? <==> Parsable(p, raw)
    ensures r.Some? ==> Reflects(p, raw, r.value)
  {
    var rows: Rows, seen: set<Bytes>, n := map[], {}, 0;
    while n < |raw|
      invariant n <= |raw| && Parsable(p, raw[..n]) && Reflects(p, raw[..n], rows) && seen == KeyBytes(raw[..n])
    {
      if raw[n].0 in seen || !RowParses(p, raw[n]) {
        BadRow(p, raw, n);
        return None;
      }
      GoodRow(p, raw[..n], raw[n]);
      ReflectsSnoc(p, raw[..n], raw[n], rows);
      assert raw[..n + 1] == raw[..n] + [raw[n]];
      var k := DecodeKey(raw[n].0).value;
      rows, seen := rows[k := ContentFrom(p, k, raw[n].1).value], seen + {raw[n].0};
      n := n + 1;
    }
    assert raw[..n] == raw;
    return Some(rows);
  }

  /** Reading back an engine's raw rows is exact: a bad namespace, an unreadable key or content, a repeated key
      or rows that are no dump of an importable state are refused, everything else is accepted. */
  method DecodeStore(hash: Hash, p: Parser, raw: seq<(Bytes, Bytes)>, applied: LogIndex, identity: string)
    returns (r: Option<(App, Term)>)
    ensures applied == 0 ==> r == if raw == [] then Some((EMPTY, 0)) else None
    ensures applied > 0 && r.Some? ==>
      Parsable(p, raw) && exists rows ::
        Reflects(p, raw, rows) && Stored(hash, rows, r.value.0, identity, r.value.1, applied)
    ensures applied > 0 && r.None? && Parsable(p, raw) ==>
      forall rows, app, term :: Reflects(p, raw, rows) ==> !Stored(hash, rows, app, identity, term, applied)
  {
    if applied == 0 { return if raw == [] then Some((EMPTY, 0)) else None; }
    var parsed := ParseRows(p, raw);
    if parsed.None? { return None; }
    r := Decode(hash, parsed.value, applied, identity);
    if r.None? {
      forall rows, app, term | Reflects(p, raw, rows) ensures !Stored(hash, rows, app, identity, term, applied) {
        ReflectsOne(p, raw, parsed.value, rows);
      }
    }
  }

  // ---------------------------------------------------------------- reopening

  /** When a store can be reopened over a log: it was derived from the log's own prefix, whose last entry has a
      real term and whose values are within the import bounds. */
  ghost predicate Reopens(hash: Hash, rows: Rows, applied: LogIndex, identity: string, log: seq<Entry>)
    requires Numbered(log)
  {
    && applied <= |log| && rows == Derived(hash, identity, log[..applied])
    && (applied > 0 ==> log[applied - 1].term > 0 && ValuesOk(Replay(hash, log[..applied]).values))
  }

  /** Recover the application from the store and check it against replay of the log. */
  method Reopen(hash: Hash, rows: Rows, applied: LogIndex, identity: string, log: seq<Entry>)
    returns (r: Option<(App, Term)>)
    requires Numbered(log) && forall i :: 0 <= i < |log| ==> WellTyped(log[i].command)
    ensures r.Some? <==> Reopens(hash, rows, applied, identity, log)
    ensures r.Some? ==> r.value.0 == Replay(hash, log[..applied]) && Some(r.value.1) == Core.LogTerm(log, applied)
  {
    if applied <= |log| { DerivedStored(hash, identity, log, applied); }
    var decoded := Decode(hash, rows, applied, identity);
    if Reopens(hash, rows, applied, identity, log) && applied > 0 { ReopensStored(hash, rows, applied, identity, log); }
    if decoded.None? { return None; }
    var (recovered, term) := decoded.value;
    if Reopens(hash, rows, applied, identity, log) && applied > 0 {
      DumpDetermines(rows, recovered, Replay(hash, log[..applied]), identity, term, log[applied - 1].term);
    }
    if Core.LogTerm(log, applied) != Some(term) || applied > |log| { return None; }
    if Replay(hash, log[..applied]) != recovered { return None; }
    if applied > 0 { DumpUnique(rows, Derived(hash, identity, log[..applied]), recovered, identity, term); }
    r := Some((recovered, term));
  }

  lemma {:induction false} DerivedStored(hash: Hash, identity: string, log: seq<Entry>, applied: LogIndex)
    requires Numbered(log) && (forall i :: 0 <= i < |log| ==> WellTyped(log[i].command)) && applied <= |log|
    ensures applied > 0 ==>
      Dump(Derived(hash, identity, log[..applied]), Replay(hash, log[..applied]), identity, log[applied - 1].term)
    ensures applied == 0 ==> Derived(hash, identity, log[..applied]) == map[] && Replay(hash, log[..applied]) == EMPTY
  {
    IncrementalIsFull(hash, identity, log[..applied]);
  }

  lemma {:induction false} ReopensStored(hash: Hash, rows: Rows, applied: LogIndex, identity: string, log: seq<Entry>)
    requires Numbered(log) && (forall i :: 0 <= i < |log| ==> WellTyped(log[i].command)) && applied > 0
    requires Reopens(hash, rows, applied, identity, log)
    ensures Stored(hash, rows, Replay(hash, log[..applied]), identity, log[applied - 1].term, applied)
  {
    DerivedStored(hash, identity, log, applied);
    ReplayOk(hash, log[..applied]);
  }

  /** A log whose plain writes are bounded and whose terms are real can be reopened at every watermark. */
  lemma {:induction false} BoundedReopens(hash: Hash, identity: string, log: seq<Entry>, applied: LogIndex)
    requires Numbered(log) && (forall i :: 0 <= i < |log| ==> WellTyped(log[i].command)) && applied <= |log|
    requires forall i :: 0 <= i < applied ==> PlainBounded(log[i].command) && log[i].term > 0
    ensures Reopens(hash, Derived(hash, identity, log[..applied]), applied, identity, log)
  {
    BoundedLogsArePortable(hash, log[..applied]);
  }

  /** An applied write of the empty key leaves a store that cannot be reopened, whatever its rows. */
  lemma EmptyKeyCannotReopen(hash: Hash, identity: string, rows: Rows)
    ensures var log := [Entry(1, 1, Put([], []))]; Numbered(log) && !Reopens(hash, rows, 1, identity, log)
  {
    var log := [Entry(1, 1, Put([], []))];
    EmptyKeyIsNotPortable(hash);
    assert log[..1] == log;
  }
}
