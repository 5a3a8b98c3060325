/** The derived store: the application as keyed cells. An entry rewrites only the cells it can
    affect, and the result is always the full dump of the state. */
module AppliedStore {
  import opened Types
  import opened Payload
  import opened Application
  import opened ApplicationInvariant
  import opened ApplicationSnapshot

  // ---------------------------------------------------------------- cell keys

  datatype CellKey = Meta | ValueCell(key: Text) | Nonce(nonce: Text) | Header(id: LogIndex)
      | Retry(id: LogIndex, key: Text)

  /** `m/state`, `v/`, `r/`, `s/` and `k/` */
  const META_KEY: Bytes := [109, 47, 115, 116, 97, 116, 101]
  const VALUE_PREFIX: Bytes := [118, 47]
  const NONCE_PREFIX: Bytes := [114, 47]
  const HEADER_PREFIX: Bytes := [115, 47]
  const RETRY_PREFIX: Bytes := [107, 47]

  function EncodeKey(k: CellKey): Bytes {
    match k
    case Meta => META_KEY
    case ValueCell(key) => VALUE_PREFIX + key
    case Nonce(nonce) => NONCE_PREFIX + nonce
    case Header(id) => HEADER_PREFIX + ToBe(id, 8)
    case Retry(id, key) => RETRY_PREFIX + (ToBe(id, 8) + key)
  }

  function DecodeKey(b: Bytes): Option<CellKey> {
    if b == META_KEY then Some(Meta)
    else if VALUE_PREFIX <= b then (if ValidUtf8(b[2..]) then Some(ValueCell(b[2..])) else None)
    else if NONCE_PREFIX <= b then (if ValidUtf8(b[2..]) then Some(Nonce(b[2..])) else None)
    else if HEADER_PREFIX <= b then (if |b| == 10 then Some(Header(FromBe(b[2..]))) else None)
    else if RETRY_PREFIX <= b then
      if |b| <= 10 || !ValidUtf8(b[10..]) then None else Some(Retry(FromBe(b[2..10]), b[10..]))
    else None
  }

  /** The keys the application uses: textual names, 64-bit ids, nonempty retry keys. */
  predicate Storable(k: CellKey) {
    match k
    case Meta => true
    case ValueCell(key) => ValidUtf8(key)
    case Nonce(nonce) => ValidUtf8(nonce)
    case Header(id) => id < Pow256(8)
    case Retry(id, key) => id < Pow256(8) && key != [] && ValidUtf8(key)
  }

  lemma {:induction false} FromBeBound(b: Bytes)
    ensures FromBe(b) < Pow256(|b|)
  {
    if b != [] { FromBeBound(b[..|b| - 1]); }
  }

  lemma EncodedKey(k: CellKey)
    requires Storable(k)
    ensures DecodeKey(EncodeKey(k)) == Some(k)
  {
    var b := EncodeKey(k);
    assert !k.Meta? ==> b[1] == 47;
    match k
    case Meta =>
    case ValueCell(key) => assert b[0] == 118 && b[2..] == key;
    case Nonce(nonce) => assert b[0] == 114 && b[2..] == nonce;
    case Header(id) => BeRoundTrip(id, 8); assert b[0] == 115 && b[2..] == ToBe(id, 8);
    case Retry(id, key) => BeRoundTrip(id, 8); assert b[0] == 107 && b[2..10] == ToBe(id, 8) && b[10..] == key;
  }

  lemma DecodedKey(b: Bytes)
    requires DecodeKey(b).Some?
    ensures var k := DecodeKey(b).value; Storable(k) && EncodeKey(k) == b
  {
    match DecodeKey(b).value
    case Meta =>
    case ValueCell(key) => assert b == VALUE_PREFIX + key;
    case Nonce(nonce) => assert b == NONCE_PREFIX + nonce;
    case Header(id) =>
      FromBeBound(b[2..]);
      BeCanonical(b[2..]);
      assert b == HEADER_PREFIX + b[2..];
    case Retry(id, key) =>
      FromBeBound(b[2..10]);
      BeCanonical(b[2..10]);
      assert b == RETRY_PREFIX + (b[2..10] + b[10..]);
  }

  /** The five namespaces never collide: key bytes and cell keys correspond one to one. */
  lemma KeysExact(b: Bytes, k: CellKey)
    ensures DecodeKey(b) == Some(k) <==> Storable(k) && EncodeKey(k) == b
  {
    if Storable(k) { EncodedKey(k); }
    if DecodeKey(b).Some? { DecodedKey(b); }
  }

  // ---------------------------------------------------------------- cells

  datatype Metadata = Metadata(version: nat, identity: string, index: LogIndex, term: Term, retainedKeys: nat,
                               retainedPayloadBytes: nat)

  /** A cell's content, as the value its bytes parse to. */
  datatype Content =
    | State(metadata: Metadata)
    | Value(text: Text)
    | Id(id: LogIndex)
    | SessionHeader(registered: SessionResult, closed: Option<SessionResult>)
    | RetryRecord(row: KeyRow)

  type Rows = map<CellKey, Content>

  datatype Cell = Cell(key: CellKey, content: Option<Content>)

  function Write(rows: Rows, c: Cell): Rows {
    if c.content.Some? then rows[c.key := c.content.value] else rows - {c.key}
  }

  function WriteAll(rows: Rows, cells: seq<Cell>): Rows
    decreases |cells|
  {
    if cells == [] then rows else WriteAll(Write(rows, cells[0]), cells[1..])
  }

  function MetadataOf(app: App, identity: string, term: Term): Metadata {
    Metadata(1, identity, app.lastApplied, term, app.retainedKeys, app.retainedPayloadBytes)
  }

  function RowOf(key: Text, r: KeyRecord): KeyRow {
    KeyRow(key, r.sequence, r.digest, r.payload, r.result)
  }

  /** What the state says a cell holds. */
  function ContentOf(app: App, identity: string, term: Term, k: CellKey): Option<Content> {
    match k
    case Meta => Some(State(MetadataOf(app, identity, term)))
    case ValueCell(key) => if key in app.values then Some(Value(app.values[key])) else None
    case Nonce(nonce) => if nonce in app.registrations then Some(Id(app.registrations[nonce])) else None
    case Header(id) =>
      if id in app.sessions then Some(SessionHeader(app.sessions[id].registered, app.sessions[id].closed)) else None
    case Retry(id, key) =>
      if id in app.sessions && key in app.sessions[id].keys
        then Some(RetryRecord(RowOf(key, app.sessions[id].keys[key]))) else None
  }

  function Held(rows: Rows, k: CellKey): Option<Content> {
    if k in rows then Some(rows[k]) else None
  }

  /** The rows are the full dump of the state, cell by cell. */
  ghost predicate Dump(rows: Rows, app: App, identity: string, term: Term) {
    forall k {:trigger Held(rows, k)} :: Held(rows, k) == ContentOf(app, identity, term, k)
  }

  /** The same, but for the metadata, which the first entry writes. */
  ghost predicate DumpButMeta(rows: Rows, app: App) {
    forall k {:trigger Held(rows, k)} :: k != Meta ==> Held(rows, k) == ContentOf(app, "", 0, k)
  }

  /** A state has one dump. */
  lemma DumpUnique(a: Rows, b: Rows, app: App, identity: string, term: Term)
    requires Dump(a, app, identity, term) && Dump(b, app, identity, term)
    ensures a == b
  {
    forall k ensures (k in a <==> k in b) && (k in a ==> a[k] == b[k]) {
      assert Held(a, k) == Held(b, k);
    }
  }

  // ---------------------------------------------------------------- cells of one entry

  function RetryCells(app: App, identity: string, id: LogIndex, key: Text): seq<Cell> {
    if id in app.sessions && key in app.sessions[id].keys
    then [Cell(ValueCell(key), ContentOf(app, identity, 0, ValueCell(key))),
          Cell(Retry(id, key), ContentOf(app, identity, 0, Retry(id, key)))]
    else []
  }

  /** The cells an entry can affect, read off the state after it; `None` is a registration whose
      session is missing. */
  function EntryCells(app: App, identity: string, entry: Entry): Option<seq<Cell>> {
    var meta := [Cell(Meta, Some(State(MetadataOf(app, identity, entry.term))))];
    match entry.command
    case Put(key, _) => Some(meta + [Cell(ValueCell(key), ContentOf(app, identity, 0, ValueCell(key)))])
    case Delete(key) => Some(meta + [Cell(ValueCell(key), ContentOf(app, identity, 0, ValueCell(key)))])
    case SessionPut(id, key, _, _) => Some(meta + RetryCells(app, identity, id, key))
    case SessionDelete(id, key, _) => Some(meta + RetryCells(app, identity, id, key))
    case RegisterSession(nonce) =>
      if nonce !in app.registrations then Some(meta)
      else if app.registrations[nonce] !in app.sessions then None
      else Some(meta + [Cell(Nonce(nonce), Some(Id(app.registrations[nonce]))),
                        Cell(Header(app.registrations[nonce]),
                             ContentOf(app, identity, 0, Header(app.registrations[nonce])))])
    case CloseSession(id) =>
      Some(meta + if id in app.sessions then [Cell(Header(id), ContentOf(app, identity, 0, Header(id)))] else [])
    case _ => Some(meta)
  }

  predicate Touches(cells: seq<Cell>, k: CellKey) {
    exists i :: 0 <= i < |cells| && cells[i].key == k
  }

  predicate CellsDistinct(cells: seq<Cell>) {
    forall i, j :: 0 <= i < j < |cells| ==> cells[i].key != cells[j].key
  }

  /** Writing a list of distinct cells changes exactly those. */
  lemma {:induction false} WrittenHeld(rows: Rows, cells: seq<Cell>, k: CellKey)
    requires CellsDistinct(cells)
    ensures !Touches(cells, k) ==> Held(WriteAll(rows, cells), k) == Held(rows, k)
    ensures forall i :: 0 <= i < |cells| && cells[i].key == k ==> Held(WriteAll(rows, cells), k) == cells[i].content
    decreases |cells|
  {
    if cells != [] {
      WrittenHeld(Write(rows, cells[0]), cells[1..], k);
      assert Touches(cells[1..], k) ==> Touches(cells, k);
    }
  }

  /** The cells are what the state says, metadata included. */
  ghost predicate CellsTrue(cells: seq<Cell>, app: App, identity: string, term: Term) {
    CellsDistinct(cells) && Touches(cells, Meta) &&
    forall i {:trigger cells[i]} :: 0 <= i < |cells| ==>
      cells[i].content == ContentOf(app, identity, term, cells[i].key)
  }

  lemma EntryCellsTrue(app: App, identity: string, entry: Entry)
    requires Paired(app.registrations, app.sessions.Keys)
    ensures EntryCells(app, identity, entry).Some?
      && CellsTrue(EntryCells(app, identity, entry).value, app, identity, entry.term)
  {
    var cells := EntryCells(app, identity, entry);
    if entry.command.RegisterSession? && entry.command.nonce in app.registrations {
      assert app.registrations[entry.command.nonce] in app.sessions.Keys;
    }
    assert cells.value[0].key == Meta;
  }

  // ---------------------------------------------------------------- only those cells change

  lemma MutateFrame(hash: Hash, app: App, id: LogIndex, key: Text, sequence: nat, value: Option<Text>, payload: Bytes,
                    index: LogIndex, k: CellKey)
    requires k != Meta && k != ValueCell(key) && k != Retry(id, key)
    ensures ContentOf(MutateWith(hash, app, id, key, sequence, value, payload, index).app, "", 0, k)
      == ContentOf(app, "", 0, k)
  {
    MutateShape(hash, app, id, key, sequence, value, payload, index);
  }

  /** A mutation that leaves no record changed nothing, so its value cell needs no write either. */
  lemma MutateSkips(hash: Hash, app: App, id: LogIndex, key: Text, sequence: nat, value: Option<Text>, payload: Bytes,
                    index: LogIndex)
    requires var next := MutateWith(hash, app, id, key, sequence, value, payload, index).app;
      !(id in next.sessions && key in next.sessions[id].keys)
    ensures MutateWith(hash, app, id, key, sequence, value, payload, index).app == app
  {
    MutateShape(hash, app, id, key, sequence, value, payload, index);
  }

  lemma RegisterFrame(app: App, nonce: Text, index: LogIndex, k: CellKey)
    requires k != Meta && k != Nonce(nonce) && k != Header(index) && index !in app.sessions
    ensures ContentOf(Register(app, nonce, index).app, "", 0, k) == ContentOf(app, "", 0, k)
  {
    RegisterShape(app, nonce, index);
  }

  lemma CloseFrame(app: App, id: LogIndex, index: LogIndex, k: CellKey)
    requires k != Meta && k != Header(id)
    ensures ContentOf(Close(app, id, index).app, "", 0, k) == ContentOf(app, "", 0, k)
  {
    CloseShape(app, id, index);
  }

  /** `k` is a cell that `entry`, applied to `app`, does not list. */
  predicate Unlisted(hash: Hash, app: App, identity: string, entry: Entry, k: CellKey)
    requires Follows(app, entry)
  {
    var cells := EntryCells(Apply(hash, app, entry).value.app, identity, entry);
    k != Meta && cells.Some? && forall i :: 0 <= i < |cells.value| ==> cells.value[i].key != k
  }

  predicate Untouched(hash: Hash, app: App, entry: Entry, k: CellKey)
    requires Follows(app, entry)
  {
    ContentOf(Apply(hash, app, entry).value.app, "", 0, k) == ContentOf(app, "", 0, k)
  }

  lemma PlainFrame(hash: Hash, app: App, identity: string, entry: Entry, k: CellKey)
    requires Follows(app, entry) && Unlisted(hash, app, identity, entry, k)
    requires entry.command.Put? || entry.command.Delete? || entry.command.NoOp? || entry.command.Configuration?
    ensures Untouched(hash, app, entry, k)
  {
    var cells := EntryCells(Apply(hash, app, entry).value.app, identity, entry).value;
    if entry.command.Put? || entry.command.Delete? {
      assert cells[1].key == ValueCell(entry.command.key);
    }
  }

  lemma RegistrationFrame(hash: Hash, app: App, identity: string, entry: Entry, k: CellKey)
    requires Follows(app, entry) && Unlisted(hash, app, identity, entry, k) && entry.index !in app.sessions
    requires entry.command.RegisterSession?
    ensures Untouched(hash, app, entry, k)
  {
    var nonce := entry.command.nonce;
    var next := Apply(hash, app, entry).value.app;
    RegisterShape(app, nonce, entry.index);
    if Registers(app, nonce) {
      assert next.registrations[nonce] == entry.index;
      var cells := EntryCells(next, identity, entry).value;
      assert cells[1].key == Nonce(nonce) && cells[2].key == Header(entry.index);
      RegisterFrame(app, nonce, entry.index, k);
    }
  }

  lemma ClosingFrame(hash: Hash, app: App, identity: string, entry: Entry, k: CellKey)
    requires Follows(app, entry) && Unlisted(hash, app, identity, entry, k) && entry.command.CloseSession?
    ensures Untouched(hash, app, entry, k)
  {
    var id := entry.command.sessionId;
    var next := Apply(hash, app, entry).value.app;
    CloseShape(app, id, entry.index);
    if id in app.sessions {
      var cells := EntryCells(next, identity, entry).value;
      assert id in next.sessions && cells[1].key == Header(id);
      CloseFrame(app, id, entry.index, k);
    }
  }

  /** Cells an entry does not list keep their content. */
  lemma EntryFrame(hash: Hash, app: App, identity: string, entry: Entry, k: CellKey)
    requires Follows(app, entry) && entry.index !in app.sessions && Unlisted(hash, app, identity, entry, k)
    ensures Untouched(hash, app, entry, k)
  {
    match entry.command
    case SessionPut(id, key, sequence, value) =>
      var cells := EntryCells(Apply(hash, app, entry).value.app, identity, entry).value;
      RetryFrame(hash, app, identity, id, key, sequence, Some(value), CanonicalPayload(key, Some(value)), entry.index,
                 k, cells[1..]);
    case SessionDelete(id, key, sequence) =>
      var cells := EntryCells(Apply(hash, app, entry).value.app, identity, entry).value;
      RetryFrame(hash, app, identity, id, key, sequence, None, CanonicalPayload(key, None), entry.index, k, cells[1..]);
    case RegisterSession(_) => RegistrationFrame(hash, app, identity, entry, k);
    case CloseSession(_) => ClosingFrame(hash, app, identity, entry, k);
    case _ => PlainFrame(hash, app, identity, entry, k);
  }

  lemma RetryFrame(hash: Hash, app: App, identity: string, id: LogIndex, key: Text, sequence: nat, value: Option<Text>,
                   payload: Bytes, index: LogIndex, k: CellKey, cells: seq<Cell>)
    requires k != Meta && forall i :: 0 <= i < |cells| ==> cells[i].key != k
    requires var done := MutateWith(hash, app, id, key, sequence, value, payload, index).app;
      cells == RetryCells(done.(lastApplied := index), identity, id, key)
    ensures ContentOf(MutateWith(hash, app, id, key, sequence, value, payload, index).app, "", 0, k)
      == ContentOf(app, "", 0, k)
  {
    if cells == [] {
      MutateSkips(hash, app, id, key, sequence, value, payload, index);
    } else {
      assert cells[0].key != k && cells[1].key != k;
      MutateFrame(hash, app, id, key, sequence, value, payload, index, k);
    }
  }

  // ---------------------------------------------------------------- incremental is full

  /** Writing true cells over a dump that is right everywhere else gives the dump of the new state. */
  lemma {:induction false} WriteDump(rows: Rows, cells: seq<Cell>, app: App, next: App, identity: string, term: Term)
    requires CellsTrue(cells, next, identity, term) && DumpButMeta(rows, app)
    requires forall k :: k != Meta && !Touches(cells, k) ==> ContentOf(next, "", 0, k) == ContentOf(app, "", 0, k)
    ensures Dump(WriteAll(rows, cells), next, identity, term)
  {
    forall k ensures Held(WriteAll(rows, cells), k) == ContentOf(next, identity, term, k) {
      WrittenHeld(rows, cells, k);
      if Touches(cells, k) {
        var i :| 0 <= i < |cells| && cells[i].key == k;
        assert cells[i].content == ContentOf(next, identity, term, k);
      } else {
        assert Held(rows, k) == ContentOf(app, "", 0, k);
      }
    }
  }

  /** One entry: updating the touched cells of a dump gives the dump of the next state. */
  lemma {:induction false} EntryDump(hash: Hash, app: App, rows: Rows, identity: string, entry: Entry)
    requires Inv(hash, app) && Follows(app, entry) && DumpButMeta(rows, app)
    ensures var next := Apply(hash, app, entry).value.app; var cells := EntryCells(next, identity, entry);
      cells.Some? && CellsTrue(cells.value, next, identity, entry.term)
        && Dump(WriteAll(rows, cells.value), next, identity, entry.term)
  {
    var next := Apply(hash, app, entry).value.app;
    ApplyKeeps(hash, app, entry);
    EntryCellsTrue(next, identity, entry);
    assert entry.index in app.sessions ==> SessionOk(hash, entry.index, app.sessions[entry.index], app.lastApplied);
    var cells := EntryCells(next, identity, entry).value;
    forall k | k != Meta && !Touches(cells, k) ensures ContentOf(next, "", 0, k) == ContentOf(app, "", 0, k) {
      assert Unlisted(hash, app, identity, entry, k);
      EntryFrame(hash, app, identity, entry, k);
    }
    WriteDump(rows, cells, app, next, identity, entry.term);
  }

  lemma DumpForgetsMeta(rows: Rows, app: App, identity: string, term: Term)
    requires Dump(rows, app, identity, term)
    ensures DumpButMeta(rows, app)
  {
    forall k | k != Meta ensures Held(rows, k) == ContentOf(app, "", 0, k) {
      assert Held(rows, k) == ContentOf(app, identity, term, k);
    }
  }

  /** The rows after folding each entry's cells into an empty store. */
  function Derived(hash: Hash, identity: string, log: seq<Entry>): Rows
    requires Numbered(log)
    decreases |log|
  {
    if log == [] then map[]
    else
      var cells := EntryCells(Replay(hash, log), identity, log[|log| - 1]);
      WriteAll(Derived(hash, identity, log[..|log| - 1]), if cells.Some? then cells.value else [])
  }

  /** Incremental refines full: for every nonempty log, the folded cells are the full dump. */
  lemma {:induction false} IncrementalIsFull(hash: Hash, identity: string, log: seq<Entry>)
    requires Numbered(log) && forall i :: 0 <= i < |log| ==> WellTyped(log[i].command)
    ensures DumpButMeta(Derived(hash, identity, log), Replay(hash, log))
    ensures log != [] ==> Dump(Derived(hash, identity, log), Replay(hash, log), identity, log[|log| - 1].term)
    decreases |log|
  {
    if log == [] {
      forall k | k != Meta ensures Held(map[], k) == ContentOf(EMPTY, "", 0, k) { }
    } else {
      var init := log[..|log| - 1];
      IncrementalIsFull(hash, identity, init);
      ReplayOk(hash, init);
      EntryDump(hash, Replay(hash, init), Derived(hash, identity, init), identity, log[|log| - 1]);
      DumpForgetsMeta(Derived(hash, identity, log), Replay(hash, log), identity, log[|log| - 1].term);
    }
  }

  /** A dump determines its state. */
  lemma DumpDetermines(rows: Rows, a: App, b: App, identity: string, term: Term, term': Term)
    requires Dump(rows, a, identity, term) && Dump(rows, b, identity, term')
    ensures a == b && term == term'
  {
    assert Held(rows, Meta) == ContentOf(a, identity, term, Meta) == ContentOf(b, identity, term', Meta);
    assert a.values == b.values by {
      forall key
        ensures (key in a.values <==> key in b.values) && (key in a.values ==> a.values[key] == b.values[key])
      {
        assert Held(rows, ValueCell(key)) == ContentOf(a, identity, term, ValueCell(key))
          == ContentOf(b, identity, term', ValueCell(key));
      }
    }
    assert a.registrations == b.registrations by {
      forall n
        ensures (n in a.registrations <==> n in b.registrations)
          && (n in a.registrations ==> a.registrations[n] == b.registrations[n])
      {
        assert Held(rows, Nonce(n)) == ContentOf(a, identity, term, Nonce(n))
          == ContentOf(b, identity, term', Nonce(n));
      }
    }
    forall id
      ensures (id in a.sessions <==> id in b.sessions) && (id in a.sessions ==> a.sessions[id] == b.sessions[id])
    {
      assert Held(rows, Header(id)) == ContentOf(a, identity, term, Header(id))
        == ContentOf(b, identity, term', Header(id));
      if id in a.sessions { SameKeys(rows, a, b, identity, term, term', id); }
    }
    assert a.sessions == b.sessions;
  }

  lemma SameKeys(rows: Rows, a: App, b: App, identity: string, term: Term, term': Term, id: LogIndex)
    requires Dump(rows, a, identity, term) && Dump(rows, b, identity, term') && id in a.sessions && id in b.sessions
    ensures a.sessions[id].keys == b.sessions[id].keys
  {
    var x, y := a.sessions[id].keys, b.sessions[id].keys;
    forall key ensures (key in x <==> key in y) && (key in x ==> x[key] == y[key]) {
      assert Held(rows, Retry(id, key)) == ContentOf(a, identity, term, Retry(id, key))
        == ContentOf(b, identity, term', Retry(id, key));
    }
  }
}
