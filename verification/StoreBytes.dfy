/** The derived store as the engine keeps it: cells as bytes. What was written for a state reads back as that
    state, and a node's own store reopens over its log. */
module StoreBytes {
  import opened Types
  import opened Payload
  import opened Application
  import opened ApplicationInvariant
  import opened ApplicationSnapshot
  import opened AppliedStore
  import opened StoreRecovery
  import Core = RaftCore

  // ---------------------------------------------------------------- text

  /** Every string of the state is UTF-8. */
  predicate Textual(app: App) {
    && (forall k :: k in app.values ==> ValidUtf8(k) && ValidUtf8(app.values[k]))
    && (forall n :: n in app.registrations ==> ValidUtf8(n))
    && forall id, k :: id in app.sessions && k in app.sessions[id].keys ==> ValidUtf8(k)
  }

  lemma {:induction false} MutateTextual(hash: Hash, app: App, id: LogIndex, key: Text, sequence: nat,
                                         value: Option<Text>, index: LogIndex)
    requires Textual(app) && ValidUtf8(key) && (value.Some? ==> ValidUtf8(value.value))
    ensures Textual(Mutate(hash, app, id, key, sequence, value, index).app)
  {
  }

  lemma {:induction false} SessionTextual(app: App, nonce: Text, id: LogIndex, index: LogIndex)
    requires Textual(app) && ValidUtf8(nonce)
    ensures Textual(Register(app, nonce, index).app) && Textual(Close(app, id, index).app)
  {
  }

  lemma ApplyTextual(hash: Hash, app: App, entry: Entry)
    requires Textual(app) && Follows(app, entry) && WellTyped(entry.command)
    ensures Textual(Apply(hash, app, entry).value.app)
  {
    match entry.command
    case RegisterSession(nonce) => SessionTextual(app, nonce, 0, entry.index);
    case CloseSession(id) => SessionTextual(app, [], id, entry.index);
    case SessionPut(id, key, sequence, value) => MutateTextual(hash, app, id, key, sequence, Some(value), entry.index);
    case SessionDelete(id, key, sequence) => MutateTextual(hash, app, id, key, sequence, None, entry.index);
    case _ =>
  }

  lemma {:induction false} ReplayTextual(hash: Hash, log: seq<Entry>)
    requires Numbered(log) && forall i :: 0 <= i < |log| ==> WellTyped(log[i].command)
    ensures Textual(Replay(hash, log))
    decreases |log|
  {
    if log != [] {
      var init := log[..|log| - 1];
      ReplayTextual(hash, init);
      ApplyTextual(hash, Replay(hash, init), log[|log| - 1]);
    }
  }

  // ---------------------------------------------------------------- cells as bytes

  /** The JSON writers of the three structured cells. */
  datatype Writer = Writer(
    metadata: Metadata -> Bytes,
    header: (SessionResult, Option<SessionResult>) -> Bytes,
    record: KeyRow -> Bytes)

  /** What is written parses to what it was written from. */
  ghost predicate Inverse(w: Writer, p: Parser) {
    && (forall m {:trigger w.metadata(m)} :: p.metadata(w.metadata(m)) == Some(m))
    && (forall a, c {:trigger w.header(a, c)} :: p.header(w.header(a, c)) == Some((a, c)))
    && (forall r {:trigger w.record(r)} :: p.record(w.record(r)) == Some(r))
  }

  function EncodeContent(w: Writer, c: Content): Bytes {
    match c
    case State(m) => w.metadata(m)
    case Value(text) => text
    case Id(id) => ToBe(id, 8)
    case SessionHeader(registered, closed) => w.header(registered, closed)
    case RetryRecord(row) => w.record(row)
  }

  function EncodeRow(w: Writer, rows: Rows, k: CellKey): (Bytes, Bytes)
    requires k in rows
  {
    (EncodeKey(k), EncodeContent(w, rows[k]))
  }

  /** The raw rows are the encoded cells, each once, in the order of `keys`. */
  ghost predicate Encodes(w: Writer, rows: Rows, keys: seq<CellKey>, raw: seq<(Bytes, Bytes)>) {
    && |raw| == |keys| == |rows| && (forall k :: k in rows ==> k in keys)
    && (forall i, j :: 0 <= i < j < |keys| ==> keys[i] != keys[j])
    && forall i :: 0 <= i < |keys| ==> keys[i] in rows && raw[i] == EncodeRow(w, rows, keys[i])
  }

  /** Write every cell, in some order: an engine may list them in any. */
  method EncodeRows(w: Writer, rows: Rows) returns (raw: seq<(Bytes, Bytes)>)
    ensures exists keys :: Encodes(w, rows, keys, raw)
  {
    raw := [];
    ghost var keys: seq<CellKey> := [];
    var rest := rows.Keys;
    while rest != {}
      invariant |raw| == |keys| == |rows| - |rest| && rest <= rows.Keys
        && (forall k :: k in rows ==> k in rest || k in keys)
      invariant forall i :: 0 <= i < |keys| ==>
        keys[i] in rows && keys[i] !in rest && raw[i] == EncodeRow(w, rows, keys[i])
      invariant forall i, j :: 0 <= i < j < |keys| ==> keys[i] != keys[j]
      decreases |rest|
    {
      var k :| k in rest;
      raw, keys, rest := raw + [EncodeRow(w, rows, k)], keys + [k], rest - {k};
    }
    assert Encodes(w, rows, keys, raw);
  }

  lemma EightBytes()
    ensures Pow256(8) == U64_MAX + 1
  {
    assert Pow256(4) == 0x1_0000_0000;
  }

  /** Every cell of a state's dump has a storable key and a content that reads back. */
  lemma CellReadsBack(hash: Hash, w: Writer, p: Parser, rows: Rows, app: App, identity: string, term: Term, k: CellKey)
    requires Inverse(w, p) && Inv(hash, app) && Textual(app) && app.lastApplied <= U64_MAX
    requires Dump(rows, app, identity, term) && k in rows
    ensures Storable(k) && ContentFrom(p, k, EncodeContent(w, rows[k])) == Some(rows[k])
  {
    EightBytes();
    assert Held(rows, k) == ContentOf(app, identity, term, k);
    match k
    case Nonce(nonce) =>
      var id := app.registrations[nonce];
      assert SessionOk(hash, id, app.sessions[id], app.lastApplied);
      BeRoundTrip(id, 8);
    case Header(id) => assert SessionOk(hash, id, app.sessions[id], app.lastApplied);
    case Retry(id, key) =>
      assert SessionOk(hash, id, app.sessions[id], app.lastApplied);
      assert RecordOk(hash, id, app.sessions[id].closed, app.lastApplied, key, app.sessions[id].keys[key]);
    case _ =>
  }

  /** The encoded dump of a state parses, to that dump. */
  lemma {:induction false} EncodedReflects(hash: Hash, w: Writer, p: Parser, rows: Rows, keys: seq<CellKey>,
                                           raw: seq<(Bytes, Bytes)>, app: App, identity: string, term: Term)
    requires Inverse(w, p) && Inv(hash, app) && Textual(app) && app.lastApplied <= U64_MAX
    requires Dump(rows, app, identity, term) && Encodes(w, rows, keys, raw)
    ensures Parsable(p, raw) && Reflects(p, raw, rows)
  {
    forall i | 0 <= i < |raw| ensures DecodeKey(raw[i].0) == Some(keys[i]) && RowHeld(p, raw[i], rows) {
      CellReadsBack(hash, w, p, rows, app, identity, term, keys[i]);
      EncodedKey(keys[i]);
    }
    forall k | k in rows ensures Mentions(raw, k) {
      var i :| 0 <= i < |keys| && keys[i] == k;
      assert DecodeKey(raw[i].0) == Some(k);
    }
    forall i, j | 0 <= i < j < |raw| ensures raw[i].0 != raw[j].0 {
      assert DecodeKey(raw[i].0) == Some(keys[i]) && DecodeKey(raw[j].0) == Some(keys[j]);
    }
  }

  /** Whatever order the engine lists the rows in, a portable state's store decodes to that state and its term. */
  method ReadBack(hash: Hash, w: Writer, p: Parser, raw: seq<(Bytes, Bytes)>, app: App, identity: string, term: Term,
                  ghost rows: Rows, ghost keys: seq<CellKey>) returns (r: Option<(App, Term)>)
    requires Inverse(w, p) && Portable(hash, app) && Textual(app) && 0 < app.lastApplied <= U64_MAX && term > 0
    requires Dump(rows, app, identity, term) && Encodes(w, rows, keys, raw)
    ensures r == Some((app, term))
  {
    EncodedReflects(hash, w, p, rows, keys, raw, app, identity, term);
    r := DecodeStore(hash, p, raw, app.lastApplied, identity);
    assert Stored(hash, rows, app, identity, term, app.lastApplied);
    ghost var read :| Reflects(p, raw, read) && Stored(hash, read, r.value.0, identity, r.value.1, app.lastApplied);
    ReflectsOne(p, raw, rows, read);
    DumpDetermines(rows, app, r.value.0, identity, term, r.value.1);
  }

  /** The round trip through bytes. */
  method WriteRead(hash: Hash, w: Writer, p: Parser, app: App, identity: string, term: Term, rows: Rows)
    returns (r: Option<(App, Term)>)
    requires Inverse(w, p) && Portable(hash, app) && Textual(app) && 0 < app.lastApplied <= U64_MAX && term > 0
    requires Dump(rows, app, identity, term)
    ensures r == Some((app, term))
  {
    var raw := EncodeRows(w, rows);
    ghost var keys :| Encodes(w, rows, keys, raw);
    r := ReadBack(hash, w, p, raw, app, identity, term, rows, keys);
  }

  // ---------------------------------------------------------------- reopening from bytes

  /** Recover from the engine's raw rows and check against the log. */
  method ReopenStore(hash: Hash, p: Parser, raw: seq<(Bytes, Bytes)>, applied: LogIndex, identity: string,
                     log: seq<Entry>)
    returns (r: Option<(App, Term)>)
    requires Numbered(log) && forall i :: 0 <= i < |log| ==> WellTyped(log[i].command)
    ensures r.Some? <==> Parsable(p, raw) && exists rows ::
      Reflects(p, raw, rows) && Reopens(hash, rows, applied, identity, log)
    ensures r.Some? ==> r.value.0 == Replay(hash, log[..applied]) && Some(r.value.1) == Core.LogTerm(log, applied)
  {
    var parsed := ParseRows(p, raw);
    if parsed.None? { return None; }
    r := Reopen(hash, parsed.value, applied, identity, log);
    forall rows | Reflects(p, raw, rows) ensures rows == parsed.value { ReflectsOne(p, raw, rows, parsed.value); }
  }

  /** The store a node derived from its own log, as bytes, reopens over that log at every watermark. */
  lemma {:induction false} OwnStoreReopens(hash: Hash, w: Writer, p: Parser, identity: string, log: seq<Entry>,
                                           applied: LogIndex, keys: seq<CellKey>, raw: seq<(Bytes, Bytes)>)
    requires Numbered(log) && (forall i :: 0 <= i < |log| ==> WellTyped(log[i].command)) && applied <= |log|
    requires forall i :: 0 <= i < applied ==> PlainBounded(log[i].command) && log[i].term > 0
    requires Inverse(w, p) && Encodes(w, Derived(hash, identity, log[..applied]), keys, raw)
    ensures Parsable(p, raw) && Reflects(p, raw, Derived(hash, identity, log[..applied]))
    ensures Reopens(hash, Derived(hash, identity, log[..applied]), applied, identity, log)
  {
    BoundedReopens(hash, identity, log, applied);
    DerivedStored(hash, identity, log, applied);
    if applied == 0 {
      assert raw == [];
    } else {
      var before := log[..applied];
      ReplayOk(hash, before);
      ReplayTextual(hash, before);
      EncodedReflects(hash, w, p, Derived(hash, identity, before), keys, raw, Replay(hash, before), identity,
                      log[applied - 1].term);
    }
  }
}
