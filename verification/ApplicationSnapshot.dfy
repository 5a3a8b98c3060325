/** Export and import of the application. Import accepts exactly the duplicate-free lists that
    rebuild a state satisfying the invariant, and rebuilds that state. */
module ApplicationSnapshot {
  import opened Types
  import opened Payload
  import opened Application
  import opened ApplicationInvariant

  datatype KeyRow = KeyRow(key: Text, sequence: nat, digest: Bytes, payload: Bytes, result: SessionResult)

  datatype SessionRow = SessionRow(
    nonce: Text,
    id: LogIndex,
    registered: SessionResult,
    closed: Option<SessionResult>,
    keys: seq<KeyRow>)

  datatype Snapshot = Snapshot(
    version: nat,
    lastApplied: LogIndex,
    values: seq<(Text, Text)>,
    sessions: seq<SessionRow>,
    retainedKeys: nat,
    retainedPayloadBytes: nat)

  // ---------------------------------------------------------------- lists as maps

  function MapOf<K, V>(s: seq<(K, V)>): map<K, V> {
    if s == [] then map[] else MapOf(s[..|s| - 1])[s[|s| - 1].0 := s[|s| - 1].1]
  }

  predicate DistinctFirst<K(==), V>(s: seq<(K, V)>) {
    forall i, j :: 0 <= i < j < |s| ==> s[i].0 != s[j].0
  }

  lemma {:induction false} MapOfAt<K, V>(s: seq<(K, V)>, i: nat)
    requires DistinctFirst(s) && i < |s|
    ensures s[i].0 in MapOf(s) && MapOf(s)[s[i].0] == s[i].1
  {
    if i < |s| - 1 {
      MapOfAt(s[..|s| - 1], i);
    }
  }

  lemma {:induction false} MapOfFrom<K, V>(s: seq<(K, V)>, k: K) returns (i: nat)
    requires k in MapOf(s)
    ensures i < |s| && s[i].0 == k
  {
    if s[|s| - 1].0 == k {
      i := |s| - 1;
    } else {
      i := MapOfFrom(s[..|s| - 1], k);
    }
  }

  lemma {:induction false} MapOfSnoc<K, V>(s: seq<(K, V)>, k: K, v: V)
    ensures MapOf(s + [(k, v)]) == MapOf(s)[k := v]
  {
    assert (s + [(k, v)])[..|s|] == s;
  }

  lemma {:induction false} MapOfPrefix<K, V>(s: seq<(K, V)>, n: nat, k: K)
    requires DistinctFirst(s) && n <= |s| && k in MapOf(s[..n])
    ensures k in MapOf(s) && MapOf(s)[k] == MapOf(s[..n])[k]
  {
    var i := MapOfFrom(s[..n], k);
    MapOfAt(s[..n], i);
    MapOfAt(s, i);
  }

  lemma {:induction false} MapOfSize<K, V>(s: seq<(K, V)>)
    requires DistinctFirst(s)
    ensures |MapOf(s)| == |s|
  {
    if s != [] {
      var init, k := s[..|s| - 1], s[|s| - 1].0;
      MapOfSize(init);
      if k in MapOf(init) {
        var i := MapOfFrom(init, k);
        assert false;
      }
    }
  }

  lemma {:induction false} DistinctSnoc<K, V>(s: seq<(K, V)>, k: K, v: V)
    requires DistinctFirst(s) && k !in MapOf(s)
    ensures DistinctFirst(s + [(k, v)])
  {
    forall i | 0 <= i < |s| ensures s[i].0 != k { MapOfAt(s, i); }
  }

  /** The items of a map, each once, in no stated order. */
  method Enumerate<K(==), V(==)>(m: map<K, V>) returns (s: seq<(K, V)>)
    ensures DistinctFirst(s) && MapOf(s) == m
  {
    var rest := m;
    s := [];
    while rest != map[]
      invariant DistinctFirst(s) && rest.Keys <= m.Keys && MapOf(s) == m - rest.Keys
      invariant forall k :: k in rest ==> rest[k] == m[k]
      invariant forall i :: 0 <= i < |s| ==> s[i].0 in m && s[i].0 !in rest
      decreases |rest|
    {
      var k :| k in rest;
      MapOfSnoc(s, k, rest[k]);
      assert MapOf(s)[k := rest[k]] == m - (rest - {k}).Keys;
      s, rest := s + [(k, rest[k])], rest - {k};
    }
  }

  // ---------------------------------------------------------------- what a snapshot denotes

  function ToRecord(row: KeyRow): KeyRecord {
    KeyRecord(row.sequence, row.digest, row.payload, row.result)
  }

  function KeyPairs(rows: seq<KeyRow>): (r: seq<(Text, KeyRecord)>)
    ensures |r| == |rows| && forall i :: 0 <= i < |r| ==> r[i] == (rows[i].key, ToRecord(rows[i]))
  {
    seq(|rows|, i requires 0 <= i < |rows| => (rows[i].key, ToRecord(rows[i])))
  }

  function ToSession(row: SessionRow): ClientSession {
    ClientSession(row.registered, row.closed, MapOf(KeyPairs(row.keys)))
  }

  function NoncePairs(rows: seq<SessionRow>): (r: seq<(Text, LogIndex)>)
    ensures |r| == |rows| && forall i :: 0 <= i < |r| ==> r[i] == (rows[i].nonce, rows[i].id)
  {
    seq(|rows|, i requires 0 <= i < |rows| => (rows[i].nonce, rows[i].id))
  }

  function SessionPairs(rows: seq<SessionRow>): (r: seq<(LogIndex, ClientSession)>)
    ensures |r| == |rows| && forall i :: 0 <= i < |r| ==> r[i] == (rows[i].id, ToSession(rows[i]))
  {
    seq(|rows|, i requires 0 <= i < |rows| => (rows[i].id, ToSession(rows[i])))
  }

  /** The state a snapshot lists. */
  function Rebuild(s: Snapshot): App {
    App(MapOf(s.values), MapOf(NoncePairs(s.sessions)), MapOf(SessionPairs(s.sessions)),
        s.lastApplied, s.retainedKeys, s.retainedPayloadBytes)
  }

  predicate KeysDistinct(row: SessionRow) {
    DistinctFirst(KeyPairs(row.keys))
  }

  predicate SessionsDistinct(rows: seq<SessionRow>) {
    && DistinctFirst(NoncePairs(rows)) && DistinctFirst(SessionPairs(rows))
    && forall i :: 0 <= i < |rows| ==> KeysDistinct(rows[i])
  }

  /** `s` lists `app`, every item once. */
  predicate Lists(s: Snapshot, app: App) {
    s.version == 1 && DistinctFirst(s.values) && SessionsDistinct(s.sessions) && app == Rebuild(s)
  }

  /** A state a snapshot may carry: reachable in form, with bounded values. */
  ghost predicate Portable(hash: Hash, app: App) {
    Inv(hash, app) && PayloadsOk(app.sessions) && ValuesOk(app.values)
  }

  // ---------------------------------------------------------------- export

  method ExportKeys(keys: map<Text, KeyRecord>) returns (rows: seq<KeyRow>)
    ensures DistinctFirst(KeyPairs(rows)) && MapOf(KeyPairs(rows)) == keys
  {
    var pairs := Enumerate(keys);
    rows := seq(|pairs|, i requires 0 <= i < |pairs| =>
      KeyRow(pairs[i].0, pairs[i].1.sequence, pairs[i].1.digest, pairs[i].1.payload, pairs[i].1.result));
    assert KeyPairs(rows) == pairs;
  }

  /** The complete application at its watermark. */
  method Export(app: App) returns (s: Snapshot)
    requires Paired(app.registrations, app.sessions.Keys)
    ensures Lists(s, app)
  {
    var values := Enumerate(app.values);
    var pairs := Enumerate(app.registrations);
    var rows: seq<SessionRow> := [];
    while |rows| < |pairs|
      invariant |rows| <= |pairs|
      invariant forall i :: 0 <= i < |rows| ==> rows[i].nonce == pairs[i].0 && rows[i].id == pairs[i].1
      invariant forall i :: 0 <= i < |rows| ==>
        KeysDistinct(rows[i]) && rows[i].id in app.sessions && ToSession(rows[i]) == app.sessions[rows[i].id]
    {
      var (nonce, id) := pairs[|rows|];
      MapOfAt(pairs, |rows|);
      assert app.registrations[nonce] == id;
      var session := app.sessions[id];
      var keys := ExportKeys(session.keys);
      rows := rows + [SessionRow(nonce, id, session.registered, session.closed, keys)];
    }
    assert NoncePairs(rows) == pairs;
    ExportedSessions(app, rows);
    s := Snapshot(1, app.lastApplied, values, rows, app.retainedKeys, app.retainedPayloadBytes);
  }

  lemma ExportedSessions(app: App, rows: seq<SessionRow>)
    requires Paired(app.registrations, app.sessions.Keys)
    requires DistinctFirst(NoncePairs(rows)) && MapOf(NoncePairs(rows)) == app.registrations
    requires forall i :: 0 <= i < |rows| ==>
      rows[i].id in app.sessions && ToSession(rows[i]) == app.sessions[rows[i].id]
    ensures DistinctFirst(SessionPairs(rows)) && MapOf(SessionPairs(rows)) == app.sessions
  {
    var nonces, pairs := NoncePairs(rows), SessionPairs(rows);
    forall i, j | 0 <= i < j < |pairs| ensures pairs[i].0 != pairs[j].0 {
      MapOfAt(nonces, i);
      MapOfAt(nonces, j);
      assert app.registrations[nonces[i].0] == rows[i].id && app.registrations[nonces[j].0] == rows[j].id;
    }
    forall id | id in app.sessions ensures id in MapOf(pairs) && MapOf(pairs)[id] == app.sessions[id] {
      assert Named(app.registrations, id);
      var n :| n in app.registrations && app.registrations[n] == id;
      var i := MapOfFrom(nonces, n);
      MapOfAt(nonces, i);
      MapOfAt(pairs, i);
    }
    forall id | id in MapOf(pairs) ensures id in app.sessions {
      var i := MapOfFrom(pairs, id);
    }
  }

  // ---------------------------------------------------------------- import: values

  predicate ValueOk(pair: (Text, Text)) {
    ValidKey(pair.0) && |pair.1| <= MAX_VALUE_BYTES
  }

  method ImportValues(list: seq<(Text, Text)>) returns (r: Option<map<Text, Text>>)
    ensures r.Some? <==> DistinctFirst(list) && ValuesOk(MapOf(list))
    ensures r.Some? ==> r.value == MapOf(list)
  {
    var values: map<Text, Text> := map[];
    var n := 0;
    while n < |list|
      invariant n <= |list| && values == MapOf(list[..n]) && DistinctFirst(list[..n]) && ValuesOk(values)
    {
      var pair := list[n];
      assert list[..n + 1] == list[..n] + [pair];
      MapOfSnoc(list[..n], pair.0, pair.1);
      if !ValueOk(pair) || pair.0 in values {
        BadValue(list, n);
        return None;
      }
      DistinctSnoc(list[..n], pair.0, pair.1);
      values := values[pair.0 := pair.1];
      n := n + 1;
    }
    assert list[..n] == list;
    r := Some(values);
  }

  lemma {:induction false} BadValue(list: seq<(Text, Text)>, n: nat)
    requires n < |list| && (!ValueOk(list[n]) || list[n].0 in MapOf(list[..n]))
    ensures !(DistinctFirst(list) && ValuesOk(MapOf(list)))
  {
    if DistinctFirst(list) {
      MapOfAt(list, n);
      if list[n].0 in MapOf(list[..n]) {
        var i := MapOfFrom(list[..n], list[n].0);
      }
    }
  }
}
