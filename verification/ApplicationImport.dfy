/** Import of the session lists: row by row, with every operation index claimed once. */
module ApplicationImport {
  import opened Basics
  import opened Types
  import opened Payload
  import opened Application
  import opened ApplicationInvariant
  import opened ApplicationSnapshot
  import opened StateMachine

  // ---------------------------------------------------------------- claimed indices

  ghost predicate HasIndex(sessions: map<LogIndex, ClientSession>, x: LogIndex) {
    exists op :: Retains(sessions, op) && IndexOf(sessions, op) == x
  }

  /** `claimed` holds the indices of all operations the sessions retain. */
  ghost predicate Tracks(claimed: set<LogIndex>, sessions: map<LogIndex, ClientSession>) {
    forall x {:trigger HasIndex(sessions, x)} :: x in claimed <==> HasIndex(sessions, x)
  }

  /** All that `sub` retains, `whole` retains too. */
  ghost predicate Below(sub: map<LogIndex, ClientSession>, whole: map<LogIndex, ClientSession>) {
    && (forall op {:trigger Retains(sub, op)} :: Retains(sub, op) ==>
        Retains(whole, op) && IndexOf(sub, op) == IndexOf(whole, op))
    && KeySlots(sub) <= KeySlots(whole) && ByteSlots(sub) <= ByteSlots(whole)
  }

  lemma BelowDistinct(sub: map<LogIndex, ClientSession>, whole: map<LogIndex, ClientSession>)
    requires Below(sub, whole) && IndicesDistinct(whole)
    ensures IndicesDistinct(sub)
  {
  }

  lemma BelowSizes(sub: map<LogIndex, ClientSession>, whole: map<LogIndex, ClientSession>)
    requires Below(sub, whole)
    ensures |KeySlots(sub)| <= |KeySlots(whole)| && |ByteSlots(sub)| <= |ByteSlots(whole)|
  {
    SubsetSize(KeySlots(sub), KeySlots(whole));
    SubsetSize(ByteSlots(sub), ByteSlots(whole));
  }

  /** `after` retains `op` besides what `before` does. */
  ghost predicate Adds(before: map<LogIndex, ClientSession>, after: map<LogIndex, ClientSession>, op: Operation) {
    && !Retains(before, op) && Retains(after, op)
    && forall o {:trigger Retains(after, o)} {:trigger Retains(before, o)} :: o != op ==>
         (Retains(after, o) <==> Retains(before, o))
           && (Retains(after, o) && Retains(before, o) ==> IndexOf(after, o) == IndexOf(before, o))
  }

  /** Claiming an unclaimed index keeps all indices distinct. */
  lemma Claim(claimed: set<LogIndex>, before: map<LogIndex, ClientSession>, after: map<LogIndex, ClientSession>,
              op: Operation)
    requires Tracks(claimed, before) && IndicesDistinct(before) && Adds(before, after, op)
    requires IndexOf(after, op) !in claimed
    ensures Tracks(claimed + {IndexOf(after, op)}, after) && IndicesDistinct(after)
  {
    var x := IndexOf(after, op);
    forall y ensures y in claimed + {x} <==> HasIndex(after, y) {
      if HasIndex(before, y) {
        var o :| Retains(before, o) && IndexOf(before, o) == y;
        assert Retains(after, o) && IndexOf(after, o) == y;
      }
      if HasIndex(after, y) {
        var o :| Retains(after, o) && IndexOf(after, o) == y;
        assert o != op ==> Retains(before, o) && IndexOf(before, o) == y;
      }
    }
    forall a, b | Retains(after, a) && Retains(after, b) && IndexOf(after, a) == IndexOf(after, b) ensures a == b {
      assert !HasIndex(before, x);
      assert a != op ==> Retains(before, a) && HasIndex(before, IndexOf(before, a));
      assert b != op ==> Retains(before, b) && HasIndex(before, IndexOf(before, b));
    }
  }

  /** An index claimed already cannot belong to an operation not yet retained. */
  lemma Taken(claimed: set<LogIndex>, sub: map<LogIndex, ClientSession>, whole: map<LogIndex, ClientSession>,
              op: Operation)
    requires Tracks(claimed, sub) && Below(sub, whole) && IndicesDistinct(whole)
    requires Retains(whole, op) && !Retains(sub, op)
    ensures IndexOf(whole, op) !in claimed
  {
    var x := IndexOf(whole, op);
    forall o | Retains(sub, o) ensures IndexOf(sub, o) != x {
      assert o != op && Retains(whole, o);
    }
    assert !HasIndex(sub, x);
  }

  // ---------------------------------------------------------------- one session

  /** The session after its first `n` key rows. */
  function Partial(row: SessionRow, n: nat): ClientSession
    requires n <= |row.keys|
  {
    ClientSession(row.registered, row.closed, MapOf(KeyPairs(row.keys[..n])))
  }

  ghost predicate PayloadsDecode(s: ClientSession) {
    forall k {:trigger s.keys[k]} :: k in s.keys ==> DecodePayload(k, s.keys[k].payload).Some?
  }

  /** The session row may join `sessions`. */
  ghost predicate Joins(hash: Hash, row: SessionRow, last: LogIndex, sessions: map<LogIndex, ClientSession>) {
    var whole := sessions[row.id := ToSession(row)];
    && ValidNonce(row.nonce) && row.id !in sessions && KeysDistinct(row)
    && SessionOk(hash, row.id, ToSession(row), last) && PayloadsDecode(ToSession(row))
    && IndicesDistinct(whole) && |KeySlots(whole)| <= MAX_SESSION_KEYS
    && |ByteSlots(whole)| <= MAX_RETAINED_PAYLOAD_BYTES
  }

  lemma PartialWithin(row: SessionRow, n: nat, k: Text)
    requires KeysDistinct(row) && n <= |row.keys| && k in Partial(row, n).keys
    ensures k in ToSession(row).keys && ToSession(row).keys[k] == Partial(row, n).keys[k]
  {
    assert KeyPairs(row.keys)[..n] == KeyPairs(row.keys[..n]);
    MapOfPrefix(KeyPairs(row.keys), n, k);
  }

  lemma PartialBelow(sessions: map<LogIndex, ClientSession>, row: SessionRow, n: nat)
    requires KeysDistinct(row) && n <= |row.keys|
    ensures Below(sessions[row.id := Partial(row, n)], sessions[row.id := ToSession(row)])
  {
    forall k | k in Partial(row, n).keys
      ensures k in ToSession(row).keys && ToSession(row).keys[k] == Partial(row, n).keys[k]
    {
      PartialWithin(row, n, k);
    }
    KeysBelow(sessions, row.id, Partial(row, n), ToSession(row));
  }

  lemma KeysBelow(sessions: map<LogIndex, ClientSession>, id: LogIndex, s: ClientSession, t: ClientSession)
    requires s.closed == t.closed
    requires forall k :: k in s.keys ==> k in t.keys && t.keys[k] == s.keys[k]
    ensures Below(sessions[id := s], sessions[id := t])
  {
  }

  /** A key row's own checks, apart from its index being unclaimed. */
  predicate RowOk(hash: Hash, row: SessionRow, last: LogIndex, r: KeyRow) {
    && ValidKey(r.key) && r.sequence > 0
    && DecodePayload(r.key, r.payload).Some?
    && CanonicalPayload(r.key, DecodePayload(r.key, r.payload).value) == r.payload
    && hash(r.payload) == r.digest
    && r.result.index.Some?
    && row.id < r.result.index.value <= last && r.sequence <= r.result.index.value - row.id
    && (row.closed.Some? && row.closed.value.index.Some? ==> r.result.index.value < row.closed.value.index.value)
    && r.result == Success(row.id, Some(r.sequence), r.result.index.value)
  }

  /** The row checks are the record invariant; the canonical form is implied by decoding. */
  lemma RowExact(hash: Hash, row: SessionRow, last: LogIndex, r: KeyRow)
    ensures RowOk(hash, row, last, r) <==>
            RecordOk(hash, row.id, row.closed, last, r.key, ToRecord(r)) && DecodePayload(r.key, r.payload).Some?
  {
    if DecodePayload(r.key, r.payload).Some? {
      PayloadExact(r.key, r.payload, DecodePayload(r.key, r.payload).value);
    }
  }

  lemma JoinsRow(hash: Hash, row: SessionRow, last: LogIndex, sessions: map<LogIndex, ClientSession>, n: nat)
    requires Joins(hash, row, last, sessions) && n < |row.keys|
    ensures RowOk(hash, row, last, row.keys[n])
    ensures row.keys[n].key in ToSession(row).keys && ToSession(row).keys[row.keys[n].key] == ToRecord(row.keys[n])
    ensures row.keys[n].key !in Partial(row, n).keys
  {
    var r, t := row.keys[n], ToSession(row);
    MapOfAt(KeyPairs(row.keys), n);
    assert RecordOk(hash, row.id, t.closed, last, r.key, t.keys[r.key]);
    RowExact(hash, row, last, r);
    forall i | 0 <= i < n ensures KeyPairs(row.keys[..n])[i].0 != r.key {
      assert KeyPairs(row.keys)[i].0 != KeyPairs(row.keys)[n].0;
    }
    if r.key in Partial(row, n).keys {
      var i := MapOfFrom(KeyPairs(row.keys[..n]), r.key);
      assert false;
    }
  }

  lemma JoinsIndex(hash: Hash, row: SessionRow, last: LogIndex, sessions: map<LogIndex, ClientSession>,
                   claimed: set<LogIndex>, n: nat)
    requires Joins(hash, row, last, sessions) && n < |row.keys| && Tracks(claimed, sessions[row.id := Partial(row, n)])
    ensures row.keys[n].result.index.Some? && row.keys[n].result.index.value !in claimed
  {
    JoinsRow(hash, row, last, sessions, n);
    PartialBelow(sessions, row, n);
    Taken(claimed, sessions[row.id := Partial(row, n)], sessions[row.id := ToSession(row)],
          Mutation(row.id, row.keys[n].key));
  }

  /** One more key row: the record enters the session under a new index. */
  lemma RowAdds(sessions: map<LogIndex, ClientSession>, row: SessionRow, n: nat)
    requires n < |row.keys| && row.keys[n].key !in Partial(row, n).keys && row.keys[n].result.index.Some?
    ensures var r := row.keys[n];
      var before, after := sessions[row.id := Partial(row, n)], sessions[row.id := Partial(row, n + 1)];
      && Partial(row, n + 1) == Partial(row, n).(keys := Partial(row, n).keys[r.key := ToRecord(r)])
      && Adds(before, after, Mutation(row.id, r.key)) && IndexOf(after, Mutation(row.id, r.key)) == r.result.index.value
      && |KeySlots(after)| == |KeySlots(before)| + 1 && |ByteSlots(after)| == |ByteSlots(before)| + |r.payload|
  {
    var r := row.keys[n];
    assert KeyPairs(row.keys[..n + 1]) == KeyPairs(row.keys[..n]) + [(r.key, ToRecord(r))];
    MapOfSnoc(KeyPairs(row.keys[..n]), r.key, ToRecord(r));
    var s := Partial(row, n);
    KeyAdds(sessions, row.id, s, r.key, ToRecord(r));
  }

  lemma KeyAdds(sessions: map<LogIndex, ClientSession>, id: LogIndex, s: ClientSession, key: Text, r: KeyRecord)
    requires key !in s.keys && r.result.index.Some?
    ensures var before, after := sessions[id := s], sessions[id := s.(keys := s.keys[key := r])];
      && Adds(before, after, Mutation(id, key))
      && |KeySlots(after)| == |KeySlots(before)| + 1 && |ByteSlots(after)| == |ByteSlots(before)| + |r.payload|
  {
    var before := sessions[id := s];
    assert before[id := s.(keys := s.keys[key := r])] == sessions[id := s.(keys := s.keys[key := r])];
    RecordKeys(before, id, key, r);
    RecordBytesCount(before, id, key, r);
  }

  /** The header checks of a session row, apart from its indices being unclaimed. */
  predicate HeaderOk(row: SessionRow, last: LogIndex) {
    && ValidNonce(row.nonce) && 0 < row.id <= last && row.registered == Success(row.id, None, row.id)
    && |row.keys| <= MAX_KEYS_PER_SESSION
    && (row.closed.Some? ==> row.closed.value.index.Some? && row.id < row.closed.value.index.value <= last
                             && row.closed.value == Success(row.id, None, row.closed.value.index.value))
  }

  function ClosedIndex(row: SessionRow): set<LogIndex> {
    if row.closed.Some? && row.closed.value.index.Some? then {row.closed.value.index.value} else {}
  }

  lemma JoinsHeader(hash: Hash, row: SessionRow, last: LogIndex, sessions: map<LogIndex, ClientSession>,
                    claimed: set<LogIndex>)
    requires Joins(hash, row, last, sessions) && Tracks(claimed, sessions)
    ensures HeaderOk(row, last) && row.id !in claimed && ClosedIndex(row) !! (claimed + {row.id})
  {
    MapOfSize(KeyPairs(row.keys));
    var whole := sessions[row.id := ToSession(row)];
    NewBelow(sessions, row.id, ToSession(row));
    Taken(claimed, sessions, whole, Registration(row.id));
    if row.closed.Some? {
      Taken(claimed, sessions, whole, Closing(row.id));
      assert Retains(whole, Registration(row.id)) && Retains(whole, Closing(row.id));
    }
  }

  lemma NewBelow(sessions: map<LogIndex, ClientSession>, id: LogIndex, s: ClientSession)
    requires id !in sessions
    ensures Below(sessions, sessions[id := s])
  {
  }

  /** The header claims the registration and, if any, the close. */
  lemma HeaderAdds(row: SessionRow, last: LogIndex, sessions: map<LogIndex, ClientSession>, claimed: set<LogIndex>)
    requires Tracks(claimed, sessions) && IndicesDistinct(sessions) && HeaderOk(row, last)
    requires row.id !in claimed && ClosedIndex(row) !! (claimed + {row.id})
    ensures var after := sessions[row.id := Partial(row, 0)];
      && row.id !in sessions && Tracks(claimed + {row.id} + ClosedIndex(row), after) && IndicesDistinct(after)
      && KeySlots(after) == KeySlots(sessions) && ByteSlots(after) == ByteSlots(sessions)
  {
    var fromNonce, after :=
      sessions[row.id := ClientSession(row.registered, None, map[])], sessions[row.id := Partial(row, 0)];
    assert KeyPairs(row.keys[..0]) == [];
    if Retains(sessions, Registration(row.id)) {
      assert HasIndex(sessions, row.id);
      assert false;
    }
    SlotsUnchanged(sessions, row.id, Partial(row, 0));
    assert Adds(sessions, fromNonce, Registration(row.id));
    Claim(claimed, sessions, fromNonce, Registration(row.id));
    if row.closed.Some? {
      assert Adds(fromNonce, after, Closing(row.id));
      Claim(claimed + {row.id}, fromNonce, after, Closing(row.id));
    } else {
      assert fromNonce == after;
      assert claimed + {row.id} + ClosedIndex(row) == claimed + {row.id};
    }
  }

  lemma SlotsUnchanged(sessions: map<LogIndex, ClientSession>, id: LogIndex, s: ClientSession)
    requires id !in sessions && s.keys == map[]
    ensures KeySlots(sessions[id := s]) == KeySlots(sessions) && ByteSlots(sessions[id := s]) == ByteSlots(sessions)
  {
  }

  datatype Imported = Imported(session: ClientSession, claimed: set<LogIndex>, keys: nat, bytes: nat)

  /** Accepts a session row exactly when it may join the sessions already imported. */
  method ImportSession(hash: Hash, row: SessionRow, last: LogIndex, claimed: set<LogIndex>, keys: nat, bytes: nat,
                       ghost sessions: map<LogIndex, ClientSession>) returns (r: Option<Imported>)
    requires Tracks(claimed, sessions) && IndicesDistinct(sessions)
    requires keys == |KeySlots(sessions)| <= MAX_SESSION_KEYS
      && bytes == |ByteSlots(sessions)| <= MAX_RETAINED_PAYLOAD_BYTES
    ensures r.Some? <==> Joins(hash, row, last, sessions)
    ensures r.Some? ==> var after := sessions[row.id := ToSession(row)];
      && r.value.session == ToSession(row) && Tracks(r.value.claimed, after)
      && r.value.keys == |KeySlots(after)| && r.value.bytes == |ByteSlots(after)|
  {
    if !HeaderOk(row, last) || row.id in claimed || ClosedIndex(row) * (claimed + {row.id}) != {} {
      if Joins(hash, row, last, sessions) { JoinsHeader(hash, row, last, sessions, claimed); }
      return None;
    }
    HeaderAdds(row, last, sessions, claimed);
    var taken, session, keyCount, byteCount :=
      claimed + {row.id} + ClosedIndex(row), ClientSession(row.registered, row.closed, map[]), keys, bytes;
    assert KeyPairs(row.keys[..0]) == [];
    var n := 0;
    while n < |row.keys|
      invariant n <= |row.keys| && session == Partial(row, n) && RowsDone(hash, row, last, n)
      invariant Tracks(taken, sessions[row.id := session]) && IndicesDistinct(sessions[row.id := session])
      invariant keyCount == |KeySlots(sessions[row.id := session])| <= MAX_SESSION_KEYS
      invariant byteCount == |ByteSlots(sessions[row.id := session])| <= MAX_RETAINED_PAYLOAD_BYTES
    {
      var k := row.keys[n];
      if !RowOk(hash, row, last, k) || k.result.index.value in taken || k.key in session.keys
         || keyCount + 1 > MAX_SESSION_KEYS || byteCount + |k.payload| > MAX_RETAINED_PAYLOAD_BYTES {
        if Joins(hash, row, last, sessions) { JoinsPasses(hash, row, last, sessions, taken, n); }
        return None;
      }
      RowAdds(sessions, row, n);
      Claim(taken, sessions[row.id := Partial(row, n)], sessions[row.id := Partial(row, n + 1)],
            Mutation(row.id, k.key));
      RowDone(hash, row, last, n);
      taken := taken + {k.result.index.value};
      session := session.(keys := session.keys[k.key := ToRecord(k)]);
      keyCount, byteCount := keyCount + 1, byteCount + |k.payload|;
      n := n + 1;
    }
    assert row.keys[..n] == row.keys;
    RowsJoin(hash, row, last);
    r := Some(Imported(session, taken, keyCount, byteCount));
  }

  lemma JoinsPasses(hash: Hash, row: SessionRow, last: LogIndex, sessions: map<LogIndex, ClientSession>,
                    claimed: set<LogIndex>, n: nat)
    requires Joins(hash, row, last, sessions) && n < |row.keys| && Tracks(claimed, sessions[row.id := Partial(row, n)])
    ensures var k, before := row.keys[n], sessions[row.id := Partial(row, n)];
      && RowOk(hash, row, last, k) && k.result.index.value !in claimed && k.key !in Partial(row, n).keys
      && |KeySlots(before)| + 1 <= MAX_SESSION_KEYS && |ByteSlots(before)| + |k.payload| <= MAX_RETAINED_PAYLOAD_BYTES
  {
    JoinsRow(hash, row, last, sessions, n);
    JoinsIndex(hash, row, last, sessions, claimed, n);
    RowAdds(sessions, row, n);
    PartialBelow(sessions, row, n + 1);
    BelowSizes(sessions[row.id := Partial(row, n + 1)], sessions[row.id := ToSession(row)]);
  }

  /** The first `n` key rows passed their checks and name distinct keys. */
  ghost predicate RowsDone(hash: Hash, row: SessionRow, last: LogIndex, n: nat) {
    && n <= |row.keys| && DistinctFirst(KeyPairs(row.keys[..n]))
    && forall i {:trigger RowOk(hash, row, last, row.keys[i])} :: 0 <= i < n ==> RowOk(hash, row, last, row.keys[i])
  }

  lemma RowDone(hash: Hash, row: SessionRow, last: LogIndex, n: nat)
    requires RowsDone(hash, row, last, n) && n < |row.keys| && RowOk(hash, row, last, row.keys[n])
    requires row.keys[n].key !in Partial(row, n).keys
    ensures RowsDone(hash, row, last, n + 1)
  {
    var k := row.keys[n];
    DistinctSnoc(KeyPairs(row.keys[..n]), k.key, ToRecord(k));
    assert KeyPairs(row.keys[..n + 1]) == KeyPairs(row.keys[..n]) + [(k.key, ToRecord(k))];
  }


  lemma RowsJoin(hash: Hash, row: SessionRow, last: LogIndex)
    requires RowsDone(hash, row, last, |row.keys|) && HeaderOk(row, last)
    ensures KeysDistinct(row) && SessionOk(hash, row.id, ToSession(row), last) && PayloadsDecode(ToSession(row))
  {
    assert row.keys[..|row.keys|] == row.keys;
    var pairs, t := KeyPairs(row.keys), ToSession(row);
    MapOfSize(pairs);
    forall k | k in t.keys
      ensures RecordOk(hash, row.id, t.closed, last, k, t.keys[k]) && DecodePayload(k, t.keys[k].payload).Some?
    {
      var i := MapOfFrom(pairs, k);
      MapOfAt(pairs, i);
      assert RowOk(hash, row, last, row.keys[i]);
      RowExact(hash, row, last, row.keys[i]);
    }
  }

  // ---------------------------------------------------------------- all sessions

  /** Exactly the snapshots that import: no duplicates, at the expected index, denoting a portable state. */
  ghost predicate Accepts(hash: Hash, s: Snapshot, expected: LogIndex) {
    s.lastApplied == expected && Lists(s, Rebuild(s)) && Portable(hash, Rebuild(s))
  }

  lemma MapBelow(sub: map<LogIndex, ClientSession>, whole: map<LogIndex, ClientSession>)
    requires forall id :: id in sub ==> id in whole && whole[id] == sub[id]
    ensures Below(sub, whole)
  {
  }

  lemma PrefixSnoc(rows: seq<SessionRow>, n: nat)
    requires n < |rows|
    ensures MapOf(SessionPairs(rows[..n + 1])) == MapOf(SessionPairs(rows[..n]))[rows[n].id := ToSession(rows[n])]
    ensures MapOf(NoncePairs(rows[..n + 1])) == MapOf(NoncePairs(rows[..n]))[rows[n].nonce := rows[n].id]
  {
    assert SessionPairs(rows[..n + 1]) == SessionPairs(rows[..n]) + [(rows[n].id, ToSession(rows[n]))];
    assert NoncePairs(rows[..n + 1]) == NoncePairs(rows[..n]) + [(rows[n].nonce, rows[n].id)];
    MapOfSnoc(SessionPairs(rows[..n]), rows[n].id, ToSession(rows[n]));
    MapOfSnoc(NoncePairs(rows[..n]), rows[n].nonce, rows[n].id);
  }

  lemma PrefixBelow(rows: seq<SessionRow>, n: nat)
    requires DistinctFirst(SessionPairs(rows)) && n <= |rows|
    ensures Below(MapOf(SessionPairs(rows[..n])), MapOf(SessionPairs(rows)))
  {
    var sub, whole := MapOf(SessionPairs(rows[..n])), MapOf(SessionPairs(rows));
    assert SessionPairs(rows)[..n] == SessionPairs(rows[..n]);
    forall id | id in sub ensures id in whole && whole[id] == sub[id] {
      MapOfPrefix(SessionPairs(rows), n, id);
    }
    MapBelow(sub, whole);
  }

  lemma FirstsFresh<K, V>(s: seq<(K, V)>, n: nat)
    requires DistinctFirst(s) && n < |s|
    ensures s[n].0 !in MapOf(s[..n])
  {
    if s[n].0 in MapOf(s[..n]) {
      var i := MapOfFrom(s[..n], s[n].0);
      assert false;
    }
  }

  /** Every row of an acceptable snapshot may join the rows before it. */
  lemma AcceptedJoins(hash: Hash, s: Snapshot, n: nat)
    requires SessionsDistinct(s.sessions) && Portable(hash, Rebuild(s)) && n < |s.sessions|
    ensures Joins(hash, s.sessions[n], s.lastApplied, MapOf(SessionPairs(s.sessions[..n])))
    ensures s.sessions[n].nonce !in MapOf(NoncePairs(s.sessions[..n]))
  {
    RowOfPortable(hash, s, n);
    RoomForRow(s, n);
    FreshRow(s.sessions, n);
  }

  lemma FreshRow(rows: seq<SessionRow>, n: nat)
    requires SessionsDistinct(rows) && n < |rows|
    ensures rows[n].id !in MapOf(SessionPairs(rows[..n])) && rows[n].nonce !in MapOf(NoncePairs(rows[..n]))
      && KeysDistinct(rows[n])
  {
    assert NoncePairs(rows)[..n] == NoncePairs(rows[..n]) && SessionPairs(rows)[..n] == SessionPairs(rows[..n]);
    FirstsFresh(NoncePairs(rows), n);
    FirstsFresh(SessionPairs(rows), n);
  }

  lemma RowOfPortable(hash: Hash, s: Snapshot, n: nat)
    requires SessionsDistinct(s.sessions) && Portable(hash, Rebuild(s)) && n < |s.sessions|
    ensures var row := s.sessions[n];
      ValidNonce(row.nonce) && SessionOk(hash, row.id, ToSession(row), s.lastApplied) && PayloadsDecode(ToSession(row))
  {
    var row, app := s.sessions[n], Rebuild(s);
    MapOfAt(SessionPairs(s.sessions), n);
    MapOfAt(NoncePairs(s.sessions), n);
    assert app.sessions[row.id] == ToSession(row) && row.nonce in app.registrations;
    assert SessionOk(hash, row.id, app.sessions[row.id], s.lastApplied);
    DecodeOne(app.sessions, row.id);
  }

  lemma RoomForRow(s: Snapshot, n: nat)
    requires SessionsDistinct(s.sessions) && IndicesDistinct(Rebuild(s).sessions) && CountersOk(Rebuild(s))
      && n < |s.sessions|
    ensures var whole := MapOf(SessionPairs(s.sessions[..n]))[s.sessions[n].id := ToSession(s.sessions[n])];
      IndicesDistinct(whole) && |KeySlots(whole)| <= MAX_SESSION_KEYS
        && |ByteSlots(whole)| <= MAX_RETAINED_PAYLOAD_BYTES
  {
    PrefixSnoc(s.sessions, n);
    PrefixBelow(s.sessions, n + 1);
    var after := MapOf(SessionPairs(s.sessions[..n + 1]));
    BelowDistinct(after, Rebuild(s).sessions);
    BelowSizes(after, Rebuild(s).sessions);
  }

  lemma DecodeOne(sessions: map<LogIndex, ClientSession>, id: LogIndex)
    requires PayloadsOk(sessions) && id in sessions
    ensures PayloadsDecode(sessions[id])
  {
    forall k | k in sessions[id].keys ensures DecodePayload(k, sessions[id].keys[k].payload).Some? {
    }
  }

  /** What the rows imported so far amount to. */
  ghost predicate Progress(hash: Hash, rows: seq<SessionRow>, last: LogIndex,
                           registrations: map<Text, LogIndex>, sessions: map<LogIndex, ClientSession>) {
    && SessionsDistinct(rows) && registrations == MapOf(NoncePairs(rows)) && sessions == MapOf(SessionPairs(rows))
    && SessionsOk(hash, sessions, last) && PayloadsOk(sessions) && NoncesOk(registrations, sessions.Keys)
    && IndicesDistinct(sessions)
  }

  lemma ProgressSnoc(hash: Hash, rows: seq<SessionRow>, n: nat, last: LogIndex,
                     registrations: map<Text, LogIndex>, sessions: map<LogIndex, ClientSession>)
    requires n < |rows| && Progress(hash, rows[..n], last, registrations, sessions)
    requires Joins(hash, rows[n], last, sessions) && rows[n].nonce !in registrations
    ensures Progress(hash, rows[..n + 1], last, registrations[rows[n].nonce := rows[n].id],
                     sessions[rows[n].id := ToSession(rows[n])])
  {
    var row := rows[n];
    var after, nonces := sessions[row.id := ToSession(row)], registrations[row.nonce := row.id];
    PrefixSnoc(rows, n);
    DistinctRows(rows, n);
    assert after.Keys == sessions.Keys + {row.id};
    RegisterNonces(registrations, sessions.Keys, row.nonce, row.id, nonces, after.Keys);
    forall id | id in after ensures SessionOk(hash, id, after[id], last) {
      assert id != row.id ==> SessionOk(hash, id, sessions[id], last);
    }
    assert PayloadsOk(after) by {
      forall id, k | id in after && k in after[id].keys ensures DecodePayload(k, after[id].keys[k].payload).Some? {
      }
    }
  }

  lemma DistinctRows(rows: seq<SessionRow>, n: nat)
    requires n < |rows| && SessionsDistinct(rows[..n]) && KeysDistinct(rows[n])
    requires rows[n].id !in MapOf(SessionPairs(rows[..n])) && rows[n].nonce !in MapOf(NoncePairs(rows[..n]))
    ensures SessionsDistinct(rows[..n + 1])
  {
    DistinctSnoc(SessionPairs(rows[..n]), rows[n].id, ToSession(rows[n]));
    DistinctSnoc(NoncePairs(rows[..n]), rows[n].nonce, rows[n].id);
    assert SessionPairs(rows[..n + 1]) == SessionPairs(rows[..n]) + [(rows[n].id, ToSession(rows[n]))];
    assert NoncePairs(rows[..n + 1]) == NoncePairs(rows[..n]) + [(rows[n].nonce, rows[n].id)];
    assert forall i :: 0 <= i < n ==> rows[..n + 1][i] == rows[..n][i];
  }

  datatype Restored = Restored(registrations: map<Text, LogIndex>, sessions: map<LogIndex, ClientSession>, keys: nat,
                               bytes: nat)

  /** Rebuilds the sessions; refuses only rows that no acceptable snapshot contains. */
  method ImportSessions(hash: Hash, s: Snapshot) returns (r: Option<Restored>)
    ensures r.Some? ==> Progress(hash, s.sessions, s.lastApplied, r.value.registrations, r.value.sessions)
    ensures r.Some? ==> r.value.keys == |KeySlots(r.value.sessions)| <= MAX_SESSION_KEYS
    ensures r.Some? ==> r.value.bytes == |ByteSlots(r.value.sessions)| <= MAX_RETAINED_PAYLOAD_BYTES
    ensures SessionsDistinct(s.sessions) && Portable(hash, Rebuild(s)) ==> r.Some?
  {
    var registrations: map<Text, LogIndex>, sessions: map<LogIndex, ClientSession> := map[], map[];
    var claimed: set<LogIndex>, keys, bytes := {}, 0, 0;
    NothingYet(hash, s.lastApplied);
    var n := 0;
    assert s.sessions[..0] == [];
    while n < |s.sessions|
      invariant n <= |s.sessions| && Progress(hash, s.sessions[..n], s.lastApplied, registrations, sessions)
      invariant Tracks(claimed, sessions)
      invariant keys == |KeySlots(sessions)| <= MAX_SESSION_KEYS
        && bytes == |ByteSlots(sessions)| <= MAX_RETAINED_PAYLOAD_BYTES
    {
      var row := s.sessions[n];
      if SessionsDistinct(s.sessions) && Portable(hash, Rebuild(s)) { AcceptedJoins(hash, s, n); }
      var imported := ImportSession(hash, row, s.lastApplied, claimed, keys, bytes, sessions);
      if imported.None? || row.nonce in registrations { return None; }
      ProgressSnoc(hash, s.sessions, n, s.lastApplied, registrations, sessions);
      registrations, sessions := registrations[row.nonce := row.id], sessions[row.id := imported.value.session];
      claimed, keys, bytes := imported.value.claimed, imported.value.keys, imported.value.bytes;
      n := n + 1;
    }
    assert s.sessions[..n] == s.sessions;
    r := Some(Restored(registrations, sessions, keys, bytes));
  }

  lemma NothingYet(hash: Hash, last: LogIndex)
    ensures Progress(hash, [], last, map[], map[]) && Tracks({}, map[]) && KeySlots(map[]) == {}
      && ByteSlots(map[]) == {}
  {
    assert NoncePairs([]) == [] && SessionPairs([]) == [];
  }

  // ---------------------------------------------------------------- import

  /** Import is exact: it accepts a snapshot precisely when its lists are duplicate-free and denote a
      portable state at the expected index, and it returns that state. */
  method Import(hash: Hash, s: Snapshot, expected: LogIndex) returns (r: Option<App>)
    ensures r.Some? <==> Accepts(hash, s, expected)
    ensures r.Some? ==> r.value == Rebuild(s)
  {
    ghost var app := Rebuild(s);
    if s.version != 1 || s.lastApplied != expected { return None; }
    if |s.sessions| > MAX_SESSIONS || s.retainedKeys > MAX_SESSION_KEYS
       || s.retainedPayloadBytes > MAX_RETAINED_PAYLOAD_BYTES {
      if SessionsDistinct(s.sessions) { MapOfSize(SessionPairs(s.sessions)); }
      return None;
    }
    if s.lastApplied == 0 && (s.values != [] || s.sessions != []) {
      ZeroIndex(hash, s);
      return None;
    }
    var values := ImportValues(s.values);
    if values.None? { return None; }
    var restored := ImportSessions(hash, s);
    if restored.None? { return None; }
    if restored.value.keys != s.retainedKeys || restored.value.bytes != s.retainedPayloadBytes { return None; }
    MapOfSize(SessionPairs(s.sessions));
    assert s.values == [] ==> MapOf(s.values) == map[];
    r := Some(App(values.value, restored.value.registrations, restored.value.sessions, s.lastApplied,
                  restored.value.keys, restored.value.bytes));
  }

  lemma ZeroIndex(hash: Hash, s: Snapshot)
    requires s.lastApplied == 0 && (s.values != [] || s.sessions != [])
    ensures !Accepts(hash, s, 0)
  {
    var app, pairs := Rebuild(s), SessionPairs(s.sessions);
    assert s.values != [] ==> s.values[|s.values| - 1].0 in app.values;
    if s.sessions != [] {
      var id := pairs[|pairs| - 1].0;
      assert id in app.sessions;
      assert SessionsOk(hash, app.sessions, 0) ==> SessionOk(hash, id, app.sessions[id], 0);
    }
  }

  // ---------------------------------------------------------------- round trip

  /** A machine on an acceptable snapshot's state: sound, so everything proved of transactions and groups
      applies to it as it does to one grown from the empty state. */
  method Rebuilt(hash: Hash, s: Snapshot, expected: LogIndex) returns (r: Option<Machine>)
    ensures r.Some? <==> Accepts(hash, s, expected)
    ensures r.Some? ==>
      fresh(r.value) && r.value.hash == hash && r.value.View() == Rebuild(s) && Sound(hash, r.value.View())
  {
    var app := Import(hash, s, expected);
    if app.None? { return None; }
    SoundExact(hash, app.value);
    var machine := new Machine.Holding(hash, app.value);
    return Some(machine);
  }

  /** Export then import: for every reachable state the trip succeeds and returns that state exactly
      when the stored values are within bounds, which plain writes do not guarantee. */
  method ExportImport(hash: Hash, log: seq<Entry>, expected: LogIndex) returns (r: Option<App>)
    requires Numbered(log) && forall i :: 0 <= i < |log| ==> WellTyped(log[i].command)
    ensures r.Some? <==> expected == |log| && ValuesOk(Replay(hash, log).values)
    ensures r.Some? ==> r.value == Replay(hash, log)
  {
    var app := Replay(hash, log);
    ReplayOk(hash, log);
    var s := Export(app);
    r := Import(hash, s, expected);
  }

  /** Bounded plain writes suffice for the round trip ... */
  lemma {:induction false} BoundedLogsArePortable(hash: Hash, log: seq<Entry>)
    requires Numbered(log) && forall i :: 0 <= i < |log| ==> WellTyped(log[i].command) && PlainBounded(log[i].command)
    ensures Portable(hash, Replay(hash, log))
  {
    ReplayOk(hash, log);
  }

  /** ... and without them it can fail: a plain write of the empty key is applied, but no snapshot of the state
      it leaves is acceptable, at any index. */
  lemma EmptyKeyIsNotPortable(hash: Hash)
    ensures var log := [Entry(1, 1, Put([], []))];
      && Numbered(log) && WellTyped(log[0].command) && Inv(hash, Replay(hash, log))
      && !ValuesOk(Replay(hash, log).values)
      && forall s, expected :: Accepts(hash, s, expected) ==> Rebuild(s) != Replay(hash, log)
  {
    var log := [Entry(1, 1, Put([], []))];
    ReplayInv(hash, log);
    assert log[..0] == [];
    assert [] in Replay(hash, log).values;
  }
}
