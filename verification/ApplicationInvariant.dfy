/** What every reachable application state satisfies: sessions and nonces correspond one to one,
    every retained operation has its own log index in causal order, and the counters are true sums. */
module ApplicationInvariant {
  import opened Basics
  import opened Types
  import opened Payload
  import opened Application

  // ---------------------------------------------------------------- counting what is retained

  /** Every retained (session, key) pair; the key counter is their number. */
  function KeySlots(sessions: map<LogIndex, ClientSession>): set<(LogIndex, Text)> {
    set id, k | id in sessions && k in sessions[id].keys :: (id, k)
  }

  /** Every retained payload byte; the byte counter is their number. */
  function ByteSlots(sessions: map<LogIndex, ClientSession>): set<(LogIndex, Text, int)> {
    set id, k, i | id in sessions && k in sessions[id].keys && 0 <= i < |sessions[id].keys[k].payload| :: (id, k, i)
  }

  /** The byte slots of one payload of length `n`. */
  function Slots(id: LogIndex, key: Text, n: nat): set<(LogIndex, Text, int)> {
    set i | 0 <= i < n :: (id, key, i)
  }

  lemma {:induction false} SlotsSize(id: LogIndex, key: Text, n: nat)
    ensures |Slots(id, key, n)| == n
  {
    if n > 0 {
      SlotsSize(id, key, n - 1);
      assert Slots(id, key, n) == Slots(id, key, n - 1) + {(id, key, n - 1)};
    }
  }

  lemma DisjointSize<T>(a: set<T>, b: set<T>)
    requires a !! b
    ensures |a + b| == |a| + |b|
  {
    SubsetSize(a, a + b);
    assert a + b - a == b;
  }

  // ---------------------------------------------------------------- sessions

  ghost predicate RecordOk(hash: Hash, id: LogIndex, closed: Option<SessionResult>, last: LogIndex, key: Text,
                           r: KeyRecord) {
    && ValidKey(key) && r.sequence > 0
    && r.digest == hash(r.payload)
    && r.result.index.Some? && r.result == Success(id, Some(r.sequence), r.result.index.value)
    && id < r.result.index.value <= last && r.sequence <= r.result.index.value - id
    && (closed.Some? && closed.value.index.Some? ==> r.result.index.value < closed.value.index.value)
  }

  ghost predicate SessionOk(hash: Hash, id: LogIndex, s: ClientSession, last: LogIndex) {
    && 0 < id <= last && s.registered == Success(id, None, id)
    && (s.closed.Some? ==> s.closed.value.index.Some? && id < s.closed.value.index.value <= last
                           && s.closed.value == Success(id, None, s.closed.value.index.value))
    && |s.keys| <= MAX_KEYS_PER_SESSION
    && forall k {:trigger RecordOk(hash, id, s.closed, last, k, s.keys[k])} ::
         k in s.keys ==> RecordOk(hash, id, s.closed, last, k, s.keys[k])
  }

  ghost predicate SessionsOk(hash: Hash, sessions: map<LogIndex, ClientSession>, last: LogIndex) {
    forall id {:trigger SessionOk(hash, id, sessions[id], last)} :: id in sessions ==>
      SessionOk(hash, id, sessions[id], last)
  }

  /** Every retained payload is the canonical encoding of a bounded mutation of its own key. */
  ghost predicate PayloadsOk(sessions: map<LogIndex, ClientSession>) {
    forall id, k {:trigger sessions[id].keys[k]} :: id in sessions && k in sessions[id].keys ==>
      DecodePayload(k, sessions[id].keys[k].payload).Some?
  }

  /** Nonces and session ids correspond one to one. */
  ghost predicate Paired(registrations: map<Text, LogIndex>, ids: set<LogIndex>) {
    && (forall n {:trigger registrations[n]} :: n in registrations ==> registrations[n] in ids)
    && (forall a, b {:trigger registrations[a], registrations[b]} ::
          a in registrations && b in registrations && registrations[a] == registrations[b] ==> a == b)
    && (forall id {:trigger Named(registrations, id)} :: id in ids ==> Named(registrations, id))
  }

  ghost predicate NoncesOk(registrations: map<Text, LogIndex>, ids: set<LogIndex>) {
    Paired(registrations, ids) && forall n {:trigger ValidNonce(n)} :: n in registrations ==> ValidNonce(n)
  }

  ghost predicate Named(registrations: map<Text, LogIndex>, id: LogIndex) {
    exists n :: n in registrations && registrations[n] == id
  }

  // ---------------------------------------------------------------- operation indices

  /** A retained operation: a registration, a close, or the latest mutation of a key. */
  datatype Operation = Registration(id: LogIndex) | Closing(id: LogIndex) | Mutation(id: LogIndex, key: Text)

  predicate Retains(sessions: map<LogIndex, ClientSession>, op: Operation) {
    op.id in sessions &&
    match op
    case Registration(_) => true
    case Closing(id) => sessions[id].closed.Some? && sessions[id].closed.value.index.Some?
    case Mutation(id, key) => key in sessions[id].keys && sessions[id].keys[key].result.index.Some?
  }

  function IndexOf(sessions: map<LogIndex, ClientSession>, op: Operation): LogIndex
    requires Retains(sessions, op)
  {
    match op
    case Registration(id) => id
    case Closing(id) => sessions[id].closed.value.index.value
    case Mutation(id, key) => sessions[id].keys[key].result.index.value
  }

  /** Each log index justifies at most one retained operation. */
  ghost predicate IndicesDistinct(sessions: map<LogIndex, ClientSession>) {
    forall a, b {:trigger Retains(sessions, a), Retains(sessions, b)} ::
      Retains(sessions, a) && Retains(sessions, b) && IndexOf(sessions, a) == IndexOf(sessions, b) ==> a == b
  }

  ghost predicate CountersOk(app: App) {
    && app.retainedKeys == |KeySlots(app.sessions)| <= MAX_SESSION_KEYS
    && app.retainedPayloadBytes == |ByteSlots(app.sessions)| <= MAX_RETAINED_PAYLOAD_BYTES
  }

  /** Every reachable state satisfies this. */
  ghost predicate Inv(hash: Hash, app: App) {
    && SessionsOk(hash, app.sessions, app.lastApplied)
    && NoncesOk(app.registrations, app.sessions.Keys) && |app.sessions| <= MAX_SESSIONS
    && IndicesDistinct(app.sessions) && CountersOk(app)
    && (app.lastApplied == 0 ==> app.values == map[])
  }

  /** The bounds a snapshot demands of values; plain commands do not enforce them. */
  predicate ValuesOk(values: map<Text, Text>) {
    forall k :: k in values ==> ValidKey(k) && |values[k]| <= MAX_VALUE_BYTES
  }

  predicate PlainBounded(command: Command) {
    command.Put? ==> ValidKey(command.key) && |command.value| <= MAX_VALUE_BYTES
  }

  // ---------------------------------------------------------------- preservation

  lemma IndexBound(hash: Hash, sessions: map<LogIndex, ClientSession>, last: LogIndex, op: Operation)
    requires SessionsOk(hash, sessions, last) && Retains(sessions, op)
    ensures IndexOf(sessions, op) <= last
  {
    assert SessionOk(hash, op.id, sessions[op.id], last);
    if op.Mutation? {
      assert RecordOk(hash, op.id, sessions[op.id].closed, last, op.key, sessions[op.id].keys[op.key]);
    }
  }

  lemma SessionsLater(hash: Hash, sessions: map<LogIndex, ClientSession>, last: LogIndex, later: LogIndex)
    requires SessionsOk(hash, sessions, last) && last <= later
    ensures SessionsOk(hash, sessions, later)
  {
    forall id | id in sessions ensures SessionOk(hash, id, sessions[id], later) {
      var s := sessions[id];
      assert SessionOk(hash, id, s, last);
      forall k | k in s.keys ensures RecordOk(hash, id, s.closed, later, k, s.keys[k]) {
        assert RecordOk(hash, id, s.closed, last, k, s.keys[k]);
      }
    }
  }

  /** Everything old keeps its index, below the new one; so one new operation cannot collide. */
  lemma OneNewIndex(hash: Hash, before: map<LogIndex, ClientSession>, after: map<LogIndex, ClientSession>,
                    last: LogIndex, added: Operation)
    requires SessionsOk(hash, before, last) && IndicesDistinct(before)
    requires Retains(after, added) && IndexOf(after, added) == last + 1
    requires forall op :: Retains(after, op) && op != added ==>
      Retains(before, op) && IndexOf(before, op) == IndexOf(after, op)
    ensures IndicesDistinct(after)
  {
    forall a, b | Retains(after, a) && Retains(after, b) && IndexOf(after, a) == IndexOf(after, b) ensures a == b {
      if a != added { IndexBound(hash, before, last, a); }
      if b != added { IndexBound(hash, before, last, b); }
    }
  }

  /** What the session part of the invariant says, once the watermark is `last`. */
  ghost predicate Kept(hash: Hash, app: App, last: LogIndex) {
    && SessionsOk(hash, app.sessions, last) && NoncesOk(app.registrations, app.sessions.Keys)
    && |app.sessions| <= MAX_SESSIONS && IndicesDistinct(app.sessions) && CountersOk(app)
  }

  lemma UpdateSession(hash: Hash, sessions: map<LogIndex, ClientSession>, last: LogIndex, id: LogIndex,
                      s: ClientSession)
    requires SessionsOk(hash, sessions, last) && SessionOk(hash, id, s, last + 1)
    ensures SessionsOk(hash, sessions[id := s], last + 1)
  {
    SessionsLater(hash, sessions, last, last + 1);
    var after, next := sessions[id := s], last + 1;
    forall i | i in after ensures SessionOk(hash, i, after[i], next) {
      assert i != id ==> SessionOk(hash, i, sessions[i], next);
    }
  }

  predicate Registers(app: App, nonce: Text) {
    ValidNonce(nonce) && nonce !in app.registrations && |app.sessions| != MAX_SESSIONS
  }

  lemma RegisterShape(app: App, nonce: Text, index: LogIndex)
    ensures Register(app, nonce, index).app ==
      if !Registers(app, nonce) then app
      else app.(registrations := app.registrations[nonce := index],
                sessions := app.sessions[index := ClientSession(Success(index, None, index), None, map[])])
  {
  }

  lemma RegisterIndices(hash: Hash, sessions: map<LogIndex, ClientSession>, last: LogIndex, s: ClientSession)
    requires SessionsOk(hash, sessions, last) && IndicesDistinct(sessions) && s.closed.None? && s.keys == map[]
    ensures last + 1 !in sessions && IndicesDistinct(sessions[last + 1 := s])
  {
    assert last + 1 in sessions ==> SessionOk(hash, last + 1, sessions[last + 1], last);
    OneNewIndex(hash, sessions, sessions[last + 1 := s], last, Registration(last + 1));
  }

  /** A new session joins the others. */
  lemma RegisterSessions(hash: Hash, sessions: map<LogIndex, ClientSession>, last: LogIndex)
    requires SessionsOk(hash, sessions, last) && IndicesDistinct(sessions)
    ensures var s := ClientSession(Success(last + 1, None, last + 1), None, map[]);
      var after := sessions[last + 1 := s];
      && last + 1 !in sessions && after.Keys == sessions.Keys + {last + 1} && |after| == |sessions| + 1
      && SessionsOk(hash, after, last + 1) && IndicesDistinct(after)
      && KeySlots(after) == KeySlots(sessions) && ByteSlots(after) == ByteSlots(sessions)
  {
    var s := ClientSession(Success(last + 1, None, last + 1), None, map[]);
    UpdateSession(hash, sessions, last, last + 1, s);
    RegisterIndices(hash, sessions, last, s);
    RegisterCounts(sessions, sessions[last + 1 := s], last + 1);
  }

  lemma RegisterKeeps(hash: Hash, app: App, nonce: Text)
    requires Inv(hash, app)
    ensures Kept(hash, Register(app, nonce, app.lastApplied + 1).app, app.lastApplied + 1)
  {
    RegisterShape(app, nonce, app.lastApplied + 1);
    if Registers(app, nonce) {
      Registered(hash, app, nonce, Register(app, nonce, app.lastApplied + 1).app);
    } else {
      SessionsLater(hash, app.sessions, app.lastApplied, app.lastApplied + 1);
    }
  }

  lemma Registered(hash: Hash, app: App, nonce: Text, next: App)
    requires Kept(hash, app, app.lastApplied) && ValidNonce(nonce) && nonce !in app.registrations
      && |app.sessions| != MAX_SESSIONS
    requires var index := app.lastApplied + 1;
      next == app.(registrations := app.registrations[nonce := index],
                   sessions := app.sessions[index := ClientSession(Success(index, None, index), None, map[])])
    ensures Kept(hash, next, app.lastApplied + 1)
  {
    RegisterAdds(hash, app.registrations, app.sessions, app.lastApplied, nonce);
  }

  lemma RegisterAdds(hash: Hash, registrations: map<Text, LogIndex>, sessions: map<LogIndex, ClientSession>,
                     last: LogIndex, nonce: Text)
    requires SessionsOk(hash, sessions, last) && IndicesDistinct(sessions) && NoncesOk(registrations, sessions.Keys)
    requires ValidNonce(nonce) && nonce !in registrations
    ensures var s := ClientSession(Success(last + 1, None, last + 1), None, map[]);
      var after := sessions[last + 1 := s];
      && SessionsOk(hash, after, last + 1) && IndicesDistinct(after) && |after| == |sessions| + 1
      && NoncesOk(registrations[nonce := last + 1], after.Keys)
      && KeySlots(after) == KeySlots(sessions) && ByteSlots(after) == ByteSlots(sessions)
  {
    RegisterSessions(hash, sessions, last);
    var after := sessions[last + 1 := ClientSession(Success(last + 1, None, last + 1), None, map[])];
    RegisterNonces(registrations, sessions.Keys, nonce, last + 1, registrations[nonce := last + 1], after.Keys);
  }

  lemma RegisterNonces(before: map<Text, LogIndex>, ids: set<LogIndex>, nonce: Text, index: LogIndex,
                       after: map<Text, LogIndex>, allIds: set<LogIndex>)
    requires NoncesOk(before, ids) && ValidNonce(nonce) && nonce !in before && index !in ids
    requires after == before[nonce := index] && allIds == ids + {index}
    ensures NoncesOk(after, allIds)
  {
    forall id | id in allIds ensures Named(after, id) {
      if id == index {
        assert after[nonce] == id;
      } else {
        assert Named(before, id);
        var n :| n in before && before[n] == id;
        assert after[n] == id;
      }
    }
  }

  lemma RegisterCounts(before: map<LogIndex, ClientSession>, after: map<LogIndex, ClientSession>, index: LogIndex)
    requires index !in before && index in after && after[index].keys == map[] && after == before[index := after[index]]
    ensures KeySlots(after) == KeySlots(before) && ByteSlots(after) == ByteSlots(before)
  {
  }

  lemma CloseShape(app: App, id: LogIndex, index: LogIndex)
    ensures var next := Close(app, id, index).app;
      || next == app
      || (&& id in app.sessions && app.sessions[id].closed.None?
          && next == app.(sessions := app.sessions[id := app.sessions[id].(closed := Some(Success(id, None, index)))]))
  {
  }

  lemma CloseSession(hash: Hash, last: LogIndex, id: LogIndex, s: ClientSession)
    requires SessionOk(hash, id, s, last) && s.closed.None?
    ensures SessionOk(hash, id, s.(closed := Some(Success(id, None, last + 1))), last + 1)
  {
    var t := s.(closed := Some(Success(id, None, last + 1)));
    forall k | k in t.keys ensures RecordOk(hash, id, t.closed, last + 1, k, t.keys[k]) {
      assert RecordOk(hash, id, s.closed, last, k, s.keys[k]);
    }
  }

  lemma CloseCounts(sessions: map<LogIndex, ClientSession>, id: LogIndex, s: ClientSession)
    requires id in sessions && s.keys == sessions[id].keys
    ensures KeySlots(sessions[id := s]) == KeySlots(sessions) && ByteSlots(sessions[id := s]) == ByteSlots(sessions)
  {
  }

  lemma CloseIndices(hash: Hash, sessions: map<LogIndex, ClientSession>, last: LogIndex, id: LogIndex, s: ClientSession)
    requires SessionsOk(hash, sessions, last) && IndicesDistinct(sessions) && id in sessions
    requires s.keys == sessions[id].keys && s.closed == Some(Success(id, None, last + 1))
    ensures IndicesDistinct(sessions[id := s])
  {
    OneNewIndex(hash, sessions, sessions[id := s], last, Closing(id));
  }

  lemma CloseKeeps(hash: Hash, app: App, id: LogIndex)
    requires Inv(hash, app)
    ensures Kept(hash, Close(app, id, app.lastApplied + 1).app, app.lastApplied + 1)
  {
    var index := app.lastApplied + 1;
    SessionsLater(hash, app.sessions, app.lastApplied, index);
    CloseShape(app, id, index);
    if Close(app, id, index).app != app {
      var s := app.sessions[id].(closed := Some(Success(id, None, index)));
      assert SessionOk(hash, id, app.sessions[id], app.lastApplied);
      CloseSession(hash, app.lastApplied, id, app.sessions[id]);
      UpdateSession(hash, app.sessions, app.lastApplied, id, s);
      CloseIndices(hash, app.sessions, app.lastApplied, id, s);
      CloseCounts(app.sessions, id, s);
      assert app.sessions[id := s].Keys == app.sessions.Keys;
    }
  }

  /** The previous payload is part of the retained bytes, so replacing it cannot underflow. */
  lemma NoUnderflow(sessions: map<LogIndex, ClientSession>, id: LogIndex, key: Text)
    requires id in sessions && key in sessions[id].keys
    ensures |sessions[id].keys[key].payload| <= |ByteSlots(sessions)|
  {
    var old_ := Slots(id, key, |sessions[id].keys[key].payload|);
    SlotsSize(id, key, |sessions[id].keys[key].payload|);
    assert old_ <= ByteSlots(sessions);
    SubsetSize(old_, ByteSlots(sessions));
  }

  lemma RecordKeys(sessions: map<LogIndex, ClientSession>, id: LogIndex, key: Text, r: KeyRecord)
    requires id in sessions
    ensures var s := sessions[id];
      |KeySlots(sessions[id := s.(keys := s.keys[key := r])])|
        == |KeySlots(sessions)| + (if key in s.keys then 0 else 1)
  {
    var s := sessions[id];
    var after := sessions[id := s.(keys := s.keys[key := r])];
    forall slot ensures slot in KeySlots(after) <==> slot in KeySlots(sessions) + {(id, key)} {
      RecordSlot(sessions, id, key, r, slot);
    }
    assert KeySlots(after) == KeySlots(sessions) + {(id, key)};
  }

  lemma RecordSlot(sessions: map<LogIndex, ClientSession>, id: LogIndex, key: Text, r: KeyRecord,
                   slot: (LogIndex, Text))
    requires id in sessions
    ensures slot in KeySlots(sessions[id := sessions[id].(keys := sessions[id].keys[key := r])])
       <==> slot in KeySlots(sessions) || slot == (id, key)
  {
  }

  lemma RecordBytesCount(sessions: map<LogIndex, ClientSession>, id: LogIndex, key: Text, r: KeyRecord)
    requires id in sessions
    ensures var s := sessions[id];
      |ByteSlots(sessions[id := s.(keys := s.keys[key := r])])|
      == |ByteSlots(sessions)| - (if key in s.keys then |s.keys[key].payload| else 0) + |r.payload|
  {
    var s := sessions[id];
    var n := if key in s.keys then |s.keys[key].payload| else 0;
    RecordBytes(sessions, id, key, r);
    SlotsSize(id, key, n);
    SlotsSize(id, key, |r.payload|);
    SubsetSize(Slots(id, key, n), ByteSlots(sessions));
    DisjointSize(ByteSlots(sessions) - Slots(id, key, n), Slots(id, key, |r.payload|));
  }

  lemma RecordBytes(sessions: map<LogIndex, ClientSession>, id: LogIndex, key: Text, r: KeyRecord)
    requires id in sessions
    ensures var s := sessions[id]; var after := sessions[id := s.(keys := s.keys[key := r])];
      var old_ := Slots(id, key, if key in s.keys then |s.keys[key].payload| else 0);
      && old_ <= ByteSlots(sessions)
      && (ByteSlots(sessions) - old_) !! Slots(id, key, |r.payload|)
      && ByteSlots(after) == (ByteSlots(sessions) - old_) + Slots(id, key, |r.payload|)
  {
  }

  /** An admitted sequence number cannot outrun the log. */
  lemma RecordSession(hash: Hash, last: LogIndex, id: LogIndex, s: ClientSession, key: Text, r: KeyRecord)
    requires SessionOk(hash, id, s, last) && s.closed.None? && ValidKey(key) && r.digest == hash(r.payload)
    requires r.sequence == (if key in s.keys then s.keys[key].sequence + 1 else 1)
    requires key in s.keys || |s.keys| < MAX_KEYS_PER_SESSION
    requires r.result == Success(id, Some(r.sequence), last + 1)
    ensures SessionOk(hash, id, s.(keys := s.keys[key := r]), last + 1)
  {
    var t := s.(keys := s.keys[key := r]);
    if key in s.keys {
      assert RecordOk(hash, id, s.closed, last, key, s.keys[key]);
      assert t.keys.Keys == s.keys.Keys;
    } else {
      assert t.keys.Keys == s.keys.Keys + {key};
    }
    forall k | k in t.keys ensures RecordOk(hash, id, t.closed, last + 1, k, t.keys[k]) {
      if k != key { assert RecordOk(hash, id, s.closed, last, k, s.keys[k]); }
    }
  }

  lemma RecordIndices(hash: Hash, sessions: map<LogIndex, ClientSession>, last: LogIndex, id: LogIndex, key: Text,
                      r: KeyRecord)
    requires SessionsOk(hash, sessions, last) && IndicesDistinct(sessions) && id in sessions
    requires r.result.index == Some(last + 1)
    ensures IndicesDistinct(sessions[id := sessions[id].(keys := sessions[id].keys[key := r])])
  {
    var after := sessions[id := sessions[id].(keys := sessions[id].keys[key := r])];
    OneNewIndex(hash, sessions, after, last, Mutation(id, key));
  }

  /** What an admitted mutation was checked for. */
  lemma Admitted(hash: Hash, app: App, id: LogIndex, key: Text, sequence: nat, value: Option<Text>, payload: Bytes)
    requires Screen(hash, app, id, key, sequence, value, payload).None?
    ensures id in app.sessions && app.sessions[id].closed.None? && ValidKey(key)
    ensures value.Some? ==> |value.value| <= MAX_VALUE_BYTES
    ensures var s := app.sessions[id];
      && sequence == (if key in s.keys then s.keys[key].sequence + 1 else 1)
      && (key in s.keys || (|s.keys| != MAX_KEYS_PER_SESSION && app.retainedKeys != MAX_SESSION_KEYS))
      && RetainedAfter(app, s, key, payload) <= MAX_RETAINED_PAYLOAD_BYTES
  {
  }

  lemma MutateShape(hash: Hash, app: App, id: LogIndex, key: Text, sequence: nat, value: Option<Text>, payload: Bytes,
                    index: LogIndex)
    ensures var next := MutateWith(hash, app, id, key, sequence, value, payload, index).app;
      || next == app
      || (&& Screen(hash, app, id, key, sequence, value, payload).None? && id in app.sessions
          && RetainedAfter(app, app.sessions[id], key, payload) >= 0
          && next == Record(hash, app, id, key, sequence, value, payload, index))
  {
  }

  lemma RecordKeeps(hash: Hash, sessions: map<LogIndex, ClientSession>, last: LogIndex, id: LogIndex, key: Text,
                    r: KeyRecord)
    requires SessionsOk(hash, sessions, last) && IndicesDistinct(sessions)
    requires id in sessions && sessions[id].closed.None? && ValidKey(key)
    requires r.sequence == (if key in sessions[id].keys then sessions[id].keys[key].sequence + 1 else 1)
    requires key in sessions[id].keys || |sessions[id].keys| != MAX_KEYS_PER_SESSION
    requires r.digest == hash(r.payload) && r.result == Success(id, Some(r.sequence), last + 1)
    ensures var s := sessions[id]; var after := sessions[id := s.(keys := s.keys[key := r])];
      SessionsOk(hash, after, last + 1) && after.Keys == sessions.Keys && IndicesDistinct(after)
  {
    var s := sessions[id];
    assert SessionOk(hash, id, s, last);
    RecordSession(hash, last, id, s, key, r);
    UpdateSession(hash, sessions, last, id, s.(keys := s.keys[key := r]));
    RecordIndices(hash, sessions, last, id, key, r);
  }

  lemma MutateKeeps(hash: Hash, app: App, id: LogIndex, key: Text, sequence: nat, value: Option<Text>, payload: Bytes)
    requires Inv(hash, app)
    ensures Kept(hash, MutateWith(hash, app, id, key, sequence, value, payload, app.lastApplied + 1).app,
                 app.lastApplied + 1)
  {
    var index := app.lastApplied + 1;
    SessionsLater(hash, app.sessions, app.lastApplied, index);
    MutateShape(hash, app, id, key, sequence, value, payload, index);
    if MutateWith(hash, app, id, key, sequence, value, payload, index).app != app {
      Admitted(hash, app, id, key, sequence, value, payload);
      var r := KeyRecord(sequence, hash(payload), payload, Success(id, Some(sequence), index));
      RecordKeeps(hash, app.sessions, app.lastApplied, id, key, r);
      RecordKeys(app.sessions, id, key, r);
      RecordBytesCount(app.sessions, id, key, r);
    }
  }

  /** Every entry keeps the invariant. */
  lemma ApplyKeeps(hash: Hash, app: App, entry: Entry)
    requires Inv(hash, app) && Follows(app, entry)
    ensures Inv(hash, Apply(hash, app, entry).value.app)
  {
    SessionsLater(hash, app.sessions, app.lastApplied, app.lastApplied + 1);
    match entry.command
    case RegisterSession(nonce) => RegisterKeeps(hash, app, nonce);
    case CloseSession(id) => CloseKeeps(hash, app, id);
    case SessionPut(id, key, sequence, value) =>
      MutateKeeps(hash, app, id, key, sequence, Some(value), CanonicalPayload(key, Some(value)));
    case SessionDelete(id, key, sequence) =>
      MutateKeeps(hash, app, id, key, sequence, None, CanonicalPayload(key, None));
    case _ =>
  }

  lemma MutatePayloads(hash: Hash, app: App, id: LogIndex, key: Text, sequence: nat, value: Option<Text>,
                       payload: Bytes, index: LogIndex)
    requires PayloadsOk(app.sessions)
    requires Screen(hash, app, id, key, sequence, value, payload).None? ==> DecodePayload(key, payload).Some?
    ensures PayloadsOk(MutateWith(hash, app, id, key, sequence, value, payload, index).app.sessions)
  {
  }

  lemma AdmittedPayload(hash: Hash, app: App, id: LogIndex, key: Text, sequence: nat, value: Option<Text>,
                        payload: Bytes)
    requires payload == CanonicalPayload(key, value) && (value.Some? ==> ValidUtf8(value.value))
    ensures Screen(hash, app, id, key, sequence, value, payload).None? ==> DecodePayload(key, payload).Some?
  {
    if Screen(hash, app, id, key, sequence, value, payload).None? {
      Admitted(hash, app, id, key, sequence, value, payload);
      PayloadExact(key, payload, value);
    }
  }

  lemma ApplyPayloads(hash: Hash, app: App, entry: Entry)
    requires PayloadsOk(app.sessions) && Follows(app, entry) && WellTyped(entry.command)
    ensures PayloadsOk(Apply(hash, app, entry).value.app.sessions)
  {
    match entry.command
    case SessionPut(id, key, sequence, value) =>
      AdmittedPayload(hash, app, id, key, sequence, Some(value), CanonicalPayload(key, Some(value)));
      MutatePayloads(hash, app, id, key, sequence, Some(value), CanonicalPayload(key, Some(value)), entry.index);
    case SessionDelete(id, key, sequence) =>
      AdmittedPayload(hash, app, id, key, sequence, None, CanonicalPayload(key, None));
      MutatePayloads(hash, app, id, key, sequence, None, CanonicalPayload(key, None), entry.index);
    case _ =>
  }

  /** Bounded plain writes keep all values within the snapshot bounds; session writes always do. */
  lemma MutateBounds(hash: Hash, app: App, id: LogIndex, key: Text, sequence: nat, value: Option<Text>, payload: Bytes,
                     index: LogIndex)
    requires ValuesOk(app.values)
    ensures ValuesOk(MutateWith(hash, app, id, key, sequence, value, payload, index).app.values)
  {
    if Screen(hash, app, id, key, sequence, value, payload).None? {
      Admitted(hash, app, id, key, sequence, value, payload);
    }
  }

  lemma ApplyBounds(hash: Hash, app: App, entry: Entry)
    requires ValuesOk(app.values) && Follows(app, entry) && PlainBounded(entry.command)
    ensures ValuesOk(Apply(hash, app, entry).value.app.values)
  {
    match entry.command
    case SessionPut(id, key, sequence, value) =>
      MutateBounds(hash, app, id, key, sequence, Some(value), CanonicalPayload(key, Some(value)), entry.index);
    case SessionDelete(id, key, sequence) =>
      MutateBounds(hash, app, id, key, sequence, None, CanonicalPayload(key, None), entry.index);
    case _ =>
  }

  /** Every log leads to a state satisfying the invariant. */
  lemma {:induction false} ReplayInv(hash: Hash, log: seq<Entry>)
    requires Numbered(log)
    ensures Inv(hash, Replay(hash, log))
    decreases |log|
  {
    if log == [] {
      assert KeySlots(map[]) == {} && ByteSlots(map[]) == {};
    } else {
      var init := log[..|log| - 1];
      ReplayInv(hash, init);
      ApplyKeeps(hash, Replay(hash, init), log[|log| - 1]);
    }
  }

  /** Retained payloads stay canonical, and values stay bounded when plain writes are. */
  lemma {:induction false} ReplayOk(hash: Hash, log: seq<Entry>)
    requires Numbered(log) && forall i :: 0 <= i < |log| ==> WellTyped(log[i].command)
    ensures Inv(hash, Replay(hash, log)) && PayloadsOk(Replay(hash, log).sessions)
    ensures (forall i :: 0 <= i < |log| ==> PlainBounded(log[i].command)) ==> ValuesOk(Replay(hash, log).values)
    decreases |log|
  {
    ReplayInv(hash, log);
    if log != [] {
      var init, last := log[..|log| - 1], log[|log| - 1];
      ReplayOk(hash, init);
      ApplyPayloads(hash, Replay(hash, init), last);
      if forall i :: 0 <= i < |log| ==> PlainBounded(log[i].command) {
        ApplyBounds(hash, Replay(hash, init), last);
      }
    }
  }

  /** The invariant, said through a quantifier so that proofs open it only where they mention `Inv`. */
  ghost predicate Sound(hash: Hash, app: App) {
    forall a {:trigger Inv(hash, a)} :: a == app ==> Inv(hash, a)
  }

  lemma SoundExact(hash: Hash, app: App)
    ensures Sound(hash, app) <==> Inv(hash, app)
  {
  }

  lemma SoundNext(hash: Hash, app: App, entry: Entry)
    requires Sound(hash, app) && Follows(app, entry)
    ensures Sound(hash, Apply(hash, app, entry).value.app)
  {
    SoundExact(hash, app);
    ApplyKeeps(hash, app, entry);
  }

  lemma EmptySound(hash: Hash)
    ensures Sound(hash, EMPTY)
  {
    ReplayInv(hash, []);
    assert Replay(hash, []) == EMPTY;
  }

  /** In a sound state the counted bytes cover the payload a mutation replaces. */
  lemma RetainedCovers(hash: Hash, app: App, id: LogIndex, key: Text, payload: Bytes)
    requires Inv(hash, app) && id in app.sessions
    ensures RetainedAfter(app, app.sessions[id], key, payload) >= 0
  {
    if key in app.sessions[id].keys { NoUnderflow(app.sessions, id, key); }
  }

  lemma SequenceBound(hash: Hash, app: App, id: LogIndex, key: Text)
    requires SessionsOk(hash, app.sessions, app.lastApplied) && id in app.sessions && key in app.sessions[id].keys
    ensures app.sessions[id].keys[key].sequence < app.lastApplied && app.sessions[id].keys[key].result.error == None
  {
    var s := app.sessions[id];
    assert SessionOk(hash, id, s, app.lastApplied);
    assert RecordOk(hash, id, s.closed, app.lastApplied, key, s.keys[key]);
  }

  lemma ExhaustionNeedsMax(hash: Hash, app: App, id: LogIndex, key: Text, sequence: nat, value: Option<Text>,
                           payload: Bytes, index: LogIndex)
    requires id in app.sessions && key in app.sessions[id].keys ==>
      app.sessions[id].keys[key].sequence < U64_MAX && app.sessions[id].keys[key].result.error == None
    ensures MutateWith(hash, app, id, key, sequence, value, payload, index).outcome.error != Some(SequenceExhausted)
  {
  }

  /** A retained sequence number is bounded by the log, so exhaustion is unreachable. */
  lemma NeverExhausted(hash: Hash, app: App, id: LogIndex, key: Text, sequence: nat, value: Option<Text>,
                       payload: Bytes)
    requires Inv(hash, app) && app.lastApplied < U64_MAX
    ensures MutateWith(hash, app, id, key, sequence, value, payload,
                       app.lastApplied + 1).outcome.error != Some(SequenceExhausted)
  {
    if id in app.sessions && key in app.sessions[id].keys { SequenceBound(hash, app, id, key); }
    ExhaustionNeedsMax(hash, app, id, key, sequence, value, payload, app.lastApplied + 1);
  }
}
