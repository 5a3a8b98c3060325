/** The application as the process holds it: one object updated in place per committed entry, and the
    undo-log transaction that makes a range of entries provisional. */
module StateMachine {
  import opened Types
  import opened Payload
  import opened Application
  import opened ApplicationInvariant

  class Machine {
    const hash: Hash
    var values: map<Text, Text>
    var registrations: map<Text, LogIndex>
    var sessions: map<LogIndex, ClientSession>
    var lastApplied: LogIndex
    var retainedKeys: nat
    var retainedPayloadBytes: nat

    function View(): App
      reads this
    {
      App(values, registrations, sessions, lastApplied, retainedKeys, retainedPayloadBytes)
    }

    constructor (hash: Hash)
      ensures View() == EMPTY && this.hash == hash && Sound(hash, View())
    {
      this.hash := hash;
      values, registrations, sessions := map[], map[], map[];
      lastApplied, retainedKeys, retainedPayloadBytes := 0, 0, 0;
      new;
      EmptySound(hash);
    }

    /** A machine that takes over a whole state, as one rebuilt from a snapshot does. */
    constructor Holding(hash: Hash, app: App)
      requires Sound(hash, app)
      ensures View() == app && this.hash == hash
    {
      this.hash := hash;
      values, registrations, sessions := app.values, app.registrations, app.sessions;
      lastApplied, retainedKeys, retainedPayloadBytes := app.lastApplied, app.retainedKeys, app.retainedPayloadBytes;
    }

    /** Consume the next committed entry, even when its application is rejected. */
    method Apply(entry: Entry) returns (r: Option<Outcome>)
      requires Sound(hash, View())
      modifies this
      ensures Sound(hash, View())
      ensures r.Some? <==> Follows(old(View()), entry)
      ensures r.Some? ==> Application.Apply(hash, old(View()), entry) == Some(Step(View(), r.value))
      ensures r.None? ==> View() == old(View())
    {
      if !(lastApplied < U64_MAX && entry.index == lastApplied + 1) { return None; }
      SoundNext(hash, View(), entry);
      r := Perform(entry);
      lastApplied := entry.index;
    }

    /** The command's own effect, before the watermark moves. */
    method Perform(entry: Entry) returns (r: Option<Outcome>)
      requires Sound(hash, View())
      modifies `values, `registrations, `sessions, `retainedKeys, `retainedPayloadBytes
      ensures r.Some? && Application.Perform(hash, old(View()), entry) == Step(View(), r.value)
    {
      SoundExact(hash, View());
      match entry.command {
        case Put(key, value) =>
          values := values[key := value];
          r := Some(Applied(entry.index));
        case Delete(key) =>
          values := values - {key};
          r := Some(Applied(entry.index));
        case NoOp => r := Some(Applied(entry.index));
        case Configuration(_) => r := Some(Applied(entry.index));
        case RegisterSession(nonce) =>
          var result := Register(nonce, entry.index);
          r := Some(Session(result));
        case CloseSession(id) =>
          var result := Close(id, entry.index);
          r := Some(Session(result));
        case SessionPut(id, key, sequence, value) =>
          var result := Mutate(id, key, sequence, Some(value), entry.index);
          r := Some(Session(result));
        case SessionDelete(id, key, sequence) =>
          var result := Mutate(id, key, sequence, None, entry.index);
          r := Some(Session(result));
      }
    }

    method Register(nonce: Text, index: LogIndex) returns (result: SessionResult)
      requires Inv(hash, View())
      modifies `registrations, `sessions
      ensures Application.Register(old(View()), nonce, index) == Step(View(), result)
    {
      if !ValidNonce(nonce) { return Refuse(InvalidNonce, None); }
      if nonce in registrations {
        return sessions[registrations[nonce]].registered;
      }
      if |sessions| == MAX_SESSIONS { return Refuse(SessionCapacity, None); }
      result := Success(index, None, index);
      registrations := registrations[nonce := index];
      sessions := sessions[index := ClientSession(result, None, map[])];
    }

    method Close(id: LogIndex, index: LogIndex) returns (result: SessionResult)
      modifies `sessions
      ensures Application.Close(old(View()), id, index) == Step(View(), result)
    {
      if id !in sessions { return Refuse(UnknownSession, None); }
      var session := sessions[id];
      if session.closed.None? {
        session := session.(closed := Some(Success(id, None, index)));
        sessions := sessions[id := session];
      }
      result := session.closed.value;
    }

    method Mutate(id: LogIndex, key: Text, sequence: nat, value: Option<Text>, index: LogIndex)
      returns (result: SessionResult)
      requires Inv(hash, View())
      modifies `sessions, `values, `retainedKeys, `retainedPayloadBytes
      ensures Application.Mutate(hash, old(View()), id, key, sequence, value, index) == Step(View(), result)
    {
      var payload := CanonicalPayload(key, value);
      if !ValidKey(key) { return Refuse(InvalidKey, None); }
      if value.Some? && |value.value| > MAX_VALUE_BYTES { return Refuse(ValueTooLarge, None); }
      if id !in sessions { return Refuse(UnknownSession, None); }
      var session := sessions[id];
      if session.closed.Some? { return Refuse(SessionClosed, None); }
      if sequence == 0 {
        if key in session.keys && session.keys[key].sequence == U64_MAX { return Refuse(SequenceExhausted, None); }
        return Refuse(InvalidSequence, Some(1));
      }
      result := Enter(id, key, sequence, value, payload, index);
    }

    /** The part of a mutation that consults and updates the key's record. */
    method Enter(id: LogIndex, key: Text, sequence: nat, value: Option<Text>, payload: Bytes, index: LogIndex)
      returns (result: SessionResult)
      requires Inv(hash, View()) && id in sessions && sessions[id].closed.None? && sequence > 0
      requires ValidKey(key) && (value.Some? ==> |value.value| <= MAX_VALUE_BYTES)
      modifies `sessions, `values, `retainedKeys, `retainedPayloadBytes
      ensures Application.MutateWith(hash, old(View()), id, key, sequence, value, payload, index)
        == Step(View(), result)
    {
      RetainedCovers(hash, View(), id, key, payload);
      MutateByRecord(hash, View(), id, key, sequence, value, payload, index);
      var answer := Consult(sessions[id], key, sequence, payload);
      if answer.Some? { return answer.value; }
      Update(id, key, sequence, value, payload, index);
      return Success(id, Some(sequence), index);
    }

    /** Retry, stale and gap detection against the key's record, then the capacity checks. */
    method Consult(session: ClientSession, key: Text, sequence: nat, payload: Bytes)
      returns (answer: Option<SessionResult>)
      ensures answer == Admit(hash, View(), session, key, sequence, payload)
    {
      var digest, expected, previousBytes := hash(payload), 1, 0;
      if key in session.keys {
        var previous := session.keys[key];
        if sequence == previous.sequence {
          return Some(if digest == previous.digest && payload == previous.payload then previous.result
                      else Refuse(PayloadMismatch, None));
        }
        if sequence < previous.sequence { return Some(Refuse(StaleSequence, None)); }
        if previous.sequence >= U64_MAX { return Some(Refuse(SequenceExhausted, None)); }
        expected, previousBytes := previous.sequence + 1, |previous.payload|;
      }
      if sequence != expected { return Some(Refuse(SequenceGap, Some(expected))); }
      if key !in session.keys && (|session.keys| == MAX_KEYS_PER_SESSION || retainedKeys == MAX_SESSION_KEYS) {
        return Some(Refuse(KeyCapacity, None));
      }
      if retainedPayloadBytes - previousBytes + |payload| > MAX_RETAINED_PAYLOAD_BYTES {
        return Some(Refuse(PayloadCapacity, None));
      }
      return None;
    }

    /** The record, the counters and the value change together. */
    method Update(id: LogIndex, key: Text, sequence: nat, value: Option<Text>, payload: Bytes, index: LogIndex)
      requires id in sessions && RetainedAfter(View(), sessions[id], key, payload) >= 0
      modifies `sessions, `values, `retainedKeys, `retainedPayloadBytes
      ensures View() == Record(hash, old(View()), id, key, sequence, value, payload, index)
    {
      var session, record :=
        sessions[id], KeyRecord(sequence, hash(payload), payload, Success(id, Some(sequence), index));
      retainedPayloadBytes := retainedPayloadBytes - (if key in session.keys then |session.keys[key].payload| else 0)
        + |payload|;
      if key !in session.keys { retainedKeys := retainedKeys + 1; }
      sessions := sessions[id := session.(keys := session.keys[key := record])];
      values := if value.Some? then values[key := value.value] else values - {key};
    }

    method Undo(undo: UndoRecord)
      requires SessionNamed(undo, View())
      modifies this
      ensures View() == Restore(undo, old(View()))
    {
      if undo.value.Some? { values := PutBack(values, undo.value.value.0, undo.value.value.1); }
      if undo.registration.Some? {
        registrations := PutBack(registrations, undo.registration.value.0, undo.registration.value.1);
      }
      match undo.session {
        case Unchanged =>
        case Registered(id) => sessions := sessions - {id};
        case Closed(id, previous) => sessions := sessions[id := sessions[id].(closed := previous)];
        case Keyed(id, key, previous) =>
          sessions := sessions[id := sessions[id].(keys := PutBack(sessions[id].keys, key, previous))];
      }
      lastApplied := undo.lastApplied;
      retainedKeys := undo.retainedKeys;
      retainedPayloadBytes := undo.retainedPayloadBytes;
    }
  }

  /** Past the first checks a mutation is answered from the record, or recorded. */
  lemma MutateByRecord(hash: Hash, app: App, id: LogIndex, key: Text, sequence: nat, value: Option<Text>,
                       payload: Bytes, index: LogIndex)
    requires id in app.sessions && app.sessions[id].closed.None? && sequence > 0
    requires ValidKey(key) && (value.Some? ==> |value.value| <= MAX_VALUE_BYTES)
    requires RetainedAfter(app, app.sessions[id], key, payload) >= 0
    ensures var answer := Admit(hash, app, app.sessions[id], key, sequence, payload);
      MutateWith(hash, app, id, key, sequence, value, payload, index) ==
        if answer.Some? then Step(app, answer.value)
        else Step(Record(hash, app, id, key, sequence, value, payload, index), Success(id, Some(sequence), index))
  {
  }

  // ---------------------------------------------------------------- undo records

  datatype SessionUndo =
    | Unchanged
    | Registered(id: LogIndex)
    | Closed(id: LogIndex, previous: Option<SessionResult>)
    | Keyed(id: LogIndex, key: Text, record: Option<KeyRecord>)

  datatype UndoRecord = UndoRecord(
    lastApplied: LogIndex,
    retainedKeys: nat,
    retainedPayloadBytes: nat,
    value: Option<(Text, Option<Text>)>,
    registration: Option<(Text, Option<LogIndex>)>,
    session: SessionUndo)

  function Lookup<K, V>(m: map<K, V>, k: K): Option<V> {
    if k in m then Some(m[k]) else None
  }

  function PutBack<K, V>(m: map<K, V>, k: K, v: Option<V>): map<K, V> {
    if v.Some? then m[k := v.value] else m - {k}
  }

  /** Which cells an entry may touch, and what they held. */
  function Capture(app: App, entry: Entry): UndoRecord {
    var base := UndoRecord(app.lastApplied, app.retainedKeys, app.retainedPayloadBytes, None, None, Unchanged);
    match entry.command
    case Put(key, _) => base.(value := Some((key, Lookup(app.values, key))))
    case Delete(key) => base.(value := Some((key, Lookup(app.values, key))))
    case RegisterSession(nonce) =>
      base.(registration := Some((nonce, Lookup(app.registrations, nonce))), session := Registered(entry.index))
    case CloseSession(id) =>
      if id in app.sessions then base.(session := Closed(id, app.sessions[id].closed)) else base
    case SessionPut(id, key, _, _) => CaptureKey(app, base, id, key)
    case SessionDelete(id, key, _) => CaptureKey(app, base, id, key)
    case _ => base
  }

  function CaptureKey(app: App, base: UndoRecord, id: LogIndex, key: Text): UndoRecord {
    base.(value := Some((key, Lookup(app.values, key))),
          session := if id in app.sessions then Keyed(id, key, Lookup(app.sessions[id].keys, key)) else Unchanged)
  }

  /** The session an undo record patches still exists. */
  predicate SessionNamed(undo: UndoRecord, app: App) {
    undo.session.Closed? || undo.session.Keyed? ==> undo.session.id in app.sessions
  }

  function Restore(undo: UndoRecord, app: App): App
    requires SessionNamed(undo, app)
  {
    App(if undo.value.Some? then PutBack(app.values, undo.value.value.0, undo.value.value.1) else app.values,
        if undo.registration.Some? then PutBack(app.registrations, undo.registration.value.0, undo.registration.value.1)
        else app.registrations,
        RestoreSessions(undo.session, app.sessions),
        undo.lastApplied, undo.retainedKeys, undo.retainedPayloadBytes)
  }

  function RestoreSessions(undo: SessionUndo, sessions: map<LogIndex, ClientSession>): map<LogIndex, ClientSession>
    requires undo.Closed? || undo.Keyed? ==> undo.id in sessions
  {
    match undo
    case Unchanged => sessions
    case Registered(id) => sessions - {id}
    case Closed(id, previous) => sessions[id := sessions[id].(closed := previous)]
    case Keyed(id, key, record) => sessions[id := sessions[id].(keys := PutBack(sessions[id].keys, key, record))]
  }

  lemma PutBackUndoes<K, V>(m: map<K, V>, k: K, touched: map<K, V>)
    requires touched == m || touched == m - {k} || (k in touched && touched == m[k := touched[k]])
    ensures PutBack(touched, k, Lookup(m, k)) == m
  {
  }

  /** Restoring what was captured undoes a mutation in every component. */
  lemma MutateUndone(hash: Hash, app: App, id: LogIndex, key: Text, sequence: nat, value: Option<Text>, payload: Bytes,
                     index: LogIndex, last: LogIndex)
    ensures var undo :=
      CaptureKey(app, UndoRecord(app.lastApplied, app.retainedKeys, app.retainedPayloadBytes, None, None, Unchanged),
                 id, key);
      var next := MutateWith(hash, app, id, key, sequence, value, payload, index).app.(lastApplied := last);
      SessionNamed(undo, next) && Restore(undo, next) == app
  {
    MutateShape(hash, app, id, key, sequence, value, payload, index);
    var done := MutateWith(hash, app, id, key, sequence, value, payload, index).app;
    PutBackUndoes(app.values, key, done.values);
    if id in app.sessions {
      KeyPutBack(app.sessions, id, key, done.sessions[id].keys);
      assert done.sessions == app.sessions[id := app.sessions[id].(keys := done.sessions[id].keys)];
    }
  }

  lemma KeyPutBack(sessions: map<LogIndex, ClientSession>, id: LogIndex, key: Text, touched: map<Text, KeyRecord>)
    requires id in sessions
    requires touched == sessions[id].keys || (key in touched && touched == sessions[id].keys[key := touched[key]])
    ensures RestoreSessions(Keyed(id, key, Lookup(sessions[id].keys, key)),
                            sessions[id := sessions[id].(keys := touched)]) == sessions
  {
    PutBackUndoes(sessions[id].keys, key, touched);
  }

  /** A registration undo may remove only the session it created: no earlier session carries the
      entry's index. */
  lemma RegisterUndone(app: App, nonce: Text, index: LogIndex)
    requires index !in app.sessions
    ensures var next := Register(app, nonce, index).app;
      && PutBack(next.registrations, nonce, Lookup(app.registrations, nonce)) == app.registrations
      && next.sessions - {index} == app.sessions && next.values == app.values
  {
    RegisterShape(app, nonce, index);
    PutBackUndoes(app.registrations, nonce, Register(app, nonce, index).app.registrations);
  }

  lemma CloseUndone(app: App, id: LogIndex, index: LogIndex)
    ensures id !in app.sessions ==> Close(app, id, index).app == app
    ensures id in app.sessions ==> id in Close(app, id, index).app.sessions
    ensures id in app.sessions ==>
      RestoreSessions(Closed(id, app.sessions[id].closed), Close(app, id, index).app.sessions) == app.sessions
  {
    CloseShape(app, id, index);
    if id in app.sessions {
      assert app.sessions[id].(closed := app.sessions[id].closed) == app.sessions[id];
      assert app.sessions[id := app.sessions[id]] == app.sessions;
    }
  }

  /** All session ids are at most the watermark, so the next index names no session. */
  lemma NextIndexUnused(hash: Hash, app: App)
    requires Inv(hash, app)
    ensures app.lastApplied + 1 !in app.sessions
  {
    var next := app.lastApplied + 1;
    assert next in app.sessions ==> SessionOk(hash, next, app.sessions[next], app.lastApplied);
  }

  /** Undoing `entry` from the state it leads to gives `app` back. */
  predicate Undone(hash: Hash, app: App, entry: Entry)
    requires Follows(app, entry)
  {
    var next := Application.Apply(hash, app, entry).value.app;
    SessionNamed(Capture(app, entry), next) && Restore(Capture(app, entry), next) == app
  }

  lemma PlainUndone(hash: Hash, app: App, entry: Entry)
    requires Follows(app, entry)
      && (entry.command.Put? || entry.command.Delete? || entry.command.NoOp? || entry.command.Configuration?)
    ensures Undone(hash, app, entry)
  {
    match entry.command
    case Put(key, value) => PutBackUndoes(app.values, key, app.values[key := value]);
    case Delete(key) => PutBackUndoes(app.values, key, app.values - {key});
    case _ =>
  }

  lemma RegistrationUndone(hash: Hash, app: App, entry: Entry)
    requires Follows(app, entry) && entry.index !in app.sessions && entry.command.RegisterSession?
    ensures Undone(hash, app, entry)
  {
    var nonce := entry.command.nonce;
    RegisterUndone(app, nonce, entry.index);
    var next := Application.Apply(hash, app, entry).value.app;
    assert next == Register(app, nonce, entry.index).app.(lastApplied := entry.index);
    assert Capture(app, entry).session == Registered(entry.index);
    assert Capture(app, entry).registration == Some((nonce, Lookup(app.registrations, nonce)));
  }

  lemma ClosingUndone(hash: Hash, app: App, entry: Entry)
    requires Follows(app, entry) && entry.command.CloseSession?
    ensures Undone(hash, app, entry)
  {
    CloseUndone(app, entry.command.sessionId, entry.index);
    CloseShape(app, entry.command.sessionId, entry.index);
  }

  /** Rollback of one entry is exact, except for a registration whose index already names a session: its
      undo removes that session. No reachable state has such a session. */
  lemma ApplyUndone(hash: Hash, app: App, entry: Entry)
    requires Follows(app, entry)
    ensures Undone(hash, app, entry) <==> !(entry.command.RegisterSession? && entry.index in app.sessions)
  {
    match entry.command
    case RegisterSession(nonce) =>
      if entry.index in app.sessions {
        StaleUndoDeletes(app, nonce, entry.index, Application.Apply(hash, app, entry).value.app);
      } else {
        RegistrationUndone(hash, app, entry);
      }
    case CloseSession(_) => ClosingUndone(hash, app, entry);
    case SessionPut(id, key, sequence, value) =>
      MutateUndone(hash, app, id, key, sequence, Some(value), CanonicalPayload(key, Some(value)), entry.index,
                   entry.index);
    case SessionDelete(id, key, sequence) =>
      MutateUndone(hash, app, id, key, sequence, None, CanonicalPayload(key, None), entry.index, entry.index);
    case _ => PlainUndone(hash, app, entry);
  }

  /** Undoing a registration whose index names an earlier session deletes that session, whatever state the
      undo starts from. A transaction's own index check rules this out. */
  lemma StaleUndoDeletes(app: App, nonce: Text, index: LogIndex, now: App)
    requires index in app.sessions
    ensures Restore(Capture(app, Entry(index, 0, RegisterSession(nonce))), now) != app
  {
    assert index !in RestoreSessions(Registered(index), now.sessions);
  }

  // ---------------------------------------------------------------- transactions

  /** Entry `i` of a provisional range leads from `trail[i]` to `trail[i + 1]` and can be undone by `undo[i]`. */
  ghost predicate Link(hash: Hash, undo: seq<UndoRecord>, entries: seq<Entry>, trail: seq<App>, i: nat)
    requires i < |entries| == |undo| && |trail| == |entries| + 1
  {
    && Sound(hash, trail[i]) && Follows(trail[i], entries[i]) && undo[i] == Capture(trail[i], entries[i])
    && trail[i + 1] == Application.Apply(hash, trail[i], entries[i]).value.app
  }

  /** The trail folds the entries from its first state on. */
  ghost predicate Chain(hash: Hash, undo: seq<UndoRecord>, entries: seq<Entry>, trail: seq<App>) {
    && |entries| == |undo| && |trail| == |entries| + 1
    && forall i {:trigger Link(hash, undo, entries, trail, i)} :: 0 <= i < |entries| ==>
       Link(hash, undo, entries, trail, i)
  }

  lemma ChainPush(hash: Hash, undo: seq<UndoRecord>, entries: seq<Entry>, trail: seq<App>, entry: Entry, next: App)
    requires Chain(hash, undo, entries, trail)
    requires var app := trail[|entries|];
      Sound(hash, app) && Follows(app, entry) && next == Application.Apply(hash, app, entry).value.app
    ensures Chain(hash, undo + [Capture(trail[|entries|], entry)], entries + [entry], trail + [next])
  {
    var undo', entries', trail' := undo + [Capture(trail[|entries|], entry)], entries + [entry], trail + [next];
    forall i: nat | i < |entries'| ensures Link(hash, undo', entries', trail', i) {
      if i < |entries| {
        assert Link(hash, undo, entries, trail, i);
        assert trail'[i] == trail[i] && trail'[i + 1] == trail[i + 1] && entries'[i] == entries[i]
          && undo'[i] == undo[i];
      }
    }
  }

  lemma ChainPop(hash: Hash, undo: seq<UndoRecord>, entries: seq<Entry>, trail: seq<App>)
    requires Chain(hash, undo, entries, trail) && entries != []
    ensures var n := |entries| - 1;
      && Chain(hash, undo[..n], entries[..n], trail[..n + 1]) && Sound(hash, trail[n])
      && SessionNamed(undo[n], trail[n + 1]) && Restore(undo[n], trail[n + 1]) == trail[n]
  {
    var n: nat := |entries| - 1;
    assert Link(hash, undo, entries, trail, n);
    SoundExact(hash, trail[n]);
    NextIndexUnused(hash, trail[n]);
    ApplyUndone(hash, trail[n], entries[n]);
    assert Undone(hash, trail[n], entries[n]);
    var undo', entries', trail' := undo[..n], entries[..n], trail[..n + 1];
    forall i: nat | i < n ensures Link(hash, undo', entries', trail', i) {
      assert Link(hash, undo, entries, trail, i);
      assert trail'[i] == trail[i] && trail'[i + 1] == trail[i + 1] && entries'[i] == entries[i] && undo'[i] == undo[i];
    }
  }

  /** A provisional range. The ghost trail lists the states before each entry and the current one. */
  class Transaction {
    const machine: Machine
    var undo: seq<UndoRecord>
    var committed: bool
    ghost var entries: seq<Entry>
    ghost var trail: seq<App>

    /** The machine holds the fold of the entries on the undo stack. */
    ghost predicate Valid()
      reads this, machine
    {
      Chain(machine.hash, undo, entries, trail) && machine.View() == trail[|entries|]
        && Sound(machine.hash, machine.View())
    }

    constructor (machine: Machine)
      requires Sound(machine.hash, machine.View())
      ensures Valid() && this.machine == machine && entries == [] && trail == [machine.View()] && !committed
    {
      this.machine := machine;
      undo, committed, entries, trail := [], false, [], [machine.View()];
    }

    method Apply(entry: Entry) returns (r: Option<Outcome>)
      requires Valid()
      modifies this, machine
      ensures Valid() && committed == old(committed)
      ensures r.Some? <==> Follows(old(machine.View()), entry)
      ensures r.Some? ==> entries == old(entries) + [entry] && trail == old(trail) + [machine.View()]
      ensures r.Some? ==>
        Application.Apply(machine.hash, old(machine.View()), entry) == Some(Step(machine.View(), r.value))
      ensures r.None? ==> machine.View() == old(machine.View()) && entries == old(entries) && trail == old(trail)
    {
      if !(machine.lastApplied < U64_MAX && entry.index == machine.lastApplied + 1) { return None; }
      var captured := Capture(machine.View(), entry);
      r := machine.Apply(entry);
      ChainPush(machine.hash, undo, entries, trail, entry, machine.View());
      undo, entries, trail := undo + [captured], entries + [entry], trail + [machine.View()];
    }

    method UndoLast()
      requires Valid() && undo != []
      modifies this, machine
      ensures Valid() && committed == old(committed)
      ensures entries == old(entries)[..|old(entries)| - 1] && trail == old(trail)[..|old(entries)|]
    {
      var last := |undo| - 1;
      ChainPop(machine.hash, undo, entries, trail);
      machine.Undo(undo[last]);
      undo, entries, trail := undo[..last], entries[..last], trail[..last + 1];
    }

    method Commit()
      requires Valid()
      modifies `committed
      ensures Valid() && committed && machine.View() == old(machine.View())
    {
      committed := true;
    }

    /** Dropping an uncommitted transaction restores the starting state in every component. */
    method Drop()
      requires Valid()
      modifies this, machine
      ensures machine.View() == if old(committed) then old(machine.View()) else old(trail[0])
    {
      if !committed {
        while undo != []
          invariant Valid() && trail[0] == old(trail[0])
          decreases |undo|
        {
          UndoLast();
        }
      }
    }
  }
}
