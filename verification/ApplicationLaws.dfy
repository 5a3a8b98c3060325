/** What the application answers and holds, stated without its own rules: when a session request takes effect
    and why it is refused otherwise, that repeated registrations and closings return the first result, and that
    a value is always the last one written. */
module ApplicationLaws {
  import opened Types
  import opened Payload
  import opened Application
  import opened ApplicationInvariant
  import opened ApplicationSessions

  // ---------------------------------------------------------------- session requests

  /** Key and value are within the limits. */
  predicate WithinLimits(r: Request) {
    0 < |r.key| <= 1024 && (r.value.Some? ==> |r.value.value| <= 65536)
  }

  predicate Opened(app: App, id: LogIndex) {
    id in app.sessions && app.sessions[id].closed.None?
  }

  predicate Recorded(app: App, r: Request) {
    r.id in app.sessions && r.key in app.sessions[r.id].keys
  }

  lemma {:induction false} PayloadLength(key: Text, value: Option<Text>)
    ensures |CanonicalPayload(key, value)| == 38 + |key| + if value.Some? then 8 + |value.value| else 0
  {
  }

  /** The bytes retained once this request's payload takes the place of the key's previous one. */
  function BytesWith(app: App, r: Request): int {
    |ByteSlots(app.sessions)| - (if Recorded(app, r) then |app.sessions[r.id].keys[r.key].payload| else 0)
      + |CanonicalPayload(r.key, r.value)|
  }

  /** The key already has a record, or both the session and the whole store have room for one more. */
  predicate KeyFits(app: App, r: Request)
    requires r.id in app.sessions
  {
    Recorded(app, r) || (|app.sessions[r.id].keys| < 256 && |KeySlots(app.sessions)| < 8192)
  }

  /** A request that is well formed and addressed to an open session. */
  predicate Addressed(app: App, r: Request) {
    WithinLimits(r) && Opened(app, r.id)
  }

  /** ... and carries the next sequence number of its key. */
  predicate InSequence(app: App, r: Request) {
    Addressed(app, r) && r.sequence == LastSequence(app, r.id, r.key) + 1
  }

  /** A request that must take effect. */
  predicate Due(app: App, r: Request) {
    InSequence(app, r) && KeyFits(app, r) && BytesWith(app, r) <= 16777216
  }

  lemma SequenceRoom(hash: Hash, app: App, r: Request)
    requires Inv(hash, app) && app.lastApplied < U64_MAX
    ensures LastSequence(app, r.id, r.key) < U64_MAX
    ensures LastSequence(app, r.id, r.key) > 0 <==> Recorded(app, r)
  {
    if Recorded(app, r) {
      SequenceBound(hash, app, r.id, r.key);
      assert SessionOk(hash, r.id, app.sessions[r.id], app.lastApplied);
      assert RecordOk(hash, r.id, app.sessions[r.id].closed, app.lastApplied, r.key, app.sessions[r.id].keys[r.key]);
    }
  }

  /** The record's digest is that of its payload, so comparing payloads decides a retry. */
  lemma SameDigest(hash: Hash, app: App, r: Request)
    requires Inv(hash, app) && Recorded(app, r)
    ensures app.sessions[r.id].keys[r.key].digest == hash(app.sessions[r.id].keys[r.key].payload)
    ensures |app.sessions[r.id].keys| <= 256
  {
    assert SessionOk(hash, r.id, app.sessions[r.id], app.lastApplied);
    assert RecordOk(hash, r.id, app.sessions[r.id].closed, app.lastApplied, r.key, app.sessions[r.id].keys[r.key]);
  }

  /** A request that repeats its key's last sequence number. */
  predicate Repeats(app: App, r: Request) {
    Addressed(app, r) && Recorded(app, r) && r.sequence == app.sessions[r.id].keys[r.key].sequence
  }

  /** ... and asks for the very same thing. */
  predicate Retries(app: App, r: Request) {
    Repeats(app, r) && app.sessions[r.id].keys[r.key].payload == CanonicalPayload(r.key, r.value)
  }

  /** When each refusal is due. */
  predicate Deserves(app: App, r: Request, error: SessionError) {
    var last := LastSequence(app, r.id, r.key);
    match error
    case InvalidKey => !(0 < |r.key| <= 1024)
    case ValueTooLarge => 0 < |r.key| <= 1024 && !WithinLimits(r)
    case UnknownSession => WithinLimits(r) && r.id !in app.sessions
    case SessionClosed => WithinLimits(r) && r.id in app.sessions && app.sessions[r.id].closed.Some?
    case InvalidSequence => Addressed(app, r) && r.sequence == 0
    case StaleSequence => Addressed(app, r) && 0 < r.sequence < last
    case PayloadMismatch => Repeats(app, r) && !Retries(app, r)
    case SequenceGap => Addressed(app, r) && r.sequence > last + 1
    case KeyCapacity => InSequence(app, r) && !KeyFits(app, r)
    case PayloadCapacity => InSequence(app, r) && KeyFits(app, r) && BytesWith(app, r) > 16777216
    case _ => false
  }

  /** The sequence number a refused client is told to use. */
  function Expected(app: App, r: Request, error: SessionError): Option<nat> {
    match error
    case InvalidSequence => Some(1)
    case SequenceGap => Some(LastSequence(app, r.id, r.key) + 1)
    case _ => None
  }

  /** What a request is told: exactly one of a refusal it deserves, its earlier result, or success. */
  ghost predicate Told(app: App, r: Request, result: SessionResult, index: LogIndex) {
    && (forall error :: Deserves(app, r, error) ==> result == Refuse(error, Expected(app, r, error)))
    && (Retries(app, r) ==> result == app.sessions[r.id].keys[r.key].result)
    && (Due(app, r) ==> result == Success(r.id, Some(r.sequence), index))
    && (Retries(app, r) || Due(app, r) || exists error :: Deserves(app, r, error))
  }

  /** The screening rules decide exactly this. */
  lemma ScreenExact(hash: Hash, app: App, r: Request)
    requires Inv(hash, app) && app.lastApplied < U64_MAX
    ensures var answer := Answer(hash, app, r);
      && (answer.None? <==> Due(app, r))
      && (forall error :: Deserves(app, r, error) ==> answer == Some(Refuse(error, Expected(app, r, error))))
      && (Retries(app, r) ==> answer == Some(app.sessions[r.id].keys[r.key].result))
      && (Retries(app, r) || Due(app, r) || exists error :: Deserves(app, r, error))
  {
    SequenceRoom(hash, app, r);
    if Recorded(app, r) { SameDigest(hash, app, r); }
    if r.id in app.sessions { assert SessionOk(hash, r.id, app.sessions[r.id], app.lastApplied); }
    SomethingDue(app, r);
  }

  lemma SomethingDue(app: App, r: Request)
    requires LastSequence(app, r.id, r.key) > 0 <==> Recorded(app, r)
    ensures Retries(app, r) || Due(app, r) || exists error :: Deserves(app, r, error)
  {
    if !(0 < |r.key| <= 1024) { assert Deserves(app, r, InvalidKey); }
    else if !WithinLimits(r) { assert Deserves(app, r, ValueTooLarge); }
    else if r.id !in app.sessions { assert Deserves(app, r, UnknownSession); }
    else if app.sessions[r.id].closed.Some? { assert Deserves(app, r, SessionClosed); }
    else if r.sequence == 0 { assert Deserves(app, r, InvalidSequence); }
    else if r.sequence < LastSequence(app, r.id, r.key) { assert Deserves(app, r, StaleSequence); }
    else if r.sequence == LastSequence(app, r.id, r.key) {
      assert !Retries(app, r) ==> Deserves(app, r, PayloadMismatch);
    }
    else if r.sequence > LastSequence(app, r.id, r.key) + 1 { assert Deserves(app, r, SequenceGap); }
    else if !KeyFits(app, r) { assert Deserves(app, r, KeyCapacity); }
    else { assert !Due(app, r) ==> Deserves(app, r, PayloadCapacity); }
  }

  function Lookup(values: map<Text, Text>, key: Text): Option<Text> {
    if key in values then Some(values[key]) else None
  }

  /** A request takes effect exactly when it is due: then its key holds its value, or nothing after a delete, the
      record says so, and nothing else changes. Otherwise only the watermark moves. What it is told is exact. */
  lemma RequestExact(hash: Hash, app: App, entry: Entry)
    requires Inv(hash, app) && Follows(app, entry) && RequestOf(entry.command).Some?
    ensures var r, step := RequestOf(entry.command).value, Apply(hash, app, entry).value;
      && step.outcome.Session? && Told(app, r, step.outcome.result, entry.index)
      && (Effective(hash, app, entry.command, r.id, r.key) <==> Due(app, r))
      && (!Due(app, r) ==> step.app == app.(lastApplied := entry.index))
      && (Due(app, r) ==>
            && (forall k :: Lookup(step.app.values, k) == if k == r.key then r.value else Lookup(app.values, k))
            && step.app.registrations == app.registrations && step.app.sessions.Keys == app.sessions.Keys
            && (forall id :: id in app.sessions && id != r.id ==> step.app.sessions[id] == app.sessions[id])
            && Recorded(step.app, r) && LastSequence(step.app, r.id, r.key) == r.sequence)
  {
    var r := RequestOf(entry.command).value;
    ScreenExact(hash, app, r);
    if Due(app, r) { EffectiveStep(hash, app, entry, r.id, r.key); } else { IneffectiveStep(hash, app, entry); }
  }

  // ---------------------------------------------------------------- plain commands

  /** Plain commands always succeed: a put sets its key, a delete leaves it absent, the others change nothing. */
  lemma PlainExact(hash: Hash, app: App, entry: Entry)
    requires Follows(app, entry)
    requires var c := entry.command; c.Put? || c.Delete? || c.NoOp? || c.Configuration?
    ensures var c, step := entry.command, Apply(hash, app, entry).value;
      && step.outcome == Applied(entry.index) && step.app == app.(values := step.app.values, lastApplied := entry.index)
      && forall k :: Lookup(step.app.values, k) ==
           if c.Put? && k == c.key then Some(c.value)
           else if c.Delete? && k == c.key then None
           else Lookup(app.values, k)
  {
  }

  // ---------------------------------------------------------------- registering and closing

  lemma NewIndex(hash: Hash, app: App)
    requires Inv(hash, app)
    ensures app.lastApplied + 1 !in app.sessions
  {
    var next := app.lastApplied + 1;
    assert next in app.sessions ==> SessionOk(hash, next, app.sessions[next], app.lastApplied);
  }

  /** A registration is refused for a bad nonce or a full table, returns the existing session of a known nonce,
      and otherwise opens a session named by its own index. Only the last changes anything. */
  lemma RegisterExact(hash: Hash, app: App, entry: Entry)
    requires Inv(hash, app) && Follows(app, entry) && entry.command.RegisterSession?
    ensures var nonce, step := entry.command.nonce, Apply(hash, app, entry).value;
      var same := app.(lastApplied := entry.index);
      if !(0 < |nonce| <= 128) || HasControl(nonce) then step == Step(same, Session(Refuse(InvalidNonce, None)))
      else if nonce in app.registrations then
        var id := app.registrations[nonce];
        id in app.sessions && step == Step(same, Session(Success(id, None, id)))
      else if |app.sessions| >= 1024 then step == Step(same, Session(Refuse(SessionCapacity, None)))
      else
        && step.outcome == Session(Success(entry.index, None, entry.index)) && entry.index !in app.sessions
        && step.app == same.(registrations := app.registrations[nonce := entry.index],
             sessions :=
               app.sessions[entry.index := ClientSession(Success(entry.index, None, entry.index), None, map[])])
  {
    var nonce := entry.command.nonce;
    if nonce in app.registrations {
      var id := app.registrations[nonce];
      assert SessionOk(hash, id, app.sessions[id], app.lastApplied);
    }
    NewIndex(hash, app);
  }

  /** A closing is refused for an unknown session, returns the first result when it is closed already, and
      otherwise closes it at this index, keeping its records. */
  lemma CloseExact(hash: Hash, app: App, entry: Entry)
    requires Follows(app, entry) && entry.command.CloseSession?
    ensures var id, step := entry.command.sessionId, Apply(hash, app, entry).value;
      var same := app.(lastApplied := entry.index);
      if id !in app.sessions then step == Step(same, Session(Refuse(UnknownSession, None)))
      else if app.sessions[id].closed.Some? then step == Step(same, Session(app.sessions[id].closed.value))
      else
        var result := Success(id, None, entry.index);
        && step.outcome == Session(result)
        && step.app == same.(sessions := app.sessions[id := app.sessions[id].(closed := Some(result))])
  {
  }

  // ---------------------------------------------------------------- the last write

  /** What a command writes to `key`, if it writes it at all: a value, or its absence. */
  function Writes(app: App, command: Command, key: Text): Option<Option<Text>> {
    match command
    case Put(k, v) => if k == key then Some(Some(v)) else None
    case Delete(k) => if k == key then Some(None) else None
    case SessionPut(id, k, n, v) => if k == key && Due(app, Request(id, k, n, Some(v))) then Some(Some(v)) else None
    case SessionDelete(id, k, n) => if k == key && Due(app, Request(id, k, n, None)) then Some(None) else None
    case _ => None
  }

  lemma RequestWrites(hash: Hash, app: App, entry: Entry, key: Text)
    requires Inv(hash, app) && Follows(app, entry) && RequestOf(entry.command).Some?
    ensures var written := Writes(app, entry.command, key);
      Lookup(Apply(hash, app, entry).value.app.values, key)
      == if written.Some? then written.value else Lookup(app.values, key)
  {
    RequestExact(hash, app, entry);
  }

  lemma ValueApplied(hash: Hash, app: App, entry: Entry, key: Text)
    requires Inv(hash, app) && Follows(app, entry)
    ensures var written := Writes(app, entry.command, key);
      Lookup(Apply(hash, app, entry).value.app.values, key)
      == if written.Some? then written.value else Lookup(app.values, key)
  {
    if RequestOf(entry.command).Some? {
      RequestWrites(hash, app, entry, key);
    } else if entry.command.RegisterSession? {
      RegisterExact(hash, app, entry);
    } else if entry.command.CloseSession? {
      CloseExact(hash, app, entry);
    } else {
      PlainExact(hash, app, entry);
    }
  }

  /** Each write of `written` shows in `held` at once, and stays until the next. */
  ghost predicate Carries(written: seq<Option<Option<Text>>>, held: seq<Option<Text>>) {
    && |held| == |written| + 1
    && forall k :: 0 <= k < |written| ==> held[k + 1] == if written[k].Some? then written[k].value else held[k]
  }

  lemma {:induction false} Carried(written: seq<Option<Option<Text>>>, held: seq<Option<Text>>, i: nat, j: nat)
    requires Carries(written, held) && i <= j <= |written| && forall k :: i <= k < j ==> written[k].None?
    ensures held[j] == held[i]
    decreases j
  {
    if i < j { Carried(written, held, i, j - 1); }
  }

  /** What each entry of the log writes to a key. */
  function Writings(hash: Hash, log: seq<Entry>, key: Text): (w: seq<Option<Option<Text>>>)
    requires Numbered(log)
    ensures |w| == |log|
    decreases |log|
  {
    if log == [] then []
    else
      var init := log[..|log| - 1];
      Writings(hash, init, key) + [Writes(Replay(hash, init), log[|log| - 1].command, key)]
  }

  lemma {:induction false} LogCarries(hash: Hash, log: seq<Entry>, key: Text) returns (held: seq<Option<Text>>)
    requires Typed(log)
    ensures Carries(Writings(hash, log, key), held) && held[0] == None
    ensures held[|log|] == Lookup(Replay(hash, log).values, key)
    decreases |log|
  {
    if log == [] {
      held := [None];
    } else {
      var n := |log| - 1;
      held := LogCarries(hash, log[..n], key);
      var value := Lookup(Replay(hash, log).values, key);
      ReplayStep(hash, log, n);
      assert log[..n + 1] == log;
      ValueApplied(hash, Replay(hash, log[..n]), log[n], key);
      CarriesOn(Writings(hash, log[..n], key), held, Writes(Replay(hash, log[..n]), log[n].command, key), value);
      held := held + [value];
    }
  }

  lemma CarriesOn(written: seq<Option<Option<Text>>>, held: seq<Option<Text>>, w: Option<Option<Text>>,
                  value: Option<Text>)
    requires Carries(written, held) && value == if w.Some? then w.value else held[|written|]
    ensures Carries(written + [w], held + [value])
  {
  }

  /** `value` is what the last write says, and nothing if there is none. */
  ghost predicate IsLast(written: seq<Option<Option<Text>>>, value: Option<Text>) {
    && ((forall k :: 0 <= k < |written| ==> written[k].None?) ==> value == None)
    && forall i :: 0 <= i < |written| && written[i].Some? && (forall k :: i < k < |written| ==> written[k].None?) ==>
         value == written[i].value
  }

  lemma LastWins(written: seq<Option<Option<Text>>>, held: seq<Option<Text>>)
    requires Carries(written, held) && held[0] == None
    ensures IsLast(written, held[|written|])
  {
    if forall k :: 0 <= k < |written| ==> written[k].None? { Carried(written, held, 0, |written|); }
    forall i | 0 <= i < |written| && written[i].Some? && (forall k :: i < k < |written| ==> written[k].None?)
      ensures held[|written|] == written[i].value
    {
      Carried(written, held, i + 1, |written|);
    }
  }

  /** The store is the last writes: after any log, a key holds what the last entry that wrote it says, and
      nothing if no entry did. */
  lemma {:induction false} ValuesAreLastWrites(hash: Hash, log: seq<Entry>, key: Text)
    requires Typed(log)
    ensures IsLast(Writings(hash, log, key), Lookup(Replay(hash, log).values, key))
  {
    var held := LogCarries(hash, log, key);
    LastWins(Writings(hash, log, key), held);
  }

  // ---------------------------------------------------------------- repetitions

  /** What the submitter of entry `i` is told. */
  function OutcomeAt(hash: Hash, log: seq<Entry>, i: nat): Outcome
    requires Numbered(log) && i < |log|
  {
    Apply(hash, Replay(hash, log[..i]), log[i]).value.outcome
  }

  lemma RegistrationKept(hash: Hash, app: App, entry: Entry, nonce: Text)
    requires Inv(hash, app) && Follows(app, entry) && nonce in app.registrations
    ensures var next := Apply(hash, app, entry).value.app;
      nonce in next.registrations && next.registrations[nonce] == app.registrations[nonce]
  {
    if RequestOf(entry.command).Some? { RequestExact(hash, app, entry); }
  }

  lemma {:induction false} RegistrationNext(hash: Hash, log: seq<Entry>, i: nat, nonce: Text)
    requires Typed(log) && i < |log| && nonce in Replay(hash, log[..i]).registrations
    ensures var later := Replay(hash, log[..i + 1]).registrations;
      nonce in later && later[nonce] == Replay(hash, log[..i]).registrations[nonce]
  {
    ReplayStep(hash, log, i);
    RegistrationKept(hash, Replay(hash, log[..i]), log[i], nonce);
  }

  /** What a registration is told, and what it leaves. */
  lemma {:induction false} RegisteredAt(hash: Hash, log: seq<Entry>, i: nat)
    requires Typed(log) && i < |log| && log[i].command.RegisterSession?
    ensures var nonce, before, after :=
      log[i].command.nonce, Replay(hash, log[..i]).registrations, Replay(hash, log[..i + 1]).registrations;
      && (OutcomeAt(hash, log, i).Session? && OutcomeAt(hash, log, i).result.ok ==>
            nonce in after && OutcomeAt(hash, log, i) == Session(Success(after[nonce], None, after[nonce]))
              && ValidNonce(nonce))
      && (ValidNonce(nonce) && nonce in before ==>
            OutcomeAt(hash, log, i) == Session(Success(before[nonce], None, before[nonce])))
  {
    ReplayStep(hash, log, i);
    RegisterExact(hash, Replay(hash, log[..i]), log[i]);
  }

  lemma {:induction false} RegistrationStays(hash: Hash, log: seq<Entry>, i: nat, j: nat, nonce: Text)
    requires Typed(log) && i <= j <= |log| && nonce in Replay(hash, log[..i]).registrations
    ensures var later := Replay(hash, log[..j]).registrations;
      nonce in later && later[nonce] == Replay(hash, log[..i]).registrations[nonce]
    decreases j
  {
    if i < j {
      RegistrationStays(hash, log, i, j - 1, nonce);
      RegistrationNext(hash, log, j - 1, nonce);
    }
  }

  /** Registering a nonce again, however much later, returns the first result. */
  lemma {:induction false} RegisteredOnce(hash: Hash, log: seq<Entry>, i: nat, j: nat)
    requires Typed(log) && i < j < |log| && log[i].command.RegisterSession? && log[j].command == log[i].command
    requires OutcomeAt(hash, log, i).Session? && OutcomeAt(hash, log, i).result.ok
    ensures OutcomeAt(hash, log, j) == OutcomeAt(hash, log, i)
  {
    RegisteredAt(hash, log, i);
    RegistrationStays(hash, log, i + 1, j, log[i].command.nonce);
    RegisteredAt(hash, log, j);
  }

  /** What a closing is told, and what it leaves. */
  lemma {:induction false} ClosedAt(hash: Hash, log: seq<Entry>, i: nat)
    requires Typed(log) && i < |log| && log[i].command.CloseSession?
    ensures var id, before, after :=
      log[i].command.sessionId, Replay(hash, log[..i]).sessions, Replay(hash, log[..i + 1]).sessions;
      && (OutcomeAt(hash, log, i).Session? && OutcomeAt(hash, log, i).result.ok ==>
            id in after && after[id].closed.Some? && OutcomeAt(hash, log, i) == Session(after[id].closed.value))
      && (id in before && before[id].closed.Some? ==> OutcomeAt(hash, log, i) == Session(before[id].closed.value))
  {
    ReplayStep(hash, log, i);
    CloseExact(hash, Replay(hash, log[..i]), log[i]);
  }

  /** Closing a session again, however much later, returns the first result. */
  lemma {:induction false} ClosedOnce(hash: Hash, log: seq<Entry>, i: nat, j: nat)
    requires Typed(log) && i < j < |log| && log[i].command.CloseSession? && log[j].command == log[i].command
    requires OutcomeAt(hash, log, i).Session? && OutcomeAt(hash, log, i).result.ok
    ensures OutcomeAt(hash, log, j) == OutcomeAt(hash, log, i)
  {
    ClosedAt(hash, log, i);
    ClosedForever(hash, log, i + 1, j, log[i].command.sessionId);
    ClosedAt(hash, log, j);
  }

  // ---------------------------------------------------------------- control characters

  /** The code point of the character at the front of a text. */
  function CodePoint(s: Bytes): nat
    requires Utf8Width(s) > 0
  {
    match Utf8Width(s)
    case 1 => s[0] as nat
    case 2 => (s[0] as nat - 0xC0) * 64 + (s[1] as nat - 0x80)
    case 3 => (s[0] as nat - 0xE0) * 4096 + (s[1] as nat - 0x80) * 64 + (s[2] as nat - 0x80)
    case _ =>
      (s[0] as nat - 0xF0) * 262144 + (s[1] as nat - 0x80) * 4096 + (s[2] as nat - 0x80) * 64 + (s[3] as nat - 0x80)
  }

  function CodePoints(s: Bytes): seq<nat>
    requires ValidUtf8(s)
    decreases |s|
  {
    if s == [] then [] else [CodePoint(s)] + CodePoints(s[Utf8Width(s)..])
  }

  /** Unicode's control characters. */
  predicate IsControl(c: nat) {
    c < 0x20 || 0x7F <= c < 0xA0
  }

  lemma FirstControl(s: Bytes)
    requires Utf8Width(s) > 0
    ensures IsControl(CodePoint(s)) <==> ControlAt(s, 0)
    ensures forall i :: 0 < i < Utf8Width(s) ==> !ControlAt(s, i)
  {
  }

  predicate AnyControl(points: seq<nat>) {
    exists i :: 0 <= i < |points| && IsControl(points[i])
  }

  lemma AnyControlSplit(c: nat, rest: seq<nat>)
    ensures AnyControl([c] + rest) <==> IsControl(c) || AnyControl(rest)
  {
    var all := [c] + rest;
    if AnyControl(rest) {
      var i :| 0 <= i < |rest| && IsControl(rest[i]);
      assert all[i + 1] == rest[i];
    }
    assert all[0] == c;
  }

  lemma HasControlSplit(s: Bytes, w: nat)
    requires 0 < w <= |s| && forall i :: 0 < i < w ==> !ControlAt(s, i)
    ensures HasControl(s) <==> ControlAt(s, 0) || HasControl(s[w..])
  {
    var rest := s[w..];
    if HasControl(rest) {
      var i :| 0 <= i < |rest| && ControlAt(rest, i);
      assert ControlAt(s, w + i);
    }
    if HasControl(s) {
      var i :| 0 <= i < |s| && ControlAt(s, i);
      assert i >= w ==> ControlAt(rest, i - w);
    }
  }

  /** The byte scan finds exactly the texts with a control character. */
  lemma {:induction false} ControlExact(s: Bytes)
    requires ValidUtf8(s)
    ensures HasControl(s) <==> AnyControl(CodePoints(s))
    decreases |s|
  {
    if s != [] {
      var w := Utf8Width(s);
      FirstControl(s);
      ControlExact(s[w..]);
      HasControlSplit(s, w);
      AnyControlSplit(CodePoint(s), CodePoints(s[w..]));
    }
  }
}
