/** The replicated application: a key-value map with client retry sessions, driven by log entries.
    `hash` stands for SHA-256 throughout; nothing is assumed of it. */
module Application {
  import opened Types
  import opened Payload

  const MAX_SESSIONS: nat := 1024
  const MAX_KEYS_PER_SESSION: nat := 256
  const MAX_SESSION_KEYS: nat := 8192
  const MAX_RETAINED_PAYLOAD_BYTES: nat := 16777216
  const MAX_NONCE_BYTES: nat := 128

  type Hash = Bytes -> Bytes

  datatype SessionError =
    | InvalidNonce | InvalidKey | ValueTooLarge | InvalidSequence | UnknownSession | SessionClosed
    | SessionCapacity | KeyCapacity | PayloadCapacity | PayloadMismatch | StaleSequence | SequenceGap
    | SequenceExhausted

  datatype SessionResult = SessionResult(
    ok: bool,
    sessionId: Option<LogIndex>,
    sequence: Option<nat>,
    index: Option<LogIndex>,
    error: Option<SessionError>,
    expectedSequence: Option<nat>)

  function Success(id: LogIndex, sequence: Option<nat>, index: LogIndex): SessionResult {
    SessionResult(true, Some(id), sequence, Some(index), None, None)
  }

  function Refuse(error: SessionError, expected: Option<nat>): SessionResult {
    SessionResult(false, None, None, None, Some(error), expected)
  }

  datatype Outcome = Applied(index: LogIndex) | Session(result: SessionResult)

  datatype KeyRecord = KeyRecord(sequence: nat, digest: Bytes, payload: Bytes, result: SessionResult)

  datatype ClientSession = ClientSession(registered: SessionResult, closed: Option<SessionResult>,
                                         keys: map<Text, KeyRecord>)

  datatype App = App(
    values: map<Text, Text>,
    registrations: map<Text, LogIndex>,
    sessions: map<LogIndex, ClientSession>,
    lastApplied: LogIndex,
    retainedKeys: nat,
    retainedPayloadBytes: nat)

  const EMPTY: App := App(map[], map[], map[], 0, 0, 0)

  /** A Unicode control character begins here: C0, DEL, or the C1 block in its two-byte encoding. */
  predicate ControlAt(s: Text, i: nat)
    requires i < |s|
  {
    s[i] < 0x20 || s[i] == 0x7F || (s[i] == 0xC2 && i + 1 < |s| && s[i + 1] <= 0x9F)
  }

  predicate HasControl(s: Text) {
    exists i :: 0 <= i < |s| && ControlAt(s, i)
  }

  predicate ValidNonce(nonce: Text) {
    0 < |nonce| <= MAX_NONCE_BYTES && !HasControl(nonce)
  }

  predicate ValidKey(key: Text) {
    0 < |key| <= MAX_KEY_BYTES
  }

  /** A transition: the state after one committed entry and what its submitter is told. */
  datatype Step<T> = Step(app: App, outcome: T)

  function Assign(values: map<Text, Text>, key: Text, value: Option<Text>): map<Text, Text> {
    if value.Some? then values[key := value.value] else values - {key}
  }

  function Register(app: App, nonce: Text, index: LogIndex): Step<SessionResult> {
    if !ValidNonce(nonce) then Step(app, Refuse(InvalidNonce, None))
    else if nonce in app.registrations then
      Step(app, if app.registrations[nonce] in app.sessions then app.sessions[app.registrations[nonce]].registered
                else Refuse(UnknownSession, None))
    else if |app.sessions| == MAX_SESSIONS then Step(app, Refuse(SessionCapacity, None))
    else
      var result := Success(index, None, index);
      Step(app.(registrations := app.registrations[nonce := index],
                sessions := app.sessions[index := ClientSession(result, None, map[])]),
           result)
  }

  function Close(app: App, id: LogIndex, index: LogIndex): Step<SessionResult> {
    if id !in app.sessions then Step(app, Refuse(UnknownSession, None))
    else if app.sessions[id].closed.Some? then Step(app, app.sessions[id].closed.value)
    else
      var result := Success(id, None, index);
      Step(app.(sessions := app.sessions[id := app.sessions[id].(closed := Some(result))]), result)
  }

  /** Whether a mutation is answered without touching the state, and with what. */
  function Screen(hash: Hash, app: App, id: LogIndex, key: Text, sequence: nat, value: Option<Text>,
                  payload: Bytes): Option<SessionResult> {
    if !ValidKey(key) then Some(Refuse(InvalidKey, None))
    else if value.Some? && |value.value| > MAX_VALUE_BYTES then Some(Refuse(ValueTooLarge, None))
    else if id !in app.sessions then Some(Refuse(UnknownSession, None))
    else
      var session := app.sessions[id];
      if session.closed.Some? then Some(Refuse(SessionClosed, None))
      else if sequence == 0 then
        Some(if key in session.keys && session.keys[key].sequence == U64_MAX then Refuse(SequenceExhausted, None)
             else Refuse(InvalidSequence, Some(1)))
      else Admit(hash, app, session, key, sequence, payload)
  }

  /** Retry, stale and gap detection, then the capacity checks. */
  function Admit(hash: Hash, app: App, session: ClientSession, key: Text, sequence: nat,
                 payload: Bytes): Option<SessionResult> {
    var previous := if key in session.keys then Some(session.keys[key]) else None;
    if previous.Some? && sequence == previous.value.sequence then
      Some(if hash(payload) == previous.value.digest && payload == previous.value.payload then previous.value.result
           else Refuse(PayloadMismatch, None))
    else if previous.Some? && sequence < previous.value.sequence then Some(Refuse(StaleSequence, None))
    else if previous.Some? && previous.value.sequence >= U64_MAX then Some(Refuse(SequenceExhausted, None))
    else
      var expected := if previous.Some? then previous.value.sequence + 1 else 1;
      if sequence != expected then Some(Refuse(SequenceGap, Some(expected)))
      else if previous.None? && (|session.keys| == MAX_KEYS_PER_SESSION || app.retainedKeys == MAX_SESSION_KEYS) then
        Some(Refuse(KeyCapacity, None))
      else if RetainedAfter(app, session, key, payload) > MAX_RETAINED_PAYLOAD_BYTES
        then Some(Refuse(PayloadCapacity, None))
      else None
  }

  /** The retained byte count once `payload` replaces the key's previous one. */
  function RetainedAfter(app: App, session: ClientSession, key: Text, payload: Bytes): int {
    app.retainedPayloadBytes - (if key in session.keys then |session.keys[key].payload| else 0) + |payload|
  }

  /** An admitted mutation: the record, the counters and the value change together. */
  function Record(hash: Hash, app: App, id: LogIndex, key: Text, sequence: nat, value: Option<Text>, payload: Bytes,
                  index: LogIndex): App
    requires id in app.sessions && RetainedAfter(app, app.sessions[id], key, payload) >= 0
  {
    var session := app.sessions[id];
    var record := KeyRecord(sequence, hash(payload), payload, Success(id, Some(sequence), index));
    app.(sessions := app.sessions[id := session.(keys := session.keys[key := record])],
         values := Assign(app.values, key, value),
         retainedKeys := app.retainedKeys + (if key in session.keys then 0 else 1),
         retainedPayloadBytes := RetainedAfter(app, session, key, payload))
  }

  /** The byte counter never underflows where the invariant holds; elsewhere the model leaves the state alone. */
  function MutateWith(hash: Hash, app: App, id: LogIndex, key: Text, sequence: nat, value: Option<Text>, payload: Bytes,
                      index: LogIndex)
    : Step<SessionResult>
  {
    match Screen(hash, app, id, key, sequence, value, payload)
    case Some(answer) => Step(app, answer)
    case None =>
      if RetainedAfter(app, app.sessions[id], key, payload) < 0 then Step(app, Refuse(PayloadCapacity, None))
      else Step(Record(hash, app, id, key, sequence, value, payload, index), Success(id, Some(sequence), index))
  }

  function Mutate(hash: Hash, app: App, id: LogIndex, key: Text, sequence: nat, value: Option<Text>,
                  index: LogIndex): Step<SessionResult> {
    MutateWith(hash, app, id, key, sequence, value, CanonicalPayload(key, value), index)
  }

  /** The command's own effect, before the watermark moves. */
  function Perform(hash: Hash, app: App, entry: Entry): Step<Outcome> {
    match entry.command
    case Put(key, value) => Step(app.(values := app.values[key := value]), Applied(entry.index))
    case Delete(key) => Step(app.(values := app.values - {key}), Applied(entry.index))
    case NoOp => Step(app, Applied(entry.index))
    case Configuration(_) => Step(app, Applied(entry.index))
    case RegisterSession(nonce) => var s := Register(app, nonce, entry.index); Step(s.app, Session(s.outcome))
    case CloseSession(id) => var s := Close(app, id, entry.index); Step(s.app, Session(s.outcome))
    case SessionPut(id, key, sequence, value) =>
      var s := Mutate(hash, app, id, key, sequence, Some(value), entry.index); Step(s.app, Session(s.outcome))
    case SessionDelete(id, key, sequence) =>
      var s := Mutate(hash, app, id, key, sequence, None, entry.index); Step(s.app, Session(s.outcome))
  }

  predicate Follows(app: App, entry: Entry) {
    app.lastApplied < U64_MAX && entry.index == app.lastApplied + 1
  }

  /** Consume the next committed entry; `None` is an index that does not follow. */
  function Apply(hash: Hash, app: App, entry: Entry): Option<Step<Outcome>> {
    if !Follows(app, entry) then None
    else
      var s := Perform(hash, app, entry);
      Some(Step(s.app.(lastApplied := entry.index), s.outcome))
  }

  /** A log whose entries are numbered 1, 2, 3, ... */
  predicate Numbered(log: seq<Entry>) {
    |log| <= U64_MAX && forall i :: 0 <= i < |log| ==> log[i].index == i + 1
  }

  /** The state after a whole log. */
  function Replay(hash: Hash, log: seq<Entry>): (app: App)
    requires Numbered(log)
    ensures app.lastApplied == |log|
    decreases |log|
  {
    if log == [] then EMPTY
    else
      var before := Replay(hash, log[..|log| - 1]);
      Apply(hash, before, log[|log| - 1]).value.app
  }
}
