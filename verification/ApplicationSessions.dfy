/** Exactly-once session semantics over whole logs. */
module ApplicationSessions {
  import opened Types
  import opened Payload
  import opened Application
  import opened ApplicationInvariant

  /** What a session mutation asks for. */
  datatype Request = Request(id: LogIndex, key: Text, sequence: nat, value: Option<Text>)

  function RequestOf(command: Command): Option<Request> {
    match command
    case SessionPut(id, key, sequence, value) => Some(Request(id, key, sequence, Some(value)))
    case SessionDelete(id, key, sequence) => Some(Request(id, key, sequence, None))
    case _ => None
  }

  function Answer(hash: Hash, app: App, r: Request): Option<SessionResult> {
    Screen(hash, app, r.id, r.key, r.sequence, r.value, CanonicalPayload(r.key, r.value))
  }

  /** The entry mutates `key` within session `id`, rather than being rejected or answered from memory. */
  predicate Effective(hash: Hash, app: App, command: Command, id: LogIndex, key: Text) {
    var r := RequestOf(command);
    r.Some? && r.value.id == id && r.value.key == key && Answer(hash, app, r.value).None?
  }

  /** The last sequence number session `id` used on `key`; zero before the first. */
  function LastSequence(app: App, id: LogIndex, key: Text): nat {
    if id in app.sessions && key in app.sessions[id].keys then app.sessions[id].keys[key].sequence else 0
  }

  /** How many entries of the log mutated `key` within session `id`. */
  function Count(hash: Hash, log: seq<Entry>, id: LogIndex, key: Text): nat
    requires Numbered(log)
    decreases |log|
  {
    if log == [] then 0
    else
      var init := log[..|log| - 1];
      Count(hash, init, id, key) + if Effective(hash, Replay(hash, init), log[|log| - 1].command, id, key) then 1 else 0
  }

  predicate EffectiveAt(hash: Hash, log: seq<Entry>, i: nat, id: LogIndex, key: Text)
    requires Numbered(log) && i < |log|
  {
    Effective(hash, Replay(hash, log[..i]), log[i].command, id, key)
  }

  // ---------------------------------------------------------------- one entry

  /** An entry's request either goes through in full or leaves everything but the watermark alone. */
  lemma RequestShape(hash: Hash, app: App, entry: Entry)
    requires Follows(app, entry) && RequestOf(entry.command).Some?
    ensures var r := RequestOf(entry.command).value; var step := Apply(hash, app, entry).value;
      var done :=
        MutateWith(hash, app, r.id, r.key, r.sequence, r.value, CanonicalPayload(r.key, r.value), entry.index);
      step.app == done.app.(lastApplied := entry.index) && step.outcome == Session(done.outcome)
  {
  }

  lemma UnderflowFree(hash: Hash, app: App, r: Request, payload: Bytes)
    requires Inv(hash, app) && Screen(hash, app, r.id, r.key, r.sequence, r.value, payload).None?
    ensures r.id in app.sessions && RetainedAfter(app, app.sessions[r.id], r.key, payload) >= 0
  {
    Admitted(hash, app, r.id, r.key, r.sequence, r.value, payload);
    if r.key in app.sessions[r.id].keys { NoUnderflow(app.sessions, r.id, r.key); }
  }

  /** An effective entry carries the next sequence number, records it with its own index and payload,
      and sets the value. */
  lemma EffectiveStep(hash: Hash, app: App, entry: Entry, id: LogIndex, key: Text)
    requires Inv(hash, app) && Follows(app, entry) && Effective(hash, app, entry.command, id, key)
    ensures var r := RequestOf(entry.command).value; var step := Apply(hash, app, entry).value;
      var payload := CanonicalPayload(key, r.value); var result := Success(id, Some(r.sequence), entry.index);
      && r.sequence == LastSequence(app, id, key) + 1
      && step.outcome == Session(result)
      && id in app.sessions && app.sessions[id].closed.None?
      && step.app.values == Assign(app.values, key, r.value)
      && step.app.sessions
         == app.sessions[id := app.sessions[id].(
              keys := app.sessions[id].keys[key := KeyRecord(r.sequence, hash(payload), payload, result)])]
  {
    var r := RequestOf(entry.command).value;
    var payload := CanonicalPayload(key, r.value);
    RequestShape(hash, app, entry);
    UnderflowFree(hash, app, r, payload);
    Admitted(hash, app, id, key, r.sequence, r.value, payload);
    Went(hash, app, r, payload, entry.index);
  }

  lemma Went(hash: Hash, app: App, r: Request, payload: Bytes, index: LogIndex)
    requires Screen(hash, app, r.id, r.key, r.sequence, r.value, payload).None?
    requires r.id in app.sessions && RetainedAfter(app, app.sessions[r.id], r.key, payload) >= 0
    ensures var done := MutateWith(hash, app, r.id, r.key, r.sequence, r.value, payload, index);
      done == Step(Record(hash, app, r.id, r.key, r.sequence, r.value, payload, index),
                   Success(r.id, Some(r.sequence), index))
  {
  }

  /** A request that is not effective changes only the watermark, whatever it is told. */
  lemma IneffectiveStep(hash: Hash, app: App, entry: Entry)
    requires Follows(app, entry) && RequestOf(entry.command).Some?
    requires Answer(hash, app, RequestOf(entry.command).value).Some?
    ensures var r := RequestOf(entry.command).value;
      Apply(hash, app, entry) == Some(Step(app.(lastApplied := entry.index), Session(Answer(hash, app, r).value)))
  {
    RequestShape(hash, app, entry);
  }

  /** Entries other than effective mutations of `key` in session `id` leave its record alone. */
  lemma OtherStep(hash: Hash, app: App, entry: Entry, id: LogIndex, key: Text)
    requires Inv(hash, app) && Follows(app, entry) && !Effective(hash, app, entry.command, id, key)
    ensures var next := Apply(hash, app, entry).value.app;
      && (id in app.sessions && key in app.sessions[id].keys ==>
            id in next.sessions && key in next.sessions[id].keys
              && next.sessions[id].keys[key] == app.sessions[id].keys[key])
      && LastSequence(next, id, key) == LastSequence(app, id, key)
  {
    assert entry.index in app.sessions ==> SessionOk(hash, entry.index, app.sessions[entry.index], app.lastApplied);
    if RequestOf(entry.command).Some? {
      var r := RequestOf(entry.command).value;
      if Answer(hash, app, r).Some? {
        IneffectiveStep(hash, app, entry);
      } else {
        EffectiveStep(hash, app, entry, r.id, r.key);
      }
    } else {
      QuietStep(hash, app, entry, id, key);
    }
  }

  lemma QuietStep(hash: Hash, app: App, entry: Entry, id: LogIndex, key: Text)
    requires Follows(app, entry) && RequestOf(entry.command).None? && entry.index !in app.sessions
    ensures var next := Apply(hash, app, entry).value.app;
      && (id in app.sessions ==> id in next.sessions && next.sessions[id].keys == app.sessions[id].keys)
      && (id in next.sessions && id !in app.sessions ==> next.sessions[id].keys == map[])
  {
  }

  /** Every rejection changes only the watermark. */
  lemma RejectionChangesNothing(hash: Hash, app: App, entry: Entry)
    requires Inv(hash, app) && Follows(app, entry)
    requires var o := Apply(hash, app, entry).value.outcome; o.Session? && !o.result.ok
    ensures Apply(hash, app, entry).value.app == app.(lastApplied := entry.index)
  {
    if RequestOf(entry.command).Some? {
      var r := RequestOf(entry.command).value;
      if Answer(hash, app, r).Some? {
        IneffectiveStep(hash, app, entry);
      } else {
        EffectiveStep(hash, app, entry, r.id, r.key);
      }
    }
  }

  // ---------------------------------------------------------------- whole logs

  /** The retained sequence number counts the effective mutations. */
  lemma {:induction false} SequenceCounts(hash: Hash, log: seq<Entry>, id: LogIndex, key: Text)
    requires Typed(log)
    ensures LastSequence(Replay(hash, log), id, key) == Count(hash, log, id, key)
    decreases |log|
  {
    if log != [] {
      var init, last := log[..|log| - 1], log[|log| - 1];
      SequenceCounts(hash, init, id, key);
      ReplayOk(hash, init);
      var before := Replay(hash, init);
      if Effective(hash, before, last.command, id, key) {
        EffectiveStep(hash, before, last, id, key);
      } else {
        OtherStep(hash, before, last, id, key);
      }
    }
  }

  /** A numbered log of commands whose strings are UTF-8. */
  predicate Typed(log: seq<Entry>) {
    Numbered(log) && forall i :: 0 <= i < |log| ==> WellTyped(log[i].command)
  }

  lemma {:induction false} CountPrefix(hash: Hash, log: seq<Entry>, i: nat, id: LogIndex, key: Text)
    requires Numbered(log) && i <= |log|
    ensures Count(hash, log[..i], id, key) <= Count(hash, log, id, key)
    decreases |log|
  {
    if i == |log| {
      assert log[..i] == log;
    } else {
      CountPrefix(hash, log[..|log| - 1], i, id, key);
      assert log[..|log| - 1][..i] == log[..i];
    }
  }

  /** Exactly once: the n-th effective mutation of a session's key carries sequence number n. */
  lemma {:induction false} NthCarriesN(hash: Hash, log: seq<Entry>, i: nat, id: LogIndex, key: Text)
    requires Typed(log) && i < |log| && EffectiveAt(hash, log, i, id, key)
    ensures RequestOf(log[i].command).value.sequence == Count(hash, log[..i], id, key) + 1
      == Count(hash, log[..i + 1], id, key)
  {
    var init := log[..i];
    SequenceCounts(hash, init, id, key);
    ReplayOk(hash, init);
    EffectiveStep(hash, Replay(hash, init), log[i], id, key);
    assert log[..i + 1][..i] == init;
  }

  /** No sequence number of a session's key ever takes effect twice. */
  lemma AtMostOnce(hash: Hash, log: seq<Entry>, i: nat, j: nat, id: LogIndex, key: Text)
    requires Typed(log) && i < j < |log| && EffectiveAt(hash, log, i, id, key) && EffectiveAt(hash, log, j, id, key)
    ensures RequestOf(log[i].command).value.sequence < RequestOf(log[j].command).value.sequence
  {
    NthCarriesN(hash, log, i, id, key);
    NthCarriesN(hash, log, j, id, key);
    CountGrows(hash, log, i + 1, j, id, key);
  }

  lemma {:induction false} CountGrows(hash: Hash, log: seq<Entry>, i: nat, j: nat, id: LogIndex, key: Text)
    requires Numbered(log) && i <= j <= |log|
    ensures Count(hash, log[..i], id, key) <= Count(hash, log[..j], id, key)
  {
    CountPrefix(hash, log[..j], i, id, key);
    assert log[..j][..i] == log[..i];
  }

  lemma {:induction false} LastNumberUsed(hash: Hash, log: seq<Entry>, n: nat, id: LogIndex, key: Text)
    requires Typed(log) && log != [] && Count(hash, log[..|log| - 1], id, key) < n <= Count(hash, log, id, key)
    ensures EffectiveAt(hash, log, |log| - 1, id, key) && RequestOf(log[|log| - 1].command).value.sequence == n
  {
    assert log[..|log|] == log;
    NthCarriesN(hash, log, |log| - 1, id, key);
  }

  /** Every number up to the count did take effect. */
  lemma {:induction false} EveryNumberUsed(hash: Hash, log: seq<Entry>, n: nat, id: LogIndex, key: Text)
    returns (i: nat)
    requires Typed(log) && 0 < n <= Count(hash, log, id, key)
    ensures i < |log| && EffectiveAt(hash, log, i, id, key) && RequestOf(log[i].command).value.sequence == n
    decreases |log|
  {
    var init := log[..|log| - 1];
    if n <= Count(hash, init, id, key) {
      i := EveryNumberUsed(hash, init, n, id, key);
      assert log[..i] == init[..i];
    } else {
      i := |log| - 1;
      LastNumberUsed(hash, log, n, id, key);
    }
  }

  // ---------------------------------------------------------------- retries

  lemma {:induction false} ReplayNext(hash: Hash, log: seq<Entry>, i: nat)
    requires Numbered(log) && i < |log|
    ensures Follows(Replay(hash, log[..i]), log[i]) && Apply(hash, Replay(hash, log[..i]), log[i]).Some?
    ensures Replay(hash, log[..i + 1]) == Apply(hash, Replay(hash, log[..i]), log[i]).value.app
  {
    assert log[..i + 1][..i] == log[..i];
  }

  lemma {:induction false} ReplayStep(hash: Hash, log: seq<Entry>, i: nat)
    requires Typed(log) && i < |log|
    ensures Inv(hash, Replay(hash, log[..i])) && Follows(Replay(hash, log[..i]), log[i])
    ensures Apply(hash, Replay(hash, log[..i]), log[i]).Some?
    ensures Replay(hash, log[..i + 1]) == Apply(hash, Replay(hash, log[..i]), log[i]).value.app
  {
    ReplayOk(hash, log[..i]);
    ReplayNext(hash, log, i);
  }

  /** The retry record of a session's key. */
  function Memory(app: App, id: LogIndex, key: Text): Option<KeyRecord> {
    if id in app.sessions && key in app.sessions[id].keys then Some(app.sessions[id].keys[key]) else None
  }

  lemma MemoryStep(hash: Hash, log: seq<Entry>, k: nat, id: LogIndex, key: Text)
    requires Typed(log) && k < |log| && !EffectiveAt(hash, log, k, id, key)
    requires Memory(Replay(hash, log[..k]), id, key).Some?
    ensures Memory(Replay(hash, log[..k + 1]), id, key) == Memory(Replay(hash, log[..k]), id, key)
  {
    ReplayStep(hash, log, k);
    OtherStep(hash, Replay(hash, log[..k]), log[k], id, key);
  }

  /** No entry from `i` up to `j` is effective for the session's key. */
  ghost predicate Quiet(hash: Hash, log: seq<Entry>, i: nat, j: nat, id: LogIndex, key: Text)
    requires Numbered(log) && j <= |log|
  {
    forall k: nat {:trigger EffectiveAt(hash, log, k, id, key)} :: i <= k < j ==> !EffectiveAt(hash, log, k, id, key)
  }

  /** The record survives entries that are not effective for it. */
  lemma {:induction false} MemoryStable(hash: Hash, log: seq<Entry>, i: nat, j: nat, id: LogIndex, key: Text)
    requires Typed(log) && i <= j <= |log| && Quiet(hash, log, i, j, id, key)
    requires Memory(Replay(hash, log[..i]), id, key).Some?
    ensures Memory(Replay(hash, log[..j]), id, key) == Memory(Replay(hash, log[..i]), id, key)
    decreases j
  {
    if i < j {
      var k: nat := j - 1;
      MemoryStable(hash, log, i, k, id, key);
      assert !EffectiveAt(hash, log, k, id, key);
      MemoryStep(hash, log, k, id, key);
    }
  }

  /** A retained request sent again to its open session is answered from memory. */
  lemma RetryAnswered(hash: Hash, app: App, r: Request, payload: Bytes, result: SessionResult)
    requires r.id in app.sessions && app.sessions[r.id].closed.None?
    requires ValidKey(r.key) && (r.value.Some? ==> |r.value.value| <= MAX_VALUE_BYTES) && r.sequence > 0
    requires Memory(app, r.id, r.key) == Some(KeyRecord(r.sequence, hash(payload), payload, result))
    ensures Screen(hash, app, r.id, r.key, r.sequence, r.value, payload) == Some(result)
  {
  }

  lemma RetryStep(hash: Hash, app: App, entry: Entry, r: Request, result: SessionResult)
    requires Follows(app, entry) && RequestOf(entry.command) == Some(r)
    requires r.id in app.sessions && app.sessions[r.id].closed.None?
    requires ValidKey(r.key) && (r.value.Some? ==> |r.value.value| <= MAX_VALUE_BYTES) && r.sequence > 0
    requires var payload := CanonicalPayload(r.key, r.value);
      Memory(app, r.id, r.key) == Some(KeyRecord(r.sequence, hash(payload), payload, result))
    ensures Apply(hash, app, entry) == Some(Step(app.(lastApplied := entry.index), Session(result)))
  {
    RetryAnswered(hash, app, r, CanonicalPayload(r.key, r.value), result);
    IneffectiveStep(hash, app, entry);
  }

  /** What an effective entry leaves in memory: its own request, with its own outcome. */
  lemma Remembered(hash: Hash, log: seq<Entry>, i: nat, id: LogIndex, key: Text)
    requires Typed(log) && i < |log| && EffectiveAt(hash, log, i, id, key)
    ensures var r := RequestOf(log[i].command).value; var payload := CanonicalPayload(key, r.value);
      var result := Success(id, Some(r.sequence), log[i].index);
      && Memory(Replay(hash, log[..i + 1]), id, key) == Some(KeyRecord(r.sequence, hash(payload), payload, result))
      && Apply(hash, Replay(hash, log[..i]), log[i]).value.outcome == Session(result)
      && ValidKey(key) && (r.value.Some? ==> |r.value.value| <= MAX_VALUE_BYTES) && r.sequence > 0
  {
    var r := RequestOf(log[i].command).value;
    ReplayStep(hash, log, i);
    var before := Replay(hash, log[..i]);
    EffectiveStep(hash, before, log[i], id, key);
    Admitted(hash, before, id, key, r.sequence, r.value, CanonicalPayload(key, r.value));
  }

  lemma RetryLater(hash: Hash, log: seq<Entry>, i: nat, j: nat, r: Request, result: SessionResult)
    requires Typed(log) && i <= j < |log| && Quiet(hash, log, i, j, r.id, r.key) && RequestOf(log[j].command) == Some(r)
    requires ValidKey(r.key) && (r.value.Some? ==> |r.value.value| <= MAX_VALUE_BYTES) && r.sequence > 0
    requires var payload := CanonicalPayload(r.key, r.value);
      Memory(Replay(hash, log[..i]), r.id, r.key) == Some(KeyRecord(r.sequence, hash(payload), payload, result))
    requires var app := Replay(hash, log[..j]); r.id in app.sessions && app.sessions[r.id].closed.None?
    ensures var app := Replay(hash, log[..j]);
      Apply(hash, app, log[j]) == Some(Step(app.(lastApplied := j + 1), Session(result)))
  {
    MemoryStable(hash, log, i, j, r.id, r.key);
    RetryStep(hash, Replay(hash, log[..j]), log[j], r, result);
  }

  /** Retry: repeating the latest effective request of a session's key, anywhere later in the log,
      returns the original outcome and changes only the watermark, as long as the session is open. */
  lemma RetryReturnsOriginal(hash: Hash, log: seq<Entry>, i: nat, j: nat, id: LogIndex, key: Text)
    requires Typed(log) && i < j < |log| && EffectiveAt(hash, log, i, id, key) && Quiet(hash, log, i + 1, j, id, key)
    requires RequestOf(log[j].command) == RequestOf(log[i].command)
    requires var app := Replay(hash, log[..j]); id in app.sessions && app.sessions[id].closed.None?
    ensures var first, app := Apply(hash, Replay(hash, log[..i]), log[i]).value.outcome, Replay(hash, log[..j]);
      Apply(hash, app, log[j]) == Some(Step(app.(lastApplied := j + 1), first))
  {
    Remembered(hash, log, i, id, key);
    var r := RequestOf(log[i].command).value;
    RetryLater(hash, log, i + 1, j, r, Success(id, Some(r.sequence), log[i].index));
  }

  // ---------------------------------------------------------------- closed sessions

  lemma ClosedStep(hash: Hash, app: App, entry: Entry, id: LogIndex)
    requires Inv(hash, app) && Follows(app, entry) && id in app.sessions && app.sessions[id].closed.Some?
    ensures var next := Apply(hash, app, entry).value.app; id in next.sessions && next.sessions[id] == app.sessions[id]
  {
    assert entry.index in app.sessions ==> SessionOk(hash, entry.index, app.sessions[entry.index], app.lastApplied);
    if RequestOf(entry.command).Some? {
      var r := RequestOf(entry.command).value;
      if Answer(hash, app, r).Some? {
        IneffectiveStep(hash, app, entry);
      } else {
        EffectiveStep(hash, app, entry, r.id, r.key);
      }
    }
  }

  lemma ClosedStepAt(hash: Hash, log: seq<Entry>, k: nat, id: LogIndex)
    requires Typed(log) && k < |log|
    requires var app := Replay(hash, log[..k]); id in app.sessions && app.sessions[id].closed.Some?
    ensures var next := Replay(hash, log[..k + 1]);
      id in next.sessions && next.sessions[id] == Replay(hash, log[..k]).sessions[id]
  {
    ReplayStep(hash, log, k);
    ClosedStep(hash, Replay(hash, log[..k]), log[k], id);
  }

  /** A closed session is frozen for the rest of the log ... */
  lemma {:induction false} ClosedForever(hash: Hash, log: seq<Entry>, i: nat, j: nat, id: LogIndex)
    requires Typed(log) && i <= j <= |log|
    requires var app := Replay(hash, log[..i]); id in app.sessions && app.sessions[id].closed.Some?
    ensures var later := Replay(hash, log[..j]);
      id in later.sessions && later.sessions[id] == Replay(hash, log[..i]).sessions[id]
    decreases j
  {
    if i < j {
      ClosedForever(hash, log, i, j - 1, id);
      ClosedStepAt(hash, log, j - 1, id);
    }
  }

  /** ... and no later entry mutates through it. */
  lemma ClosedNeverMutates(hash: Hash, log: seq<Entry>, i: nat, k: nat, id: LogIndex, key: Text)
    requires Typed(log) && i <= k < |log|
    requires var app := Replay(hash, log[..i]); id in app.sessions && app.sessions[id].closed.Some?
    ensures !EffectiveAt(hash, log, k, id, key)
  {
    ClosedForever(hash, log, i, k, id);
    ClosedRefuses(hash, Replay(hash, log[..k]), log[k].command, id, key);
  }

  lemma ClosedRefuses(hash: Hash, app: App, command: Command, id: LogIndex, key: Text)
    requires id in app.sessions && app.sessions[id].closed.Some?
    ensures !Effective(hash, app, command, id, key)
  {
  }
}
