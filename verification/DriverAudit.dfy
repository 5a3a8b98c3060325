/** The driver executes effect batches in order; durable callbacks splice further batches in at the
    front of the queue, and a storage failure cuts execution short. Messages still never overtake
    the saves their own batch orders before them. */
module DriverAudit {
  import opened Types
  import opened RaftCore

  // ---------------------------------------------------------------- the audit

  predicate IsHard(e: Effect) { e.PersistHardState? }

  predicate IsLog(e: Effect) { e.PersistLogEntries? }

  predicate Solicits(e: Effect) { e.Send? && e.msg.RequestVote? }

  predicate Grants(e: Effect) { e.Send? && e.msg.RequestVoteReply? && e.msg.granted }

  predicate Acknowledges(e: Effect) { e.Send? && e.msg.AppendEntriesReply? && e.msg.success }

  /** Position of the first effect of a kind. */
  function First(batch: seq<Effect>, kind: Effect -> bool): (r: Option<nat>)
    ensures r.Some? ==> r.value < |batch| && kind(batch[r.value]) && forall i :: 0 <= i < r.value ==> !kind(batch[i])
    ensures r.None? ==> forall i :: 0 <= i < |batch| ==> !kind(batch[i])
  {
    if batch == [] then None
    else if kind(batch[0]) then Some(0)
    else
      var rest := First(batch[1..], kind);
      if rest.None? then None else Some(rest.value + 1)
  }

  predicate RequirePrior(persistAt: Option<nat>, sendAt: nat) {
    persistAt.Some? && persistAt.value < sendAt
  }

  lemma {:induction false} FirstDecides(batch: seq<Effect>, kind: Effect -> bool, at: nat)
    requires at < |batch|
    ensures RequirePrior(First(batch, kind), at) <==> SavedBefore(batch, at, kind)
    ensures First(batch, kind).Some? <==> Saves(batch, kind)
  {
  }

  method Audit(batch: seq<Effect>) returns (ok: bool)
    ensures ok <==> Audited(batch)
  {
    var firstHard, firstLog := First(batch, IsHard), First(batch, IsLog);
    var at := 0;
    while at < |batch|
      invariant at <= |batch| && forall i :: 0 <= i < at ==> SendOk(batch, i)
    {
      var e := batch[at];
      FirstDecides(batch, IsHard, at);
      FirstDecides(batch, IsLog, at);
      var violates := (Solicits(e) && !RequirePrior(firstHard, at))
                   || (Grants(e) && firstHard.Some? && !RequirePrior(firstHard, at))
                   || (Acknowledges(e) && firstLog.Some? && !RequirePrior(firstLog, at));
      assert violates <==> !SendOk(batch, at);
      if violates { return false; }
      at := at + 1;
    }
    return true;
  }

  /** A vote request follows a hard-state save; a granted vote or a successful append reply follows
      the first save of its kind in the batch, when there is one. */
  predicate SendOk(batch: seq<Effect>, i: nat)
    requires i < |batch|
  {
    && (Solicits(batch[i]) ==> SavedBefore(batch, i, IsHard))
    && (Grants(batch[i]) && Saves(batch, IsHard) ==> SavedBefore(batch, i, IsHard))
    && (Acknowledges(batch[i]) && Saves(batch, IsLog) ==> SavedBefore(batch, i, IsLog))
  }

  predicate Saves(batch: seq<Effect>, kind: Effect -> bool) {
    exists j :: 0 <= j < |batch| && kind(batch[j])
  }

  predicate SavedBefore(batch: seq<Effect>, i: nat, kind: Effect -> bool)
    requires i <= |batch|
  {
    exists j :: 0 <= j < i && kind(batch[j])
  }

  predicate Audited(batch: seq<Effect>) {
    forall i :: 0 <= i < |batch| ==> SendOk(batch, i)
  }

  // ---------------------------------------------------------------- execution

  /** One effect, with the batch it came from and its place there. */
  datatype Item = Item(batch: nat, at: nat, effect: Effect)

  function Items(id: nat, batch: seq<Effect>): (r: seq<Item>)
    ensures |r| == |batch| && forall i :: 0 <= i < |r| ==> r[i] == Item(id, i, batch[i])
  {
    seq(|batch|, i requires 0 <= i < |batch| => Item(id, i, batch[i]))
  }

  /** The item is preceded in `line`, before position `i`, by the item at place `q` of its batch. */
  ghost predicate Preceded(batches: seq<seq<Effect>>, line: seq<Item>, i: nat, q: nat)
    requires i < |line|
  {
    line[i].batch < |batches| && q < |batches[line[i].batch]| &&
    exists j :: 0 <= j < i && line[j] == Item(line[i].batch, q, batches[line[i].batch][q])
  }

  /** Items are genuine, and every item comes after all earlier items of its own batch. */
  ghost predicate InOrder(batches: seq<seq<Effect>>, line: seq<Item>) {
    && (forall i :: 0 <= i < |line| ==> line[i].batch < |batches| && line[i].at < |batches[line[i].batch]|
                                        && line[i].effect == batches[line[i].batch][line[i].at])
    && (forall i, q: nat {:trigger Preceded(batches, line, i, q)} :: 0 <= i < |line| && q < line[i].at ==>
        Preceded(batches, line, i, q))
  }

  /** Splicing in a new batch disturbs no other batch's order. */
  lemma Splice(batches: seq<seq<Effect>>, done: seq<Item>, rest: seq<Item>, batch: seq<Effect>)
    requires InOrder(batches, done + rest)
    ensures InOrder(batches + [batch], done + Items(|batches|, batch) + rest)
  {
    var old_, own := done + rest, Items(|batches|, batch);
    var line, all := done + own + rest, batches + [batch];
    forall i | 0 <= i < |line|
      ensures line[i].batch < |all| && line[i].at < |all[line[i].batch]|
        && line[i].effect == all[line[i].batch][line[i].at]
    {
      Locate(done, own, rest, i);
    }
    forall i, q: nat | 0 <= i < |line| && q < line[i].at ensures Preceded(all, line, i, q) {
      Locate(done, own, rest, i);
      if |done| <= i < |done| + |own| {
        assert line[|done| + q] == own[q] == Item(|batches|, q, batch[q]);
      } else {
        var k := if i < |done| then i else i - |own|;
        assert line[i] == old_[k];
        assert Preceded(batches, old_, k, q);
        var j :| 0 <= j < k && old_[j] == Item(old_[k].batch, q, batches[old_[k].batch][q]);
        Locate(done, own, rest, if j < |done| then j else j + |own|);
      }
    }
  }

  lemma Locate(done: seq<Item>, own: seq<Item>, rest: seq<Item>, i: nat)
    requires i < |done| + |own| + |rest|
    ensures (done + own + rest)[i] ==
      if i < |done| then (done + rest)[i] else if i < |done| + |own| then own[i - |done|] else (done + rest)[i - |own|]
  {
  }

  /** Every effect of every batch is somewhere in the line. */
  ghost predicate Complete(batches: seq<seq<Effect>>, line: seq<Item>) {
    forall b: nat, q: nat {:trigger Occurs(batches, line, b, q)} :: b < |batches| && q < |batches[b]| ==>
      Occurs(batches, line, b, q)
  }

  ghost predicate Occurs(batches: seq<seq<Effect>>, line: seq<Item>, b: nat, q: nat)
    requires b < |batches| && q < |batches[b]|
  {
    exists i :: 0 <= i < |line| && line[i] == Item(b, q, batches[b][q])
  }

  /** No effect is in the line twice. */
  ghost predicate Once(line: seq<Item>) {
    forall i, j :: 0 <= i < j < |line| ==> line[i] != line[j]
  }

  lemma SpliceWhole(batches: seq<seq<Effect>>, done: seq<Item>, rest: seq<Item>, batch: seq<Effect>)
    requires InOrder(batches, done + rest) && Complete(batches, done + rest) && Once(done + rest)
    ensures var line := done + Items(|batches|, batch) + rest; Complete(batches + [batch], line) && Once(line)
  {
    var line0, own := done + rest, Items(|batches|, batch);
    var line, all := done + own + rest, batches + [batch];
    forall b: nat, q: nat | b < |all| && q < |all[b]| ensures Occurs(all, line, b, q) {
      if b == |batches| {
        assert line[|done| + q] == own[q];
      } else {
        assert Occurs(batches, line0, b, q);
        var i :| 0 <= i < |line0| && line0[i] == Item(b, q, batches[b][q]);
        Locate(done, own, rest, if i < |done| then i else i + |own|);
      }
    }
    forall i, j | 0 <= i < j < |line| ensures line[i] != line[j] {
      Locate(done, own, rest, i);
      Locate(done, own, rest, j);
    }
  }

  lemma FirstBatch(first: seq<Effect>)
    ensures var line := [] + Items(0, first); InOrder([first], line) && Complete([first], line) && Once(line)
  {
    var line := [] + Items(0, first);
    forall i, q: nat | 0 <= i < |line| && q < line[i].at ensures Preceded([first], line, i, q) {
      assert line[q] == Item(0, q, first[q]);
    }
    forall b: nat, q: nat | b < |[first]| && q < |[first][b]| ensures Occurs([first], line, b, q) {
      assert line[q] == Item(0, q, first[q]);
    }
  }

  ghost predicate AllAudited(batches: seq<seq<Effect>>) {
    forall b {:trigger batches[b]} :: 0 <= b < |batches| ==> Audited(batches[b])
  }

  ghost predicate AllSafe(batches: seq<seq<Effect>>, trace: seq<Item>) {
    forall i {:trigger SafeSend(batches, trace, i)} :: 0 <= i < |trace| ==> SafeSend(batches, trace, i)
  }

  /** `trace`, then the queued effects in the order they run when nothing fails: a callback's batch runs
      before whatever was queued. */
  function Schedule(trace: seq<Item>, queue: seq<Item>, callbacks: seq<seq<Effect>>, used: nat,
                    calls: nat -> bool): seq<Item>
    requires used <= |callbacks|
    decreases |callbacks| - used, |queue|
  {
    if queue == [] then trace
    else if calls(|trace| + 1) && used < |callbacks| then
      Schedule(trace + [queue[0]], Items(used + 1, callbacks[used]) + queue[1..], callbacks, used + 1, calls)
    else Schedule(trace + [queue[0]], queue[1..], callbacks, used, calls)
  }

  lemma {:induction false} ScheduleExtends(trace: seq<Item>, queue: seq<Item>, callbacks: seq<seq<Effect>>, used: nat,
                                           calls: nat -> bool)
    requires used <= |callbacks|
    ensures trace <= Schedule(trace, queue, callbacks, used, calls)
    decreases |callbacks| - used, |queue|
  {
    if queue != [] {
      if calls(|trace| + 1) && used < |callbacks| {
        ScheduleExtends(trace + [queue[0]], Items(used + 1, callbacks[used]) + queue[1..], callbacks, used + 1, calls);
      } else {
        ScheduleExtends(trace + [queue[0]], queue[1..], callbacks, used, calls);
      }
    }
  }

  /** Effects that ran: whole batches or their beginnings, none twice, every send behind its saves. */
  ghost predicate Executed(batches: seq<seq<Effect>>, trace: seq<Item>) {
    InOrder(batches, trace) && Once(trace) && AllAudited(batches) && AllSafe(batches, trace)
  }

  /** Runs effects until the queue is empty or something fails. `fails` says which step's storage or
      application fails (a send cannot), `calls` which step triggers the next callback batch; `trace`
      lists the effects that completed. Persist before send holds in the trace, wherever it was cut and
      whatever was spliced in; success means every effect of every batch ran, once. */
  method Execute(first: seq<Effect>, callbacks: seq<seq<Effect>>, fails: nat -> bool, calls: nat -> bool)
    returns (trace: seq<Item>, ghost batches: seq<seq<Effect>>, ok: bool)
    ensures batches <= [first] + callbacks && (batches != [] <==> Audited(first))
    ensures Executed(batches, trace)
    ensures trace <= Schedule([], Items(0, first), callbacks, 0, calls)
    ensures ok ==>
      batches != [] && Complete(batches, trace) && trace == Schedule([], Items(0, first), callbacks, 0, calls)
    ensures !ok ==> fails(|trace|) || (|batches| <= |callbacks| && !Audited(([first] + callbacks)[|batches|]))
  {
    trace, batches := [], [];
    var passed := Audit(first);
    if !passed { return trace, batches, false; }
    var queue, used := Items(0, first), 0;
    batches := [first];
    SoundStart(first);
    ghost var whole := Schedule([], queue, callbacks, 0, calls);
    while queue != []
      invariant used <= |callbacks| && batches == [first] + callbacks[..used] && Sound(batches, trace, queue)
      invariant whole == Schedule(trace, queue, callbacks, used, calls)
      decreases |callbacks| - used, |queue|
    {
      ScheduleExtends(trace, queue, callbacks, used, calls);
      if !queue[0].effect.Send? && fails(|trace|) {
        Finish(batches, trace, queue);
        return trace, batches, false;
      }
      Advance(batches, trace, queue);
      trace, queue := trace + [queue[0]], queue[1..];
      if calls(|trace|) && used < |callbacks| {
        passed := Audit(callbacks[used]);
        if !passed {
          ScheduleExtends(trace, Items(used + 1, callbacks[used]) + queue, callbacks, used + 1, calls);
          Finish(batches, trace, queue);
          return trace, batches, false;
        }
        SpliceSound(batches, trace, queue, callbacks[used]);
        queue := Items(used + 1, callbacks[used]) + queue;
        batches := batches + [callbacks[used]];
        used := used + 1;
      }
    }
    Finish(batches, trace, queue);
    return trace, batches, true;
  }

  ghost predicate Holds(batches: seq<seq<Effect>>, trace: seq<Item>, queue: seq<Item>) {
    InOrder(batches, trace + queue) && Complete(batches, trace + queue) && Once(trace + queue) && AllAudited(batches)
  }

  /** What holds of the executed and the queued effects together. Said through a quantifier, so that proofs
      open it only where they mention `Holds`. */
  ghost predicate Sound(batches: seq<seq<Effect>>, trace: seq<Item>, queue: seq<Item>) {
    forall q {:trigger Holds(batches, trace, q)} :: q == queue ==> Holds(batches, trace, q)
  }

  lemma SoundExact(batches: seq<seq<Effect>>, trace: seq<Item>, queue: seq<Item>)
    ensures Sound(batches, trace, queue) <==> Holds(batches, trace, queue)
  {
  }

  lemma SoundStart(first: seq<Effect>)
    requires Audited(first)
    ensures Sound([first], [], Items(0, first))
  {
    FirstBatch(first);
    SoundExact([first], [], Items(0, first));
  }

  lemma Advance(batches: seq<seq<Effect>>, trace: seq<Item>, queue: seq<Item>)
    requires Sound(batches, trace, queue) && queue != []
    ensures Sound(batches, trace + [queue[0]], queue[1..])
  {
    SoundExact(batches, trace, queue);
    assert trace + queue == trace + [queue[0]] + queue[1..];
    SoundExact(batches, trace + [queue[0]], queue[1..]);
  }

  lemma SpliceSound(batches: seq<seq<Effect>>, trace: seq<Item>, queue: seq<Item>, batch: seq<Effect>)
    requires Sound(batches, trace, queue) && Audited(batch)
    ensures Sound(batches + [batch], trace, Items(|batches|, batch) + queue)
  {
    SoundExact(batches, trace, queue);
    Splice(batches, trace, queue, batch);
    SpliceWhole(batches, trace, queue, batch);
    assert trace + Items(|batches|, batch) + queue == trace + (Items(|batches|, batch) + queue);
    SoundExact(batches + [batch], trace, Items(|batches|, batch) + queue);
  }

  /** What a cut leaves behind is still in order and safe; with nothing left, it is everything. */
  lemma Finish(batches: seq<seq<Effect>>, trace: seq<Item>, queue: seq<Item>)
    requires Sound(batches, trace, queue)
    ensures Executed(batches, trace)
    ensures queue == [] ==> Complete(batches, trace)
  {
    SoundExact(batches, trace, queue);
    Prefix(batches, trace, queue);
    TraceSafe(batches, trace);
    assert forall i :: 0 <= i < |trace| ==> trace[i] == (trace + queue)[i];
    if queue == [] { assert trace + queue == trace; }
  }

  lemma TraceSafe(batches: seq<seq<Effect>>, trace: seq<Item>)
    requires InOrder(batches, trace) && AllAudited(batches)
    ensures AllSafe(batches, trace)
  {
    forall i | 0 <= i < |trace| ensures SafeSend(batches, trace, i) { SendIsSafe(batches, trace, i); }
  }

  lemma Prefix(batches: seq<seq<Effect>>, trace: seq<Item>, queue: seq<Item>)
    requires InOrder(batches, trace + queue)
    ensures InOrder(batches, trace)
  {
    var line := trace + queue;
    assert forall i :: 0 <= i < |trace| ==> trace[i] == line[i];
    forall i, q: nat | 0 <= i < |trace| && q < trace[i].at ensures Preceded(batches, trace, i, q) {
      assert Preceded(batches, line, i, q);
      var j :| 0 <= j < i && line[j] == Item(line[i].batch, q, batches[line[i].batch][q]);
      assert trace[j] == line[j];
    }
  }

  /** A completed save of the item's own batch stands before it in the trace. */
  ghost predicate SavedInTrace(trace: seq<Item>, i: nat, kind: Effect -> bool)
    requires i < |trace|
  {
    exists j :: 0 <= j < i && trace[j].batch == trace[i].batch && kind(trace[j].effect)
  }

  /** Persist before send, in the executed trace. */
  ghost predicate SafeSend(batches: seq<seq<Effect>>, trace: seq<Item>, i: nat)
    requires i < |trace|
  {
    trace[i].batch < |batches| &&
    var batch := batches[trace[i].batch];
    && (Solicits(trace[i].effect) ==> SavedInTrace(trace, i, IsHard))
    && (Grants(trace[i].effect) && Saves(batch, IsHard) ==> SavedInTrace(trace, i, IsHard))
    && (Acknowledges(trace[i].effect) && Saves(batch, IsLog) ==> SavedInTrace(trace, i, IsLog))
  }

  lemma SavedCarries(batches: seq<seq<Effect>>, trace: seq<Item>, i: nat, kind: Effect -> bool)
    requires InOrder(batches, trace) && i < |trace| && SavedBefore(batches[trace[i].batch], trace[i].at, kind)
    ensures SavedInTrace(trace, i, kind)
  {
    var batch := batches[trace[i].batch];
    var q: nat :| q < trace[i].at && kind(batch[q]);
    assert Preceded(batches, trace, i, q);
  }

  lemma SendIsSafe(batches: seq<seq<Effect>>, trace: seq<Item>, i: nat)
    requires InOrder(batches, trace) && i < |trace| && AllAudited(batches)
    ensures SafeSend(batches, trace, i)
  {
    var batch, at := batches[trace[i].batch], trace[i].at;
    assert SendOk(batch, at);
    if SavedBefore(batch, at, IsHard) { SavedCarries(batches, trace, i, IsHard); }
    if SavedBefore(batch, at, IsLog) { SavedCarries(batches, trace, i, IsLog); }
  }
}
