/** Client responses through the driver: every live waiter is answered exactly once, a definite
    rejection only if its command never entered the log, an outcome only at its own index. */
module DriverResponses {
  import opened Types

  /** One client waiting for one command. */
  type Waiter = nat

  datatype Answer = NotLeader | Applied(index: LogIndex, result: nat) | OutcomeUnknown

  /** The effects that concern waiting clients; `result` is what the application answered. */
  datatype Effect =
    | ProposeAccepted(index: LogIndex)
    | ProposeRejected
    | Apply(index: LogIndex, result: nat)
    | LostLeadership
    | SnapshotApplied(boundary: LogIndex)
    | Persist
    | Other

  function Firsts(answers: seq<(Waiter, Answer)>): set<Waiter> {
    set i | 0 <= i < |answers| :: answers[i].0
  }

  function Queued(responses: seq<Waiter>): set<Waiter> {
    set i | 0 <= i < |responses| :: responses[i]
  }

  predicate AnsweredOnce(answers: seq<(Waiter, Answer)>) {
    forall i, j :: 0 <= i < j < |answers| ==> answers[i].0 != answers[j].0
  }

  predicate Unrepeated(responses: seq<Waiter>) {
    forall i, j :: 0 <= i < j < |responses| ==> responses[i] != responses[j]
  }

  predicate OneIndexEach(pending: map<LogIndex, Waiter>) {
    forall i, j :: i in pending && j in pending && pending[i] == pending[j] ==> i == j
  }

  /** What an answer says about where its command went. */
  predicate Truthful(accepted: map<Waiter, LogIndex>, w: Waiter, a: Answer) {
    match a
    case NotLeader => w !in accepted
    case Applied(index, _) => w in accepted && accepted[w] == index
    case OutcomeUnknown => true
  }

  /** Each admitted waiter is queued, pending, answered, lost or gone, and in one of these places only. */
  ghost predicate Placed(responses: seq<Waiter>, pending: map<LogIndex, Waiter>, answers: seq<(Waiter, Answer)>,
                         admitted: set<Waiter>, hungUp: set<Waiter>, lost: set<Waiter>) {
    && Unrepeated(responses) && OneIndexEach(pending) && AnsweredOnce(answers)
    && Queued(responses) !! pending.Values && Queued(responses) !! Firsts(answers) && pending.Values !! Firsts(answers)
    && Queued(responses) + pending.Values + Firsts(answers) <= admitted && lost <= admitted
    && admitted - hungUp - lost <= Queued(responses) + pending.Values + Firsts(answers)
    && lost !! Queued(responses) + pending.Values + Firsts(answers)
  }

  /** Pending waiters wait at the index they were accepted at, queued ones at none, and no answer lies. */
  ghost predicate Honest(responses: seq<Waiter>, pending: map<LogIndex, Waiter>, answers: seq<(Waiter, Answer)>,
                         accepted: map<Waiter, LogIndex>, admitted: set<Waiter>) {
    && (forall i :: 0 <= i < |responses| ==> responses[i] !in accepted)
    && (forall i :: i in pending ==> pending[i] in accepted && accepted[pending[i]] == i)
    && (forall i :: 0 <= i < |answers| ==> Truthful(accepted, answers[i].0, answers[i].1))
    && accepted.Keys <= admitted
  }

  // ---------------------------------------------------------------- what each effect does

  /** What the driver holds: clients awaiting a verdict, clients awaiting an outcome, answers sent; and which
      clients have closed their end by now. */
  datatype State = State(responses: seq<Waiter>, pending: map<LogIndex, Waiter>, answers: seq<(Waiter, Answer)>,
                         hungUp: set<Waiter>)

  /** Nobody is dropped, answered twice or lied to. */
  ghost predicate Conserved(s: State, admitted: set<Waiter>, accepted: map<Waiter, LogIndex>, lost: set<Waiter>) {
    Placed(s.responses, s.pending, s.answers, admitted, s.hungUp, lost)
      && Honest(s.responses, s.pending, s.answers, accepted, admitted)
  }

  /** The clients waiting at `covered`, and nobody else, get an unknown outcome. */
  ghost predicate Unknown(s: State, covered: set<LogIndex>, t: State) {
    && t.responses == s.responses && t.hungUp == s.hungUp && t.pending == s.pending - covered
    && covered <= s.pending.Keys
    && s.answers <= t.answers && |t.answers| == |s.answers| + |covered|
    && (forall i :: i in covered ==> (s.pending[i], OutcomeUnknown) in t.answers[|s.answers|..])
    && forall k :: |s.answers| <= k < |t.answers| ==> t.answers[k].1 == OutcomeUnknown
  }

  function Upto(pending: map<LogIndex, Waiter>, boundary: LogIndex): set<LogIndex> {
    set i | i in pending && i <= boundary
  }

  /** The client an effect leaves without an answer: an acceptance at an index another client waits at. */
  function Displaced(s: State, e: Effect): set<Waiter> {
    if e.ProposeAccepted? && s.responses != [] && s.responses[0] !in s.hungUp && e.index in s.pending
    then {s.pending[e.index]} else {}
  }

  /** One effect takes `s` to `t`; `ok` says whether the batch goes on. */
  ghost predicate Step(s: State, e: Effect, failed: bool, t: State, ok: bool) {
    match e
    case ProposeAccepted(index) =>
      if s.responses == [] then t == s && !ok
      else
        var w := s.responses[0];
        && t == s.(responses := s.responses[1..], pending := if w in s.hungUp then s.pending else s.pending[index := w])
        && (ok <==> Displaced(s, e) == {})
    case ProposeRejected =>
      if s.responses == [] then t == s && !ok
      else ok && t == s.(responses := s.responses[1..], answers := s.answers + [(s.responses[0], NotLeader)])
    case Apply(index, result) =>
      if failed then t == s && !ok
      else ok && t == s.(pending := s.pending - {index},
                         answers := if index in s.pending
                           then s.answers + [(s.pending[index], Applied(index, result))] else s.answers)
    case LostLeadership => ok && Unknown(s, s.pending.Keys, t)
    case SnapshotApplied(boundary) => if failed then t == s && !ok else ok && Unknown(s, Upto(s.pending, boundary), t)
    case Persist => t == s && ok == !failed
    case Other => t == s && ok
  }

  function Unknowns(responses: seq<Waiter>): seq<(Waiter, Answer)> {
    seq(|responses|, i requires 0 <= i < |responses| => (responses[i], OutcomeUnknown))
  }

  lemma PopUnknowns(responses: seq<Waiter>)
    requires responses != []
    ensures Unknowns(responses) == [(responses[0], OutcomeUnknown)] + Unknowns(responses[1..])
  {
  }

  /** The state once the clients `gone` have closed their end. */
  function Without(s: State, gone: set<Waiter>): State {
    s.(hungUp := s.hungUp + gone)
  }

  /** Step `i` of a batch: some clients hang up, then the effect runs; only the last step of an unsuccessful
      batch fails. */
  ghost predicate StepAt(run: seq<State>, effects: seq<Effect>, fails: nat -> bool, hangs: nat -> set<Waiter>, ok: bool,
                         i: nat)
    requires i + 1 < |run| && i < |effects|
  {
    Step(Without(run[i], hangs(i)), effects[i], fails(i), run[i + 1], ok || i + 2 < |run|)
  }

  /** The states of one batch, effect by effect: every effect succeeded, or the last one tried ended it. */
  ghost predicate Run(run: seq<State>, effects: seq<Effect>, fails: nat -> bool, hangs: nat -> set<Waiter>, ok: bool) {
    && 0 < |run| <= |effects| + 1 && (ok || |run| > 1)
    && forall i: nat {:trigger StepAt(run, effects, fails, hangs, ok, i)} ::
         i + 1 < |run| ==> StepAt(run, effects, fails, hangs, ok, i)
  }

  lemma RunSnoc(run: seq<State>, effects: seq<Effect>, fails: nat -> bool, hangs: nat -> set<Waiter>, t: State,
                ok: bool)
    requires Run(run, effects, fails, hangs, true) && |run| <= |effects|
    requires Step(Without(run[|run| - 1], hangs(|run| - 1)), effects[|run| - 1], fails(|run| - 1), t, ok)
    ensures Run(run + [t], effects, fails, hangs, ok)
  {
    var next := run + [t];
    forall i: nat | i + 1 < |next| ensures StepAt(next, effects, fails, hangs, ok, i) {
      if i + 1 < |run| { assert StepAt(run, effects, fails, hangs, true, i); }
    }
  }

  /** The clients a batch loses: a displacement fails its step, so only the last step can cause one. */
  function Lost(run: seq<State>, effects: seq<Effect>, hangs: nat -> set<Waiter>, ok: bool): set<Waiter>
    requires ok || 1 < |run| <= |effects| + 1
  {
    if ok then {} else Displaced(Without(run[|run| - 2], hangs(|run| - 2)), effects[|run| - 2])
  }

  /** It does happen, if the core hands out an index twice: client 0 waits at 5 and is forgotten. */
  lemma DuplicateIndexLoses()
    ensures var s := State([1], map[5 := 0], [], {});
      Step(s, ProposeAccepted(5), false, State([], map[5 := 1], [], {}), false)
        && Displaced(s, ProposeAccepted(5)) == {0}
  {
    assert map[5 := 0][5 := 1] == map[5 := 1];
  }

  /** The verdicts a batch holds for queued clients. */
  function Verdicts(effects: seq<Effect>): nat {
    if effects == [] then 0
    else (if effects[0].ProposeAccepted? || effects[0].ProposeRejected? then 1 else 0) + Verdicts(effects[1..])
  }

  /** The indices a batch accepts commands at. */
  function AcceptedAt(effects: seq<Effect>): set<LogIndex> {
    set i | 0 <= i < |effects| && effects[i].ProposeAccepted? :: effects[i].index
  }

  /** What is left of a batch when it ends: the queue is emptied with explicit unknowns. */
  function Ended(s: State): State {
    s.(responses := [], answers := s.answers + Unknowns(s.responses))
  }

  lemma UnknownMore(s: State, covered: set<LogIndex>, m: State, i: LogIndex)
    requires Unknown(s, covered, m) && i in s.pending && i !in covered
    ensures Unknown(s, covered + {i},
                    m.(pending := m.pending - {i}, answers := m.answers + [(s.pending[i], OutcomeUnknown)]))
  {
    var late, more := m.answers[|s.answers|..], (s.pending[i], OutcomeUnknown);
    var answers := m.answers + [more];
    assert answers[|s.answers|..] == late + [more];
    assert s.pending - covered - {i} == s.pending - (covered + {i});
    assert more in late + [more] by { assert (late + [more])[|late|] == more; }
  }

  function Live(waiters: seq<Waiter>, hungUp: set<Waiter>): seq<Waiter> {
    if waiters == [] then []
    else Live(waiters[..|waiters| - 1], hungUp) + if waiters[|waiters| - 1] in hungUp then []
      else [waiters[|waiters| - 1]]
  }

  lemma QueuedSnoc(responses: seq<Waiter>, w: Waiter)
    ensures Queued(responses + [w]) == Queued(responses) + {w}
  {
    var more := responses + [w];
    assert more[|responses|] == w && forall i :: 0 <= i < |responses| ==> more[i] == responses[i];
  }

  lemma PopQueued(responses: seq<Waiter>)
    requires Unrepeated(responses) && responses != []
    ensures Unrepeated(responses[1..]) && Queued(responses) == Queued(responses[1..]) + {responses[0]}
      && responses[0] !in Queued(responses[1..])
  {
    var rest := responses[1..];
    assert forall i :: 0 < i < |responses| ==> responses[i] == rest[i - 1];
  }

  /** Accepting the first queued waiter at `index`: it moves there, displacing whoever waited there. */
  lemma AcceptPlaced(responses: seq<Waiter>, pending: map<LogIndex, Waiter>, answers: seq<(Waiter, Answer)>,
                     admitted: set<Waiter>, hungUp: set<Waiter>, lost: set<Waiter>, index: LogIndex)
    requires Placed(responses, pending, answers, admitted, hungUp, lost) && responses != []
    ensures responses[0] in hungUp ==> Placed(responses[1..], pending, answers, admitted, hungUp, lost)
    ensures Placed(responses[1..], pending[index := responses[0]], answers, admitted, hungUp,
                   if index in pending then lost + {pending[index]} else lost)
  {
    PopQueued(responses);
    Replace(pending, index, responses[0]);
  }

  lemma AcceptHonest(responses: seq<Waiter>, pending: map<LogIndex, Waiter>, answers: seq<(Waiter, Answer)>,
                     accepted: map<Waiter, LogIndex>, admitted: set<Waiter>, hungUp: set<Waiter>, lost: set<Waiter>,
                     index: LogIndex)
    requires Honest(responses, pending, answers, accepted, admitted) && responses != []
    requires Placed(responses, pending, answers, admitted, hungUp, lost)
    ensures Honest(responses[1..], pending, answers, accepted[responses[0] := index], admitted)
    ensures Honest(responses[1..], pending[index := responses[0]], answers, accepted[responses[0] := index], admitted)
  {
    PopQueued(responses);
    var w := responses[0];
    assert w in Queued(responses);
    forall i | 0 <= i < |answers| ensures answers[i].0 != w { assert answers[i].0 in Firsts(answers); }
    forall i | i in pending ensures pending[i] != w { assert pending[i] in pending.Values; }
    forall i | 0 <= i < |responses[1..]|
      ensures responses[1..][i] != w
    {
      assert responses[1..][i] in Queued(responses[1..]);
    }
  }

  /** `hungUp` are the clients that have closed their end; they may do so at any time. */
  class Responder {
    var hungUp: set<Waiter>
    var responses: seq<Waiter>
    var pending: map<LogIndex, Waiter>
    var answers: seq<(Waiter, Answer)>
    ghost var admitted: set<Waiter>
    ghost var accepted: map<Waiter, LogIndex>
    ghost var lost: set<Waiter>

    /** Every admitted live waiter is in exactly one place: queued, pending at its index, or answered
        once. `lost` are those whose pending index was handed to another. Said through a quantifier, so that
        proofs open it only where they mention `Conserved`. */
    ghost predicate Valid()
      reads this
    {
      forall s {:trigger Conserved(s, admitted, accepted, lost)} :: s == View() ==>
        Conserved(s, admitted, accepted, lost)
    }

    ghost function View(): State
      reads this
    {
      State(responses, pending, answers, hungUp)
    }

    constructor ()
      ensures Valid() && hungUp == {} && admitted == {} && lost == {} && responses == [] && pending == map[]
        && answers == []
    {
      hungUp, responses, pending, answers, admitted, accepted, lost := {}, [], map[], [], {}, map[], {};
      new;
      assert Conserved(View(), admitted, accepted, lost);
    }

    /** Clients may close their end at any moment, wherever they wait. */
    method HangUp(gone: set<Waiter>)
      requires Valid()
      modifies `hungUp
      ensures Valid() && View() == Without(old(View()), gone)
    {
      assert Conserved(View(), admitted, accepted, lost);
      hungUp := hungUp + gone;
      assert Conserved(View(), admitted, accepted, lost);
    }

    /** One new client, queued unless it is gone already. */
    method AdmitOne(w: Waiter)
      requires Valid() && w !in admitted
      modifies `responses, `admitted
      ensures Valid() && admitted == old(admitted) + {w}
      ensures responses == old(responses) + if w in hungUp then [] else [w]
    {
      assert Conserved(View(), admitted, accepted, lost);
      if w !in hungUp {
        QueuedSnoc(responses, w);
        forall i | 0 <= i < |responses| ensures responses[i] != w { assert responses[i] in Queued(responses); }
        responses := responses + [w];
      }
      admitted := admitted + {w};
      assert Conserved(View(), admitted, accepted, lost);
    }

    /** A batch of distinct new clients; those already gone are dropped before admission. */
    method Admit(waiters: seq<Waiter>)
      requires Valid() && responses == [] && Unrepeated(waiters) && Queued(waiters) !! admitted
      modifies `responses, `admitted
      ensures Valid() && admitted == old(admitted) + Queued(waiters) && responses == Live(waiters, hungUp)
    {
      var n := 0;
      while n < |waiters|
        invariant n <= |waiters| && Valid() && admitted == old(admitted) + Queued(waiters[..n])
        invariant responses == Live(waiters[..n], hungUp)
      {
        assert waiters[n] in Queued(waiters) && waiters[n] !in Queued(waiters[..n]);
        QueuedSnoc(waiters[..n], waiters[n]);
        AdmitOne(waiters[n]);
        assert waiters[..n + 1] == waiters[..n] + [waiters[n]];
        n := n + 1;
      }
      assert waiters[..n] == waiters;
    }

    /** Send one answer to a waiter that has none yet. */
    method Answer(w: Waiter, a: Answer)
      modifies `answers
      ensures answers == old(answers) + [(w, a)] && Firsts(answers) == old(Firsts(answers)) + {w}
    {
      answers := answers + [(w, a)];
      assert answers[|answers| - 1].0 == w;
      assert forall i :: 0 <= i < |answers| - 1 ==> answers[i] == old(answers)[i];
    }

    /** The next queued response. */
    method Pop() returns (w: Waiter)
      requires responses != []
      modifies `responses
      ensures w == old(responses)[0] && responses == old(responses)[1..]
      ensures old(Unrepeated(responses)) ==>
        Unrepeated(responses) && old(Queued(responses)) == Queued(responses) + {w} && w !in Queued(responses)
    {
      w, responses := responses[0], responses[1..];
      assert forall i :: 0 < i < |old(responses)| ==> old(responses)[i] == responses[i - 1];
    }

    method Reject() returns (ok: bool)
      requires Valid()
      modifies `responses, `answers
      ensures Valid() && Step(old(View()), ProposeRejected, false, View(), ok)
    {
      if responses == [] { return false; }
      assert Conserved(View(), admitted, accepted, lost);
      var w := Pop();
      Answer(w, NotLeader);
      assert Conserved(View(), admitted, accepted, lost);
      return true;
    }

    /** An accepted command waits at its index; a client that hung up is forgotten. */
    method Accept(index: LogIndex) returns (ok: bool)
      requires Valid()
      modifies `responses, `pending, `accepted, `lost
      ensures Valid() && admitted == old(admitted)
      ensures Step(old(View()), ProposeAccepted(index), false, View(), ok)
      ensures lost == old(lost) + Displaced(old(View()), ProposeAccepted(index))
    {
      if responses == [] { return false; }
      assert Conserved(View(), admitted, accepted, lost);
      AcceptPlaced(responses, pending, answers, admitted, hungUp, lost, index);
      AcceptHonest(responses, pending, answers, accepted, admitted, hungUp, lost, index);
      var w := responses[0];
      responses, accepted := responses[1..], accepted[w := index];
      if w !in hungUp {
        if index in pending { lost := lost + {pending[index]}; }
        ok, pending := index !in pending, pending[index := w];
      } else {
        ok := true;
      }
      assert Conserved(View(), admitted, accepted, lost);
    }

    /** Answer the waiter at a pending index. */
    method Settle(index: LogIndex, a: Answer)
      requires Valid() && index in pending && Truthful(accepted, pending[index], a)
      modifies `pending, `answers
      ensures Valid() && pending == old(pending) - {index} && answers == old(answers) + [(old(pending)[index], a)]
    {
      assert Conserved(View(), admitted, accepted, lost);
      var w := pending[index];
      Remove(pending, index);
      pending := pending - {index};
      Answer(w, a);
      assert Conserved(View(), admitted, accepted, lost);
    }

    method Apply(index: LogIndex, result: nat)
      requires Valid()
      modifies `pending, `answers
      ensures Valid() && pending == old(pending) - {index}
      ensures answers == if index in old(pending) then old(answers) + [(old(pending)[index], Applied(index, result))]
        else old(answers)
    {
      if index in pending {
        assert Conserved(View(), admitted, accepted, lost);
        Settle(index, Applied(index, result));
      }
    }

    /** One more pending index becomes an unknown outcome. */
    method MarkOne(index: LogIndex, ghost start: State, ghost settled: set<LogIndex>)
      requires Valid() && Unknown(start, settled, View()) && index in start.pending && index !in settled
      modifies `pending, `answers
      ensures Valid() && Unknown(start, settled + {index}, View())
    {
      UnknownMore(start, settled, View(), index);
      Settle(index, OutcomeUnknown);
    }

    /** Every pending index up to `boundary` becomes an unknown outcome. */
    method MarkUnknown(boundary: LogIndex)
      requires Valid()
      modifies `pending, `answers
      ensures Valid() && Unknown(old(View()), Upto(old(pending), boundary), View())
    {
      var covered, settled := Upto(pending, boundary), {};
      ghost var start := View();
      while settled != covered
        invariant Valid() && settled <= covered <= start.pending.Keys && Unknown(start, settled, View())
        decreases |covered - settled|
      {
        var i :| i in covered - settled;
        MarkOne(i, start, settled);
        assert covered - (settled + {i}) < covered - settled;
        settled := settled + {i};
      }
    }

    /** Whatever still waits for an acceptance verdict when a batch ends gets an explicit unknown. */
    method DropResponses()
      requires Valid()
      modifies `responses, `answers
      ensures Valid() && responses == [] && answers == old(answers) + Unknowns(old(responses))
    {
      while responses != []
        invariant Valid() && answers + Unknowns(responses) == old(answers) + Unknowns(old(responses))
        decreases |responses|
      {
        PopUnknowns(responses);
        assert Conserved(View(), admitted, accepted, lost);
        var w := Pop();
        Answer(w, OutcomeUnknown);
        assert Conserved(View(), admitted, accepted, lost);
      }
      assert answers + Unknowns(responses) == answers;
    }

    /** One effect, as it concerns waiting clients. `failed` is a storage or application failure. */
    method Perform(e: Effect, failed: bool) returns (ok: bool)
      requires Valid()
      modifies this
      ensures Valid() && admitted == old(admitted) && Step(old(View()), e, failed, View(), ok)
      ensures lost == old(lost) + Displaced(old(View()), e) && hungUp == old(hungUp)
    {
      ok := true;
      match e
      case ProposeAccepted(index) => ok := Accept(index);
      case ProposeRejected => ok := Reject();
      case Apply(index, result) => if failed { ok := false; } else { Apply(index, result); }
      case LostLeadership =>
        var top := Last();
        assert Upto(pending, top) == pending.Keys;
        MarkUnknown(top);
      case SnapshotApplied(boundary) => if failed { ok := false; } else { MarkUnknown(boundary); }
      case Persist => ok := !failed;
      case Other =>
    }

    /** The highest pending index. */
    method Last() returns (top: LogIndex)
      ensures forall i :: i in pending ==> i <= top
    {
      top := 0;
      var rest := pending.Keys;
      while rest != {}
        invariant rest <= pending.Keys && forall i :: i in pending && i !in rest ==> i <= top
        decreases |rest|
      {
        var i :| i in rest;
        rest := rest - {i};
        if i > top { top := i; }
      }
    }

    /** Run one batch: `run` are its states, effect by effect, and `done` says that every effect succeeded;
        `hangs` are the clients that hang up before an effect. Afterwards nobody the batch admitted is still
        queued, whether it ended well, ran out of verdicts or was cut by a failure, and the only client that
        can be lost is one whose index the failing effect gave away. */
    method Execute(effects: seq<Effect>, fails: nat -> bool, hangs: nat -> set<Waiter>)
      returns (ok: bool, ghost run: seq<State>, ghost done: bool)
      requires Valid()
      modifies this
      ensures Valid() && admitted == old(admitted)
      ensures Run(run, effects, fails, hangs, done) && run[0] == old(View()) && View() == Ended(run[|run| - 1])
      ensures done ==> |run| == |effects| + 1
      ensures ok <==> done && run[|run| - 1].responses == []
      ensures lost == old(lost) + Lost(run, effects, hangs, done)
    {
      ok, run, done := true, [View()], true;
      var n := 0;
      while n < |effects| && ok
        invariant n <= |effects| && Valid() && admitted == old(admitted) && done == ok
        invariant |run| == n + 1 && Run(run, effects, fails, hangs, ok) && run[0] == old(View()) && run[n] == View()
        invariant lost == old(lost) + Lost(run, effects, hangs, ok)
      {
        HangUp(hangs(n));
        ok := Perform(effects[n], fails(n));
        RunSnoc(run, effects, fails, hangs, View(), ok);
        run, done := run + [View()], ok;
        n := n + 1;
      }
      if responses != [] { ok := false; }
      DropResponses();
    }

    /** Closing time: accepted requests cannot be called rejected any more. Afterwards every client ever
        admitted that has not hung up has been answered, exactly once and truthfully. */
    method Shutdown()
      requires Valid() && responses == []
      modifies this
      ensures Valid() && Unknown(old(View()), old(pending).Keys, View()) && admitted == old(admitted)
        && lost == old(lost)
      ensures admitted - hungUp - lost <= Firsts(answers) && AnsweredOnce(answers)
    {
      var top := Last();
      assert Upto(pending, top) == pending.Keys;
      MarkUnknown(top);
      assert Conserved(View(), admitted, accepted, lost);
    }
  }

  /** Indices the batch accepts are new: distinct, and none is still pending. */
  predicate Fresh(effects: seq<Effect>, taken: set<LogIndex>)
    decreases effects
  {
    effects == [] ||
    if effects[0].ProposeAccepted? then effects[0].index !in taken && Fresh(effects[1..], taken + {effects[0].index})
    else Fresh(effects[1..], taken)
  }

  lemma {:induction false} FreshFewer(effects: seq<Effect>, taken: set<LogIndex>, fewer: set<LogIndex>)
    requires Fresh(effects, taken) && fewer <= taken
    ensures Fresh(effects, fewer)
    decreases effects
  {
    if effects != [] {
      if effects[0].ProposeAccepted? {
        FreshFewer(effects[1..], taken + {effects[0].index}, fewer + {effects[0].index});
      } else {
        FreshFewer(effects[1..], taken, fewer);
      }
    }
  }

  /** A batch with as many verdicts as queued clients, at fresh indices. */
  predicate Matched(s: State, effects: seq<Effect>) {
    Fresh(effects, s.pending.Keys) && Verdicts(effects) == |s.responses|
  }

  /** Such a batch loses nobody and goes on unless something fails. */
  lemma MatchedStep(s: State, gone: set<Waiter>, effects: seq<Effect>, failed: bool, t: State, ok: bool)
    requires effects != [] && Matched(s, effects) && Step(Without(s, gone), effects[0], failed, t, ok)
    ensures ok || failed
    ensures Displaced(Without(s, gone), effects[0]) == {}
    ensures ok ==> Matched(t, effects[1..])
  {
    if ok {
      var taken := if effects[0].ProposeAccepted? then s.pending.Keys + {effects[0].index} else s.pending.Keys;
      FreshFewer(effects[1..], taken, t.pending.Keys);
    }
  }

  lemma {:induction false} MatchedAt(run: seq<State>, effects: seq<Effect>, fails: nat -> bool,
                                     hangs: nat -> set<Waiter>, ok: bool, i: nat)
    requires Run(run, effects, fails, hangs, ok) && Matched(run[0], effects) && i < |run| && (ok || i + 1 < |run|)
    ensures Matched(run[i], effects[i..])
  {
    if i > 0 {
      MatchedAt(run, effects, fails, hangs, ok, i - 1);
      assert StepAt(run, effects, fails, hangs, ok, i - 1);
      assert effects[i - 1..][1..] == effects[i..];
      MatchedStep(run[i - 1], hangs(i - 1), effects[i - 1..], fails(i - 1), run[i], true);
    } else {
      assert effects[0..] == effects;
    }
  }

  /** A matched batch loses nobody; it ends badly only on a failure, and otherwise leaves nobody queued. */
  lemma MatchedRun(run: seq<State>, effects: seq<Effect>, fails: nat -> bool, hangs: nat -> set<Waiter>, ok: bool)
    requires Run(run, effects, fails, hangs, ok) && Matched(run[0], effects) && (ok ==> |run| == |effects| + 1)
    ensures Lost(run, effects, hangs, ok) == {}
    ensures ok ==> run[|run| - 1].responses == []
    ensures !ok ==> fails(|run| - 2)
  {
    if ok {
      MatchedAt(run, effects, fails, hangs, ok, |effects|);
      assert effects[|effects|..] == [];
    } else {
      var n := |run| - 2;
      MatchedAt(run, effects, fails, hangs, ok, n);
      assert StepAt(run, effects, fails, hangs, ok, n);
      MatchedStep(run[n], hangs(n), effects[n..], fails(n), run[n + 1], false);
    }
  }

  /** Pending indices come only from acceptances. */
  lemma {:induction false} PendingFrom(run: seq<State>, effects: seq<Effect>, fails: nat -> bool,
                                       hangs: nat -> set<Waiter>, ok: bool, i: nat)
    requires Run(run, effects, fails, hangs, ok) && i < |run|
    ensures run[i].pending.Keys <= run[0].pending.Keys + AcceptedAt(effects)
  {
    if i > 0 {
      PendingFrom(run, effects, fails, hangs, ok, i - 1);
      assert StepAt(run, effects, fails, hangs, ok, i - 1);
    }
  }

  /** A batch that accepts nothing moves no client to another index. */
  lemma {:induction false} PendingKept(run: seq<State>, effects: seq<Effect>, fails: nat -> bool,
                                       hangs: nat -> set<Waiter>, ok: bool, i: nat)
    requires Run(run, effects, fails, hangs, ok) && i < |run|
    requires forall j :: 0 <= j < |effects| ==> !effects[j].ProposeAccepted?
    ensures forall x :: x in run[i].pending ==> x in run[0].pending && run[i].pending[x] == run[0].pending[x]
  {
    if i > 0 {
      PendingKept(run, effects, fails, hangs, ok, i - 1);
      assert StepAt(run, effects, fails, hangs, ok, i - 1);
    }
  }

  /** A batch without refusals tells nobody that its command was refused. */
  lemma {:induction false} NobodyRefused(run: seq<State>, effects: seq<Effect>, fails: nat -> bool,
                                         hangs: nat -> set<Waiter>, ok: bool, i: nat)
    requires Run(run, effects, fails, hangs, ok) && i < |run|
    requires forall j :: 0 <= j < |effects| ==> !effects[j].ProposeRejected?
    ensures run[0].answers <= run[i].answers
    ensures forall k :: |run[0].answers| <= k < |run[i].answers| ==> !run[i].answers[k].1.NotLeader?
  {
    if i > 0 {
      NobodyRefused(run, effects, fails, hangs, ok, i - 1);
      assert StepAt(run, effects, fails, hangs, ok, i - 1);
      AnswersGrow(Without(run[i - 1], hangs(i - 1)), effects[i - 1], fails(i - 1), run[i]);
    }
  }

  /** One effect other than a refusal only adds answers, none of them a refusal. */
  lemma AnswersGrow(s: State, e: Effect, failed: bool, t: State)
    requires !e.ProposeRejected? && (Step(s, e, failed, t, true) || Step(s, e, failed, t, false))
    ensures s.answers <= t.answers && forall k :: |s.answers| <= k < |t.answers| ==> !t.answers[k].1.NotLeader?
  {
  }

  // ---------------------------------------------------------------- who is told what

  /** Nobody's answer is taken back. */
  lemma AnswersKept(s: State, e: Effect, failed: bool, t: State, ok: bool)
    requires Step(s, e, failed, t, ok)
    ensures s.answers <= t.answers
  {
  }

  /** A batch that neither loses leadership nor installs a snapshot. */
  predicate Steady(effects: seq<Effect>) {
    forall j :: 0 <= j < |effects| ==> !effects[j].LostLeadership? && !effects[j].SnapshotApplied?
  }

  /** Nobody's outcome is called unknown without cause: not in a batch that runs through, keeps leadership and
      installs no snapshot. */
  lemma {:induction false} UnknownNeedsCause(run: seq<State>, effects: seq<Effect>, fails: nat -> bool,
                                             hangs: nat -> set<Waiter>, ok: bool, i: nat)
    requires Run(run, effects, fails, hangs, ok) && Steady(effects) && i < |run|
    ensures run[0].answers <= run[i].answers
    ensures forall k :: |run[0].answers| <= k < |run[i].answers| ==> !run[i].answers[k].1.OutcomeUnknown?
  {
    if i > 0 {
      UnknownNeedsCause(run, effects, fails, hangs, ok, i - 1);
      assert StepAt(run, effects, fails, hangs, ok, i - 1);
    }
  }

  /** The effects apply index `x` with one result, and hand it to nobody. */
  predicate Settles(effects: seq<Effect>, x: LogIndex, result: nat) {
    forall j :: 0 <= j < |effects| ==>
      && (effects[j].Apply? && effects[j].index == x ==> effects[j].result == result)
      && (effects[j].ProposeAccepted? ==> effects[j].index != x)
  }

  /** A client that waited at `x` waits there still, or has been told the result. */
  lemma {:induction false} WaitsOrKnows(run: seq<State>, effects: seq<Effect>, fails: nat -> bool,
                                        hangs: nat -> set<Waiter>, ok: bool, x: LogIndex, result: nat, i: nat)
    requires Run(run, effects, fails, hangs, ok) && Steady(effects) && Settles(effects, x, result)
    requires x in run[0].pending && i < |run|
    ensures (x in run[i].pending && run[i].pending[x] == run[0].pending[x])
         || (run[0].pending[x], Applied(x, result)) in run[i].answers
  {
    if i > 0 {
      WaitsOrKnows(run, effects, fails, hangs, ok, x, result, i - 1);
      assert StepAt(run, effects, fails, hangs, ok, i - 1);
      AnswersKept(Without(run[i - 1], hangs(i - 1)), effects[i - 1], fails(i - 1), run[i], ok || i + 1 < |run|);
      if x in run[i - 1].pending && run[i - 1].pending[x] == run[0].pending[x] {
        AppliedTold(run[i - 1], hangs(i - 1), effects[i - 1], fails(i - 1), run[i], ok || i + 1 < |run|, x);
      }
    }
  }

  lemma AppliedTold(s: State, gone: set<Waiter>, e: Effect, failed: bool, t: State, ok: bool, x: LogIndex)
    requires Step(Without(s, gone), e, failed, t, ok) && x in s.pending
    requires !e.LostLeadership? && !e.SnapshotApplied? && (e.ProposeAccepted? ==> e.index != x)
    ensures if e.Apply? && e.index == x && ok then x !in t.pending && (s.pending[x], Applied(x, e.result)) in t.answers
            else x in t.pending && t.pending[x] == s.pending[x]
  {
    if e.Apply? && e.index == x && ok { assert t.answers[|s.answers|] == (s.pending[x], Applied(x, e.result)); }
  }

  /** The client waiting at an index that is applied in the course of a batch is told the result. */
  lemma {:induction false} AppliedReported(run: seq<State>, effects: seq<Effect>, fails: nat -> bool,
                                           hangs: nat -> set<Waiter>, k: nat, x: LogIndex, result: nat)
    requires Run(run, effects, fails, hangs, true) && |run| == |effects| + 1
    requires Steady(effects) && Settles(effects, x, result) && x in run[0].pending
    requires k < |effects| && effects[k] == Apply(x, result)
    ensures (run[0].pending[x], Applied(x, result)) in run[|run| - 1].answers
  {
    WaitsOrKnows(run, effects, fails, hangs, true, x, result, k);
    assert StepAt(run, effects, fails, hangs, true, k);
    if x in run[k].pending && run[k].pending[x] == run[0].pending[x] {
      AppliedTold(run[k], hangs(k), effects[k], fails(k), run[k + 1], true, x);
    } else {
      AnswersKept(Without(run[k], hangs(k)), effects[k], fails(k), run[k + 1], true);
    }
    AnswersStay(run, effects, fails, hangs, true, k + 1, |run| - 1);
  }

  lemma {:induction false} AnswersStay(run: seq<State>, effects: seq<Effect>, fails: nat -> bool,
                                       hangs: nat -> set<Waiter>, ok: bool, i: nat, j: nat)
    requires Run(run, effects, fails, hangs, ok) && i <= j < |run|
    ensures run[i].answers <= run[j].answers
    decreases j
  {
    if i < j {
      AnswersStay(run, effects, fails, hangs, ok, i, j - 1);
      assert StepAt(run, effects, fails, hangs, ok, j - 1);
      AnswersKept(Without(run[j - 1], hangs(j - 1)), effects[j - 1], fails(j - 1), run[j], ok || j + 1 < |run|);
    }
  }

  /** Where the clients stand after `i` effects of a save, acceptances at `first` on, and a silent rest: the
      first ones have been taken from the queue, in order, and whoever waits at a new index is the one whose
      turn it was. */
  ghost predicate InTurn(start: State, s: State, first: LogIndex, n: nat, i: nat)
    requires n == |start.responses|
  {
    && s.responses == start.responses[if i <= 1 then 0 else if i - 1 <= n then i - 1 else n..]
    && forall x :: x in s.pending ==>
         || (x in start.pending && s.pending[x] == start.pending[x])
         || (first <= x < first + n && s.pending[x] == start.responses[x - first])
  }

  /** `InTurn`, said through a quantifier, so that proofs open it only where they mention it. */
  ghost predicate StandsInTurn(start: State, s: State, first: LogIndex, i: nat) {
    forall n {:trigger InTurn(start, s, first, n, i)} :: n == |start.responses| ==> InTurn(start, s, first, n, i)
  }

  /** The effect at position `i` of an accepted batch of `n` commands. */
  predicate AcceptsInTurn(e: Effect, first: LogIndex, n: nat, i: nat) {
    !e.ProposeRejected? && (e.ProposeAccepted? <==> 1 <= i <= n) && (e.ProposeAccepted? ==> e.index == first + i - 1)
  }

  lemma InTurnNext(start: State, s: State, gone: set<Waiter>, e: Effect, failed: bool, t: State, ok: bool,
                   first: LogIndex, i: nat)
    requires AcceptsInTurn(e, first, |start.responses|, i) && StandsInTurn(start, s, first, i)
    requires Step(Without(s, gone), e, failed, t, ok)
    ensures StandsInTurn(start, t, first, i + 1)
  {
    var n := |start.responses|;
    assert InTurn(start, s, first, n, i);
    if e.ProposeAccepted? {
      assert s.responses[0] == start.responses[i - 1] && s.responses[1..] == start.responses[i..];
    }
    assert InTurn(start, t, first, n, i + 1);
  }

  lemma {:induction false} AcceptedInTurn(run: seq<State>, effects: seq<Effect>, fails: nat -> bool,
                                          hangs: nat -> set<Waiter>, ok: bool, first: LogIndex, i: nat)
    requires Run(run, effects, fails, hangs, ok) && i < |run|
    requires forall j :: 0 <= j < |effects| ==> AcceptsInTurn(effects[j], first, |run[0].responses|, j)
    ensures StandsInTurn(run[0], run[i], first, i)
  {
    if i == 0 {
      assert InTurn(run[0], run[0], first, |run[0].responses|, 0);
    } else {
      AcceptedInTurn(run, effects, fails, hangs, ok, first, i - 1);
      assert StepAt(run, effects, fails, hangs, ok, i - 1);
      InTurnNext(run[0], run[i - 1], hangs(i - 1), effects[i - 1], fails(i - 1), run[i], ok || i + 1 < |run|,
                 first, i - 1);
    }
  }

  /** A batch that accepts nothing and reports the loss of leadership leaves nobody pending. */
  lemma {:induction false} ClearedBy(run: seq<State>, effects: seq<Effect>, fails: nat -> bool,
                                     hangs: nat -> set<Waiter>, ok: bool, k: nat, i: nat)
    requires Run(run, effects, fails, hangs, ok) && k < i < |run| && effects[k].LostLeadership?
    requires forall j :: 0 <= j < |effects| ==> !effects[j].ProposeAccepted?
    ensures run[i].pending == map[]
  {
    assert StepAt(run, effects, fails, hangs, ok, i - 1);
    if k < i - 1 {
      ClearedBy(run, effects, fails, hangs, ok, k, i - 1);
      assert run[i].pending.Keys == {};
    } else {
      assert run[i].pending.Keys == {};
    }
  }

  lemma Replace(pending: map<LogIndex, Waiter>, index: LogIndex, w: Waiter)
    requires OneIndexEach(pending) && w !in pending.Values
    ensures OneIndexEach(pending[index := w])
    ensures pending[index := w].Values
      == (if index in pending then pending.Values - {pending[index]} else pending.Values) + {w}
  {
    var after := pending[index := w];
    assert after[index] == w;
    forall x | x in pending.Values && (index in pending ==> x != pending[index]) ensures x in after.Values {
      var i :| i in pending && pending[i] == x;
      assert after[i] == x;
    }
  }

  lemma Remove(pending: map<LogIndex, Waiter>, index: LogIndex)
    requires OneIndexEach(pending) && index in pending
    ensures OneIndexEach(pending - {index}) && (pending - {index}).Values == pending.Values - {pending[index]}
  {
    var after := pending - {index};
    forall x | x in pending.Values && x != pending[index] ensures x in after.Values {
      var i :| i in pending && pending[i] == x;
      assert after[i] == x;
    }
  }
}
