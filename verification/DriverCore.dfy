/** The driver around the consensus core, as its clients see it. The core hands out each log index once
    while it leads and reports when it stops leading, so no client's pending index is ever given away:
    every client that stays is answered, and a batch ends badly only when storage or application fails. */
module DriverCore {
  import opened Types
  import Core = RaftCore
  import opened DriverResponses

  // ---------------------------------------------------------------- what the core's effects mean to clients

  /** `outcome` is what the application answers at an index. */
  function Concern(e: Core.Effect, outcome: LogIndex -> nat): Effect {
    match e
    case PersistHardState(_) => Persist
    case PersistLogEntries(_, _) => Persist
    case Send(_, _) => Other
    case Apply(entry) => Effect.Apply(entry.index, outcome(entry.index))
    case RoleChanged(leading) => if leading then Other else LostLeadership
    case ProposeAccepted(index) => Effect.ProposeAccepted(index)
    case ProposeRejected => Effect.ProposeRejected
  }

  function Concerns(es: seq<Core.Effect>, outcome: LogIndex -> nat): (r: seq<Effect>)
    ensures |r| == |es| && forall i :: 0 <= i < |es| ==> r[i] == Concern(es[i], outcome)
  {
    seq(|es|, i requires 0 <= i < |es| => Concern(es[i], outcome))
  }

  predicate IsVerdict(e: Core.Effect) {
    e.ProposeAccepted? || e.ProposeRejected?
  }

  predicate Silent(es: seq<Core.Effect>) {
    forall i :: 0 <= i < |es| ==> !IsVerdict(es[i])
  }

  predicate StepsDown(es: seq<Core.Effect>) {
    exists i :: 0 <= i < |es| && es[i] == Core.RoleChanged(false)
  }

  /** Clients wait only while the node leads, at indices of its log. */
  predicate Tracks(node: Core.Node, taken: set<LogIndex>) {
    if node.role.Leader? then forall i :: i in taken ==> i <= |node.log| else taken == {}
  }

  // ---------------------------------------------------------------- the core never repeats an index

  lemma {:induction false} SolicitSilent(config: Core.VoterConfig, peers: seq<NodeId>, msg: Core.Message)
    ensures Silent(Core.Solicit(config, peers, msg))
  {
    if peers != [] { SolicitSilent(config, peers[1..], msg); }
  }

  lemma {:induction false} HeartbeatsSilent(node: Core.Node, peers: seq<NodeId>)
    requires node.role.Leader?
    ensures Silent(Core.Heartbeats(node, peers)) && !StepsDown(Core.Heartbeats(node, peers))
  {
    if peers != [] { HeartbeatsSilent(node, peers[1..]); }
  }

  lemma {:induction false} AppliesSilent(log: seq<Entry>, from: LogIndex, through: LogIndex)
    requires from <= through <= |log|
    ensures Silent(Core.ApplyRange(log, from, through)) && !StepsDown(Core.ApplyRange(log, from, through))
    decreases through - from
  {
    if from < through { AppliesSilent(log, from + 1, through); }
  }

  lemma CommitSilent(node: Core.Node, index: LogIndex)
    ensures var out := Core.AdvanceCommit(node, index);
      Silent(out.effects) && !StepsDown(out.effects) && out.node.role == node.role && out.node.log == node.log
  {
    if !(index <= node.commitIndex || index > |node.log| || node.lastApplied > index) {
      AppliesSilent(node.log, node.lastApplied, index);
    }
  }

  lemma SilentConcat(a: seq<Core.Effect>, b: seq<Core.Effect>)
    requires Silent(a) && Silent(b)
    ensures Silent(a + b)
  {
  }

  lemma InaugurateSilent(node: Core.Node)
    ensures Silent(Core.Inaugurate(node).effects)
  {
    var next := Core.LastIndex(node.log) + 1;
    var leading :=
      node.(role := Core.Leader(Core.Cursors(node.peers, next), Core.Cursors(node.peers, 0)),
            log := node.log + [Core.Noop(node)]);
    CommitSilent(leading, next);
  }

  lemma LeaderSilent(node: Core.Node)
    ensures Silent(Core.BecomeLeader(node).effects)
  {
    if Core.LastIndex(node.log) + 1 < U64_MAX {
      var won := Core.Inaugurate(node);
      var beats := [Core.RoleChanged(true)] + Core.Heartbeats(won.node, node.peers);
      InaugurateSilent(node);
      HeartbeatsSilent(won.node, node.peers);
      SilentConcat([Core.RoleChanged(true)], Core.Heartbeats(won.node, node.peers));
      SilentConcat(beats, won.effects);
      SilentConcat([Core.PersistLogEntries(None, [Core.Noop(node)])], beats + won.effects);
    }
  }

  lemma ElectionSilent(node: Core.Node)
    ensures Silent(Core.StartElection(node).effects)
  {
    LeaderSilent(Core.Campaign(node));
    SolicitSilent(node.config, node.peers, Core.RequestVoteFor(node));
  }

  lemma PreVoteSilent(node: Core.Node)
    ensures Silent(Core.StartPreVote(node).effects)
  {
    ElectionSilent(Core.PreCampaign(node));
    SolicitSilent(node.config, node.peers, Core.PreVoteFor(node));
  }

  /** What a step without proposals may do to clients: no verdicts; a leader that stays one keeps its log, and
      one that does not, and only it, says so. */
  predicate Undemanding(node: Core.Node, out: Core.Outcome) {
    && Silent(out.effects)
    && (node.role.Leader? ==>
        if out.node.role.Leader? then node.log <= out.node.log && !StepsDown(out.effects) else StepsDown(out.effects))
  }

  lemma FollowerUndemanding(node: Core.Node)
    ensures Undemanding(node, Core.BecomeFollower(node))
  {
    if node.role.Leader? { assert Core.BecomeFollower(node).effects[0] == Core.RoleChanged(false); }
  }

  lemma AppendUndemanding(node: Core.Node, term: Term, leader: NodeId, prev: LogIndex, prevTerm: Term,
                          entries: seq<Entry>, commit: LogIndex)
    ensures Undemanding(node, Core.OnAppendEntries(node, term, leader, prev, prevTerm, entries, commit))
  {
    if term >= node.hard.currentTerm {
      var stepped := Core.BecomeFollower(node);
      var w := Core.WalkEntries(Core.Walk(stepped.node.log, None, []), entries);
      CommitSilent(stepped.node.(log := w.log + w.appended), Core.Min(commit, prev + |entries|));
      var out := Core.OnAppendEntries(node, term, leader, prev, prevTerm, entries, commit);
      assert stepped.effects <= out.effects;
      if node.role.Leader? { assert out.effects[0] == Core.RoleChanged(false); }
    }
  }

  lemma ReplyUndemanding(node: Core.Node, from: NodeId, term: Term, success: bool, matchIndex: LogIndex,
                         conflict: Option<Core.ConflictHint>)
    ensures Undemanding(node, Core.OnAppendEntriesReply(node, from, term, success, matchIndex, conflict))
  {
    if node.role.Leader? && from in node.role.matchIndex && from in node.role.nextIndex {
      var raised := Core.Max(node.role.matchIndex[from], matchIndex);
      var next :=
        node.(role := Core.Leader(node.role.nextIndex[from := raised + 1], node.role.matchIndex[from := raised]));
      var matched := next.role.matchIndex[next.id := Core.LastIndex(next.log)];
      var candidate :=
        Core.CommitCandidate(next.log, next.commitIndex, Core.ReplicatedIndex(next.config, matched),
                             next.hard.currentTerm, |next.log|);
      if candidate.Some? { CommitSilent(next, candidate.value); }
    }
  }

  lemma HandleUndemanding(node: Core.Node, from: NodeId, msg: Core.Message, mayVote: bool, recent: bool)
    ensures Undemanding(node, Core.Handle(node, from, msg, mayVote, recent))
  {
    match msg
    case AppendEntries(t, l, prev, pt, es, lc) => AppendUndemanding(node, t, l, prev, pt, es, lc);
    case AppendEntriesReply(t, success, m, conflict) => ReplyUndemanding(node, from, t, success, m, conflict);
    case RequestVoteReply(_, _) =>
      if node.role.Candidate? { LeaderSilent(node.(role := Core.Candidate(node.role.votes + {from}))); }
    case PreVoteReply(_, _, _, _) =>
      if node.role.PreCandidate? { ElectionSilent(node.(role := node.role.(votes := node.role.votes + {from}))); }
    case _ =>
  }

  lemma MessageUndemanding(node: Core.Node, from: NodeId, msg: Core.Message, mayVote: bool, recent: bool)
    ensures Undemanding(node, Core.OnMessage(node, from, msg, mayVote, recent))
  {
    var a := Core.AdoptTerm(node, Core.MessageTerm(node, msg));
    var handled := Core.Handle(a.node, from, msg, mayVote, recent);
    HandleUndemanding(a.node, from, msg, mayVote, recent);
    if Core.MessageTerm(node, msg) > node.hard.currentTerm {
      FollowerStays(a.node, from, msg, mayVote, recent);
      AdoptUndemanding(node, Core.MessageTerm(node, msg), handled);
    } else {
      assert a.effects + handled.effects == handled.effects;
    }
  }

  lemma AdoptUndemanding(node: Core.Node, term: Term, handled: Core.Outcome)
    requires term > node.hard.currentTerm && Silent(handled.effects) && !handled.node.role.Leader?
    ensures Undemanding(node, Core.Outcome(handled.node, Core.AdoptTerm(node, term).effects + handled.effects))
  {
    if node.role.Leader? {
      assert (Core.AdoptTerm(node, term).effects + handled.effects)[1] == Core.RoleChanged(false);
    }
  }

  /** No message makes a plain follower a leader. */
  lemma FollowerStays(node: Core.Node, from: NodeId, msg: Core.Message, mayVote: bool, recent: bool)
    requires node.role.Follower?
    ensures !Core.Handle(node, from, msg, mayVote, recent).node.role.Leader?
  {
  }

  lemma StepUndemanding(node: Core.Node, input: Core.Input)
    requires !input.Propose?
    ensures Undemanding(node, Core.NodeStep(node, input))
  {
    match input
    case Timeout => PreVoteSilent(node);
    case StepDown => FollowerUndemanding(node);
    case Heartbeat => if node.role.Leader? { HeartbeatsSilent(node, node.peers); }
    case Deliver(from, msg, mayVote, recent) => MessageUndemanding(node, from, msg, mayVote, recent);
  }

  // ---------------------------------------------------------------- batches match their clients

  lemma {:induction false} SilentMatched(es: seq<Effect>, taken: set<LogIndex>)
    requires forall i :: 0 <= i < |es| ==> !es[i].ProposeAccepted? && !es[i].ProposeRejected?
    ensures Fresh(es, taken) && Verdicts(es) == 0
    decreases |es|
  {
    if es != [] { SilentMatched(es[1..], taken); }
  }

  lemma {:induction false} RejectionsMatched(es: seq<Effect>, taken: set<LogIndex>)
    requires forall i :: 0 <= i < |es| ==> es[i].ProposeRejected?
    ensures Fresh(es, taken) && Verdicts(es) == |es|
    decreases |es|
  {
    if es != [] { RejectionsMatched(es[1..], taken); }
  }

  /** Acceptances at consecutive indices above everything taken, then silence. */
  lemma {:induction false} AcceptancesMatched(accepts: seq<Effect>, tail: seq<Effect>, first: LogIndex,
                                              taken: set<LogIndex>)
    requires forall i :: 0 <= i < |accepts| ==> accepts[i] == Effect.ProposeAccepted(first + i)
    requires forall i :: 0 <= i < |tail| ==> !tail[i].ProposeAccepted? && !tail[i].ProposeRejected?
    requires forall i :: i in taken ==> i < first
    ensures Fresh(accepts + tail, taken) && Verdicts(accepts + tail) == |accepts|
    decreases |accepts|
  {
    if accepts == [] {
      assert accepts + tail == tail;
      SilentMatched(tail, taken);
    } else {
      AcceptancesMatched(accepts[1..], tail, first + 1, taken + {first});
      assert (accepts + tail)[1..] == accepts[1..] + tail;
    }
  }

  lemma {:induction false} StampedAcceptances(commands: seq<Command>, next: LogIndex, term: Term)
    ensures var entries := Core.Stamp(commands, next, term); var accepts := Core.Acceptances(entries);
      |entries| == |accepts| == |commands| && forall i :: 0 <= i < |accepts| ==>
        accepts[i] == Core.ProposeAccepted(next + i) && entries[i].command == commands[i]
    decreases |commands|
  {
    if commands != [] { StampedAcceptances(commands[1..], next + 1, term); }
  }

  /** An accepted batch: one save, the acceptances, then what a lone voter commits at once. */
  lemma {:induction false} AcceptedShape(node: Core.Node, commands: seq<Command>) returns (tail: seq<Core.Effect>)
    requires commands != [] && !Core.NodeStep(node, Core.Propose(commands)).effects[0].ProposeRejected?
    ensures var out := Core.NodeStep(node, Core.Propose(commands)); var last := Core.LastIndex(node.log);
      var entries := Core.Stamp(commands, last + 1, node.hard.currentTerm);
      && node.role.Leader? && out.node.role == node.role && out.node.log == node.log + entries
      && out.effects == [Core.PersistLogEntries(None, entries)] + Core.Acceptances(entries) + tail && Silent(tail)
  {
    var entries := Core.Stamp(commands, Core.LastIndex(node.log) + 1, node.hard.currentTerm);
    var next := node.(log := node.log + entries);
    CommitSilent(next, Core.LastIndex(next.log));
    tail := if Core.SelfQuorum(node) then Core.AdvanceCommit(next, Core.LastIndex(next.log)).effects else [];
  }

  /** A proposal batch gives every command one verdict, and accepts at indices no client waits at. */
  lemma {:induction false} ProposalMatched(node: Core.Node, commands: seq<Command>, taken: set<LogIndex>,
                                           outcome: LogIndex -> nat)
    requires Tracks(node, taken) && commands != []
    ensures var out := Core.NodeStep(node, Core.Propose(commands)); var effects := Concerns(out.effects, outcome);
      && Fresh(effects, taken) && Verdicts(effects) == |commands| && Tracks(out.node, taken + AcceptedAt(effects))
      && (effects[0].ProposeRejected? ==> out.node == node && forall j :: 0 <= j < |effects| ==>
          effects[j].ProposeRejected?)
  {
    var out := Core.NodeStep(node, Core.Propose(commands));
    var effects := Concerns(out.effects, outcome);
    if out.effects[0].ProposeRejected? {
      assert out == Core.Outcome(node, Core.Rejections(|commands|));
      RejectionsMatched(effects, taken);
      assert taken + AcceptedAt(effects) == taken;
    } else {
      var tail := AcceptedShape(node, commands);
      AcceptedMatched(node, commands, tail, taken, outcome);
    }
  }

  lemma ConcernsConcat(a: seq<Core.Effect>, b: seq<Core.Effect>, outcome: LogIndex -> nat)
    ensures Concerns(a + b, outcome) == Concerns(a, outcome) + Concerns(b, outcome)
  {
  }

  lemma AcceptedMatched(node: Core.Node, commands: seq<Command>, tail: seq<Core.Effect>, taken: set<LogIndex>,
                        outcome: LogIndex -> nat)
    requires node.role.Leader? && Tracks(node, taken) && Silent(tail)
    ensures var last := Core.LastIndex(node.log); var entries := Core.Stamp(commands, last + 1, node.hard.currentTerm);
      var effects := Concerns([Core.PersistLogEntries(None, entries)] + Core.Acceptances(entries) + tail, outcome);
      && Fresh(effects, taken) && Verdicts(effects) == |commands|
      && forall i :: i in taken + AcceptedAt(effects) ==> i <= last + |entries|
  {
    var last := Core.LastIndex(node.log);
    var entries := Core.Stamp(commands, last + 1, node.hard.currentTerm);
    StampedAcceptances(commands, last + 1, node.hard.currentTerm);
    var accepts, rest := Concerns(Core.Acceptances(entries), outcome), Concerns(tail, outcome);
    ConcernsConcat([Core.PersistLogEntries(None, entries)], Core.Acceptances(entries), outcome);
    ConcernsConcat([Core.PersistLogEntries(None, entries)] + Core.Acceptances(entries), tail, outcome);
    assert Concerns([Core.PersistLogEntries(None, entries)], outcome) == [Persist];
    SavedMatched(accepts, rest, last + 1, taken);
  }

  /** One save, acceptances at consecutive indices above everything taken, then silence. */
  lemma {:induction false} SavedMatched(accepts: seq<Effect>, tail: seq<Effect>, first: LogIndex, taken: set<LogIndex>)
    requires forall i :: 0 <= i < |accepts| ==> accepts[i] == Effect.ProposeAccepted(first + i)
    requires forall i :: 0 <= i < |tail| ==> !tail[i].ProposeAccepted? && !tail[i].ProposeRejected?
    requires forall i :: i in taken ==> i < first
    ensures var effects := [Persist] + accepts + tail;
      && Fresh(effects, taken) && Verdicts(effects) == |accepts|
      && forall i :: i in AcceptedAt(effects) ==> i < first + |accepts|
  {
    AcceptancesMatched(accepts, tail, first, taken);
    assert ([Persist] + accepts + tail)[1..] == accepts + tail;
  }

  // ---------------------------------------------------------------- whose command an index holds

  function CommandsFor(waiters: seq<Waiter>, command: Waiter -> Command): seq<Command> {
    seq(|waiters|, i requires 0 <= i < |waiters| => command(waiters[i]))
  }

  /** Every pending index holds, in the node's own log, the command its client asked for. */
  predicate Serves(log: seq<Entry>, asked: map<Waiter, Command>, pending: map<LogIndex, Waiter>) {
    forall x :: x in pending ==> 0 < x <= |log| && pending[x] in asked && log[x - 1].command == asked[pending[x]]
  }

  lemma ServesStill(log: seq<Entry>, more: seq<Entry>, asked: map<Waiter, Command>, bigger: map<Waiter, Command>,
                    pending: map<LogIndex, Waiter>, fewer: map<LogIndex, Waiter>)
    requires Serves(log, asked, pending) && log <= more
    requires forall w :: w in asked ==> w in bigger && bigger[w] == asked[w]
    requires forall x :: x in fewer ==> x in pending && fewer[x] == pending[x]
    ensures Serves(more, bigger, fewer)
  {
  }

  /** The shape of an accepted batch, as clients see it. */
  lemma AcceptedEffects(node: Core.Node, commands: seq<Command>, outcome: LogIndex -> nat)
    requires commands != [] && !Core.NodeStep(node, Core.Propose(commands)).effects[0].ProposeRejected?
    ensures var out := Core.NodeStep(node, Core.Propose(commands));
      var effects, n, last := Concerns(out.effects, outcome), |commands|, |node.log|;
      && node.log <= out.node.log && |out.node.log| == last + n
      && (forall i :: 0 <= i < n ==> out.node.log[last + i].command == commands[i])
      && forall j :: 0 <= j < |effects| ==> AcceptsInTurn(effects[j], last + 1, n, j)
  {
    var tail := AcceptedShape(node, commands);
    StampedAcceptances(commands, Core.LastIndex(node.log) + 1, node.hard.currentTerm);
  }

  /** The waiters asked for the commands, in order. */
  predicate Asks(waiters: seq<Waiter>, asked: map<Waiter, Command>, commands: seq<Command>) {
    |commands| == |waiters| && forall i :: 0 <= i < |waiters| ==>
      waiters[i] in asked && asked[waiters[i]] == commands[i]
  }

  /** More answers, and none of the new ones is a refusal. */
  predicate NoneRefused(before: seq<(Waiter, Answer)>, after: seq<(Waiter, Answer)>) {
    before <= after && forall k :: |before| <= k < |after| ==> !after[k].1.NotLeader?
  }

  lemma AcceptedServes(node: Core.Node, asked: map<Waiter, Command>, commands: seq<Command>, outcome: LogIndex -> nat,
                       run: seq<State>, fails: nat -> bool, hangs: nat -> set<Waiter>, ok: bool)
    requires commands != []
      && Run(run, Concerns(Core.NodeStep(node, Core.Propose(commands)).effects, outcome), fails, hangs, ok)
    requires !Core.NodeStep(node, Core.Propose(commands)).effects[0].ProposeRejected?
    requires Asks(run[0].responses, asked, commands) && Serves(node.log, asked, run[0].pending)
    ensures Serves(Core.NodeStep(node, Core.Propose(commands)).node.log, asked, run[|run| - 1].pending)
    ensures NoneRefused(run[0].answers, Ended(run[|run| - 1]).answers)
  {
    var effects, last := Concerns(Core.NodeStep(node, Core.Propose(commands)).effects, outcome), |run| - 1;
    AcceptedEffects(node, commands, outcome);
    AcceptedInTurn(run, effects, fails, hangs, ok, |node.log| + 1, last);
    assert InTurn(run[0], run[last], |node.log| + 1, |commands|, last);
    NobodyRefused(run, effects, fails, hangs, ok, last);
  }

  /** After a proposal batch every pending index still holds its client's command, and a client was told of a
      refusal only if the node is as it was. */
  lemma ProposalServes(node: Core.Node, asked: map<Waiter, Command>, commands: seq<Command>, outcome: LogIndex -> nat,
                       run: seq<State>, fails: nat -> bool, hangs: nat -> set<Waiter>, ok: bool)
    requires commands != []
      && Run(run, Concerns(Core.NodeStep(node, Core.Propose(commands)).effects, outcome), fails, hangs, ok)
    requires Asks(run[0].responses, asked, commands)
    requires Serves(node.log, asked, run[0].pending) && Tracks(node, run[0].pending.Keys)
    ensures var next := Core.NodeStep(node, Core.Propose(commands)).node; var ended := Ended(run[|run| - 1]);
      && Serves(next.log, asked, ended.pending) && (next == node || NoneRefused(run[0].answers, ended.answers))
  {
    var out, last := Core.NodeStep(node, Core.Propose(commands)), |run| - 1;
    var effects := Concerns(out.effects, outcome);
    ProposalMatched(node, commands, run[0].pending.Keys, outcome);
    if out.effects[0].ProposeRejected? {
      PendingKept(run, effects, fails, hangs, ok, last);
      ServesStill(node.log, out.node.log, asked, asked, run[0].pending, run[last].pending);
    } else {
      AcceptedServes(node, asked, commands, outcome, run, fails, hangs, ok);
    }
  }

  /** A batch whose verdicts match the queue ends with an empty queue, or at a failed effect; nobody is lost. */
  lemma ProposalEnds(node: Core.Node, commands: seq<Command>, outcome: LogIndex -> nat,
                     run: seq<State>, fails: nat -> bool, hangs: nat -> set<Waiter>, ok: bool)
    requires commands != []
      && Run(run, Concerns(Core.NodeStep(node, Core.Propose(commands)).effects, outcome), fails, hangs, ok)
    requires |commands| == |run[0].responses| && Tracks(node, run[0].pending.Keys)
    requires ok ==> |run| == |Core.NodeStep(node, Core.Propose(commands)).effects| + 1
    ensures var out := Core.NodeStep(node, Core.Propose(commands));
      && Lost(run, Concerns(out.effects, outcome), hangs, ok) == {} && Tracks(out.node, run[|run| - 1].pending.Keys)
      && if ok then run[|run| - 1].responses == [] else 0 <= |run| - 2 < |out.effects| && fails(|run| - 2)
  {
    var out := Core.NodeStep(node, Core.Propose(commands));
    var effects := Concerns(out.effects, outcome);
    ProposalMatched(node, commands, run[0].pending.Keys, outcome);
    MatchedRun(run, effects, fails, hangs, ok);
    PendingFrom(run, effects, fails, hangs, ok, |run| - 1);
  }

  /** After any other batch, too, whether it ended well or not, while the node leads. */
  lemma TurnServes(node: Core.Node, out: Core.Outcome, outcome: LogIndex -> nat, asked: map<Waiter, Command>,
                   run: seq<State>, fails: nat -> bool, hangs: nat -> set<Waiter>, ok: bool)
    requires Undemanding(node, out) && Run(run, Concerns(out.effects, outcome), fails, hangs, ok)
    requires Serves(node.log, asked, run[0].pending) && Tracks(node, run[0].pending.Keys)
    ensures out.node.role.Leader? ==> Serves(out.node.log, asked, run[|run| - 1].pending)
  {
    PendingKept(run, Concerns(out.effects, outcome), fails, hangs, ok, |run| - 1);
    if node.role.Leader? && out.node.role.Leader? {
      ServesStill(node.log, out.node.log, asked, asked, run[0].pending, run[|run| - 1].pending);
    }
  }

  lemma {:induction false} LiveMember(waiters: seq<Waiter>, hungUp: set<Waiter>, w: Waiter)
    requires w in Live(waiters, hungUp)
    ensures w in Queued(waiters)
    decreases |waiters|
  {
    var n := |waiters| - 1;
    if w in Live(waiters[..n], hungUp) {
      LiveMember(waiters[..n], hungUp, w);
      var i :| 0 <= i < n && waiters[..n][i] == w;
      assert waiters[i] == w;
    }
  }

  /** The queued clients asked for the commands of the batch. */
  lemma {:induction false} Asked(waiters: seq<Waiter>, hungUp: set<Waiter>, command: Waiter -> Command,
                                 asked: map<Waiter, Command>)
    requires forall w :: w in Queued(waiters) ==> w in asked && asked[w] == command(w)
    ensures Asks(Live(waiters, hungUp), asked, CommandsFor(Live(waiters, hungUp), command))
  {
    var live := Live(waiters, hungUp);
    forall i | 0 <= i < |live|
      ensures live[i] in asked && asked[live[i]] == command(live[i])
    {
      LiveMember(waiters, hungUp, live[i]);
    }
  }

  lemma TurnTracks(node: Core.Node, out: Core.Outcome, outcome: LogIndex -> nat, run: seq<State>, effects: seq<Effect>,
                   fails: nat -> bool, hangs: nat -> set<Waiter>)
    requires Undemanding(node, out) && effects == Concerns(out.effects, outcome)
    requires Run(run, effects, fails, hangs, true) && |run| == |effects| + 1 && Tracks(node, run[0].pending.Keys)
    ensures Tracks(out.node, run[|run| - 1].pending.Keys)
  {
    PendingFrom(run, effects, fails, hangs, true, |run| - 1);
    assert AcceptedAt(effects) == {};
    if node.role.Leader? && !out.node.role.Leader? {
      var k :| 0 <= k < |out.effects| && out.effects[k] == Core.RoleChanged(false);
      ClearedBy(run, effects, fails, hangs, true, k, |run| - 1);
    }
  }

  // ---------------------------------------------------------------- who is told what

  /** Every client that waited at an index applied by these effects has been told the result, and nobody was
      told that the outcome is unknown. */
  ghost predicate Reported(effects: seq<Core.Effect>, outcome: LogIndex -> nat, waiting: map<LogIndex, Waiter>,
                           before: seq<(Waiter, Answer)>, after: seq<(Waiter, Answer)>) {
    && before <= after && (forall k :: |before| <= k < |after| ==> !after[k].1.OutcomeUnknown?)
    && forall e :: Core.Apply(e) in effects && e.index in waiting ==>
         (waiting[e.index], Applied(e.index, outcome(e.index))) in after
  }

  lemma TurnReports(node: Core.Node, out: Core.Outcome, outcome: LogIndex -> nat, run: seq<State>,
                    fails: nat -> bool, hangs: nat -> set<Waiter>)
    requires Undemanding(node, out) && node.role.Leader? && out.node.role.Leader?
    requires Run(run, Concerns(out.effects, outcome), fails, hangs, true) && |run| == |out.effects| + 1
    ensures Reported(out.effects, outcome, run[0].pending, run[0].answers, run[|run| - 1].answers)
  {
    var effects := Concerns(out.effects, outcome);
    assert Steady(effects);
    UnknownNeedsCause(run, effects, fails, hangs, true, |run| - 1);
    forall e | Core.Apply(e) in out.effects && e.index in run[0].pending
      ensures (run[0].pending[e.index], Applied(e.index, outcome(e.index))) in run[|run| - 1].answers
    {
      var k :| 0 <= k < |out.effects| && out.effects[k] == Core.Apply(e);
      assert effects[k] == Effect.Apply(e.index, outcome(e.index));
      AppliedReported(run, effects, fails, hangs, k, e.index, outcome(e.index));
    }
  }

  // ---------------------------------------------------------------- the loop

  class Driver {
    const responder: Responder
    var node: Core.Node
    ghost var asked: map<Waiter, Command>

    /** Between turns nobody waits for a verdict, nobody was lost, every pending index is the core's, and the
        log holds there what its client asked for. */
    ghost predicate Valid()
      reads this, responder
    {
      && responder.Valid() && responder.responses == [] && responder.lost == {} && asked.Keys == responder.admitted
      && Tracks(node, responder.pending.Keys) && Serves(node.log, asked, responder.pending)
    }

    constructor (node: Core.Node)
      ensures Valid() && fresh(responder) && this.node == node && responder.admitted == {}
    {
      responder := new Responder();
      this.node := node;
      asked := map[];
    }

    /** A tick or a message. The turn loses nobody, and ends badly only where one of its effects failed. While
        the node leads, every client whose command is applied is told its result, and nobody anything vaguer. */
    method Turn(input: Core.Input, outcome: LogIndex -> nat, fails: nat -> bool, hangs: nat -> set<Waiter>)
      returns (ok: bool)
      requires Valid() && !input.Propose?
      modifies this, responder
      ensures node == Core.NodeStep(old(node), input).node && responder.admitted == old(responder.admitted)
        && asked == old(asked)
      ensures responder.Valid() && responder.responses == [] && responder.lost == {}
      ensures ok ==> Valid()
      ensures !ok ==> exists k :: 0 <= k < |Core.NodeStep(old(node), input).effects| && fails(k)
      ensures ok && old(node).role.Leader? && node.role.Leader? ==>
        Reported(Core.NodeStep(old(node), input).effects, outcome, old(responder.pending), old(responder.answers),
                 responder.answers)
    {
      var out := Core.NodeStep(node, input);
      var effects := Concerns(out.effects, outcome);
      StepUndemanding(node, input);
      SilentMatched(effects, responder.pending.Keys);
      ghost var run, done;
      ok, run, done := responder.Execute(effects, fails, hangs);
      MatchedRun(run, effects, fails, hangs, done);
      TurnServes(node, out, outcome, asked, run, fails, hangs, done);
      if ok { TurnTracks(node, out, outcome, run, effects, fails, hangs); }
      if ok && node.role.Leader? && out.node.role.Leader? {
        TurnReports(node, out, outcome, run, fails, hangs);
        assert Ended(run[|run| - 1]).answers == run[|run| - 1].answers;
      }
      node := out.node;
    }

    /** The commands of the queued clients go to the core. */
    method Submit(commands: seq<Command>, outcome: LogIndex -> nat, fails: nat -> bool, hangs: nat -> set<Waiter>)
      returns (ok: bool)
      requires responder.Valid() && responder.lost == {} && commands != [] && Asks(responder.responses, asked, commands)
      requires Tracks(node, responder.pending.Keys) && Serves(node.log, asked, responder.pending)
      modifies `node, responder
      ensures node == Core.NodeStep(old(node), Core.Propose(commands)).node
        && responder.admitted == old(responder.admitted)
      ensures responder.Valid() && responder.responses == [] && responder.lost == {}
      ensures Tracks(node, responder.pending.Keys) && Serves(node.log, asked, responder.pending)
      ensures node == old(node) || NoneRefused(old(responder.answers), responder.answers)
      ensures !ok ==> exists k :: 0 <= k < |Core.NodeStep(old(node), Core.Propose(commands)).effects| && fails(k)
    {
      var out := Core.NodeStep(node, Core.Propose(commands));
      ghost var run, done;
      ok, run, done := responder.Execute(Concerns(out.effects, outcome), fails, hangs);
      ProposalEnds(node, commands, outcome, run, fails, hangs, done);
      ProposalServes(node, asked, commands, outcome, run, fails, hangs, done);
      node := out.node;
    }

    /** A batch of distinct new clients and their commands: every client still there gets its verdict. A client
        told that its command was refused finds the node as it was; one that waits finds its own command in the
        log at the index it waits at. */
    method Propose(waiters: seq<Waiter>, command: Waiter -> Command, outcome: LogIndex -> nat, fails: nat -> bool,
                   hangs: nat -> set<Waiter>)
      returns (ok: bool)
      requires Valid() && Unrepeated(waiters) && Queued(waiters) !! responder.admitted
      modifies this, responder
      ensures Valid()
      ensures var commands := CommandsFor(Live(waiters, old(responder.hungUp)), command);
        && node == (if commands == [] then old(node) else Core.NodeStep(old(node), Core.Propose(commands)).node)
        && (!ok ==> commands != [] && exists k ::
            0 <= k < |Core.NodeStep(old(node), Core.Propose(commands)).effects| && fails(k))
      ensures responder.admitted == old(responder.admitted) + Queued(waiters)
      ensures asked == old(asked) + map w | w in Queued(waiters) :: command(w)
      ensures node == old(node) || NoneRefused(old(responder.answers), responder.answers)
    {
      ghost var before := asked;
      responder.Admit(waiters);
      asked := asked + map w | w in Queued(waiters) :: command(w);
      ServesStill(node.log, node.log, before, asked, responder.pending, responder.pending);
      Asked(waiters, responder.hungUp, command, asked);
      var commands := CommandsFor(responder.responses, command);
      if commands == [] { return true; }
      ok := Submit(commands, outcome, fails, hangs);
    }

    /** Whenever the driver stops, after a failure or on request, every client ever admitted that has not hung
        up has been answered, exactly once and truthfully. Nobody is lost. */
    method Stop()
      requires responder.Valid() && responder.responses == [] && responder.lost == {}
      modifies responder
      ensures responder.Valid() && responder.pending == map[] && responder.admitted == old(responder.admitted)
      ensures responder.admitted - responder.hungUp <= Firsts(responder.answers) && AnsweredOnce(responder.answers)
    {
      responder.Shutdown();
      assert responder.pending.Keys == {};
    }
  }
}
