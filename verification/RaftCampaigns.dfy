/** Campaigns, terms and cursors over whole runs: a node's term rises only through an endorsed campaign of
    its own or a term it heard, campaign ids are never reused, and a leader's retry cursors stay ahead of
    what its peers have confirmed. */
module RaftCampaigns {
  import opened Types
  import opened RaftCore
  import opened RaftCluster
  import opened RaftInvariants
  import opened RaftQuorums
  import opened RaftStability
  import opened RaftSafety
  import opened RaftGuarantees

  // ---------------------------------------------------------------- one event, one node

  /** What an event at `actor` does to the memory of `n`: its own input steps it, its own crash restarts it
      under a fresh incarnation with the durable hard state, anything else leaves it alone. */
  predicate MemStep(sys: System, actor: NodeId, event: Event, n: NodeId, now: Node)
    requires n in sys.servers
  {
    var was := sys.servers[n].mem;
    if actor == n && event.Input? then now == NodeStep(was, event.input).node
    else if actor == n && !event.Run? then
      now == Restore(n, sys.h.config, was.peers, sys.h.boots, Disk(sys.servers[n].disk.hard, now.log))
    else now == was
  }

  lemma EventMem(sys: System, actor: NodeId, event: Event, n: NodeId)
    requires Enabled(sys, actor, event) && n in sys.servers
    ensures n in Next(sys, actor, event).servers
      && MemStep(sys, actor, event, n, Next(sys, actor, event).servers[n].mem)
  {
  }

  lemma MoveMem(states: seq<System>, moves: seq<(NodeId, Event)>, k: nat, n: NodeId)
    requires IsRun(states, moves) && k < |moves| && n in states[k].servers
    ensures n in states[k + 1].servers && MemStep(states[k], moves[k].0, moves[k].1, n, states[k + 1].servers[n].mem)
    ensures Enabled(states[k], moves[k].0, moves[k].1) && MemOk(states[k].h, n, states[k].servers[n])
  {
    RunOk(states, moves, k);
    assert StepAt(states, moves, k);
    EventMem(states[k], moves[k].0, moves[k].1, n);
    assert MemOk(states[k].h, n, states[k].servers[n]);
  }

  // ---------------------------------------------------------------- the PreVote gate

  /** A quorum, this node included, granted this very pre-campaign. */
  ghost predicate Endorsed(h: History, n: NodeId, prospective: Term, campaign: CampaignId, q: set<NodeId>) {
    HasQuorum(h.config, q) && forall v :: v in q ==> v == n || PreGranted(h, n, v, prospective, campaign)
  }

  /** How `mem` may come to `next`, in a newer term: by its own election, one term up and endorsed under the
      campaign it is running, or by adopting the term it heard. */
  ghost predicate Gated(h: History, mem: Node, next: Node, heard: Option<Term>) {
    if next.hard.votedFor == Some(mem.id) then
      && next.hard.currentTerm == mem.hard.currentTerm + 1
      && exists q :: Endorsed(h, mem.id, next.hard.currentTerm, CampaignId(mem.incarnation, next.campaignSequence), q)
    else heard == Some(next.hard.currentTerm)
  }

  function Heard(mem: Node, input: RaftCore.Input): Option<Term> {
    if input.Deliver? then Some(MessageTerm(mem, input.msg)) else None
  }

  /** PreVote gate: in any run a node that raises its own term (voting for itself) goes up by exactly one, and
      a quorum had granted that prospective term under the very campaign the node is running. Every other
      term change adopts the term of a received message. */
  lemma PreVoteGate(states: seq<System>, moves: seq<(NodeId, Event)>, i: nat, n: NodeId, input: RaftCore.Input)
    requires IsRun(states, moves) && i < |states| && Enabled(states[i], n, Event.Input(input))
    requires NodeStep(states[i].servers[n].mem, input).node.hard.currentTerm > states[i].servers[n].mem.hard.currentTerm
    ensures var mem := states[i].servers[n].mem; Gated(states[i].h, mem, NodeStep(mem, input).node, Heard(mem, input))
  {
    RunOk(states, moves, i);
    assert MemOk(states[i].h, n, states[i].servers[n]);
    StepGate(states[i].h, n, states[i].servers[n], input);
  }

  lemma StepGate(h: History, n: NodeId, s: Server, input: RaftCore.Input)
    requires MemOk(h, n, s) && (input.Deliver? ==> Packet(input.from, n, input.msg) in h.net)
    requires NodeStep(s.mem, input).node.hard.currentTerm > s.mem.hard.currentTerm
    ensures Gated(h, s.mem, NodeStep(s.mem, input).node, Heard(s.mem, input))
  {
    match input
    case Timeout => SelfGate(h, s.mem);
    case Deliver(from, msg, mayVote, recent) =>
      MessageGate(h, n, s, from, msg, mayVote, recent);
    case _ =>
  }

  lemma SelfGate(h: History, mem: Node)
    requires mem.config == h.config && NodeStep(mem, Timeout).node.hard.currentTerm > mem.hard.currentTerm
    ensures Gated(h, mem, NodeStep(mem, Timeout).node, None)
  {
    TimeoutGate(mem);
    assert Endorsed(h, mem.id, mem.hard.currentTerm + 1, CampaignId(mem.incarnation, mem.campaignSequence + 1),
                    {mem.id});
  }

  lemma TimeoutGate(mem: Node)
    requires NodeStep(mem, Timeout).node.hard.currentTerm > mem.hard.currentTerm
    ensures SelfQuorum(mem)
    ensures var next := NodeStep(mem, Timeout).node;
      next.hard == HardState(mem.hard.currentTerm + 1, Some(mem.id))
        && next.campaignSequence == mem.campaignSequence + 1
  {
    ElectionCampaign(PreCampaign(mem));
  }

  lemma MessageGate(h: History, n: NodeId, s: Server, from: NodeId, msg: Message, mayVote: bool, recent: bool)
    requires MemOk(h, n, s) && Packet(from, n, msg) in h.net
    requires OnMessage(s.mem, from, msg, mayVote, recent).node.hard.currentTerm > s.mem.hard.currentTerm
    ensures Gated(h, s.mem, OnMessage(s.mem, from, msg, mayVote, recent).node, Some(MessageTerm(s.mem, msg)))
  {
    var a := AdoptTerm(s.mem, MessageTerm(s.mem, msg));
    if msg.PreVoteReply? && a.node == s.mem {
      ReplyGate(h, n, s, from, msg);
    } else {
      HandleKeepsTerm(a.node, from, msg, mayVote, recent);
    }
  }

  lemma ReplyGate(h: History, n: NodeId, s: Server, from: NodeId, msg: Message)
    requires MemOk(h, n, s) && msg.PreVoteReply? && Packet(from, n, msg) in h.net
    requires var next := OnPreVoteReply(s.mem, from, msg.term, msg.prospectiveTerm, msg.campaign, msg.granted).node;
      next.hard.currentTerm > s.mem.hard.currentTerm
    ensures var next := OnPreVoteReply(s.mem, from, msg.term, msg.prospectiveTerm, msg.campaign, msg.granted).node;
      Gated(h, s.mem, next, None)
  {
    var role := s.mem.role;
    var q := role.votes + {from};
    assert PreGranted(h, n, from, msg.prospectiveTerm, msg.campaign);
    assert Endorsed(h, n, msg.prospectiveTerm, msg.campaign, q);
    ElectionCampaign(s.mem.(role := role.(votes := q)));
  }

  /** Past the term rules, only a pre-vote reply can move the term. */
  lemma HandleKeepsTerm(mem: Node, from: NodeId, msg: Message, mayVote: bool, recent: bool)
    requires msg.PreVoteReply? ==> mem.role.Follower?
    ensures Handle(mem, from, msg, mayVote, recent).node.hard.currentTerm == mem.hard.currentTerm
    ensures from != mem.id && mem.hard.votedFor != Some(mem.id) && (msg.RequestVote? ==> msg.candidate == from)
      ==> Handle(mem, from, msg, mayVote, recent).node.hard.votedFor != Some(mem.id)
  {
  }

  // ---------------------------------------------------------------- a node cut off from a quorum

  /** The message `n` receives in a move, if any. */
  function Received(move: (NodeId, Event), n: NodeId): Option<(NodeId, Message)> {
    if move.0 == n && move.1.Input? && move.1.input.Deliver? then Some((move.1.input.from, move.1.input.msg)) else None
  }

  /** The senders of the pre-vote grants `n` receives in moves `i` to `j`. */
  function Granters(moves: seq<(NodeId, Event)>, n: NodeId, i: nat, j: nat): set<NodeId>
    requires i <= j <= |moves|
  {
    set k | i <= k < j && Received(moves[k], n).Some? && Received(moves[k], n).value.1.PreVoteReply?
            && Received(moves[k], n).value.1.granted :: Received(moves[k], n).value.0
  }

  /** The grants a node holds already. */
  function Held(mem: Node): set<NodeId> {
    if mem.role.PreCandidate? then mem.role.votes else {}
  }

  /** In moves `i` to `j` the node hears no term newer than its own. */
  ghost predicate Undisturbed(states: seq<System>, moves: seq<(NodeId, Event)>, n: NodeId, i: nat, j: nat)
    requires |states| == |moves| + 1 && i <= j <= |moves|
  {
    forall k: nat {:trigger Quiet(states, moves, n, k)} :: i <= k < j ==> Quiet(states, moves, n, k)
  }

  ghost predicate Quiet(states: seq<System>, moves: seq<(NodeId, Event)>, n: NodeId, k: nat)
    requires |states| == |moves| + 1 && k < |moves|
  {
    n in states[k].servers && (Received(moves[k], n).Some? ==>
      MessageTerm(states[k].servers[n].mem, Received(moves[k], n).value.1) <= states[k].servers[n].mem.hard.currentTerm)
  }

  /** A node that, together with the grants it holds and receives, is no quorum, and hears no newer term,
      never raises its term, however often its timer fires and however often it restarts; without a
      restart its term does not move at all. */
  lemma {:induction false} CutOff(states: seq<System>, moves: seq<(NodeId, Event)>, n: NodeId, i: nat, j: nat)
    requires IsRun(states, moves) && i <= j < |states| && n in states[i].servers && Undisturbed(states, moves, n, i, j)
    requires !HasQuorum(states[i].h.config, Held(states[i].servers[n].mem) + Granters(moves, n, i, j) + {n})
    ensures n in states[j].servers
    ensures var was, now := states[i].servers[n].mem, states[j].servers[n].mem;
      && now.hard.currentTerm <= was.hard.currentTerm && Held(now) <= Held(was) + Granters(moves, n, i, j) + {n}
      && (now.incarnation == was.incarnation ==> now.hard.currentTerm == was.hard.currentTerm)
    decreases j
  {
    if i < j {
      var k := j - 1;
      var before, all := Held(states[i].servers[n].mem) + Granters(moves, n, i, k) + {n},
                         Held(states[i].servers[n].mem) + Granters(moves, n, i, j) + {n};
      FewerGranters(moves, n, i, j);
      if HasQuorum(states[i].h.config, before) { QuorumMonotone(states[i].h.config, before, all); assert false; }
      CutOff(states, moves, n, i, k);
      MoveMem(states, moves, k, n);
      RunExtends(states, moves, i, k);
      assert Quiet(states, moves, n, k);
      CutOffMove(states[k], moves[k].0, moves[k].1, n, states[j].servers[n].mem, all);
      IncarnationsRise(states, moves, i, k, n);
    }
  }

  lemma FewerGranters(moves: seq<(NodeId, Event)>, n: NodeId, i: nat, j: nat)
    requires i < j <= |moves|
    ensures Granters(moves, n, i, j - 1) <= Granters(moves, n, i, j)
    ensures var r := Received(moves[j - 1], n); r.Some? && r.value.1.PreVoteReply? && r.value.1.granted ==>
      r.value.0 in Granters(moves, n, i, j)
  {
  }

  /** One move of a node that is no quorum together with `all` the grants it may count. */
  lemma CutOffMove(sys: System, actor: NodeId, event: Event, n: NodeId, now: Node, all: set<NodeId>)
    requires n in sys.servers && MemStep(sys, actor, event, n, now) && MemOk(sys.h, n, sys.servers[n])
    requires !HasQuorum(sys.h.config, all) && n in all && Held(sys.servers[n].mem) <= all
    requires var r := Received((actor, event), n); r.Some? ==>
      && MessageTerm(sys.servers[n].mem, r.value.1) <= sys.servers[n].mem.hard.currentTerm
      && (r.value.1.PreVoteReply? && r.value.1.granted ==> r.value.0 in all)
    ensures var was := sys.servers[n].mem;
      && now.hard.currentTerm <= was.hard.currentTerm && Held(now) <= all
      && (now.incarnation == was.incarnation ==> now.hard.currentTerm == was.hard.currentTerm)
  {
    var s := sys.servers[n];
    if actor == n && event.Input? {
      CutOffStep(s.mem, event.input, all);
    } else if actor == n && !event.Run? {
      DurableTermBehind(s.disk.hard, s.mem.hard, n, s.todo);
    }
  }

  lemma {:induction false} DurableTermBehind(disk: HardState, mem: HardState, self: NodeId, todo: seq<Effect>)
    requires HardsOk(disk, mem, self, todo)
    ensures disk.currentTerm <= mem.currentTerm
    decreases |todo|
  {
    if todo != [] && !todo[0].PersistHardState? { DurableTermBehind(disk, mem, self, todo[1..]); }
  }

  lemma CutOffStep(mem: Node, input: RaftCore.Input, all: set<NodeId>)
    requires !HasQuorum(mem.config, all) && mem.id in all && Held(mem) <= all
    requires input.Deliver? ==>
      && MessageTerm(mem, input.msg) <= mem.hard.currentTerm
      && (input.msg.PreVoteReply? && input.msg.granted ==> input.from in all)
    ensures var now := NodeStep(mem, input).node; now.hard.currentTerm == mem.hard.currentTerm && Held(now) <= all
  {
    match input
    case Timeout =>
      if SelfQuorum(mem) { QuorumMonotone(mem.config, {mem.id}, all); assert false; }
    case Deliver(from, msg, mayVote, recent) =>
      if msg.PreVoteReply? {
        CutOffReply(mem, from, msg, all);
      } else {
        HandleKeepsTerm(mem, from, msg, mayVote, recent);
        HandleKeepsGrants(mem, from, msg, mayVote, recent);
      }
    case _ =>
  }

  lemma CutOffReply(mem: Node, from: NodeId, msg: Message, all: set<NodeId>)
    requires !HasQuorum(mem.config, all) && Held(mem) <= all && msg.PreVoteReply? && (msg.granted ==> from in all)
    ensures var now := OnPreVoteReply(mem, from, msg.term, msg.prospectiveTerm, msg.campaign, msg.granted).node;
      now.hard == mem.hard && Held(now) <= all
  {
    if msg.granted && mem.role.PreCandidate? && HasQuorum(mem.config, mem.role.votes + {from}) {
      QuorumMonotone(mem.config, mem.role.votes + {from}, all);
      assert false;
    }
  }

  lemma HandleKeepsGrants(mem: Node, from: NodeId, msg: Message, mayVote: bool, recent: bool)
    requires !msg.PreVoteReply?
    ensures Held(Handle(mem, from, msg, mayVote, recent).node) <= Held(mem)
  {
  }

  // ---------------------------------------------------------------- campaign ids

  /** What one step may do to campaign ids: the sequence rises by at most one, a pre-candidate runs
      the campaign its sequence names, and an unchanged sequence means the very same campaign. */
  predicate CampaignStep(node: Node, next: Node) {
    && next.incarnation == node.incarnation
    && node.campaignSequence <= next.campaignSequence <= node.campaignSequence + 1
    && (next.role.PreCandidate? ==> next.role.campaign == CampaignId(next.incarnation, next.campaignSequence))
    && (next.role.PreCandidate? && next.campaignSequence == node.campaignSequence ==>
          node.role.PreCandidate? && next.role.prospectiveTerm == node.role.prospectiveTerm
            && node.role.votes <= next.role.votes)
  }

  lemma ElectionCampaign(node: Node)
    ensures var next := StartElection(node).node;
      && next.incarnation == node.incarnation && next.campaignSequence == node.campaignSequence
      && (next.role.PreCandidate? ==> next == node && !IsVoter(node.config, node.id))
  {
  }

  lemma HandleCampaign(node: Node, from: NodeId, msg: Message, mayVote: bool, recent: bool)
    requires node.role.PreCandidate? ==> node.role.campaign == CampaignId(node.incarnation, node.campaignSequence)
    ensures CampaignStep(node, Handle(node, from, msg, mayVote, recent).node)
  {
    if msg.PreVoteReply? && node.role.PreCandidate? {
      ElectionCampaign(node.(role := node.role.(votes := node.role.votes + {from})));
    }
  }

  lemma CampaignsStep(node: Node, input: RaftCore.Input)
    requires node.role.PreCandidate? ==> node.role.campaign == CampaignId(node.incarnation, node.campaignSequence)
    ensures CampaignStep(node, NodeStep(node, input).node)
  {
    match input
    case Timeout => ElectionCampaign(PreCampaign(node));
    case Deliver(from, msg, mayVote, recent) =>
      HandleCampaign(AdoptTerm(node, MessageTerm(node, msg)).node, from, msg, mayVote, recent);
    case _ =>
  }

  /** How a node's campaigns relate at an earlier and a later time: incarnations never fall, within one the
      sequence never falls, and a campaign with the same number is the same campaign, never interrupted. */
  predicate CampaignsLater(was: Node, now: Node) {
    && was.incarnation <= now.incarnation
    && (was.incarnation == now.incarnation ==> was.campaignSequence <= now.campaignSequence)
    && (was.incarnation == now.incarnation && was.campaignSequence == now.campaignSequence && now.role.PreCandidate? ==>
          was.role.PreCandidate? && was.role.campaign == now.role.campaign
          && was.role.prospectiveTerm == now.role.prospectiveTerm && was.role.votes <= now.role.votes)
  }

  lemma CampaignMove(sys: System, actor: NodeId, event: Event, n: NodeId, now: Node)
    requires n in sys.servers && MemStep(sys, actor, event, n, now) && MemOk(sys.h, n, sys.servers[n])
    ensures CampaignsLater(sys.servers[n].mem, now)
    ensures now.incarnation == sys.servers[n].mem.incarnation <==> !(actor == n && (event.Crash? || event.TornAppend?))
  {
    if actor == n && event.Input? { CampaignsStep(sys.servers[n].mem, event.input); }
  }

  /** Campaign ids are never reused: over any stretch of any run. */
  lemma {:induction false} CampaignsAreFresh(states: seq<System>, moves: seq<(NodeId, Event)>, i: nat, j: nat,
                                             n: NodeId)
    requires IsRun(states, moves) && i <= j < |states| && n in states[i].servers
    ensures n in states[j].servers && CampaignsLater(states[i].servers[n].mem, states[j].servers[n].mem)
    decreases j
  {
    if i < j {
      CampaignsAreFresh(states, moves, i, j - 1, n);
      MoveMem(states, moves, j - 1, n);
      CampaignMove(states[j - 1], moves[j - 1].0, moves[j - 1].1, n, states[j].servers[n].mem);
    }
  }

  /** Between two states of one incarnation the node never restarted. */
  lemma IncarnationsRise(states: seq<System>, moves: seq<(NodeId, Event)>, i: nat, k: nat, n: NodeId)
    requires IsRun(states, moves) && i <= k < |moves| && n in states[i].servers
    ensures n in states[k].servers && n in states[k + 1].servers
    ensures states[i].servers[n].mem.incarnation <= states[k].servers[n].mem.incarnation
      <= states[k + 1].servers[n].mem.incarnation
  {
    CampaignsAreFresh(states, moves, i, k, n);
    CampaignsAreFresh(states, moves, k, k + 1, n);
  }

  // ---------------------------------------------------------------- replication cursors

  /** A leader's retry cursor stays above what the peer has confirmed. */
  ghost predicate CursorsAhead(role: Role) {
    role.Leader? ==>
      && role.nextIndex.Keys == role.matchIndex.Keys
      && forall p :: p in role.nextIndex ==> role.matchIndex[p] < role.nextIndex[p]
  }

  /** Whatever reply arrives, true or forged: confirmed watermarks never fall, a rejection moves only the
      sender's retry cursor, only back, strictly unless it is already at the floor, and never to or below
      what that peer has confirmed. */
  lemma RepliesMoveCursors(node: Node, from: NodeId, term: Term, success: bool, matchIndex: LogIndex,
                           conflict: Option<ConflictHint>)
    requires node.role.Leader? && CursorsAhead(node.role)
    ensures var now, was := OnAppendEntriesReply(node, from, term, success, matchIndex, conflict).node.role, node.role;
      && now.Leader? && CursorsAhead(now) && now.nextIndex.Keys == was.nextIndex.Keys
      && (forall p :: p in was.nextIndex && p != from ==>
          now.nextIndex[p] == was.nextIndex[p] && now.matchIndex[p] == was.matchIndex[p])
      && (from in was.nextIndex ==> was.matchIndex[from] <= now.matchIndex[from])
      && (from in was.nextIndex && now.matchIndex[from] > was.matchIndex[from] ==>
            success && term == node.hard.currentTerm && now.matchIndex[from] == matchIndex <= LastIndex(node.log))
      && (from in was.nextIndex && !success && now != was ==>
            now.matchIndex == was.matchIndex && now.nextIndex[from] < was.nextIndex[from])
  {
  }

  lemma InaugurateCursors(node: Node)
    ensures CursorsAhead(BecomeLeader(node).node.role)
  {
  }

  lemma ElectionCursors(node: Node)
    requires CursorsAhead(node.role)
    ensures CursorsAhead(StartElection(node).node.role)
  {
    InaugurateCursors(Campaign(node));
  }

  lemma HandleCursors(node: Node, from: NodeId, msg: Message, mayVote: bool, recent: bool)
    requires CursorsAhead(node.role)
    ensures CursorsAhead(Handle(node, from, msg, mayVote, recent).node.role)
  {
    match msg
    case AppendEntriesReply(t, success, m, conflict) =>
      if node.role.Leader? { RepliesMoveCursors(node, from, t, success, m, conflict); }
    case RequestVoteReply(_, _) =>
      if node.role.Candidate? { InaugurateCursors(node.(role := Candidate(node.role.votes + {from}))); }
    case PreVoteReply(_, _, _, _) =>
      if node.role.PreCandidate? { ElectionCursors(node.(role := node.role.(votes := node.role.votes + {from}))); }
    case _ =>
  }

  lemma StepCursors(node: Node, input: RaftCore.Input)
    requires CursorsAhead(node.role)
    ensures CursorsAhead(NodeStep(node, input).node.role)
  {
    match input
    case Timeout => ElectionCursors(PreCampaign(node));
    case Deliver(from, msg, mayVote, recent) =>
      HandleCursors(AdoptTerm(node, MessageTerm(node, msg)).node, from, msg, mayVote, recent);
    case _ =>
  }

  /** In every state of every run each leader's cursors are ahead of its peers' confirmations. */
  lemma {:induction false} CursorsInRun(states: seq<System>, moves: seq<(NodeId, Event)>, i: nat, n: NodeId)
    requires IsRun(states, moves) && i < |states| && n in states[i].servers
    ensures CursorsAhead(states[i].servers[n].mem.role)
    decreases i
  {
    if i > 0 {
      ServersBefore(states, moves, i - 1, n);
      CursorsInRun(states, moves, i - 1, n);
      MoveMem(states, moves, i - 1, n);
      if moves[i - 1].0 == n && moves[i - 1].1.Input? {
        StepCursors(states[i - 1].servers[n].mem, moves[i - 1].1.input);
      }
    }
  }

  /** No event adds a server. */
  lemma ServersBefore(states: seq<System>, moves: seq<(NodeId, Event)>, k: nat, n: NodeId)
    requires IsRun(states, moves) && k < |moves| && n in states[k + 1].servers
    ensures n in states[k].servers
  {
    assert StepAt(states, moves, k);
  }
}
