/** That the protocol gets somewhere when nothing interferes: an up-to-date candidate whose messages are
    answered by a quorum becomes leader, a follower that answers catches up with its leader whatever its log
    was, and what a quorum holds commits. */
module RaftProgress {
  import opened Types
  import opened RaftCore
  import opened RaftInvariants
  import opened RaftQuorums
  import opened RaftAnswers

  // ---------------------------------------------------------------- questions and answers

  /** The message a node sends back, last, when it is handed one. */
  function AnswerTo(node: Node, from: NodeId, msg: Message): Option<Message> {
    var effects := NodeStep(node, Deliver(from, msg, true, false)).effects;
    if effects != [] && effects[|effects| - 1].Send? && effects[|effects| - 1].to == from
    then Some(effects[|effects| - 1].msg) else None
  }

  /** A node hears every voter's answer to `msg`, in turn; its effects accumulate. */
  function Poll(o: Outcome, voters: seq<Node>, msg: Message): Outcome
    decreases |voters|
  {
    if voters == [] then o
    else
      var answer := AnswerTo(voters[0], o.node.id, msg);
      if answer.None? then Poll(o, voters[1..], msg)
      else
        var heard := NodeStep(o.node, Deliver(voters[0].id, answer.value, true, false));
        Poll(Outcome(heard.node, o.effects + heard.effects), voters[1..], msg)
  }

  function Ids(nodes: seq<Node>): set<NodeId> {
    set i | 0 <= i < |nodes| :: nodes[i].id
  }

  lemma IdsSplit(nodes: seq<Node>)
    requires nodes != []
    ensures Ids(nodes) == {nodes[0].id} + Ids(nodes[1..])
  {
    assert nodes == [nodes[0]] + nodes[1..];
    forall id | id in Ids(nodes) ensures id in {nodes[0].id} + Ids(nodes[1..]) {
      var i :| 0 <= i < |nodes| && nodes[i].id == id;
      assert i > 0 ==> nodes[1..][i - 1].id == id;
    }
    forall i | 0 <= i < |nodes[1..]| ensures nodes[1..][i].id in Ids(nodes) {
      assert nodes[i + 1] == nodes[1..][i];
    }
  }

  // ---------------------------------------------------------------- elections

  /** A node that may campaign: it votes, does not lead, and has terms, campaigns and indices left. */
  predicate MayCampaign(c: Node) {
    && IsVoter(c.config, c.id) && !c.role.Leader? && !c.campaignExhausted
    && c.hard.currentTerm < U64_MAX && c.campaignSequence < U64_MAX && |c.log| + 1 < U64_MAX
    && LastTerm(c.log) <= c.hard.currentTerm
  }

  /** A voter that supports the candidate: not leading, no newer term, and no log beyond the candidate's. */
  ghost predicate Supports(v: Node, c: Node) {
    && IsVoter(c.config, v.id) && v.id != c.id && !v.role.Leader?
    && v.hard.currentTerm <= c.hard.currentTerm && UpToDate(c.log, v.log)
  }

  ghost predicate AllSupport(voters: seq<Node>, c: Node) {
    forall i :: 0 <= i < |voters| ==> Supports(voters[i], c)
  }

  /** The trial question of `c`'s next campaign, and the question that follows it. */
  function Trial(c: Node): Message {
    PreVote(c.hard.currentTerm + 1, CampaignId(c.incarnation, c.campaignSequence + 1), c.id, |c.log|, LastTerm(c.log))
  }

  function Question(c: Node): Message {
    RequestVote(c.hard.currentTerm + 1, c.id, |c.log|, LastTerm(c.log))
  }

  lemma SupportedTrial(c: Node, v: Node)
    requires Supports(v, c) && LastTerm(c.log) <= c.hard.currentTerm
    ensures AnswerTo(v, c.id, Trial(c)) == Some(
      PreVoteReply(v.hard.currentTerm, c.hard.currentTerm + 1, CampaignId(c.incarnation, c.campaignSequence + 1), true))
  {
    PreVoteExact(v, c.id, c.hard.currentTerm + 1, CampaignId(c.incarnation, c.campaignSequence + 1), c.log, true,
                 false);
  }

  lemma SupportedQuestion(c: Node, v: Node)
    requires Supports(v, c) && LastTerm(c.log) <= c.hard.currentTerm
    ensures AnswerTo(v, c.id, Question(c)) == Some(RequestVoteReply(c.hard.currentTerm + 1, true))
  {
    RequestAnswered(v, c.id, c.hard.currentTerm + 1, c.log, false);
  }

  /** Somebody was asked. */
  predicate Asked(effects: seq<Effect>, to: NodeId, msg: Message) {
    Send(to, msg) in effects
  }

  lemma {:induction false} SolicitReaches(config: VoterConfig, peers: seq<NodeId>, msg: Message, to: NodeId)
    requires to in peers && IsVoter(config, to)
    ensures Send(to, msg) in Solicit(config, peers, msg)
    decreases |peers|
  {
    if peers[0] != to {
      assert to in peers[1..];
      SolicitReaches(config, peers[1..], msg, to);
    }
  }

  /** Pre-campaigning with the grants `votes`. */
  function Trying(c: Node, votes: set<NodeId>): Node {
    c.(campaignSequence := c.campaignSequence + 1,
       role := PreCandidate(c.hard.currentTerm + 1, CampaignId(c.incarnation, c.campaignSequence + 1), votes))
  }

  /** Standing for election with the votes `votes`. */
  function Standing(c: Node, votes: set<NodeId>): Node {
    c.(campaignSequence := c.campaignSequence + 1, hard := HardState(c.hard.currentTerm + 1, Some(c.id)),
       role := Candidate(votes))
  }

  /** Every peer that votes has been asked. */
  ghost predicate AskedAll(c: Node, effects: seq<Effect>, msg: Message) {
    forall p :: p in c.peers && IsVoter(c.config, p) ==> Asked(effects, p, msg)
  }

  lemma TimeoutTries(c: Node)
    requires MayCampaign(c) && !HasQuorum(c.config, {c.id})
    ensures var o := NodeStep(c, Timeout); o.node == Trying(c, {c.id}) && AskedAll(c, o.effects, Trial(c))
  {
    forall p | p in c.peers && IsVoter(c.config, p) ensures Asked(NodeStep(c, Timeout).effects, p, Trial(c)) {
      SolicitReaches(c.config, c.peers, Trial(c), p);
    }
  }

  /** One more grant: either it completes a quorum and the election begins, or the trial goes on. */
  lemma TrialGrant(c: Node, votes: set<NodeId>, v: Node)
    requires MayCampaign(c) && Supports(v, c) && !HasQuorum(c.config, {c.id})
    ensures AnswerTo(v, c.id, Trial(c)).Some?
    ensures var answer := AnswerTo(v, c.id, Trial(c));
      var o := NodeStep(Trying(c, votes), Deliver(v.id, answer.value, true, false));
      if HasQuorum(c.config, votes + {v.id})
      then o.node == Standing(c, {c.id}) && AskedAll(c, o.effects, Question(c))
           && PersistHardState(o.node.hard) in o.effects
      else o == Outcome(Trying(c, votes + {v.id}), [])
  {
    SupportedTrial(c, v);
    if HasQuorum(c.config, votes + {v.id}) {
      forall p | p in c.peers && IsVoter(c.config, p)
        ensures Send(p, Question(c)) in Solicit(c.config, c.peers, Question(c))
      {
        SolicitReaches(c.config, c.peers, Question(c), p);
      }
    }
  }

  lemma LateTrial(c: Node, v: Node)
    requires MayCampaign(c) && Supports(v, c)
    ensures AnswerTo(v, c.id, Trial(c)).Some?
    ensures var answer := AnswerTo(v, c.id, Trial(c));
      NodeStep(Standing(c, {c.id}), Deliver(v.id, answer.value, true, false)) == Outcome(Standing(c, {c.id}), [])
  {
    SupportedTrial(c, v);
  }

  /** Late grants of the trial change nothing. */
  lemma {:induction false} LateTrials(c: Node, effects: seq<Effect>, voters: seq<Node>)
    requires MayCampaign(c) && AllSupport(voters, c)
    ensures Poll(Outcome(Standing(c, {c.id}), effects), voters, Trial(c)) == Outcome(Standing(c, {c.id}), effects)
    decreases |voters|
  {
    if voters != [] {
      assert Supports(voters[0], c);
      LateTrial(c, voters[0]);
      assert effects + [] == effects;
      LateTrials(c, effects, voters[1..]);
    }
  }

  lemma {:induction false} TrialSucceeds(c: Node, votes: set<NodeId>, effects: seq<Effect>, voters: seq<Node>)
    requires MayCampaign(c) && AllSupport(voters, c) && !HasQuorum(c.config, {c.id})
    requires !HasQuorum(c.config, votes) && HasQuorum(c.config, votes + Ids(voters))
    ensures var o := Poll(Outcome(Trying(c, votes), effects), voters, Trial(c));
      o.node == Standing(c, {c.id}) && AskedAll(c, o.effects, Question(c)) && PersistHardState(o.node.hard) in o.effects
    decreases |voters|
  {
    assert voters == [] ==> votes + Ids(voters) == votes;
    if voters != [] {
      IdsSplit(voters);
      assert Supports(voters[0], c);
      TrialGrant(c, votes, voters[0]);
      var o :=
        NodeStep(Trying(c, votes), Deliver(voters[0].id, AnswerTo(voters[0], c.id, Trial(c)).value, true, false));
      if HasQuorum(c.config, votes + {voters[0].id}) {
        LateTrials(c, effects + o.effects, voters[1..]);
      } else {
        assert votes + Ids(voters) == votes + {voters[0].id} + Ids(voters[1..]);
        TrialSucceeds(c, votes + {voters[0].id}, effects + o.effects, voters[1..]);
      }
    }
  }

  // ---------------------------------------------------------------- winning

  /** The log of a fresh leader: its own, and an empty entry of the new term. */
  function WonLog(c: Node): seq<Entry> {
    c.log + [Entry(|c.log| + 1, c.hard.currentTerm + 1, NoOp)]
  }

  /** What winning means. */
  ghost predicate Won(c: Node, o: Outcome) {
    && o.node.role.Leader? && o.node.hard == HardState(c.hard.currentTerm + 1, Some(c.id)) && o.node.log == WonLog(c)
    && o.node.role.nextIndex == (map p | p in c.peers :: |c.log| + 1)
    && o.node.role.matchIndex == (map p | p in c.peers :: 0)
    && o.node.id == c.id && o.node.config == c.config && o.node.peers == c.peers
    && PersistLogEntries(None, WonLog(c)[|c.log|..]) in o.effects
  }

  lemma VoteCounted(c: Node, votes: set<NodeId>, v: Node)
    requires MayCampaign(c) && Supports(v, c) && !HasQuorum(c.config, {c.id})
    ensures AnswerTo(v, c.id, Question(c)).Some?
    ensures var answer := AnswerTo(v, c.id, Question(c));
      var o := NodeStep(Standing(c, votes), Deliver(v.id, answer.value, true, false));
      if HasQuorum(c.config, votes + {v.id}) then Won(c, o) else o == Outcome(Standing(c, votes + {v.id}), [])
  {
    SupportedQuestion(c, v);
    assert WonLog(c)[|c.log|..] == [Entry(|c.log| + 1, c.hard.currentTerm + 1, NoOp)];
  }

  lemma LateVote(c: Node, o: Outcome, v: Node)
    requires MayCampaign(c) && Supports(v, c) && Won(c, o)
    ensures AnswerTo(v, c.id, Question(c)).Some?
    ensures var answer := AnswerTo(v, c.id, Question(c));
      NodeStep(o.node, Deliver(v.id, answer.value, true, false)) == Outcome(o.node, [])
  {
    SupportedQuestion(c, v);
  }

  lemma {:induction false} LateVotes(c: Node, o: Outcome, voters: seq<Node>)
    requires MayCampaign(c) && AllSupport(voters, c) && Won(c, o)
    ensures Poll(o, voters, Question(c)) == o
    decreases |voters|
  {
    if voters != [] {
      assert Supports(voters[0], c);
      LateVote(c, o, voters[0]);
      assert o.effects + [] == o.effects;
      LateVotes(c, o, voters[1..]);
    }
  }

  lemma {:induction false} VotesSuffice(c: Node, votes: set<NodeId>, effects: seq<Effect>, voters: seq<Node>)
    requires MayCampaign(c) && AllSupport(voters, c) && !HasQuorum(c.config, {c.id})
    requires !HasQuorum(c.config, votes) && HasQuorum(c.config, votes + Ids(voters))
    ensures Won(c, Poll(Outcome(Standing(c, votes), effects), voters, Question(c)))
    decreases |voters|
  {
    assert voters == [] ==> votes + Ids(voters) == votes;
    if voters != [] {
      IdsSplit(voters);
      assert Supports(voters[0], c);
      VoteCounted(c, votes, voters[0]);
      var o :=
        NodeStep(Standing(c, votes), Deliver(voters[0].id, AnswerTo(voters[0], c.id, Question(c)).value, true, false));
      if HasQuorum(c.config, votes + {voters[0].id}) {
        LateVotes(c, Outcome(o.node, effects + o.effects), voters[1..]);
      } else {
        assert votes + Ids(voters) == votes + {voters[0].id} + Ids(voters[1..]);
        VotesSuffice(c, votes + {voters[0].id}, effects + o.effects, voters[1..]);
      }
    }
  }

  /** An election succeeds: a candidate times out, asks every voting peer for a trial vote and then for its
      vote, and once voters that make up a quorum with it have answered, in whatever order, it leads the next
      term with an empty entry of its own appended and saved. */
  lemma {:induction false} ElectionSucceeds(c: Node, voters: seq<Node>)
    requires MayCampaign(c) && AllSupport(voters, c) && HasQuorum(c.config, {c.id} + Ids(voters))
    requires !HasQuorum(c.config, {c.id})
    ensures var tried := NodeStep(c, Timeout); var stood := Poll(tried, voters, Trial(c));
      && AskedAll(c, tried.effects, Trial(c)) && AskedAll(c, stood.effects, Question(c))
      && PersistHardState(HardState(c.hard.currentTerm + 1, Some(c.id))) in stood.effects
      && Won(c, Poll(stood, voters, Question(c)))
  {
    TimeoutTries(c);
    var tried := NodeStep(c, Timeout);
    TrialSucceeds(c, {c.id}, tried.effects, voters);
    VotesSuffice(c, {c.id}, Poll(tried, voters, Trial(c)).effects, voters);
  }

  lemma LoneCommits(n: Node)
    requires HasQuorum(n.config, {n.id}) && n.lastApplied <= n.commitIndex <= |n.log|
    ensures var won := Inaugurate(n).node; var log := n.log + [Entry(|n.log| + 1, n.hard.currentTerm, NoOp)];
      won == n.(role := Leader(Cursors(n.peers, |n.log| + 1), Cursors(n.peers, 0)), log := log, commitIndex := |log|,
                lastApplied := |log|)
  {
  }

  lemma LoneInaugurated(c: Node)
    requires MayCampaign(c) && HasQuorum(c.config, {c.id}) && c.lastApplied <= c.commitIndex <= |c.log|
    ensures var o := BecomeLeader(Standing(c, {c.id})); Won(c, o) && o.node.commitIndex == |o.node.log|
  {
    LoneCommits(Standing(c, {c.id}));
    assert WonLog(c)[|c.log|..] == [Entry(|c.log| + 1, c.hard.currentTerm + 1, NoOp)];
  }

  lemma LoneElected(n: Node)
    requires IsVoter(n.config, n.id) && HasQuorum(n.config, {n.id}) && n.hard.currentTerm < U64_MAX
    ensures StartElection(n) == Outcome(BecomeLeader(Campaign(n)).node,
                                        [PersistHardState(Campaign(n).hard)] + BecomeLeader(Campaign(n)).effects)
  {
  }

  lemma LoneTimeout(c: Node)
    requires MayCampaign(c) && HasQuorum(c.config, {c.id})
    ensures var won := BecomeLeader(Standing(c, {c.id}));
      NodeStep(c, Timeout)
        == Outcome(won.node, [PersistHardState(HardState(c.hard.currentTerm + 1, Some(c.id)))] + won.effects)
  {
    LoneElected(PreCampaign(c));
    assert Campaign(PreCampaign(c)) == Standing(c, {c.id});
  }

  /** A voter that is a quorum by itself leads at once, and commits all it has. */
  lemma LoneVoterLeads(c: Node)
    requires MayCampaign(c) && HasQuorum(c.config, {c.id}) && c.lastApplied <= c.commitIndex <= |c.log|
    ensures var o := NodeStep(c, Timeout);
      && Won(c, o) && o.node.commitIndex == |o.node.log|
      && PersistHardState(HardState(c.hard.currentTerm + 1, Some(c.id))) in o.effects
  {
    LoneTimeout(c);
    LoneInaugurated(c);
  }
}
