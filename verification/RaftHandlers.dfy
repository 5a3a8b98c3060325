/** Every input a node handles keeps its part of the invariant, with the effects it queues. */
module RaftHandlers {
  import opened Types
  import opened RaftCore
  import opened RaftCluster
  import opened RaftInvariants
  import opened RaftQuorums
  import opened RaftTheorems
  import opened RaftQueues

  // ---------------------------------------------------------------- follower transitions

  lemma FollowerKeeps(h: History, n: NodeId, mem: Node, disk: Disk, pre: seq<Effect>, next: Node)
    requires MemOk(h, n, Server(mem, disk, pre)) && Preamble(pre)
    requires next == mem.(role := Follower, campaignExhausted := next.campaignExhausted)
    ensures var fx := if mem.role.Follower? then [] else [RoleChanged(false)];
      MemOk(h, n, Server(next, disk, pre + fx)) && Preamble(pre + fx) && (Adoption(pre) ==> Adoption(pre + fx))
  {
    var fx := if mem.role.Follower? then [] else [RoleChanged(false)];
    OutputsQueue(h, next, pre, fx);
    PreambleOuts(h, next, pre + fx);
  }

  lemma AdoptKeeps(h: History, n: NodeId, mem: Node, disk: Disk, term: Term)
    requires MemOk(h, n, Server(mem, disk, []))
    ensures var a := AdoptTerm(mem, term);
      && MemOk(h, n, Server(a.node, disk, a.effects)) && Adoption(a.effects)
      && a.node.hard.currentTerm >= term && a.node.log == mem.log && a.node.id == mem.id
      && (a.effects != [] ==> a.node.role.Follower?)
      && (a.effects == [] ==> a.node == mem)
  {
    if term > mem.hard.currentTerm {
      var hard := HardState(term, None);
      var next := mem.(hard := hard, role := Follower);
      var fx := if mem.role.Follower? then [] else [RoleChanged(false)];
      var todo := [PersistHardState(hard)] + fx;
      assert todo[1..] == fx;
      QuietQueue(h, next, fx);
      PreambleOuts(h, next, todo);
    }
  }

  // ---------------------------------------------------------------- replies that only add outputs

  /** A step that keeps hard state and log and only adds outputs. */
  lemma OutputsKeep(h: History, n: NodeId, mem: Node, disk: Disk, pre: seq<Effect>, next: Node, outs: seq<Effect>)
    requires MemOk(h, n, Server(mem, disk, pre)) && Preamble(pre) && Quiet(outs)
    requires next.id == mem.id && next.config == mem.config && next.incarnation == mem.incarnation
    requires next.hard == mem.hard && next.log == mem.log
    requires OutsOk(h, next, outs)
    requires RoleOk(h, n, Server(next, disk, pre))
    requires next.lastApplied == next.commitIndex <= |next.log| && Committed(h, next.log, next.commitIndex)
    ensures MemOk(h, n, Server(next, disk, pre + outs))
  {
    OutputsQueue(h, next, pre, outs);
    PreambleOuts(h, next, pre);
    OutsConcat(h, next, pre, outs);
  }

  lemma PreVoteKeeps(h: History, n: NodeId, mem: Node, disk: Disk, pre: seq<Effect>, prospective: Term,
                     campaign: CampaignId, candidate: NodeId, lastIndex: LogIndex, lastTerm: Term, mayVote: bool,
                     recentLeader: bool)
    requires MemOk(h, n, Server(mem, disk, pre)) && Preamble(pre)
    ensures var o := OnPreVote(mem, prospective, campaign, candidate, lastIndex, lastTerm, mayVote, recentLeader);
      MemOk(h, n, Server(o.node, disk, pre + o.effects))
  {
    var o := OnPreVote(mem, prospective, campaign, candidate, lastIndex, lastTerm, mayVote, recentLeader);
    OutputsQueue(h, mem, pre, o.effects);
    OutputsKeep(h, n, mem, disk, pre, mem, o.effects);
  }

  lemma RequestVoteKeeps(h: History, n: NodeId, mem: Node, disk: Disk, pre: seq<Effect>, from: NodeId, term: Term,
                         lastIndex: LogIndex, lastTerm: Term, mayVote: bool)
    requires MemOk(h, n, Server(mem, disk, pre)) && Adoption(pre) && from != n && term <= mem.hard.currentTerm
    requires PacketOk(h, Packet(from, n, RequestVote(term, from, lastIndex, lastTerm)))
    ensures var o := OnRequestVote(mem, term, from, lastIndex, lastTerm, mayVote);
      MemOk(h, n, Server(o.node, disk, pre + o.effects))
  {
    var o := OnRequestVote(mem, term, from, lastIndex, lastTerm, mayVote);
    if o.node == mem && |o.effects| == 1 {
      OutputsQueue(h, mem, pre, o.effects);
      OutputsKeep(h, n, mem, disk, pre, mem, o.effects);
    } else {
      var hard := o.node.hard;
      var outs := [Send(from, RequestVoteReply(hard.currentTerm, true))];
      OutputsQueue(h, mem, pre, []);
      VoteQueue(h, o.node, pre, disk.hard, mem.hard, hard, n, outs);
      assert pre + o.effects == pre + [PersistHardState(hard)] + outs;
      PreambleOuts(h, o.node, pre);
      assert OutsOk(h, o.node, o.effects);
      OutsConcat(h, o.node, pre, o.effects);
    }
  }

  // ---------------------------------------------------------------- leadership

  lemma {:induction false} HeartbeatsOk(h: History, mem: Node, peers: seq<NodeId>)
    requires mem.role.Leader? && CursorsOk(h, mem)
    ensures Quiet(Heartbeats(mem, peers)) && OutsOk(h, mem, Heartbeats(mem, peers))
  {
    if peers != [] {
      HeartbeatsOk(h, mem, peers[1..]);
    }
  }

  lemma {:induction false} ApplyRangeOk(h: History, mem: Node, from: LogIndex, through: LogIndex)
    requires WfLog(mem.log) && from <= through <= mem.commitIndex <= |mem.log|
    ensures Quiet(ApplyRange(mem.log, from, through)) && OutsOk(h, mem, ApplyRange(mem.log, from, through))
    decreases through - from
  {
    if from < through {
      ApplyRangeOk(h, mem, from + 1, through);
    }
  }

  lemma CommittedCopy(h: History, a: seq<Entry>, b: seq<Entry>, ka: LogIndex, kb: LogIndex)
    requires Committed(h, a, ka) && kb <= ka && ka <= |a| && kb <= |b| && a[..kb] == b[..kb]
    ensures Committed(h, b, kb)
  {
    if kb > 0 {
      var t, m :| CommittedVia(h, a, ka, t, m);
      assert b[..kb] == a[..kb] == a[..ka][..kb] == h.terms[t].log[..ka][..kb] == h.terms[t].log[..kb];
      assert CommittedVia(h, b, kb, t, m);
    }
  }

  /** A queue whose append extends a leader's own log. */
  lemma {:induction false} LeaderAppendKeeps(h: History, n: NodeId, mem: Node, disk: Disk, pre: seq<Effect>, next: Node,
                                             es: seq<Entry>, outs: seq<Effect>)
    requires MemOk(h, n, Server(mem, disk, pre)) && Preamble(pre) && Quiet(outs) && es != []
    requires next.id == mem.id && next.config == mem.config && next.incarnation == mem.incarnation
      && next.hard == mem.hard
    requires next.log == mem.log + es && WfLog(next.log)
    requires forall i :: 0 <= i < |es| ==> es[i].term == mem.hard.currentTerm
    requires next.role.Leader? && OutsOk(h, next, outs)
    requires HasHard(pre) ==> mem.hard.votedFor == Some(n)
    requires var todo := pre + [PersistLogEntries(None, es)] + outs;
      HasLog(todo) && HasHard(todo) == HasHard(pre) ==> RoleOk(h, n, Server(next, disk, todo))
    requires next.lastApplied == next.commitIndex <= |next.log|
    requires next.commitIndex == mem.commitIndex || SelfQuorum(next)
    ensures MemOk(h, n, Server(next, disk, pre + [PersistLogEntries(None, es)] + outs))
  {
    var todo := pre + [PersistLogEntries(None, es)] + outs;
    OutputsQueue(h, next, pre, []);
    AppendQueue(h, next, pre, None, es, outs);
    PreambleOuts(h, next, pre);
    assert OutsOk(h, next, [PersistLogEntries(None, es)]);
    OutsConcat(h, next, pre, [PersistLogEntries(None, es)]);
    OutsConcat(h, next, pre + [PersistLogEntries(None, es)], outs);
    if next.commitIndex == mem.commitIndex {
      CommittedCopy(h, mem.log, next.log, mem.commitIndex, mem.commitIndex);
    }
    assert Cut(disk.log, None) + es == next.log;
  }

  /** A candidate with a quorum names a term nobody has led yet. */
  lemma FreshTerm(h: History, n: NodeId, mem: Node, disk: Disk, pre: seq<Effect>)
    requires HistoryOk(h) && DiskOk(h, n, disk) && MemOk(h, n, Server(mem, disk, pre))
    requires mem.role.Candidate? && HasQuorum(h.config, mem.role.votes)
    ensures mem.hard.currentTerm !in h.terms
    ensures Elected(h, n, mem.hard.currentTerm)
  {
    var t := mem.hard.currentTerm;
    QuorumMonotone(h.config, mem.role.votes, Voters(h.votes, t, n) + {n}) by {
      forall v | v in mem.role.votes && v != n ensures v in Voters(h.votes, t, n) {
        assert (v, t) in h.votes;
      }
    }
    if t in h.terms {
      assert TermOk(h, t);
      var v := QuorumsIntersect(h.config, mem.role.votes, h.terms[t].quorum);
      assert (n, t) in h.votes ==> VotePersisted(disk.hard, t, h.votes[(n, t)].candidate);
      if v == n && HasHard(pre) {
        PendingSelfVote(disk.hard, mem.hard, n, pre);
      }
      assert false;
    }
  }

  lemma LeadingKeeps(h: History, n: NodeId, mem: Node, disk: Disk, pre: seq<Effect>)
    requires MemOk(h, n, Server(mem, disk, pre)) && Preamble(pre)
    requires mem.role.Candidate? && mem.hard.currentTerm !in h.terms && Elected(h, n, mem.hard.currentTerm)
    requires pre == [] || SelfQuorum(mem)
    ensures var won := Inaugurate(mem);
      var outs := [RoleChanged(true)] + Heartbeats(won.node, mem.peers) + won.effects;
      MemOk(h, n, Server(won.node, disk, pre + [PersistLogEntries(None, [Noop(mem)])] + outs))
  {
    var won := Inaugurate(mem);
    var outs := [RoleChanged(true)] + Heartbeats(won.node, mem.peers) + won.effects;
    InaugurateOk(h, mem);
    LeadingOutputs(h, mem, outs);
    LeadingRole(h, n, mem, disk, pre, won.node, outs);
    LeaderAppendKeeps(h, n, mem, disk, pre, won.node, [Noop(mem)], outs);
  }

  lemma InaugurateOk(h: History, mem: Node)
    requires WfLog(mem.log) && TermsAtMost(mem.log, mem.hard.currentTerm)
      && mem.lastApplied == mem.commitIndex <= |mem.log|
    ensures var node := Inaugurate(mem).node;
      && node.log == mem.log + [Noop(mem)] && WfLog(node.log) && CursorsOk(h, node)
      && node.hard == mem.hard && node.id == mem.id && node.config == mem.config && node.incarnation == mem.incarnation
      && mem.lastApplied <= node.commitIndex == node.lastApplied <= |node.log|
      && (node.commitIndex == mem.commitIndex || SelfQuorum(node))
      && Inaugurate(mem).effects == ApplyRange(node.log, mem.lastApplied, node.commitIndex)
  {
  }

  lemma LeadingOutputs(h: History, mem: Node, outs: seq<Effect>)
    requires WfLog(mem.log) && TermsAtMost(mem.log, mem.hard.currentTerm)
      && mem.lastApplied == mem.commitIndex <= |mem.log|
    requires outs == [RoleChanged(true)] + Heartbeats(Inaugurate(mem).node, mem.peers) + Inaugurate(mem).effects
    ensures Quiet(outs) && OutsOk(h, Inaugurate(mem).node, outs)
  {
    var node := Inaugurate(mem).node;
    InaugurateOk(h, mem);
    HeartbeatsOk(h, node, mem.peers);
    ApplyRangeOk(h, node, mem.lastApplied, node.commitIndex);
    AnnouncedOk(h, node, Heartbeats(node, mem.peers), Inaugurate(mem).effects);
  }

  lemma AnnouncedOk(h: History, node: Node, beats: seq<Effect>, applies: seq<Effect>)
    requires Quiet(beats) && Quiet(applies) && OutsOk(h, node, beats) && OutsOk(h, node, applies)
    ensures var outs := [RoleChanged(true)] + beats + applies; Quiet(outs) && OutsOk(h, node, outs)
  {
    OutsConcat(h, node, [RoleChanged(true)], beats);
    OutsConcat(h, node, [RoleChanged(true)] + beats, applies);
  }

  lemma LeadingRole(h: History, n: NodeId, mem: Node, disk: Disk, pre: seq<Effect>, node: Node, outs: seq<Effect>)
    requires MemOk(h, n, Server(mem, disk, pre)) && Preamble(pre) && Quiet(outs)
    requires mem.role.Candidate? && mem.hard.currentTerm !in h.terms && Elected(h, n, mem.hard.currentTerm)
    requires pre == [] || SelfQuorum(mem)
    requires node.hard == mem.hard && node.id == mem.id && node.config == mem.config && node.role.Leader?
      && CursorsOk(h, node)
    ensures RoleOk(h, n, Server(node, disk, pre + [PersistLogEntries(None, [Noop(mem)])] + outs))
  {
    OutputsQueue(h, mem, pre, []);
    AppendQueue(h, mem, pre, None, [Noop(mem)], outs);
  }

  lemma BecomeLeaderShape(mem: Node, pre: seq<Effect>)
    requires LastIndex(mem.log) + 1 < U64_MAX
    ensures var won := Inaugurate(mem);
      var outs := [RoleChanged(true)] + Heartbeats(won.node, mem.peers) + won.effects;
      && BecomeLeader(mem).node == won.node
      && pre + BecomeLeader(mem).effects == pre + [PersistLogEntries(None, [Noop(mem)])] + outs
  {
  }

  lemma BecomeLeaderKeeps(h: History, n: NodeId, mem: Node, disk: Disk, pre: seq<Effect>)
    requires HistoryOk(h) && DiskOk(h, n, disk) && MemOk(h, n, Server(mem, disk, pre)) && Preamble(pre)
    requires mem.role.Candidate? && HasQuorum(h.config, mem.role.votes) && (pre == [] || SelfQuorum(mem))
    ensures var o := BecomeLeader(mem); MemOk(h, n, Server(o.node, disk, pre + o.effects))
  {
    if LastIndex(mem.log) + 1 >= U64_MAX {
      FollowerKeeps(h, n, mem, disk, pre, mem.(role := Follower, campaignExhausted := true));
    } else {
      FreshTerm(h, n, mem, disk, pre);
      LeadingKeeps(h, n, mem, disk, pre);
      BecomeLeaderShape(mem, pre);
    }
  }

  lemma RequestVoteReplyKeeps(h: History, n: NodeId, mem: Node, disk: Disk, pre: seq<Effect>, from: NodeId, term: Term,
                              granted: bool)
    requires HistoryOk(h) && DiskOk(h, n, disk) && MemOk(h, n, Server(mem, disk, pre)) && Preamble(pre)
    requires PacketOk(h, Packet(from, n, RequestVoteReply(term, granted))) && (pre != [] ==> mem.role.Follower?)
    ensures var o := OnRequestVoteReply(mem, from, term, granted); MemOk(h, n, Server(o.node, disk, pre + o.effects))
  {
    var o := OnRequestVoteReply(mem, from, term, granted);
    if o.node == mem && o.effects == [] {
      assert pre + [] == pre;
    } else {
      var next := mem.(role := Candidate(mem.role.votes + {from}));
      OutputsQueue(h, mem, pre, []);
      OutputsKeep(h, n, mem, disk, pre, next, []);
      assert pre + [] == pre;
      if HasQuorum(mem.config, next.role.votes) {
        BecomeLeaderKeeps(h, n, next, disk, pre);
      }
    }
  }

  // ---------------------------------------------------------------- campaigning

  lemma {:induction false} SolicitOk(h: History, mem: Node, config: VoterConfig, peers: seq<NodeId>, msg: Message)
    requires forall to :: OutOk(h, mem, Send(to, msg))
    ensures Quiet(Solicit(config, peers, msg)) && OutsOk(h, mem, Solicit(config, peers, msg))
  {
    if peers != [] {
      SolicitOk(h, mem, config, peers[1..], msg);
    }
  }

  lemma StartElectionKeeps(h: History, n: NodeId, mem: Node, disk: Disk)
    requires HistoryOk(h) && DiskOk(h, n, disk) && MemOk(h, n, Server(mem, disk, []))
    ensures var o := StartElection(mem); MemOk(h, n, Server(o.node, disk, o.effects))
  {
    if IsVoter(mem.config, mem.id) {
      if mem.hard.currentTerm >= U64_MAX {
        FollowerKeeps(h, n, mem, disk, [], mem.(role := Follower, campaignExhausted := true));
      } else {
        CampaignKeeps(h, n, mem, disk);
      }
    }
  }

  lemma CampaignKeeps(h: History, n: NodeId, mem: Node, disk: Disk)
    requires HistoryOk(h) && DiskOk(h, n, disk) && MemOk(h, n, Server(mem, disk, []))
    requires IsVoter(mem.config, mem.id) && mem.hard.currentTerm < U64_MAX
    ensures var o := StartElection(mem); MemOk(h, n, Server(o.node, disk, o.effects))
  {
    var next := Campaign(mem);
    if SelfQuorum(mem) {
      CandidateOk(h, n, mem, disk, []);
      assert [PersistHardState(next.hard)] + [] == [PersistHardState(next.hard)];
      BecomeLeaderKeeps(h, n, next, disk, [PersistHardState(next.hard)]);
    } else {
      var outs := [RoleChanged(false)] + Solicit(mem.config, mem.peers, RequestVoteFor(mem));
      SolicitOk(h, next, mem.config, mem.peers, RequestVoteFor(mem));
      CandidateOk(h, n, mem, disk, outs);
    }
  }

  lemma CandidateOk(h: History, n: NodeId, mem: Node, disk: Disk, outs: seq<Effect>)
    requires HistoryOk(h) && DiskOk(h, n, disk) && MemOk(h, n, Server(mem, disk, []))
    requires IsVoter(mem.config, mem.id) && Quiet(outs) && OutsOk(h, Campaign(mem), outs)
    ensures MemOk(h, n, Server(Campaign(mem), disk, [PersistHardState(Campaign(mem).hard)] + outs))
  {
    var next := Campaign(mem);
    var todo := [PersistHardState(next.hard)] + outs;
    SelfVoteQueue(h, next, disk.hard, next.hard, n, outs);
    assert OutsOk(h, next, [PersistHardState(next.hard)]);
    OutsConcat(h, next, [PersistHardState(next.hard)], outs);
    var t := next.hard.currentTerm;
    if t in h.terms {
      assert TermOk(h, t);
      assert (n, t) in h.votes ==> VotePersisted(disk.hard, t, h.votes[(n, t)].candidate);
    }
  }

  lemma PreCandidateOk(h: History, n: NodeId, mem: Node, disk: Disk, outs: seq<Effect>)
    requires MemOk(h, n, Server(mem, disk, []))
    requires Quiet(outs) && OutsOk(h, PreCampaign(mem), outs)
    ensures MemOk(h, n, Server(PreCampaign(mem), disk, outs))
  {
    OutputsKeep(h, n, mem, disk, [], PreCampaign(mem), outs);
    assert [] + outs == outs;
  }

  lemma PreCampaignKeeps(h: History, n: NodeId, mem: Node, disk: Disk)
    requires MemOk(h, n, Server(mem, disk, []))
    ensures MemOk(h, n, Server(PreCampaign(mem), disk, []))
    ensures MemOk(h, n,
                  Server(PreCampaign(mem), disk,
                         [RoleChanged(false)] + Solicit(mem.config, mem.peers, PreVoteFor(mem))))
  {
    SolicitOk(h, PreCampaign(mem), mem.config, mem.peers, PreVoteFor(mem));
    PreCandidateOk(h, n, mem, disk, []);
    PreCandidateOk(h, n, mem, disk, [RoleChanged(false)] + Solicit(mem.config, mem.peers, PreVoteFor(mem)));
  }

  lemma StartPreVoteKeeps(h: History, n: NodeId, mem: Node, disk: Disk)
    requires HistoryOk(h) && DiskOk(h, n, disk) && MemOk(h, n, Server(mem, disk, []))
    ensures var o := StartPreVote(mem); MemOk(h, n, Server(o.node, disk, o.effects))
  {
    if IsVoter(mem.config, mem.id) {
      if mem.hard.currentTerm >= U64_MAX || mem.campaignSequence >= U64_MAX {
        FollowerKeeps(h, n, mem, disk, [], mem.(role := Follower, campaignExhausted := true));
      } else {
        PreCampaignKeeps(h, n, mem, disk);
        if SelfQuorum(mem) {
          StartElectionKeeps(h, n, PreCampaign(mem), disk);
        }
      }
    }
  }

  lemma PreVoteReplyKeeps(h: History, n: NodeId, mem: Node, disk: Disk, pre: seq<Effect>, from: NodeId, term: Term,
                          prospective: Term, campaign: CampaignId, granted: bool)
    requires HistoryOk(h) && DiskOk(h, n, disk) && MemOk(h, n, Server(mem, disk, pre)) && Preamble(pre)
    requires pre != [] ==> mem.role.Follower?
    requires Packet(from, n, PreVoteReply(term, prospective, campaign, granted)) in h.net
    ensures var o := OnPreVoteReply(mem, from, term, prospective, campaign, granted);
      MemOk(h, n, Server(o.node, disk, pre + o.effects))
  {
    var o := OnPreVoteReply(mem, from, term, prospective, campaign, granted);
    if o.node == mem && o.effects == [] {
      assert pre + [] == pre;
    } else {
      assert pre == [];
      var votes := mem.role.votes + {from};
      var next := mem.(role := mem.role.(votes := votes));
      assert PreGranted(h, n, from, prospective, campaign);
      OutputsKeep(h, n, mem, disk, [], next, []);
      if HasQuorum(mem.config, votes) {
        StartElectionKeeps(h, n, next, disk);
      }
      assert [] + o.effects == o.effects;
    }
  }
}
