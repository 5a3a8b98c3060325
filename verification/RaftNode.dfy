/** The consensus core as the source writes it: one node object updated in place, handlers appending
    to an effect list. Each handler is proved to do exactly what its state-machine function says, so
    the cluster-wide theorems apply to these bodies. */
module RaftNode {
  import opened Basics
  import opened Types
  import opened RaftCore

  class RaftNode {
    const id: NodeId
    const config: VoterConfig
    const peers: seq<NodeId>
    const incarnation: nat
    var hard: HardState
    var log: seq<Entry>
    var commitIndex: LogIndex
    var lastApplied: LogIndex
    var role: Role
    var campaignSequence: nat
    var campaignExhausted: bool
    var effects: seq<Effect>

    function View(): Node
      reads this
    {
      Node(id, config, peers, hard, log, commitIndex, lastApplied, role, incarnation, campaignSequence,
           campaignExhausted)
    }

    /** The node is `out.node`, and `out.effects` were appended after `before`. */
    ghost predicate Produced(before: seq<Effect>, out: Outcome)
      reads this
    {
      View() == out.node && effects == before + out.effects
    }

    /** Recovery from disk: commit position and role are volatile. */
    constructor (id: NodeId, config: VoterConfig, peers: seq<NodeId>, incarnation: nat, disk: Disk)
      ensures View() == Restore(id, config, peers, incarnation, disk) && effects == []
    {
      this.id, this.config, this.peers, this.incarnation := id, config, peers, incarnation;
      hard, log, commitIndex, lastApplied, role := disk.hard, disk.log, 0, 0, Follower;
      campaignSequence, campaignExhausted, effects := 0, false, [];
    }

    // -------------------------------------------------------------- election

    method BecomeFollower()
      modifies `role, `effects
      ensures Produced(old(effects), RaftCore.BecomeFollower(old(View())))
    {
      if !role.Follower? { effects := effects + [RoleChanged(false)]; }
      role := Follower;
    }

    /** One copy of `msg` to every peer that is a voter. */
    method SolicitVoters(msg: Message)
      modifies `effects
      ensures effects == old(effects) + Solicit(config, peers, msg)
    {
      var n := 0;
      while n < |peers|
        invariant n <= |peers|
          && old(effects) + Solicit(config, peers, msg) == effects + Solicit(config, peers[n..], msg)
      {
        assert peers[n..][0] == peers[n] && peers[n..][1..] == peers[n + 1..];
        if IsVoter(config, peers[n]) {
          assert effects + Solicit(config, peers[n..], msg)
            == effects + [Send(peers[n], msg)] + Solicit(config, peers[n + 1..], msg);
          effects := effects + [Send(peers[n], msg)];
        }
        n := n + 1;
      }
      assert peers[n..] == [];
    }

    /** Probe reachability and log eligibility without changing durable state. */
    method StartPreVote()
      modifies this
      ensures Produced(old(effects), RaftCore.StartPreVote(old(View())))
    {
      if !IsVoter(config, id) { return; }
      if hard.currentTerm >= U64_MAX || campaignSequence >= U64_MAX {
        campaignExhausted := true;
        BecomeFollower();
        return;
      }
      var msg := PreVoteFor(View());
      campaignSequence := campaignSequence + 1;
      role := PreCandidate(hard.currentTerm + 1, CampaignId(incarnation, campaignSequence), {id});
      assert View() == PreCampaign(old(View()));
      if HasQuorum(config, {id}) {
        StartElection();
        return;
      }
      effects := effects + [RoleChanged(false)];
      SolicitVoters(msg);
    }

    method OnPreVote(prospective: Term, campaign: CampaignId, candidate: NodeId, lastIndex: LogIndex, lastTerm: Term,
                     mayVote: bool, recentLeader: bool)
      modifies `effects
      ensures Produced(old(effects),
                       RaftCore.OnPreVote(old(View()), prospective, campaign, candidate, lastIndex, lastTerm, mayVote,
                                          recentLeader))
    {
      var freshLog := lastTerm > LastTerm(log) || (lastTerm == LastTerm(log) && lastIndex >= LastIndex(log));
      var granted := mayVote && prospective > hard.currentTerm && freshLog && !role.Leader? && !recentLeader;
      effects := effects + [Send(candidate, PreVoteReply(hard.currentTerm, prospective, campaign, granted))];
    }

    method OnPreVoteReply(from: NodeId, term: Term, prospective: Term, campaign: CampaignId, granted: bool)
      modifies this
      ensures Produced(old(effects), RaftCore.OnPreVoteReply(old(View()), from, term, prospective, campaign, granted))
    {
      if !granted || term >= prospective || !IsVoter(config, from) { return; }
      if !role.PreCandidate? { return; }
      if prospective != role.prospectiveTerm || campaign != role.campaign { return; }
      role := role.(votes := role.votes + {from});
      if HasQuorum(config, role.votes) { StartElection(); }
    }

    /** Persist before soliciting: a crash must not erase the self-vote. */
    method StartElection()
      modifies this
      ensures Produced(old(effects), RaftCore.StartElection(old(View())))
    {
      if !IsVoter(config, id) { return; }
      if hard.currentTerm >= U64_MAX {
        campaignExhausted := true;
        BecomeFollower();
        return;
      }
      var msg := RequestVoteFor(View());
      hard := HardState(hard.currentTerm + 1, Some(id));
      role := Candidate({id});
      assert View() == Campaign(old(View()));
      effects := effects + [PersistHardState(hard)];
      if HasQuorum(config, {id}) {
        ghost var campaigning := View();
        BecomeLeader();
        Associates(old(effects), [PersistHardState(Campaign(old(View())).hard)],
                   RaftCore.BecomeLeader(campaigning).effects);
        return;
      }
      effects := effects + [RoleChanged(false)];
      SolicitVoters(msg);
      Regroup(old(effects), [PersistHardState(hard)], [RoleChanged(false)], Solicit(config, peers, msg), []);
    }

    method OnRequestVote(term: Term, candidate: NodeId, lastIndex: LogIndex, lastTerm: Term, mayVote: bool)
      modifies `hard, `effects
      ensures Produced(old(effects), RaftCore.OnRequestVote(old(View()), term, candidate, lastIndex, lastTerm, mayVote))
    {
      if term < hard.currentTerm {
        effects := effects + [Send(candidate, RequestVoteReply(hard.currentTerm, false))];
        return;
      }
      var grant := mayVote && DecideVote(hard, LastIndex(log), LastTerm(log), candidate, lastIndex, lastTerm);
      if grant {
        hard := hard.(votedFor := Some(candidate));
        effects := effects + [PersistHardState(hard)];
      }
      effects := effects + [Send(candidate, RequestVoteReply(hard.currentTerm, grant))];
    }

    method OnRequestVoteReply(from: NodeId, term: Term, granted: bool)
      modifies this
      ensures Produced(old(effects), RaftCore.OnRequestVoteReply(old(View()), from, term, granted))
    {
      if term != hard.currentTerm || !granted || !IsVoter(config, from) { return; }
      if !role.Candidate? { return; }
      role := Candidate(role.votes + {from});
      if HasQuorum(config, role.votes) { BecomeLeader(); }
    }

    method InitialCursors(next: LogIndex) returns (nextIndex: map<NodeId, LogIndex>, matchIndex: map<NodeId, LogIndex>)
      ensures nextIndex == Cursors(peers, next) && matchIndex == Cursors(peers, 0)
    {
      nextIndex, matchIndex := map[], map[];
      var n := 0;
      while n < |peers|
        invariant n <= |peers| && nextIndex == Cursors(peers[..n], next) && matchIndex == Cursors(peers[..n], 0)
      {
        assert peers[..n + 1] == peers[..n] + [peers[n]];
        nextIndex, matchIndex := nextIndex[peers[n] := next], matchIndex[peers[n] := 0];
        n := n + 1;
      }
      assert peers[..n] == peers;
    }

    /** Take office: fresh cursors, the NoOp appended, committed at once by a lone voter. */
    method TakeOffice() returns (committed: seq<Effect>)
      modifies this
      ensures effects == old(effects) && Outcome(View(), committed) == Inaugurate(old(View()))
    {
      var noop := Noop(View());
      var nextIndex, matchIndex := InitialCursors(LastIndex(log) + 1);
      role := Leader(nextIndex, matchIndex);
      log := log + [noop];
      var before := effects;
      effects := [];
      if HasQuorum(config, {id}) { AdvanceCommit(LastIndex(log)); }
      committed, effects := effects, before;
    }

    /** The current-term NoOp is persisted before the heartbeat that carries it. */
    method BecomeLeader()
      modifies this
      ensures Produced(old(effects), RaftCore.BecomeLeader(old(View())))
    {
      if LastIndex(log) + 1 >= U64_MAX {
        campaignExhausted := true;
        BecomeFollower();
        return;
      }
      var noop := Noop(View());
      var committed := TakeOffice();
      effects := effects + [PersistLogEntries(None, [noop])];
      effects := effects + [RoleChanged(true)];
      SendAppendEntries();
      effects := effects + committed;
      Regroup(old(effects), [PersistLogEntries(None, [noop])], [RoleChanged(true)], Heartbeats(View(), peers),
              committed);
    }

    // -------------------------------------------------------------- replication

    method SendAppendEntries()
      requires role.Leader?
      modifies `effects
      ensures effects == old(effects) + Heartbeats(View(), peers)
    {
      ghost var node := View();
      var n := 0;
      while n < |peers|
        invariant n <= |peers| && View() == node
          && old(effects) + Heartbeats(node, peers) == effects + Heartbeats(node, peers[n..])
      {
        assert peers[n..][0] == peers[n] && peers[n..][1..] == peers[n + 1..];
        assert effects + Heartbeats(node, peers[n..])
          == effects + [Send(peers[n], AppendFor(node, peers[n]))] + Heartbeats(node, peers[n + 1..]);
        effects := effects + [Send(peers[n], AppendFor(View(), peers[n]))];
        n := n + 1;
      }
      assert peers[n..] == [];
    }

    /** Apply strictly in index order, up to the new commit index. */
    method AdvanceCommit(index: LogIndex)
      modifies `commitIndex, `lastApplied, `effects
      ensures Produced(old(effects), RaftCore.AdvanceCommit(old(View()), index))
    {
      if index <= commitIndex || index > |log| || lastApplied > index { return; }
      commitIndex := index;
      while lastApplied < commitIndex
        invariant lastApplied <= commitIndex == index <= |log|
        invariant old(effects) + ApplyRange(log, old(lastApplied), index)
          == effects + ApplyRange(log, lastApplied, index)
      {
        assert effects + ApplyRange(log, lastApplied, index)
          == effects + [Effect.Apply(log[lastApplied])] + ApplyRange(log, lastApplied + 1, index);
        effects := effects + [Effect.Apply(log[lastApplied])];
        lastApplied := lastApplied + 1;
      }
    }

    /** Walk the payload: cut only at the first real conflict, keep what is present, collect what is new. */
    method WalkPayload(entries: seq<Entry>) returns (truncateFrom: Option<LogIndex>, appended: seq<Entry>)
      modifies `log
      ensures Walk(log, truncateFrom, appended) == WalkEntries(Walk(old(log), None, []), entries)
    {
      truncateFrom, appended := None, [];
      var n := 0;
      while n < |entries|
        invariant n <= |entries|
        invariant WalkEntries(Walk(old(log), None, []), entries)
          == WalkEntries(Walk(log, truncateFrom, appended), entries[n..])
      {
        var entry := entries[n];
        assert entries[n..][0] == entry && entries[n..][1..] == entries[n + 1..];
        if entry.index > |log| {
          appended := appended + [entry];
        } else if entry.index != 0 && log[entry.index - 1].term != entry.term {
          truncateFrom := Some(entry.index);
          log := log[..entry.index - 1];
          appended := appended + [entry];
        }
        n := n + 1;
      }
      assert entries[n..] == [];
    }

    method OnAppendEntries(term: Term, leader: NodeId, prevIndex: LogIndex, prevTerm: Term, entries: seq<Entry>,
                           leaderCommit: LogIndex)
      modifies this
      ensures Produced(old(effects),
                       RaftCore.OnAppendEntries(old(View()), term, leader, prevIndex, prevTerm, entries, leaderCommit))
    {
      if term < hard.currentTerm {
        effects := effects + [Refusal(View(), leader, None)];
        return;
      }
      BecomeFollower();
      if LogTerm(log, prevIndex) != Some(prevTerm) {
        effects := effects + [Refusal(View(), leader, ConflictHintFor(log, prevIndex))];
        return;
      }
      if exists i ::
         0 <= i < |entries| && entries[i].index <= commitIndex
           && LogTerm(log, entries[i].index) != Some(entries[i].term) {
        effects := effects + [Refusal(View(), leader, None)];
        return;
      }
      var stepped := effects;
      AcceptPayload(leader, prevIndex, entries, leaderCommit);
      Regroup(old(effects), stepped[|old(effects)|..], Persists(old(log), entries),
              Committed(old(View()), prevIndex, entries, leaderCommit).effects,
              [Send(leader, AppendEntriesReply(hard.currentTerm, true, prevIndex + |entries|, None))]);
    }

    /** The anchor matched and no committed entry is contradicted: merge, persist, commit, acknowledge. */
    method AcceptPayload(leader: NodeId, prevIndex: LogIndex, entries: seq<Entry>, leaderCommit: LogIndex)
      modifies this
      ensures View() == Committed(old(View()), prevIndex, entries, leaderCommit).node
      ensures effects == old(effects) + Persists(old(log), entries)
        + Committed(old(View()), prevIndex, entries, leaderCommit).effects
                         + [Send(leader, AppendEntriesReply(old(hard).currentTerm, true, prevIndex + |entries|, None))]
    {
      var truncateFrom, appended := WalkPayload(entries);
      log := log + appended;
      if appended != [] { effects := effects + [PersistLogEntries(truncateFrom, appended)]; }
      AdvanceCommit(Min(leaderCommit, prevIndex + |entries|));
      effects := effects + [Send(leader, AppendEntriesReply(hard.currentTerm, true, prevIndex + |entries|, None))];
    }
  }

  /** The save a payload calls for: none when the log already holds it. */
  function Persists(log: seq<Entry>, entries: seq<Entry>): seq<Effect> {
    var w := WalkEntries(Walk(log, None, []), entries);
    if w.appended == [] then [] else [PersistLogEntries(w.truncateFrom, w.appended)]
  }

  /** The node with the payload merged, committed as far as the leader's word and the payload reach. */
  function Committed(node: Node, prevIndex: LogIndex, entries: seq<Entry>, leaderCommit: LogIndex): Outcome {
    var w := WalkEntries(Walk(node.log, None, []), entries);
    AdvanceCommit(node.(log := w.log + w.appended), Min(leaderCommit, prevIndex + |entries|))
  }

  lemma Regroup(a: seq<Effect>, b: seq<Effect>, c: seq<Effect>, d: seq<Effect>, e: seq<Effect>)
    ensures a + b + c + d + e == a + (b + c + d + e) == a + (b + (c + d + e))
    ensures a + b + c + d == a + (b + (c + d))
  {
  }
}
