/** What a node decides, exactly: when a vote is granted, when an entry commits, when a proposal is taken.
    Stated through logs and quorums, for every node and every message. */
module RaftAnswers {
  import opened Types
  import opened RaftCore
  import opened RaftInvariants
  import opened RaftQuorums

  // ---------------------------------------------------------------- votes

  /** Of two logs one is always at least as up to date as the other, and a log as itself. */
  lemma UpToDateTotal(a: seq<Entry>, b: seq<Entry>)
    ensures UpToDate(a, a) && (UpToDate(a, b) || UpToDate(b, a))
    ensures UpToDate(a, b) && UpToDate(b, a) ==> |a| == |b| && LastTerm(a) == LastTerm(b)
  {
  }

  /** The vote is not given to somebody else. */
  predicate FreeFor(hard: HardState, candidate: NodeId) {
    hard.votedFor.None? || hard.votedFor.value == candidate
  }

  /** In its own term a node votes for a candidate exactly when it may, its vote is free for that candidate,
      and the candidate's log `l` is at least as up to date as its own; the vote is saved before it is sent. */
  lemma VoteExact(node: Node, candidate: NodeId, l: seq<Entry>, mayVote: bool)
    ensures var o := OnRequestVote(node, node.hard.currentTerm, candidate, |l|, LastTerm(l), mayVote);
      var voted := HardState(node.hard.currentTerm, Some(candidate));
      if mayVote && FreeFor(node.hard, candidate) && UpToDate(l, node.log)
      then o == Outcome(node.(hard := voted),
                        [PersistHardState(voted), Send(candidate, RequestVoteReply(voted.currentTerm, true))])
      else o == Outcome(node, [Send(candidate, RequestVoteReply(node.hard.currentTerm, false))])
  {
  }

  /** The answer to a delivered request of any term: an older term is refused, a newer one frees the vote. */
  lemma RequestAnswered(node: Node, candidate: NodeId, term: Term, l: seq<Entry>, recentLeader: bool)
    requires candidate != node.id && LastTerm(l) <= term
    ensures var o :=
      NodeStep(node, Deliver(candidate, RequestVote(term, candidate, |l|, LastTerm(l)), true, recentLeader));
      var grant := term >= node.hard.currentTerm && UpToDate(l, node.log)
                   && (term > node.hard.currentTerm || FreeFor(node.hard, candidate));
      && o.effects != [] && o.effects[|o.effects| - 1]
           == Send(candidate, RequestVoteReply(Max(term, node.hard.currentTerm), grant))
      && (forall i :: 0 <= i < |o.effects| - 1 ==> !o.effects[i].Send?)
      && o.node.log == node.log && o.node.commitIndex == node.commitIndex
      && o.node.hard == (if grant then HardState(term, Some(candidate))
                         else if term > node.hard.currentTerm then HardState(term, None) else node.hard)
      && (o.node.hard != node.hard ==> PersistHardState(o.node.hard) in o.effects)
  {
    var adopted := AdoptTerm(node, term).node;
    VoteExact(adopted, candidate, l, true);
  }

  /** A trial vote is granted exactly when the node may vote, the prospective term is new to it, the candidate's
      log is at least as up to date, and it neither leads nor has recently heard a leader. It changes nothing. */
  lemma PreVoteExact(node: Node, candidate: NodeId, prospective: Term, campaign: CampaignId, l: seq<Entry>,
                     mayVote: bool, recentLeader: bool)
    ensures OnPreVote(node, prospective, campaign, candidate, |l|, LastTerm(l), mayVote, recentLeader)
      == Outcome(node, [Send(candidate, PreVoteReply(node.hard.currentTerm, prospective, campaign,
                             && mayVote && prospective > node.hard.currentTerm && UpToDate(l, node.log)
                             && !node.role.Leader? && !recentLeader))])
  {
  }

  // ---------------------------------------------------------------- commitment

  /** The leader and the peers known to hold its log up to `m`. */
  function Having(node: Node, m: LogIndex): set<NodeId>
    requires node.role.Leader?
  {
    {node.id} + set p | p in node.role.matchIndex && node.role.matchIndex[p] >= m
  }

  /** The entries between two indices, to be applied in order. */
  function Applications(log: seq<Entry>, from: LogIndex, through: LogIndex): seq<Effect>
    requires from <= through <= |log|
  {
    seq(through - from, i requires 0 <= i < through - from => Apply(log[from + i]))
  }

  lemma {:induction false} ApplyRangeIs(log: seq<Entry>, from: LogIndex, through: LogIndex)
    requires from <= through <= |log|
    ensures ApplyRange(log, from, through) == Applications(log, from, through)
    decreases through - from
  {
    if from < through { ApplyRangeIs(log, from + 1, through); }
  }

  lemma HavingHolds(node: Node, m: LogIndex)
    requires node.role.Leader? && 0 < m <= |node.log|
    ensures var matched := node.role.matchIndex[node.id := |node.log|];
      HasQuorum(node.config, Having(node, m)) <==>
      ValidConfig(node.config) && m <= ReplicatedIndex(node.config, matched)
  {
    var matched := node.role.matchIndex[node.id := |node.log|];
    if ValidConfig(node.config) {
      ReplicatedIndexExact(node.config, matched, m);
      var holders := Holders(node.config, matched, m);
      if HasQuorum(node.config, holders) { QuorumMonotone(node.config, holders, Having(node, m)); }
      if HasQuorum(node.config, Having(node, m)) { QuorumMonotone(node.config, Having(node, m), holders); }
    }
  }

  /** Nothing between the candidate and the end could have been chosen. */
  lemma {:induction false} CandidateLargest(log: seq<Entry>, commitIndex: LogIndex, quorumIndex: LogIndex, term: Term,
                                            upto: nat, m: LogIndex)
    requires upto <= |log| && commitIndex < m <= upto && log[m - 1].term == term && m <= quorumIndex
    ensures var c := CommitCandidate(log, commitIndex, quorumIndex, term, upto); c.Some? && m <= c.value
  {
    if m < upto { CandidateLargest(log, commitIndex, quorumIndex, term, upto - 1, m); }
  }

  /** What a leader's commit index has to be. */
  ghost predicate CommittedExactly(was: Node, o: Outcome)
    requires was.role.Leader?
  {
    && o.node.role.Leader? && o.node == was.(role := o.node.role, commitIndex := o.node.commitIndex,
                                             lastApplied := o.node.lastApplied)
    && was.commitIndex <= o.node.commitIndex <= |was.log|
    && (forall m :: o.node.commitIndex < m <= |was.log| && was.log[m - 1].term == was.hard.currentTerm ==>
          !HasQuorum(was.config, Having(o.node, m)))
    && (if o.node.commitIndex == was.commitIndex then o.node.lastApplied == was.lastApplied && o.effects == []
        else && was.log[o.node.commitIndex - 1].term == was.hard.currentTerm
             && HasQuorum(was.config, Having(o.node, o.node.commitIndex))
             && o.node.lastApplied == o.node.commitIndex && was.lastApplied <= o.node.commitIndex
             && o.effects == Applications(was.log, was.lastApplied, o.node.commitIndex))
  }

  lemma QuorumCommitExact(node: Node)
    requires node.role.Leader? && node.lastApplied <= node.commitIndex <= |node.log|
    ensures CommittedExactly(node, QuorumCommit(node)) && QuorumCommit(node).node.role == node.role
  {
    var o, term := QuorumCommit(node), node.hard.currentTerm;
    var replicated := ReplicatedIndex(node.config, node.role.matchIndex[node.id := |node.log|]);
    forall m | o.node.commitIndex < m <= |node.log| && node.log[m - 1].term == term
      ensures !HasQuorum(node.config, Having(o.node, m))
    {
      HavingHolds(node, m);
      if m <= replicated { CandidateLargest(node.log, node.commitIndex, replicated, term, |node.log|, m); }
    }
    if o.node.commitIndex > node.commitIndex {
      HavingHolds(node, o.node.commitIndex);
      ApplyRangeIs(node.log, node.lastApplied, o.node.commitIndex);
    }
  }

  /** A success reply a leader takes note of: of its term, from a peer it replicates to, within its log. */
  predicate Notes(node: Node, from: NodeId, term: Term, matchIndex: LogIndex, conflict: Option<ConflictHint>) {
    && node.role.Leader? && term == node.hard.currentTerm && matchIndex <= |node.log| && conflict.None?
    && from in node.role.nextIndex && from in node.role.matchIndex
  }

  /** After a success reply the leader has committed the last entry of its own term that a quorum is known to
      hold, and no less; what became committed is applied in order. Any other success reply changes nothing. */
  lemma CommitExact(node: Node, from: NodeId, term: Term, matchIndex: LogIndex, conflict: Option<ConflictHint>)
    requires node.lastApplied <= node.commitIndex <= |node.log|
    ensures var o := OnAppendEntriesReply(node, from, term, true, matchIndex, conflict);
      if Notes(node, from, term, matchIndex, conflict)
      then && CommittedExactly(node, o)
           && o.node.role.matchIndex == node.role.matchIndex[from := Max(node.role.matchIndex[from], matchIndex)]
           && o.node.role.nextIndex == node.role.nextIndex[from := Max(node.role.matchIndex[from], matchIndex) + 1]
      else o == Outcome(node, [])
  {
    if Notes(node, from, term, matchIndex, conflict) {
      var raised := Max(node.role.matchIndex[from], matchIndex);
      QuorumCommitExact(node.(role := Leader(node.role.nextIndex[from := raised + 1],
                                             node.role.matchIndex[from := raised])));
    }
  }

  // ---------------------------------------------------------------- stepping down

  /** A leader whose quorum window lapsed, and any other node, becomes a follower and says so if that is news;
      its term, vote and log stay. */
  lemma StepDownExact(node: Node)
    ensures var o := NodeStep(node, StepDown);
      && o.node == node.(role := Follower)
      && (node.role.Follower? ==> o.effects == []) && (!node.role.Follower? ==> o.effects == [RoleChanged(false)])
  {
  }

  // ---------------------------------------------------------------- proposals

  /** What a batch of commands becomes: entries of the current term at the next indices. */
  predicate Stamped(entries: seq<Entry>, commands: seq<Command>, first: LogIndex, term: Term) {
    |entries| == |commands| && forall i :: 0 <= i < |entries| ==> entries[i] == Entry(first + i, term, commands[i])
  }

  lemma {:induction false} StampExact(commands: seq<Command>, first: LogIndex, term: Term)
    ensures Stamped(Stamp(commands, first, term), commands, first, term)
    decreases |commands|
  {
    if commands != [] { StampExact(commands[1..], first + 1, term); }
  }

  predicate Proposable(node: Node, commands: seq<Command>) {
    && node.role.Leader? && IsVoter(node.config, node.id) && |commands| <= 16
    && |node.log| + |commands| < 0xFFFF_FFFF_FFFF_FFFF
    && forall i :: 0 <= i < |commands| ==> !commands[i].Configuration?
  }

  /** A proposal batch is taken exactly when the node leads and votes, the batch is small, holds no membership
      change and leaves index space. Then the log grows by it and it is saved whole before anything is accepted;
      otherwise every command is rejected and nothing changes. A lone voter commits it at once. */
  lemma ProposeExact(node: Node, commands: seq<Command>)
    requires commands != [] && node.lastApplied <= node.commitIndex <= |node.log|
    ensures var o := NodeStep(node, Propose(commands));
      if Proposable(node, commands)
      then && node.log <= o.node.log
           && Stamped(o.node.log[|node.log|..], commands, |node.log| + 1, node.hard.currentTerm)
           && o.effects != [] && o.effects[0] == PersistLogEntries(None, o.node.log[|node.log|..])
           && o.node.commitIndex == (if HasQuorum(node.config, {node.id}) then |o.node.log| else node.commitIndex)
           && o.node == node.(log := o.node.log, commitIndex := o.node.commitIndex, lastApplied := o.node.lastApplied)
      else && o.node == node && |o.effects| == |commands|
           && forall i :: 0 <= i < |o.effects| ==> o.effects[i].ProposeRejected?
  {
    StampExact(commands, |node.log| + 1, node.hard.currentTerm);
    if Proposable(node, commands) {
      var entries := Stamp(commands, |node.log| + 1, node.hard.currentTerm);
      assert (node.log + entries)[|node.log|..] == entries;
    }
  }
}
