/** The guarantees a client of the consensus core relies on, for every run: any loss,
    duplication and reordering of messages, crashes anywhere, torn appends. */
module RaftGuarantees {
  import opened Types
  import opened RaftCore
  import opened RaftCluster
  import opened RaftInvariants
  import opened RaftQuorums
  import opened RaftTheorems
  import opened RaftStability
  import opened RaftExecution
  import opened RaftSafety

  // ---------------------------------------------------------------- history only grows

  lemma NextExtends(sys: System, n: NodeId, event: Event)
    requires Inv(sys) && Enabled(sys, n, event)
    ensures Extends(sys.h, Next(sys, n, event).h)
  {
    var s := sys.servers[n];
    assert MemOk(sys.h, n, s) && DiskOk(sys.h, n, s.disk);
    match event
    case Input(_) =>
    case Run => ExecuteExtends(sys.h, n, s, sys);
    case Crash =>
    case TornAppend(k) =>
      if s.mem.role.Leader? && k > 0 {
        LeaderFacts(sys.h, n, s, k);
        AppendExtends(sys.h, n, s.disk.hard.currentTerm, s.disk.log, Written(s, k));
      }
  }

  lemma ExecuteExtends(h: History, n: NodeId, s: Server, sys: System)
    requires sys.h == h && n in sys.servers && sys.servers[n] == s && HistoryOk(h)
    requires MemOk(h, n, s) && DiskOk(h, n, s.disk) && s.todo != []
    ensures Extends(h, Execute(sys, n).h)
  {
    match s.todo[0]
    case PersistHardState(hard) => HardExtends(h, n, hard, s.disk.log);
    case PersistLogEntries(from, es) =>
      if s.mem.role.Leader? && es != [] {
        assert es[..|es|] == es;
        LeaderFacts(h, n, s, |es|);
        AppendExtends(h, n, s.disk.hard.currentTerm, s.disk.log, Written(s, |es|));
      }
    case Send(to, msg) =>
      SendMem(h, n, s);
      SendExtends(h, n, s.disk, to, msg);
    case _ =>
  }

  lemma StepExtends(states: seq<System>, moves: seq<(NodeId, Event)>, i: nat)
    requires IsRun(states, moves) && i < |moves|
    ensures Extends(states[i].h, states[i + 1].h)
  {
    RunOk(states, moves, i);
    assert StepAt(states, moves, i);
    NextExtends(states[i], moves[i].0, moves[i].1);
  }

  lemma {:induction false} RunExtends(states: seq<System>, moves: seq<(NodeId, Event)>, i: nat, j: nat)
    requires IsRun(states, moves) && i <= j < |states|
    ensures Extends(states[i].h, states[j].h)
    decreases j
  {
    if i < j {
      RunExtends(states, moves, i, j - 1);
      StepExtends(states, moves, j - 1);
      ExtendsTrans(states[i].h, states[j - 1].h, states[j].h);
    }
  }

  lemma ExtendsTrans(a: History, b: History, c: History)
    requires Extends(a, b) && Extends(b, c)
    ensures Extends(a, c)
  {
    forall t | t in a.terms ensures t in c.terms && TermGrows(a.terms[t], c.terms[t]) {
      PrefixTrans(a.terms[t].log, b.terms[t].log, c.terms[t].log);
    }
  }

  // ---------------------------------------------------------------- election safety

  lemma {:induction false} SoleVoter(voters: seq<NodeId>, a: NodeId)
    requires ValidSet(voters) && Majority(voters, {a})
    ensures voters == [a]
  {
    CountOnce(voters, a, 0);
    assert voters[0..] == voters;
    assert |voters| == 1;
    assert CountIn(voters, {a}) == (if voters[0] in {a} then 1 else 0) + CountIn(voters[1..], {a});
  }

  /** Distinct voters count a singleton at most once. */
  lemma {:induction false} CountOnce(voters: seq<NodeId>, a: NodeId, i: nat)
    requires ValidSet(voters) && i <= |voters|
    ensures CountIn(voters[i..], {a}) <= 1
    ensures i < |voters| && a < voters[i] ==> CountIn(voters[i..], {a}) == 0
    decreases |voters| - i
  {
    if i < |voters| {
      CountOnce(voters, a, i + 1);
      assert voters[i..][1..] == voters[i + 1..];
      if voters[i] == a && i + 1 < |voters| {
        assert voters[i] < voters[i + 1];
      }
    }
  }

  lemma SelfQuorumIsAlone(config: VoterConfig, a: NodeId, b: NodeId)
    requires HasQuorum(config, {a}) && IsVoter(config, b)
    ensures a == b
  {
    match config
    case Stable(voters) => SoleVoter(voters, a);
    case Joint(o, n) => SoleVoter(o, a); SoleVoter(n, a);
  }

  /** Election Safety: over a whole run, a term has at most one leader, in whatever states they lead. */
  lemma ElectionSafety(states: seq<System>, moves: seq<(NodeId, Event)>, i: nat, a: NodeId, j: nat, b: NodeId, t: Term)
    requires IsRun(states, moves) && i < |states| && j < |states|
    requires a in states[i].servers && states[i].servers[a].mem.role.Leader?
      && states[i].servers[a].mem.hard.currentTerm == t
    requires b in states[j].servers && states[j].servers[b].mem.role.Leader?
      && states[j].servers[b].mem.hard.currentTerm == t
    ensures a == b
  {
    RunOk(states, moves, i);
    RunOk(states, moves, j);
    assert MemOk(states[i].h, a, states[i].servers[a]) && MemOk(states[j].h, b, states[j].servers[b]);
    assert DiskOk(states[i].h, a, states[i].servers[a].disk) && DiskOk(states[j].h, b, states[j].servers[b].disk);
    if i <= j {
      RunExtends(states, moves, i, j);
      OneWinnerEver(states[i].h, a, states[i].servers[a], states[j].h, b, states[j].servers[b], t);
    } else {
      RunExtends(states, moves, j, i);
      OneWinnerEver(states[j].h, b, states[j].servers[b], states[i].h, a, states[i].servers[a], t);
    }
  }

  lemma OneWinnerEver(h: History, a: NodeId, sa: Server, k: History, b: NodeId, sb: Server, t: Term)
    requires Extends(h, k)
    requires MemOk(h, a, sa) && sa.mem.role.Leader? && sa.mem.hard.currentTerm == t
    requires MemOk(k, b, sb) && DiskOk(k, b, sb.disk) && sb.mem.role.Leader? && sb.mem.hard.currentTerm == t
    ensures a == b
  {
    ElectedStable(h, k, a, t);
    var v := QuorumsIntersect(k.config, Voters(k.votes, t, a) + {a}, Voters(k.votes, t, b) + {b});
    if a != b {
      LeaderVotesAreOwn(k, b, sb, a, t, v);
      assert v == a && k.votes[(a, t)].candidate == b;
      if HasHard(sa.todo) {
        SelfQuorumIsAlone(h.config, a, b);
      }
    }
  }

  /** Every leader, from the moment it wins, has a quorum behind it: itself and the voters whose durable
      vote of the term is for it. Its log when it voted for itself was at least as up to date as the log of
      each of these voters at the moment that voter's grant became durable. */
  lemma WinnersAreUpToDate(states: seq<System>, moves: seq<(NodeId, Event)>, i: nat, n: NodeId)
    requires IsRun(states, moves) && i < |states| && n in states[i].servers && states[i].servers[n].mem.role.Leader?
    ensures var h, t := states[i].h, states[i].servers[n].mem.hard.currentTerm;
      && HasQuorum(h.config, Voters(h.votes, t, n) + {n})
      && forall v :: v in Voters(h.votes, t, n) ==>
           && (v, t) in h.votes && h.votes[(v, t)].candidate == n
           && (n, t) in h.votes && h.votes[(n, t)].candidate == n && UpToDate(h.votes[(n, t)].log, h.votes[(v, t)].log)
  {
    RunOk(states, moves, i);
    var h, t := states[i].h, states[i].servers[n].mem.hard.currentTerm;
    assert MemOk(h, n, states[i].servers[n]);
    forall v | v in Voters(h.votes, t, n)
      ensures (n, t) in h.votes && h.votes[(n, t)].candidate == n && UpToDate(h.votes[(n, t)].log, h.votes[(v, t)].log)
    {
      assert VoteOk(h, v, t);
    }
  }

  /** Once the winner's first entry is durable, its quorum and its log at the election are on record. */
  lemma RecordedWinners(states: seq<System>, moves: seq<(NodeId, Event)>, i: nat, t: Term, v: NodeId)
    requires IsRun(states, moves) && i < |states|
    requires t in states[i].h.terms && v in states[i].h.terms[t].quorum
    ensures var h := states[i].h;
      && HasQuorum(h.config, h.terms[t].quorum)
      && (v, t) in h.votes && h.votes[(v, t)].candidate == h.terms[t].leader
      && UpToDate(h.terms[t].start, h.votes[(v, t)].log) && h.terms[t].start <= h.terms[t].log
  {
    RunOk(states, moves, i);
    assert TermOk(states[i].h, t);
    assert VoteOk(states[i].h, v, t);
  }

  // ---------------------------------------------------------------- agreement

  /** Log Matching: durable logs that agree on the term at an index agree on everything up to it,
      whenever and wherever the two logs are read. */
  lemma LogMatchingInRun(states: seq<System>, moves: seq<(NodeId, Event)>, i: nat, a: NodeId, j: nat, b: NodeId, x: nat)
    requires IsRun(states, moves) && i <= j < |states|
    requires a in states[i].servers && b in states[j].servers
    requires x < |states[i].servers[a].disk.log| && x < |states[j].servers[b].disk.log|
    requires states[i].servers[a].disk.log[x].term == states[j].servers[b].disk.log[x].term
    ensures states[i].servers[a].disk.log[..x + 1] == states[j].servers[b].disk.log[..x + 1]
  {
    RunOk(states, moves, i);
    RunOk(states, moves, j);
    RunExtends(states, moves, i, j);
    assert DiskOk(states[i].h, a, states[i].servers[a].disk) && DiskOk(states[j].h, b, states[j].servers[b].disk);
    ConsistentStable(states[i].h.terms, states[j].h.terms, states[i].servers[a].disk.log);
    LogMatching(states[j].h.terms, states[i].servers[a].disk.log, states[j].servers[b].disk.log, x);
  }

  /** State Machine Safety: whatever any two nodes apply at one index, at any time, before or
      after any number of crashes, is the same entry. */
  lemma StateMachineSafety(states: seq<System>, moves: seq<(NodeId, Event)>, i: nat, a: (NodeId, Entry), j: nat,
                           b: (NodeId, Entry))
    requires IsRun(states, moves) && i < |states| && j < |states|
    requires a in states[i].h.applied && b in states[j].h.applied && a.1.index == b.1.index
    ensures a.1 == b.1
  {
    var last := |states| - 1;
    RunExtends(states, moves, i, last);
    RunExtends(states, moves, j, last);
    RunOk(states, moves, last);
    AppliedAgree(states[last].h, a, b);
  }

  /** A leader's queued append only extends what is on its disk. */
  lemma {:induction false} DiskBehindLeader(h: History, mem: Node, disk: seq<Entry>, todo: seq<Effect>)
    requires mem.role.Leader? && LogsOk(disk, mem.log, todo) && PendingLogOk(h, mem, todo)
    ensures disk <= mem.log
    decreases |todo|
  {
    if todo != [] && !todo[0].PersistLogEntries? { DiskBehindLeader(h, mem, disk, todo[1..]); }
  }

  /** A winner that has written nothing yet was elected with every quorum-held prefix on its disk. */
  lemma FreshWinnerHolds(h: History, n: NodeId, s: Server, t: Term, m: LogIndex)
    requires HistoryOk(h) && MemOk(h, n, s) && DiskOk(h, n, s.disk) && s.mem.role.Leader?
    requires s.mem.hard.currentTerm !in h.terms && Chosen(h, t, m) && t < s.mem.hard.currentTerm
    ensures Acknowledged(h, t, m) <= s.disk.log
  {
    var t1 := s.mem.hard.currentTerm;
    if HasHard(s.todo) {
      var v := QuorumsIntersect(h.config, Ackers(h.acks, t, m), {n});
      assert AckPersisted(h, n, t, s.disk);
      RetainedIsHeld(h, s.disk.log, t, m, s.disk.hard.currentTerm + 1);
    } else {
      var v := QuorumsIntersect(h.config, Ackers(h.acks, t, m), Voters(h.votes, t1, n) + {n});
      assert (v, t) in h.acks && m <= h.acks[(v, t)];
      assert VoteOk(h, v, t1) && VoteOk(h, n, t1);
      RetainedIsHeld(h, h.votes[(v, t1)].log, t, m, t1);
      WinnerHasPrefix(h, t, m, t1, s.disk.log, h.votes[(v, t1)].log);
    }
  }

  /** Leader Completeness: every leader, from the moment it wins, holds every entry committed in its own
      or an earlier term. */
  lemma LeadersHoldCommitted(states: seq<System>, moves: seq<(NodeId, Event)>, i: nat, n: NodeId, e: Entry, t: Term,
                             m: LogIndex)
    requires IsRun(states, moves) && i < |states| && n in states[i].servers
    requires var mem := states[i].servers[n].mem; mem.role.Leader? && t <= mem.hard.currentTerm
    requires EntryVia(states[i].h, e, t, m)
    ensures var log := states[i].servers[n].mem.log; 0 < e.index <= |log| && log[e.index - 1] == e
  {
    RunOk(states, moves, i);
    assert MemOk(states[i].h, n, states[i].servers[n]) && DiskOk(states[i].h, n, states[i].servers[n].disk);
    LeaderHolds(states[i].h, n, states[i].servers[n], e, t, m);
  }

  lemma LeaderHolds(h: History, n: NodeId, s: Server, e: Entry, t: Term, m: LogIndex)
    requires HistoryOk(h) && MemOk(h, n, s) && DiskOk(h, n, s.disk) && s.mem.role.Leader?
    requires t <= s.mem.hard.currentTerm && EntryVia(h, e, t, m)
    ensures 0 < e.index <= |s.mem.log| && s.mem.log[e.index - 1] == e
  {
    var t1 := s.mem.hard.currentTerm;
    DiskBehindLeader(h, s.mem, s.disk.log, s.todo);
    if t < t1 {
      assert Acknowledged(h, t, m)[e.index - 1] == e;
      if t1 in h.terms {
        assert TermOk(h, t1);
        LeaderCompleteness(h, t, m, t1);
      } else {
        FreshWinnerHolds(h, n, s, t, m);
      }
    }
  }

  // ---------------------------------------------------------------- durability

  /** Persist before send: whenever the next effect leaves the process, the whole of the node's
      hard state and log is already on its disk. */
  lemma NothingLeavesBeforeDisk(states: seq<System>, moves: seq<(NodeId, Event)>, i: nat, n: NodeId)
    requires IsRun(states, moves) && i < |states| && n in states[i].servers
    requires var todo := states[i].servers[n].todo; todo != [] && (todo[0].Send? || todo[0].Apply?)
    ensures var s := states[i].servers[n]; s.disk == Disk(s.mem.hard, s.mem.log)
  {
    RunOk(states, moves, i);
    assert MemOk(states[i].h, n, states[i].servers[n]);
    QueueDone(states[i].h, n, states[i].servers[n]);
  }

  /** Recovery never refuses: every disk a run produces, torn appends included, passes the
      structural checks of a restarting node. */
  lemma RecoveryAccepts(states: seq<System>, moves: seq<(NodeId, Event)>, i: nat, n: NodeId)
    requires IsRun(states, moves) && i < |states| && n in states[i].servers
    ensures RestoreAccepts(states[i].servers[n].disk)
  {
    RunOk(states, moves, i);
    assert DiskOk(states[i].h, n, states[i].servers[n].disk);
  }
}
