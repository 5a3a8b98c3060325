/** Executing any queued effect, crashing, and crashing inside an append keep the invariant. */
module RaftExecution {
  import opened Types
  import opened RaftCore
  import opened RaftCluster
  import opened RaftInvariants
  import opened RaftQuorums
  import opened RaftTheorems
  import opened RaftHandlers
  import opened RaftReplication
  import opened RaftStability

  // ---------------------------------------------------------------- hard state

  lemma HardExtends(h: History, n: NodeId, hard: HardState, log: seq<Entry>)
    ensures var k := RecordVote(h, n, hard, log);
      Extends(h, k) && k.acks == h.acks && k.terms == h.terms && k.net == h.net && k.applied == h.applied
      && forall o :: o != n ==> Foreign(h, k, o)
  {
  }

  /** The vote a save makes durable is well founded. */
  lemma NewVoteOk(h: History, n: NodeId, s: Server)
    requires HistoryOk(h) && DiskOk(h, n, s.disk) && MemOk(h, n, s)
    requires s.todo != [] && s.todo[0].PersistHardState? && s.todo[0].hard.votedFor.Some?
    requires (n, s.todo[0].hard.currentTerm) !in h.votes
    ensures var hard := s.todo[0].hard; VoteOk(RecordVote(h, n, hard, s.disk.log), n, hard.currentTerm)
  {
    var hard := s.todo[0].hard;
    var t := hard.currentTerm;
    var k := RecordVote(h, n, hard, s.disk.log);
    HardExtends(h, n, hard, s.disk.log);
    if hard.votedFor.value != n {
      NoLogPending(s.disk.log, s.mem.log, s.todo);
    }
    if t in h.terms {
      assert TermOk(h, t);
    }
    forall t0 | t0 < t && (n, t0) in k.acks && t !in h.terms
      ensures AckOk(k, n, t0) && RetainedUpTo(k, s.disk.log, t0, k.acks[(n, t0)], t)
    {
      assert AckPersisted(h, n, t0, s.disk);
      NarrowRetained(h, s.disk.log, t0, h.acks[(n, t0)], s.disk.hard.currentTerm + 1, t);
      RetainedStable(h, k, s.disk.log, t0, h.acks[(n, t0)], t);
    }
  }

  lemma NarrowRetained(h: History, log: seq<Entry>, t0: Term, a: LogIndex, before: Term, t: Term)
    requires t0 in h.terms && a <= |h.terms[t0].log| && RetainedUpTo(h, log, t0, a, before)
    requires before <= t + 1 && t !in h.terms
    ensures RetainedUpTo(h, log, t0, a, t)
  {
    forall m | 0 <= m <= a ensures Retained(h, log, t0, m, t) {
      assert Retained(h, log, t0, m, before);
      if !(Acknowledged(h, t0, m) <= log) {
        var t1 :| Lost(h, t0, m, before, t1);
        assert Lost(h, t0, m, t, t1);
      }
    }
  }

  lemma WidenRetained(h: History, log: seq<Entry>, t0: Term, a: LogIndex, before: Term, t: Term)
    requires t0 in h.terms && a <= |h.terms[t0].log| && RetainedUpTo(h, log, t0, a, before) && before <= t
    ensures RetainedUpTo(h, log, t0, a, t)
  {
    forall m | 0 <= m <= a ensures Retained(h, log, t0, m, t) {
      assert Retained(h, log, t0, m, before);
      if !(Acknowledged(h, t0, m) <= log) {
        var t1 :| Lost(h, t0, m, before, t1);
        assert Lost(h, t0, m, t, t1);
      }
    }
  }

  lemma HardHistory(h: History, n: NodeId, s: Server)
    requires HistoryOk(h) && DiskOk(h, n, s.disk) && MemOk(h, n, s) && s.todo != [] && s.todo[0].PersistHardState?
    ensures HistoryOk(RecordVote(h, n, s.todo[0].hard, s.disk.log))
  {
    var hard := s.todo[0].hard;
    var k := RecordVote(h, n, hard, s.disk.log);
    HardExtends(h, n, hard, s.disk.log);
    forall t | t in k.terms ensures TermOk(k, t) {
      TermStable(h, k, t);
    }
    forall v, t | (v, t) in k.votes ensures VoteOk(k, v, t) {
      if (v, t) in h.votes {
        VoteStable(h, k, v, t);
      } else {
        NewVoteOk(h, n, s);
      }
    }
    forall v, t | (v, t) in k.acks ensures AckOk(k, v, t) {
      assert AckOk(h, v, t);
    }
  }

  lemma HardDisk(h: History, n: NodeId, s: Server)
    requires DiskOk(h, n, s.disk) && MemOk(h, n, s) && s.todo != [] && s.todo[0].PersistHardState?
    ensures DiskOk(RecordVote(h, n, s.todo[0].hard, s.disk.log), n, s.disk.(hard := s.todo[0].hard))
  {
    var hard := s.todo[0].hard;
    var k := RecordVote(h, n, hard, s.disk.log);
    var d := s.disk.(hard := hard);
    HardExtends(h, n, hard, s.disk.log);
    forall t | (n, t) in k.votes ensures VotePersisted(hard, t, k.votes[(n, t)].candidate) {
      if (n, t) in h.votes {
        assert VotePersisted(s.disk.hard, t, h.votes[(n, t)].candidate);
      }
    }
    forall t | (n, t) in k.acks ensures AckPersisted(k, n, t, d) {
      assert AckPersisted(h, n, t, s.disk);
      WidenRetained(h, s.disk.log, t, h.acks[(n, t)], s.disk.hard.currentTerm + 1, hard.currentTerm + 1);
      RetainedStable(h, k, s.disk.log, t, h.acks[(n, t)], hard.currentTerm + 1);
    }
  }

  lemma HardRole(h: History, n: NodeId, s: Server)
    requires DiskOk(h, n, s.disk) && MemOk(h, n, s) && s.todo != [] && s.todo[0].PersistHardState?
    ensures var hard := s.todo[0].hard;
      RoleOk(RecordVote(h, n, hard, s.disk.log), n, s.(disk := s.disk.(hard := hard), todo := s.todo[1..]))
  {
    var hard := s.todo[0].hard;
    var rest := s.todo[1..];
    var k := RecordVote(h, n, hard, s.disk.log);
    HardExtends(h, n, hard, s.disk.log);
    if s.mem.role.Candidate? || s.mem.role.Leader? {
      if !HasHard(rest) {
        NothingPending(Disk(hard, s.disk.log), s.mem, rest);
        assert (n, hard.currentTerm) in h.votes ==>
          VotePersisted(s.disk.hard, hard.currentTerm, h.votes[(n, hard.currentTerm)].candidate);
        if s.mem.role.Candidate? { NoLogPending(s.disk.log, s.mem.log, s.todo); }
      }
    }
    match s.mem.role
    case Follower =>
    case PreCandidate(prospective, campaign, votes) =>
      forall v | v in votes && v != n ensures PreGranted(k, n, v, prospective, campaign) {
        assert PreGranted(h, n, v, prospective, campaign);
      }
    case Candidate(votes) =>
    case Leader(_, _) =>
      ElectedStable(h, k, n, s.mem.hard.currentTerm);
      forall p | p in s.mem.role.matchIndex ensures MatchOk(k, s.mem, p) {
        assert MatchOk(h, s.mem, p);
      }
  }

  lemma HardMem(h: History, n: NodeId, s: Server)
    requires DiskOk(h, n, s.disk) && MemOk(h, n, s) && s.todo != [] && s.todo[0].PersistHardState?
    ensures var hard := s.todo[0].hard;
      MemOk(RecordVote(h, n, hard, s.disk.log), n, s.(disk := s.disk.(hard := hard), todo := s.todo[1..]))
  {
    var hard := s.todo[0].hard;
    var rest := s.todo[1..];
    var k := RecordVote(h, n, hard, s.disk.log);
    HardExtends(h, n, hard, s.disk.log);
    HardRole(h, n, s);
    assert forall i :: 0 <= i < |rest| ==> rest[i] == s.todo[i + 1];
    assert OutsOk(h, s.mem, rest);
    OutsStable(h, k, s.mem, rest);
    PendingLogStable(h, k, s.mem, rest);
    assert CommitOk(h, s.mem, rest);
    CommitStable(h, k, s.mem, rest);
  }

  // ---------------------------------------------------------------- log

  lemma ConsistentPrefix(terms: map<Term, TermRecord>, a: seq<Entry>, b: seq<Entry>)
    requires a <= b && Consistent(terms, b)
    ensures Consistent(terms, a)
  {
    forall i | 0 <= i < |a| ensures Sourced(terms, a, i) {
      assert Sourced(terms, b, i);
      assert a[..i + 1] == b[..i + 1];
    }
  }

  /** The durable log once the cut and the first `k` entries are on disk: a prefix of the memory log. */
  function Written(s: Server, k: nat): seq<Entry>
    requires s.todo != [] && s.todo[0].PersistLogEntries? && k <= |s.todo[0].entries|
  {
    Cut(s.disk.log, s.todo[0].truncateFrom) + s.todo[0].entries[..k]
  }

  lemma WrittenPrefix(h: History, n: NodeId, s: Server, k: nat)
    requires MemOk(h, n, s) && s.todo != [] && s.todo[0].PersistLogEntries? && k <= |s.todo[0].entries|
    ensures Written(s, k) <= s.mem.log && WfLog(Written(s, k)) && TermsAtMost(Written(s, k), s.mem.hard.currentTerm)
    ensures s.disk.hard == s.mem.hard && !HasHard(s.todo) && !HasHard(s.todo[1..]) && !HasLog(s.todo[1..])
    ensures k == |s.todo[0].entries| ==> Written(s, k) == s.mem.log
  {
    NothingPending(s.disk, s.mem, s.todo);
    assert s.todo[0].entries[..k] <= s.todo[0].entries;
    if k == |s.todo[0].entries| {
      assert s.todo[0].entries[..k] == s.todo[0].entries;
    }
  }

  /** An acknowledged prefix survives a follower's cut, or the current leader never had it. */
  lemma CutRetains(h: History, s: Server, k: nat, t0: Term, m: LogIndex, t: Term)
    requires s.todo != [] && s.todo[0].PersistLogEntries? && k <= |s.todo[0].entries|
    requires t in h.terms && t0 in h.terms && t0 <= t && m <= |h.terms[t0].log|
    requires h.terms[t].start <= h.terms[t].log && s.mem.log <= h.terms[t].log
    requires Cut(s.disk.log, s.todo[0].truncateFrom) + s.todo[0].entries == s.mem.log
    requires CutAtConflict(s.disk.log, s.mem.log, s.todo[0].truncateFrom)
    requires Retained(h, s.disk.log, t0, m, t + 1)
    ensures Retained(h, Written(s, k), t0, m, t + 1)
  {
    var p := Acknowledged(h, t0, m);
    var from := s.todo[0].truncateFrom;
    if p <= s.disk.log {
      if from.None? || m <= from.value - 1 {
        assert p <= Cut(s.disk.log, from);
        assert p <= Written(s, k);
      } else {
        var c := from.value - 1;
        assert p[c] == s.disk.log[c] && s.mem.log[c] == h.terms[t].log[c];
        assert t0 < t;
        assert Lost(h, t0, m, t + 1, t);
      }
    }
  }

  lemma FollowerRetains(h: History, n: NodeId, s: Server, k: nat, t0: Term)
    requires MemOk(h, n, s) && s.todo != [] && s.todo[0].PersistLogEntries? && k <= |s.todo[0].entries|
      && !s.mem.role.Leader?
    requires s.disk.hard == s.mem.hard && TermOk(h, s.mem.hard.currentTerm)
    requires (n, t0) in h.acks && AckPersisted(h, n, t0, s.disk)
    ensures AckPersisted(h, n, t0, s.disk.(log := Written(s, k)))
  {
    var before := s.disk.hard.currentTerm + 1;
    forall m | 0 <= m <= h.acks[(n, t0)] ensures Retained(h, Written(s, k), t0, m, before) {
      assert Retained(h, s.disk.log, t0, m, before);
      CutRetains(h, s, k, t0, m, s.disk.hard.currentTerm);
    }
  }

  lemma FollowerLogDisk(h: History, n: NodeId, s: Server, k: nat)
    requires TermsOk(h) && DiskOk(h, n, s.disk) && MemOk(h, n, s)
    requires s.todo != [] && s.todo[0].PersistLogEntries? && k <= |s.todo[0].entries| && !s.mem.role.Leader?
    ensures DiskOk(h, n, s.disk.(log := Written(s, k)))
  {
    var t := s.mem.hard.currentTerm;
    var d := s.disk.(log := Written(s, k));
    WrittenPrefix(h, n, s, k);
    assert TermOk(h, t);
    ConsistentPrefix(h.terms, d.log, h.terms[t].log);
    forall t0 | (n, t0) in h.acks ensures AckPersisted(h, n, t0, d) {
      FollowerRetains(h, n, s, k, t0);
    }
  }

  lemma FollowerLogMem(h: History, n: NodeId, s: Server)
    requires MemOk(h, n, s) && s.todo != [] && s.todo[0].PersistLogEntries? && !s.mem.role.Leader?
    ensures MemOk(h, n, s.(disk := s.disk.(log := Written(s, |s.todo[0].entries|)), todo := s.todo[1..]))
  {
    var rest := s.todo[1..];
    WrittenPrefix(h, n, s, |s.todo[0].entries|);
    assert forall i :: 0 <= i < |rest| ==> rest[i] == s.todo[i + 1];
    assert OutsOk(h, s.mem, rest);
    QuietRest(h, s.mem, rest);
  }

  lemma {:induction false} QuietRest(h: History, mem: Node, rest: seq<Effect>)
    requires !HasHard(rest) && !HasLog(rest)
    ensures LogsOk(mem.log, mem.log, rest) && PendingLogOk(h, mem, rest)
  {
    if rest != [] { QuietRest(h, mem, rest[1..]); }
  }

  // ---------------------------------------------------------------- a leader's own append

  /** The leader of term `t` extends its log from `a` to `b`. */
  ghost predicate LeaderAppend(h: History, n: NodeId, t: Term, a: seq<Entry>, b: seq<Entry>) {
    && |a| < |b| && a <= b && WfLog(b) && TermsAtMost(b, t)
    && (forall i :: |a| <= i < |b| ==> b[i].term == t)
    && Elected(h, n, t) && (n, t) in h.votes && h.votes[(n, t)].candidate == n
    && (if t in h.terms then h.terms[t].leader == n && h.terms[t].log == a
        else h.votes[(n, t)] == Vote(n, a) && (n, t) !in h.acks)
    && ((n, t) in h.acks ==> h.acks[(n, t)] <= |a|)
  }

  lemma AppendExtends(h: History, n: NodeId, t: Term, a: seq<Entry>, b: seq<Entry>)
    requires LeaderAppend(h, n, t, a, b)
    ensures Extends(h, RecordAppend(h, n, t, a, b))
    ensures forall o :: o != n ==> Foreign(h, RecordAppend(h, n, t, a, b), o)
  {
  }

  lemma AppendedConsistent(h: History, n: NodeId, t: Term, a: seq<Entry>, b: seq<Entry>)
    requires LeaderAppend(h, n, t, a, b) && Consistent(h.terms, a)
    ensures Consistent(RecordAppend(h, n, t, a, b).terms, b)
  {
    AppendExtends(h, n, t, a, b);
    var g := RecordAppend(h, n, t, a, b);
    ConsistentStable(h.terms, g.terms, a);
    forall i | 0 <= i < |b| ensures Sourced(g.terms, b, i) {
      if i < |a| {
        assert Sourced(g.terms, a, i);
        assert b[..i + 1] == a[..i + 1];
      }
    }
  }

  lemma AppendTermOk(h: History, n: NodeId, t: Term, a: seq<Entry>, b: seq<Entry>)
    requires LeaderAppend(h, n, t, a, b) && Consistent(h.terms, a)
    requires VoteOk(h, n, t) && (t in h.terms ==> TermOk(h, t))
    ensures TermOk(RecordAppend(h, n, t, a, b), t)
  {
    AppendedConsistent(h, n, t, a, b);
    if t !in h.terms {
      assert n in Voters(h.votes, t, n) by { assert (n, t) in h.votes.Keys; }
      assert Voters(h.votes, t, n) + {n} == Voters(h.votes, t, n);
    }
  }

  lemma AppendTermsOk(h: History, n: NodeId, t: Term, a: seq<Entry>, b: seq<Entry>)
    requires TermsOk(h) && LeaderAppend(h, n, t, a, b) && VoteOk(h, n, t) && Consistent(h.terms, a)
    ensures TermsOk(RecordAppend(h, n, t, a, b))
  {
    var g := RecordAppend(h, n, t, a, b);
    AppendExtends(h, n, t, a, b);
    forall u | u in g.terms ensures TermOk(g, u) {
      if u == t {
        AppendTermOk(h, n, t, a, b);
      } else {
        TermStable(h, g, u);
      }
    }
  }

  lemma AppendVotesOk(h: History, n: NodeId, t: Term, a: seq<Entry>, b: seq<Entry>)
    requires VotesOk(h) && LeaderAppend(h, n, t, a, b)
    requires forall u :: (n, u) in h.votes ==> u <= t
    ensures VotesOk(RecordAppend(h, n, t, a, b))
  {
    var g := RecordAppend(h, n, t, a, b);
    AppendExtends(h, n, t, a, b);
    forall v, u | (v, u) in g.votes ensures VoteOk(g, v, u) {
      VoteStable(h, g, v, u);
    }
  }

  lemma AppendHistory(h: History, n: NodeId, t: Term, a: seq<Entry>, b: seq<Entry>)
    requires HistoryOk(h) && LeaderAppend(h, n, t, a, b) && Consistent(h.terms, a)
    requires forall u :: (n, u) in h.votes ==> u <= t
    ensures HistoryOk(RecordAppend(h, n, t, a, b))
  {
    var g := RecordAppend(h, n, t, a, b);
    assert VoteOk(h, n, t);
    AppendTermsOk(h, n, t, a, b);
    AppendVotesOk(h, n, t, a, b);
    forall v, u | (v, u) in g.acks ensures AckOk(g, v, u) {
      assert (v, u) != (n, t) ==> AckOk(h, v, u);
    }
  }

  lemma AppendRetains(h: History, n: NodeId, t: Term, a: seq<Entry>, b: seq<Entry>, u: Term)
    requires LeaderAppend(h, n, t, a, b) && (n, u) in RecordAppend(h, n, t, a, b).acks
    requires u != t ==> AckOk(h, n, u) && RetainedUpTo(h, a, u, h.acks[(n, u)], t + 1)
    ensures AckOk(RecordAppend(h, n, t, a, b), n, u)
    ensures RetainedUpTo(RecordAppend(h, n, t, a, b), b, u, RecordAppend(h, n, t, a, b).acks[(n, u)], t + 1)
  {
    var g := RecordAppend(h, n, t, a, b);
    var before := t + 1;
    AppendExtends(h, n, t, a, b);
    if u != t {
      RetainedStable(h, g, a, u, h.acks[(n, u)], before);
      forall m | 0 <= m <= g.acks[(n, u)] ensures Retained(g, b, u, m, before) {
        assert Retained(g, a, u, m, before);
      }
    } else {
      forall m | 0 <= m <= g.acks[(n, u)] ensures Retained(g, b, u, m, before) {
        assert Acknowledged(g, u, m) <= b;
      }
    }
  }

  lemma AppendDisk(h: History, n: NodeId, d: Disk, b: seq<Entry>)
    requires DiskOk(h, n, d) && LeaderAppend(h, n, d.hard.currentTerm, d.log, b)
    ensures DiskOk(RecordAppend(h, n, d.hard.currentTerm, d.log, b), n, d.(log := b))
  {
    var t := d.hard.currentTerm;
    var g := RecordAppend(h, n, t, d.log, b);
    AppendedConsistent(h, n, t, d.log, b);
    forall u | (n, u) in g.acks ensures AckPersisted(g, n, u, d.(log := b)) {
      assert u != t ==> AckPersisted(h, n, u, d);
      AppendRetains(h, n, t, d.log, b, u);
    }
  }

  // The leader's queued append is such an extension.

  ghost predicate LeaderWrites(h: History, n: NodeId, s: Server, k: nat) {
    && MemOk(h, n, s) && s.todo != [] && s.todo[0].PersistLogEntries? && 0 < k <= |s.todo[0].entries|
    && s.mem.role.Leader?
  }

  lemma LeaderFacts(h: History, n: NodeId, s: Server, k: nat)
    requires AcksOk(h) && LeaderWrites(h, n, s, k)
    ensures s.disk.hard == s.mem.hard && LeaderAppend(h, n, s.disk.hard.currentTerm, s.disk.log, Written(s, k))
  {
    WrittenPrefix(h, n, s, k);
    assert Written(s, k) == s.disk.log + s.todo[0].entries[..k];
    var t := s.disk.hard.currentTerm;
    assert (n, t) in h.acks ==> AckOk(h, n, t);
  }

  lemma AppendRole(h: History, n: NodeId, s: Server, g: History)
    requires MemOk(h, n, s) && s.mem.role.Leader? && s.todo != [] && s.todo[0].PersistLogEntries?
    requires !HasHard(s.todo[1..]) && !HasLog(s.todo[1..])
    requires LeaderAppend(h, n, s.mem.hard.currentTerm, s.disk.log, s.mem.log)
    requires g == RecordAppend(h, n, s.mem.hard.currentTerm, s.disk.log, s.mem.log)
    ensures RoleOk(g, n, s.(disk := s.disk.(log := s.mem.log), todo := s.todo[1..]))
  {
    AppendExtends(h, n, s.mem.hard.currentTerm, s.disk.log, s.mem.log);
    ElectedStable(h, g, n, s.mem.hard.currentTerm);
    forall p | p in s.mem.role.matchIndex ensures MatchOk(g, s.mem, p) {
      assert MatchOk(h, s.mem, p);
    }
  }

  lemma AppendMem(h: History, n: NodeId, s: Server, g: History)
    requires AcksOk(h) && MemOk(h, n, s) && s.mem.role.Leader? && s.todo != [] && s.todo[0].PersistLogEntries?
    requires g == RecordAppend(h, n, s.disk.hard.currentTerm, s.disk.log, s.mem.log)
    ensures MemOk(g, n, s.(disk := s.disk.(log := s.mem.log), todo := s.todo[1..]))
  {
    var k := |s.todo[0].entries|;
    var rest := s.todo[1..];
    LeaderFacts(h, n, s, k);
    WrittenPrefix(h, n, s, k);
    AppendExtends(h, n, s.disk.hard.currentTerm, s.disk.log, s.mem.log);
    assert forall i :: 0 <= i < |rest| ==> rest[i] == s.todo[i + 1];
    assert OutsOk(h, s.mem, rest);
    OutsStable(h, g, s.mem, rest);
    QuietRest(g, s.mem, rest);
    AppendRole(h, n, s, g);
    AppendCommits(h, n, s, g);
  }

  /** A leader that is a quorum by itself commits by writing. */
  lemma AppendCommits(h: History, n: NodeId, s: Server, g: History)
    requires CommitOk(h, s.mem, s.todo) && s.mem.id == n && s.mem.config == h.config
    requires LeaderAppend(h, n, s.mem.hard.currentTerm, s.disk.log, s.mem.log)
    requires g == RecordAppend(h, n, s.mem.hard.currentTerm, s.disk.log, s.mem.log)
    ensures Committed(g, s.mem.log, s.mem.commitIndex)
  {
    var t := s.mem.hard.currentTerm;
    AppendExtends(h, n, t, s.disk.log, s.mem.log);
    if Committed(h, s.mem.log, s.mem.commitIndex) {
      CommittedStable(h, g, s.mem.log, s.mem.commitIndex);
    } else {
      var m := |s.mem.log|;
      QuorumMonotone(h.config, {n}, Ackers(g.acks, t, m)) by {
        assert (n, t) in g.acks.Keys;
      }
      assert CommittedVia(g, s.mem.log, s.mem.commitIndex, t, m);
    }
  }

  // ---------------------------------------------------------------- sends and applies

  lemma QueueDone(h: History, n: NodeId, s: Server)
    requires MemOk(h, n, s) && s.todo != [] && (s.todo[0].Send? || s.todo[0].Apply?)
    ensures s.disk == Disk(s.mem.hard, s.mem.log) && Committed(h, s.mem.log, s.mem.commitIndex)
      && s.mem.commitIndex <= |s.mem.log|
    ensures OutOk(h, s.mem, s.todo[0])
  {
    PopOutput(h, n, s);
    NothingPending(s.disk, s.mem, s.todo);
    NoLogPending(s.disk.log, s.mem.log, s.todo);
  }

  lemma SentOk(h: History, n: NodeId, s: Server)
    requires DiskOk(h, n, s.disk) && MemOk(h, n, s) && s.todo != [] && s.todo[0].Send?
    requires !(s.todo[0].msg.AppendEntriesReply? && s.todo[0].msg.success)
    ensures PacketOk(h, Packet(n, s.todo[0].to, s.todo[0].msg))
  {
    PopOutput(h, n, s);
    QueueDone(h, n, s);
    match s.todo[0].msg
    case RequestVoteReply(t, granted) =>
      if granted {
        assert (n, t) in h.votes && VotePersisted(s.disk.hard, t, h.votes[(n, t)].candidate);
      }
    case AppendEntries(t, l, prev, pt, es, lc) =>
      CommittedCopy(h, s.mem.log, s.mem.log, s.mem.commitIndex, lc);
    case _ =>
  }

  /** An acknowledgement of `m` entries of the current term's leader log. */
  ghost predicate AckGrounded(h: History, d: Disk, t: Term, m: LogIndex) {
    t == d.hard.currentTerm && t in h.terms && m <= |d.log| && d.log[..m] <= h.terms[t].log
  }

  ghost predicate SendGrounded(h: History, d: Disk, msg: Message) {
    msg.AppendEntriesReply? && msg.success ==> AckGrounded(h, d, msg.term, msg.matchIndex)
  }

  lemma SendExtends(h: History, n: NodeId, d: Disk, to: NodeId, msg: Message)
    requires AcksOk(h) && SendGrounded(h, d, msg)
    ensures var k := RecordSend(h, n, to, msg);
      && Extends(h, k) && k.terms == h.terms && k.votes == h.votes && k.applied == h.applied
      && (forall o :: o != n ==> Foreign(h, k, o))
      && AcksOk(k)
      && (forall t :: (n, t) in k.acks && t != d.hard.currentTerm ==>
          (n, t) in h.acks && h.acks[(n, t)] == k.acks[(n, t)])
  {
    var k := RecordSend(h, n, to, msg);
    forall v, t | (v, t) in k.acks ensures AckOk(k, v, t) {
      assert (v, t) in h.acks ==> AckOk(h, v, t);
    }
  }

  lemma SendHistory(h: History, n: NodeId, d: Disk, to: NodeId, msg: Message)
    requires HistoryOk(h) && PacketsOk(h) && DiskOk(h, n, d) && SendGrounded(h, d, msg)
    requires !(msg.AppendEntriesReply? && msg.success) ==> PacketOk(h, Packet(n, to, msg))
    ensures HistoryOk(RecordSend(h, n, to, msg)) && PacketsOk(RecordSend(h, n, to, msg))
  {
    var k := RecordSend(h, n, to, msg);
    SendExtends(h, n, d, to, msg);
    forall t | t in k.terms ensures TermOk(k, t) { TermStable(h, k, t); }
    forall v, t | (v, t) in k.votes ensures VoteOk(k, v, t) {
      if v == n { assert VotePersisted(d.hard, t, h.votes[(n, t)].candidate); }
      VoteStable(h, k, v, t);
    }
    if !(msg.AppendEntriesReply? && msg.success) {
      PacketStable(h, k, Packet(n, to, msg));
    }
    assert PacketOk(k, Packet(n, to, msg));
    PacketsStable(h, k);
  }

  lemma SendRetains(h: History, n: NodeId, d: Disk, to: NodeId, msg: Message, t: Term)
    requires AcksOk(h) && SendGrounded(h, d, msg) && (n, t) in RecordSend(h, n, to, msg).acks
    requires (n, t) in h.acks ==> AckPersisted(h, n, t, d)
    ensures AckPersisted(RecordSend(h, n, to, msg), n, t, d)
  {
    var k := RecordSend(h, n, to, msg);
    var before := d.hard.currentTerm + 1;
    SendExtends(h, n, d, to, msg);
    if (n, t) in h.acks {
      RetainedStable(h, k, d.log, t, h.acks[(n, t)], before);
    }
    assert AckOk(k, n, t);
    forall m | 0 <= m <= k.acks[(n, t)] ensures Retained(k, d.log, t, m, before) {
      if !((n, t) in h.acks && m <= h.acks[(n, t)]) {
        assert Acknowledged(k, t, m) <= d.log;
      }
    }
  }

  lemma SendDisk(h: History, n: NodeId, d: Disk, to: NodeId, msg: Message)
    requires AcksOk(h) && DiskOk(h, n, d) && SendGrounded(h, d, msg)
    ensures DiskOk(RecordSend(h, n, to, msg), n, d)
  {
    var k := RecordSend(h, n, to, msg);
    SendExtends(h, n, d, to, msg);
    ConsistentStable(h.terms, k.terms, d.log);
    forall t | (n, t) in k.acks ensures AckPersisted(k, n, t, d) {
      SendRetains(h, n, d, to, msg, t);
    }
  }

  lemma SendMem(h: History, n: NodeId, s: Server)
    requires AcksOk(h) && MemOk(h, n, s) && s.todo != [] && s.todo[0].Send?
    ensures MemOk(RecordSend(h, n, s.todo[0].to, s.todo[0].msg), n, s.(todo := s.todo[1..]))
    ensures SendGrounded(h, s.disk, s.todo[0].msg)
  {
    var k := RecordSend(h, n, s.todo[0].to, s.todo[0].msg);
    QueueDone(h, n, s);
    SendExtends(h, n, s.disk, s.todo[0].to, s.todo[0].msg);
    PopOutput(h, n, s);
    var r := s.(todo := s.todo[1..]);
    OutsStable(h, k, r.mem, r.todo);
    PendingLogStable(h, k, r.mem, r.todo);
    CommitStable(h, k, r.mem, r.todo);
    SendRole(h, n, s, k);
  }

  lemma SendRole(h: History, n: NodeId, s: Server, k: History)
    requires MemOk(h, n, s) && s.todo != [] && s.todo[0].Send? && k == RecordSend(h, n, s.todo[0].to, s.todo[0].msg)
    requires Extends(h, k) && RoleOk(h, n, s.(todo := s.todo[1..]))
    ensures RoleOk(k, n, s.(todo := s.todo[1..]))
  {
    QueueDone(h, n, s);
    PopOutput(h, n, s);
    match s.mem.role
    case Follower =>
    case PreCandidate(prospective, campaign, votes) =>
      forall v | v in votes && v != n ensures PreGranted(k, n, v, prospective, campaign) {
        var t0: Term :| t0 < prospective && Packet(v, n, PreVoteReply(t0, prospective, campaign, true)) in h.net;
        assert Packet(v, n, PreVoteReply(t0, prospective, campaign, true)) in k.net;
      }
    case Candidate(votes) =>
    case Leader(_, _) =>
      ElectedStable(h, k, n, s.mem.hard.currentTerm);
      forall p | p in s.mem.role.matchIndex ensures MatchOk(k, s.mem, p) {
        assert MatchOk(h, s.mem, p);
      }
  }

  lemma ApplyCommitted(h: History, n: NodeId, s: Server)
    requires MemOk(h, n, s) && s.todo != [] && s.todo[0].Apply?
    ensures EntryCommitted(h, s.todo[0].entry)
  {
    QueueDone(h, n, s);
    var t, m :| CommittedVia(h, s.mem.log, s.mem.commitIndex, t, m);
    var e := s.todo[0].entry;
    assert s.mem.log[..s.mem.commitIndex][e.index - 1] == h.terms[t].log[..s.mem.commitIndex][e.index - 1];
    assert EntryVia(h, e, t, m);
  }
}
