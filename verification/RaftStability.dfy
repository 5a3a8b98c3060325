/** Growing the history keeps every fact it does not directly concern. */
module RaftStability {
  import opened Types
  import opened RaftCore
  import opened RaftCluster
  import opened RaftInvariants
  import opened RaftQuorums

  ghost predicate TermGrows(a: TermRecord, b: TermRecord) {
    a.leader == b.leader && a.quorum == b.quorum && a.start == b.start && a.log <= b.log
  }

  ghost predicate TermsExtend(a: map<Term, TermRecord>, b: map<Term, TermRecord>) {
    forall t :: t in a ==> t in b && TermGrows(a[t], b[t])
  }

  ghost predicate Extends(h: History, k: History) {
    && h.config == k.config && h.net <= k.net && h.applied <= k.applied && h.boots <= k.boots
    && (forall x :: x in h.votes ==> x in k.votes && h.votes[x] == k.votes[x])
    && (forall x :: x in h.acks ==> x in k.acks && h.acks[x] <= k.acks[x])
    && TermsExtend(h.terms, k.terms)
  }

  /** What changed was not `n`'s doing. */
  ghost predicate Foreign(h: History, k: History, n: NodeId) {
    && (forall t :: (n, t) in k.votes ==> (n, t) in h.votes)
    && (forall t :: (n, t) in k.acks ==> (n, t) in h.acks && h.acks[(n, t)] == k.acks[(n, t)])
    && (forall t :: t in k.terms && k.terms[t].leader == n ==> t in h.terms && h.terms[t] == k.terms[t])
  }

  lemma ConsistentStable(a: map<Term, TermRecord>, b: map<Term, TermRecord>, log: seq<Entry>)
    requires TermsExtend(a, b) && Consistent(a, log)
    ensures Consistent(b, log)
  {
    forall i | 0 <= i < |log| ensures Sourced(b, log, i) {
      assert Sourced(a, log, i);
    }
  }

  lemma ChosenStable(h: History, k: History, t: Term, m: LogIndex)
    requires Extends(h, k) && Chosen(h, t, m)
    ensures Chosen(k, t, m)
  {
    QuorumMonotone(h.config, Ackers(h.acks, t, m), Ackers(k.acks, t, m)) by {
      forall v | v in Ackers(h.acks, t, m) ensures v in Ackers(k.acks, t, m) {
        assert (v, t) in k.acks;
      }
    }
  }

  lemma CommittedStable(h: History, k: History, log: seq<Entry>, i: LogIndex)
    requires Extends(h, k) && Committed(h, log, i)
    ensures Committed(k, log, i)
  {
    if i > 0 {
      var t, m :| CommittedVia(h, log, i, t, m);
      ChosenStable(h, k, t, m);
      assert CommittedVia(k, log, i, t, m);
    }
  }

  lemma EntryStable(h: History, k: History, e: Entry)
    requires Extends(h, k) && EntryCommitted(h, e)
    ensures EntryCommitted(k, e)
  {
    var t, m :| EntryVia(h, e, t, m);
    ChosenStable(h, k, t, m);
    assert EntryVia(k, e, t, m);
  }

  lemma RetainedStable(h: History, k: History, log: seq<Entry>, t: Term, a: LogIndex, before: Term)
    requires Extends(h, k) && t in h.terms && a <= |h.terms[t].log| && RetainedUpTo(h, log, t, a, before)
    ensures RetainedUpTo(k, log, t, a, before)
  {
    forall m | 0 <= m <= a ensures Retained(k, log, t, m, before) {
      assert Retained(h, log, t, m, before);
      assert Acknowledged(h, t, m) == Acknowledged(k, t, m);
      if !(Acknowledged(h, t, m) <= log) {
        var t1 :| Lost(h, t, m, before, t1);
        assert Lost(k, t, m, before, t1);
      }
    }
  }

  lemma PacketStable(h: History, k: History, p: Packet)
    requires Extends(h, k) && PacketOk(h, p)
    ensures PacketOk(k, p)
  {
    match p.msg
    case AppendEntries(t, l, prev, pt, es, lc) =>
      var a, b := h.terms[t].log, k.terms[t].log;
      assert a == b[..|a|];
      assert es == b[prev..prev + |es|];
      CommittedStable(h, k, a, lc);
      CommittedPrefix(k, a, b, lc);
    case _ =>
  }

  lemma CommittedPrefix(h: History, a: seq<Entry>, b: seq<Entry>, i: LogIndex)
    requires a <= b && i <= |a| && Committed(h, a, i)
    ensures Committed(h, b, i)
  {
    if i > 0 {
      var t, m :| CommittedVia(h, a, i, t, m);
      assert b[..i] == a[..i];
      assert CommittedVia(h, b, i, t, m);
    }
  }

  lemma PacketsStable(h: History, k: History)
    requires Extends(h, k) && PacketsOk(h) && (forall p :: p in k.net ==> p in h.net || PacketOk(k, p))
    ensures PacketsOk(k)
  {
    forall p | p in k.net ensures PacketOk(k, p) {
      if p in h.net { PacketStable(h, k, p); }
    }
  }

  lemma AppliedStable(h: History, k: History)
    requires Extends(h, k) && AppliedOk(h) && (forall a :: a in k.applied ==> a in h.applied || EntryCommitted(k, a.1))
    ensures AppliedOk(k)
  {
    forall a | a in k.applied ensures EntryCommitted(k, a.1) {
      if a in h.applied { EntryStable(h, k, a.1); }
    }
  }

  lemma TermStable(h: History, k: History, t: Term)
    requires Extends(h, k) && t in h.terms && TermOk(h, t) && h.terms[t] == k.terms[t]
    ensures TermOk(k, t)
  {
    ConsistentStable(h.terms, k.terms, h.terms[t].log);
  }

  lemma VoteStable(h: History, k: History, n: NodeId, t: Term)
    requires Extends(h, k) && (n, t) in h.votes && VoteOk(h, n, t)
    requires forall t0 :: t0 < t && (n, t0) in k.acks ==> (n, t0) in h.acks && h.acks[(n, t0)] == k.acks[(n, t0)]
    ensures VoteOk(k, n, t)
  {
    var v := h.votes[(n, t)];
    ConsistentStable(h.terms, k.terms, v.log);
    if t !in k.terms || n in k.terms[t].quorum {
      forall t0 | t0 < t && (n, t0) in k.acks
        ensures AckOk(k, n, t0) && RetainedUpTo(k, v.log, t0, k.acks[(n, t0)], t)
      {
        assert AckOk(h, n, t0);
        RetainedStable(h, k, v.log, t0, h.acks[(n, t0)], t);
      }
    }
  }

  lemma DiskStable(h: History, k: History, n: NodeId, d: Disk)
    requires Extends(h, k) && Foreign(h, k, n) && DiskOk(h, n, d)
    ensures DiskOk(k, n, d)
  {
    ConsistentStable(h.terms, k.terms, d.log);
    forall t | (n, t) in k.votes ensures VotePersisted(d.hard, t, k.votes[(n, t)].candidate) {
      assert VotePersisted(d.hard, t, h.votes[(n, t)].candidate);
    }
    forall t | (n, t) in k.acks ensures AckPersisted(k, n, t, d) {
      assert AckPersisted(h, n, t, d);
      RetainedStable(h, k, d.log, t, h.acks[(n, t)], d.hard.currentTerm + 1);
    }
  }

  // ---------------------------------------------------------------- memory

  lemma OutsStable(h: History, k: History, mem: Node, todo: seq<Effect>)
    requires Extends(h, k) && OutsOk(h, mem, todo)
    ensures OutsOk(k, mem, todo)
  {
    forall i | 0 <= i < |todo| ensures OutOk(k, mem, todo[i]) {
      assert OutOk(h, mem, todo[i]);
    }
  }

  lemma {:induction false} PendingLogStable(h: History, k: History, mem: Node, todo: seq<Effect>)
    requires Extends(h, k) && PendingLogOk(h, mem, todo)
    ensures PendingLogOk(k, mem, todo)
  {
    if todo != [] && !todo[0].PersistLogEntries? {
      PendingLogStable(h, k, mem, todo[1..]);
    }
  }

  lemma ElectedStable(h: History, k: History, n: NodeId, t: Term)
    requires Extends(h, k) && Elected(h, n, t)
    ensures Elected(k, n, t)
  {
    QuorumMonotone(h.config, Voters(h.votes, t, n) + {n}, Voters(k.votes, t, n) + {n}) by {
      forall v | v in Voters(h.votes, t, n) ensures v in Voters(k.votes, t, n) {
        assert (v, t) in k.votes;
      }
    }
  }

  /** A role survives foreign growth, provided nobody else opened the term a leader is about to open. */
  lemma RoleStable(h: History, k: History, n: NodeId, s: Server)
    requires Extends(h, k) && Foreign(h, k, n) && RoleOk(h, n, s)
    requires s.mem.role.Leader? && s.mem.hard.currentTerm in k.terms ==> s.mem.hard.currentTerm in h.terms
    ensures RoleOk(k, n, s)
  {
    var t := s.mem.hard.currentTerm;
    match s.mem.role
    case Follower =>
    case PreCandidate(prospective, campaign, votes) =>
      forall v | v in votes && v != n ensures PreGranted(k, n, v, prospective, campaign) {
        var t0: Term :| t0 < prospective && Packet(v, n, PreVoteReply(t0, prospective, campaign, true)) in h.net;
        assert Packet(v, n, PreVoteReply(t0, prospective, campaign, true)) in k.net;
      }
    case Candidate(votes) =>
    case Leader(_, _) =>
      ElectedStable(h, k, n, t);
      forall p | p in s.mem.role.matchIndex ensures MatchOk(k, s.mem, p) {
        assert MatchOk(h, s.mem, p);
      }
  }

  lemma CommitStable(h: History, k: History, mem: Node, todo: seq<Effect>)
    requires Extends(h, k) && CommitOk(h, mem, todo)
    ensures CommitOk(k, mem, todo)
  {
    if Committed(h, mem.log, mem.commitIndex) {
      CommittedStable(h, k, mem.log, mem.commitIndex);
    }
  }

  lemma MemStable(h: History, k: History, n: NodeId, s: Server)
    requires Extends(h, k) && Foreign(h, k, n) && MemOk(h, n, s)
    requires s.mem.role.Leader? && s.mem.hard.currentTerm in k.terms ==> s.mem.hard.currentTerm in h.terms
    ensures MemOk(k, n, s)
  {
    OutsStable(h, k, s.mem, s.todo);
    PendingLogStable(h, k, s.mem, s.todo);
    RoleStable(h, k, n, s);
    CommitStable(h, k, s.mem, s.todo);
  }

  /** Every bystander keeps its part. */
  lemma OthersStable(sys: System, k: History, n: NodeId)
    requires Extends(sys.h, k) && DisksOk(sys) && MemsOk(sys)
    requires forall o :: o in sys.servers && o != n ==> Foreign(sys.h, k, o)
    requires forall o ::
      o in sys.servers && o != n && sys.servers[o].mem.role.Leader?
      && sys.servers[o].mem.hard.currentTerm in k.terms ==>
        sys.servers[o].mem.hard.currentTerm in sys.h.terms
    ensures forall o :: o in sys.servers && o != n ==> DiskOk(k, o, sys.servers[o].disk) && MemOk(k, o, sys.servers[o])
  {
    forall o | o in sys.servers && o != n ensures DiskOk(k, o, sys.servers[o].disk) && MemOk(k, o, sys.servers[o]) {
      DiskStable(sys.h, k, o, sys.servers[o].disk);
      MemStable(sys.h, k, o, sys.servers[o]);
    }
  }

  // ---------------------------------------------------------------- queue heads

  /** Popping an effect that is not a persist leaves the rest of the queue in order. */
  lemma PopOutput(h: History, n: NodeId, s: Server)
    requires MemOk(h, n, s) && s.todo != [] && !IsPersist(s.todo[0])
    ensures MemOk(h, n, s.(todo := s.todo[1..]))
    ensures s.todo[0].Send? || s.todo[0].Apply? ==> !HasHard(s.todo) && !HasLog(s.todo)
  {
    var rest := s.todo[1..];
    assert forall i :: 0 <= i < |rest| ==> rest[i] == s.todo[i + 1];
    assert OutsOk(h, s.mem, rest);
  }

  lemma {:induction false} NothingPending(disk: Disk, mem: Node, todo: seq<Effect>)
    requires !HasHard(todo) && HardsOk(disk.hard, mem.hard, mem.id, todo)
    ensures disk.hard == mem.hard
  {
    if todo != [] { NothingPending(disk, mem, todo[1..]); }
  }

  lemma {:induction false} NoLogPending(disk: seq<Entry>, mem: seq<Entry>, todo: seq<Effect>)
    requires !HasLog(todo) && LogsOk(disk, mem, todo)
    ensures disk == mem
  {
    if todo != [] { NoLogPending(disk, mem, todo[1..]); }
  }
}
