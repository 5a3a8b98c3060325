/** Raft's safety properties as consequences of the invariant. */
module RaftTheorems {
  import opened Types
  import opened RaftCore
  import opened RaftCluster
  import opened RaftInvariants
  import opened RaftQuorums

  // ---------------------------------------------------------------- logs

  /** Log Matching: equal terms at an index mean equal logs up to it. */
  lemma LogMatching(terms: map<Term, TermRecord>, a: seq<Entry>, b: seq<Entry>, i: nat)
    requires Consistent(terms, a) && Consistent(terms, b)
    requires i < |a| && i < |b| && a[i].term == b[i].term
    ensures a[..i + 1] == b[..i + 1]
  {
    assert Sourced(terms, a, i) && Sourced(terms, b, i);
    var l := terms[a[i].term].log;
    assert a[..i + 1] == l[..i + 1] == b[..i + 1];
  }

  lemma {:induction false} TermsMonotone(log: seq<Entry>, i: nat, j: nat)
    requires WfLog(log) && i <= j < |log|
    ensures log[i].term <= log[j].term
    decreases j
  {
    if i < j {
      TermsMonotone(log, i, j - 1);
    }
  }

  lemma PrefixTrans(a: seq<Entry>, b: seq<Entry>, c: seq<Entry>)
    requires a <= b && b <= c
    ensures a <= c
  {
  }

  // ---------------------------------------------------------------- elections

  /** Election safety: at most one server leads a term. */
  lemma OneLeaderPerTerm(sys: System, a: NodeId, b: NodeId, t: Term)
    requires Inv(sys) && a in sys.servers && b in sys.servers
    requires sys.servers[a].mem.role.Leader? && sys.servers[a].mem.hard.currentTerm == t
    requires sys.servers[b].mem.role.Leader? && sys.servers[b].mem.hard.currentTerm == t
    ensures a == b
  {
    OneWinnerPerTerm(sys.h, a, sys.servers[a], b, sys.servers[b], t);
  }

  lemma OneWinnerPerTerm(h: History, a: NodeId, sa: Server, b: NodeId, sb: Server, t: Term)
    requires MemOk(h, a, sa) && DiskOk(h, a, sa.disk) && sa.mem.role.Leader? && sa.mem.hard.currentTerm == t
    requires MemOk(h, b, sb) && DiskOk(h, b, sb.disk) && sb.mem.role.Leader? && sb.mem.hard.currentTerm == t
    ensures a == b
  {
    var v := QuorumsIntersect(h.config, Voters(h.votes, t, a) + {a}, Voters(h.votes, t, b) + {b});
    if a != b {
      LeaderVotesAreOwn(h, a, sa, b, t, v);
      LeaderVotesAreOwn(h, b, sb, a, t, v);
    }
  }

  /** A leader's own vote, durable or still queued, is not on record for anybody else. */
  lemma LeaderVotesAreOwn(h: History, a: NodeId, s: Server, b: NodeId, t: Term, v: NodeId)
    requires MemOk(h, a, s) && DiskOk(h, a, s.disk) && s.mem.role.Leader? && s.mem.hard.currentTerm == t
    requires v in Voters(h.votes, t, a) + {a} && a != b
    ensures v !in Voters(h.votes, t, b)
  {
    if v == a && HasHard(s.todo) {
      PendingSelfVote(s.disk.hard, s.mem.hard, a, s.todo);
      assert (a, t) in h.votes ==> VotePersisted(s.disk.hard, t, h.votes[(a, t)].candidate);
    }
  }

  lemma {:induction false} PendingSelfVote(disk: HardState, mem: HardState, self: NodeId, todo: seq<Effect>)
    requires HardsOk(disk, mem, self, todo) && HasHard(todo) && mem.votedFor == Some(self)
    ensures disk.currentTerm < mem.currentTerm
  {
    if !todo[0].PersistHardState? {
      PendingSelfVote(disk, mem, self, todo[1..]);
    }
  }

  // ---------------------------------------------------------------- leader completeness

  /** Leader Completeness: once an index of term `t` is durable on a quorum, every later term's
      leader was elected with that whole prefix. */
  lemma {:induction false} LeaderCompleteness(h: History, t: Term, m: LogIndex, t1: Term)
    requires HistoryOk(h)
    requires Chosen(h, t, m) && t < t1 && t1 in h.terms
    ensures Acknowledged(h, t, m) <= h.terms[t1].start
    decreases t1
  {
    var r := h.terms[t1];
    assert TermOk(h, t1) && TermOk(h, t);
    var v := QuorumsIntersect(h.config, Ackers(h.acks, t, m), r.quorum);
    assert (v, t) in h.acks && m <= h.acks[(v, t)];
    assert VoteOk(h, v, t1);
    var vote := h.votes[(v, t1)].log;
    var p := Acknowledged(h, t, m);
    assert Retained(h, vote, t, m, t1);
    if !(p <= vote) {
      var t2 :| Lost(h, t, m, t1, t2);
      LeaderCompleteness(h, t, m, t2);
      assert false;
    }
    assert VoteOk(h, r.leader, t1);
    WinnerHasPrefix(h, t, m, t1, r.start, vote);
  }

  /** The election comparison carries a quorum-held prefix from a voter's log to the winner's. */
  lemma {:induction false} WinnerHasPrefix(h: History, t: Term, m: LogIndex, t1: Term, start: seq<Entry>,
                                           vote: seq<Entry>)
    requires HistoryOk(h)
    requires Chosen(h, t, m) && t < t1
    requires Acknowledged(h, t, m) <= vote
    requires WfLog(vote) && Consistent(h.terms, vote)
    requires Consistent(h.terms, start) && TermsBelow(start, t1) && UpToDate(start, vote)
    ensures Acknowledged(h, t, m) <= start
    decreases t1, 0
  {
    var p := Acknowledged(h, t, m);
    assert p[m - 1] == vote[m - 1] && vote[m - 1].term == t;
    TermsMonotone(vote, m - 1, |vote| - 1);
    var e := LastTerm(start);
    if e == LastTerm(vote) {
      if start != [] {
        assert Sourced(h.terms, start, |start| - 1) && Sourced(h.terms, vote, |vote| - 1);
        assert start[..|start|] == start && vote[..|vote|] == vote;
      }
    } else {
      assert start[|start| - 1].term == e && t < e < t1;
      assert Sourced(h.terms, start, |start| - 1) && start[..|start|] == start;
      assert TermOk(h, e);
      LeaderCompleteness(h, t, m, e);
      var s := h.terms[e].start;
      assert |start| > |s|;
      assert s <= start;
    }
  }

  /** What a node still holds of a quorum-held prefix: all of it, since no later leader lacked it. */
  lemma RetainedIsHeld(h: History, log: seq<Entry>, t: Term, m: LogIndex, before: Term)
    requires HistoryOk(h) && Chosen(h, t, m) && Retained(h, log, t, m, before)
    ensures Acknowledged(h, t, m) <= log
  {
    if !(Acknowledged(h, t, m) <= log) {
      var t2 :| Lost(h, t, m, before, t2);
      LeaderCompleteness(h, t, m, t2);
      assert false;
    }
  }

  // ---------------------------------------------------------------- agreement

  /** Two committed indices agree on every entry below both. */
  lemma ChosenAgree(h: History, t1: Term, m1: LogIndex, t2: Term, m2: LogIndex, i: nat)
    requires HistoryOk(h) && Chosen(h, t1, m1) && Chosen(h, t2, m2) && t1 <= t2 && i < m1 && i < m2
    ensures h.terms[t1].log[i] == h.terms[t2].log[i]
  {
    if t1 < t2 {
      LeaderCompleteness(h, t1, m1, t2);
      assert TermOk(h, t2);
      assert h.terms[t1].log[i] == Acknowledged(h, t1, m1)[i] == h.terms[t2].start[i];
    }
  }

  /** State Machine Safety: no two applications at one index ever differ, on any node, in any incarnation. */
  lemma AppliedAgree(h: History, a: (NodeId, Entry), b: (NodeId, Entry))
    requires HistoryOk(h) && AppliedOk(h) && a in h.applied && b in h.applied && a.1.index == b.1.index
    ensures a.1 == b.1
  {
    assert EntryCommitted(h, a.1) && EntryCommitted(h, b.1);
    var t1, m1 :| EntryVia(h, a.1, t1, m1);
    var t2, m2 :| EntryVia(h, b.1, t2, m2);
    if t1 <= t2 {
      ChosenAgree(h, t1, m1, t2, m2, a.1.index - 1);
    } else {
      ChosenAgree(h, t2, m2, t1, m1, a.1.index - 1);
    }
  }
}
