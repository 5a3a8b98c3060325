/** What every reachable cluster state satisfies. The history carries the weight: each
    term's leader log is the single source of every entry of that term, each durable vote
    remembers the log it was cast with, and each acknowledged prefix survives on its
    acknowledger unless an intermediate leader lacked it. */
module RaftInvariants {
  import opened Types
  import opened RaftCore
  import opened RaftCluster

  // ---------------------------------------------------------------- logs

  ghost predicate WfLog(log: seq<Entry>) {
    forall i :: 0 <= i < |log| ==> log[i].index == i + 1 && (i > 0 ==> log[i - 1].term <= log[i].term)
  }

  ghost predicate TermsAtMost(log: seq<Entry>, t: Term) {
    forall i :: 0 <= i < |log| ==> log[i].term <= t
  }

  ghost predicate TermsBelow(log: seq<Entry>, t: Term) {
    forall i :: 0 <= i < |log| ==> log[i].term < t
  }

  /** Entry `i` and everything before it is a prefix of the log its term's leader wrote. */
  ghost predicate Sourced(terms: map<Term, TermRecord>, log: seq<Entry>, i: nat)
    requires i < |log|
  {
    log[i].term in terms && log[..i + 1] <= terms[log[i].term].log
  }

  ghost predicate Consistent(terms: map<Term, TermRecord>, log: seq<Entry>) {
    forall i :: 0 <= i < |log| ==> Sourced(terms, log, i)
  }

  ghost predicate UpToDate(c: seq<Entry>, v: seq<Entry>) {
    LastTerm(c) > LastTerm(v) || (LastTerm(c) == LastTerm(v) && |c| >= |v|)
  }

  // ---------------------------------------------------------------- history

  ghost predicate TermOk(h: History, t: Term)
    requires t in h.terms
  {
    var r := h.terms[t];
    && (r.leader, t) in h.votes && h.votes[(r.leader, t)] == Vote(r.leader, r.start)
    && HasQuorum(h.config, r.quorum)
    && (forall v :: v in r.quorum ==> (v, t) in h.votes && h.votes[(v, t)].candidate == r.leader)
    && |r.start| < |r.log| && r.start <= r.log
    && TermsBelow(r.start, t)
    && (forall i :: |r.start| <= i < |r.log| ==> r.log[i].term == t)
    && WfLog(r.log) && Consistent(h.terms, r.log)
  }

  function Acknowledged(h: History, t: Term, m: LogIndex): seq<Entry>
    requires t in h.terms && m <= |h.terms[t].log|
  {
    h.terms[t].log[..m]
  }

  /** `log` still holds what was acknowledged in term `t`, or a leader elected after `t` and before
      `before` never had it. */
  ghost predicate Retained(h: History, log: seq<Entry>, t: Term, m: LogIndex, before: Term)
    requires t in h.terms && m <= |h.terms[t].log|
  {
    Acknowledged(h, t, m) <= log || exists t1 :: Lost(h, t, m, before, t1)
  }

  ghost predicate Lost(h: History, t: Term, m: LogIndex, before: Term, t1: Term)
    requires t in h.terms && m <= |h.terms[t].log|
  {
    t < t1 < before && t1 in h.terms && !(Acknowledged(h, t, m) <= h.terms[t1].start)
  }

  ghost predicate RetainedUpTo(h: History, log: seq<Entry>, t: Term, a: LogIndex, before: Term)
    requires t in h.terms && a <= |h.terms[t].log|
  {
    forall m :: 0 <= m <= a ==> Retained(h, log, t, m, before)
  }

  ghost predicate VoteOk(h: History, n: NodeId, t: Term)
    requires (n, t) in h.votes
  {
    var v := h.votes[(n, t)];
    && (v.candidate, t) in h.votes && h.votes[(v.candidate, t)].candidate == v.candidate
    && UpToDate(h.votes[(v.candidate, t)].log, v.log)
    && WfLog(v.log) && Consistent(h.terms, v.log) && TermsAtMost(v.log, t)
    && (v.candidate == n ==> TermsBelow(v.log, t))
    && (t !in h.terms || n in h.terms[t].quorum ==>
          forall t0 :: t0 < t && (n, t0) in h.acks ==>
            AckOk(h, n, t0) && RetainedUpTo(h, v.log, t0, h.acks[(n, t0)], t))
  }

  ghost predicate AckOk(h: History, n: NodeId, t: Term)
    requires (n, t) in h.acks
  {
    t in h.terms && h.acks[(n, t)] <= |h.terms[t].log|
  }

  // ---------------------------------------------------------------- commitment

  function Ackers(acks: map<(NodeId, Term), LogIndex>, t: Term, m: LogIndex): set<NodeId> {
    set k | k in acks.Keys && k.1 == t && m <= acks[k] :: k.0
  }

  /** Index `m` of term `t`'s leader log carries term `t` and sits durably on a quorum. */
  ghost predicate Chosen(h: History, t: Term, m: LogIndex) {
    && t in h.terms && 0 < m <= |h.terms[t].log| && h.terms[t].log[m - 1].term == t
    && HasQuorum(h.config, Ackers(h.acks, t, m))
  }

  ghost predicate CommittedVia(h: History, log: seq<Entry>, k: LogIndex, t: Term, m: LogIndex) {
    Chosen(h, t, m) && k <= m && k <= |log| && log[..k] == h.terms[t].log[..k]
  }

  ghost predicate Committed(h: History, log: seq<Entry>, k: LogIndex) {
    k == 0 || exists t, m :: CommittedVia(h, log, k, t, m)
  }

  ghost predicate EntryVia(h: History, e: Entry, t: Term, m: LogIndex) {
    Chosen(h, t, m) && 0 < e.index <= m && h.terms[t].log[e.index - 1] == e
  }

  ghost predicate EntryCommitted(h: History, e: Entry) {
    exists t, m :: EntryVia(h, e, t, m)
  }

  // ---------------------------------------------------------------- disks and packets

  ghost predicate VotePersisted(hard: HardState, t: Term, c: NodeId) {
    t <= hard.currentTerm && (t == hard.currentTerm ==> hard.votedFor == Some(c))
  }

  ghost predicate AckPersisted(h: History, n: NodeId, t: Term, d: Disk)
    requires (n, t) in h.acks
  {
    && t <= d.hard.currentTerm && AckOk(h, n, t)
    && RetainedUpTo(h, d.log, t, h.acks[(n, t)], d.hard.currentTerm + 1)
  }

  ghost predicate DiskOk(h: History, n: NodeId, d: Disk) {
    && WfLog(d.log) && TermsAtMost(d.log, d.hard.currentTerm) && Consistent(h.terms, d.log)
    && (forall t :: (n, t) in h.votes ==> VotePersisted(d.hard, t, h.votes[(n, t)].candidate))
    && (d.hard.votedFor.Some? ==> (n, d.hard.currentTerm) in h.votes)
    && (forall t :: (n, t) in h.acks ==> AckPersisted(h, n, t, d))
  }

  ghost predicate PacketOk(h: History, p: Packet) {
    match p.msg
    case RequestVote(t, c, li, lt) =>
      c == p.from && (c, t) in h.votes && h.votes[(c, t)].candidate == c
      && li == |h.votes[(c, t)].log| && lt == LastTerm(h.votes[(c, t)].log)
    case RequestVoteReply(t, granted) =>
      granted ==> (p.from, t) in h.votes && h.votes[(p.from, t)].candidate == p.to
    case AppendEntries(t, l, prev, pt, es, lc) =>
      && l == p.from && t in h.terms && h.terms[t].leader == l
      && prev + |es| <= |h.terms[t].log| && pt == TermAt(h.terms[t].log, prev)
      && es == h.terms[t].log[prev..prev + |es|]
      && lc <= |h.terms[t].log| && Committed(h, h.terms[t].log, lc)
    case AppendEntriesReply(t, success, m, _) =>
      success ==> (p.from, t) in h.acks && m <= h.acks[(p.from, t)]
    case _ => true
  }

  // ---------------------------------------------------------------- queued effects

  predicate IsPersist(e: Effect) {
    e.PersistHardState? || e.PersistLogEntries?
  }

  predicate HasHard(todo: seq<Effect>) {
    todo != [] && (todo[0].PersistHardState? || HasHard(todo[1..]))
  }

  predicate HasLog(todo: seq<Effect>) {
    todo != [] && (todo[0].PersistLogEntries? || HasLog(todo[1..]))
  }

  /** Every persist precedes every send and apply, and a log append is the last persist. */
  predicate Ordered(todo: seq<Effect>) {
    todo != [] ==>
      && Ordered(todo[1..])
      && (todo[0].PersistLogEntries? || todo[0].Send? || todo[0].Apply? ==> !HasHard(todo[1..]) && !HasLog(todo[1..]))
  }

  /** Running the queued hard-state saves takes the disk to the memory's hard state; none of
      them withdraws a durable vote, and a self-vote opens a new term. */
  predicate HardsOk(disk: HardState, mem: HardState, self: NodeId, todo: seq<Effect>)
    decreases todo
  {
    if todo == [] then disk == mem
    else if todo[0].PersistHardState? then
      var h := todo[0].hard;
      && disk.currentTerm <= h.currentTerm == mem.currentTerm
      && (h.votedFor.None? ==> disk.currentTerm < h.currentTerm)
      && (h.votedFor.Some? ==> h == mem)
      && (h.votedFor == Some(self) ==> disk.currentTerm < h.currentTerm)
      && (disk.currentTerm == h.currentTerm && disk.votedFor.Some? ==> disk == h)
      && HardsOk(h, mem, self, todo[1..])
    else HardsOk(disk, mem, self, todo[1..])
  }

  predicate CutAtConflict(disk: seq<Entry>, mem: seq<Entry>, from: Option<LogIndex>) {
    from.Some? ==>
      && 0 < from.value <= |disk| && from.value <= |mem|
      && disk[from.value - 1].term != mem[from.value - 1].term
  }

  /** Running the queued append takes the disk log to the memory log; a cut falls on a real conflict. */
  predicate LogsOk(disk: seq<Entry>, mem: seq<Entry>, todo: seq<Effect>) {
    if todo == [] then disk == mem
    else if todo[0].PersistLogEntries? then
      var from, es := todo[0].truncateFrom, todo[0].entries;
      && es != []
      && Cut(disk, from) + es == mem
      && CutAtConflict(disk, mem, from)
      && !HasLog(todo[1..])
    else LogsOk(disk, mem, todo[1..])
  }

  /** What a queued send or apply says about the node that queued it. */
  ghost predicate OutOk(h: History, mem: Node, e: Effect) {
    match e
    case Send(to, RequestVote(t, c, li, lt)) =>
      mem.role.Candidate? && t == mem.hard.currentTerm && c == mem.id && li == |mem.log| && lt == LastTerm(mem.log)
    case Send(to, RequestVoteReply(t, granted)) =>
      granted ==> t == mem.hard.currentTerm && mem.hard.votedFor == Some(to)
    case Send(to, AppendEntries(t, l, prev, pt, es, lc)) =>
      && mem.role.Leader? && t == mem.hard.currentTerm && l == mem.id
      && prev + |es| <= |mem.log| && pt == TermAt(mem.log, prev) && es == mem.log[prev..prev + |es|]
      && lc <= mem.commitIndex
    case Send(to, AppendEntriesReply(t, success, m, _)) =>
      success ==> t == mem.hard.currentTerm && t in h.terms && m <= |mem.log| && mem.log[..m] <= h.terms[t].log
    case Apply(entry) =>
      0 < entry.index <= mem.commitIndex && mem.commitIndex <= |mem.log| && mem.log[entry.index - 1] == entry
    case _ => true
  }

  ghost predicate OutsOk(h: History, mem: Node, todo: seq<Effect>) {
    forall i :: 0 <= i < |todo| ==> OutOk(h, mem, todo[i])
  }

  // ---------------------------------------------------------------- memory

  /** Votes that elect `n` in `t` once its own vote counts. */
  ghost predicate Elected(h: History, n: NodeId, t: Term) {
    HasQuorum(h.config, Voters(h.votes, t, n) + {n})
  }

  ghost predicate LeaderLogOk(h: History, n: NodeId, s: Server) {
    var t := s.mem.hard.currentTerm;
    if HasLog(s.todo) then
      if t in h.terms then h.terms[t].leader == n && h.terms[t].log == s.disk.log && !HasHard(s.todo)
      else !HasHard(s.todo) ==> (n, t) in h.votes && h.votes[(n, t)] == Vote(n, s.disk.log)
    else
      && t in h.terms && h.terms[t].leader == n && h.terms[t].log == s.mem.log
      && (n, t) in h.acks && h.acks[(n, t)] == |s.mem.log|
  }

  ghost predicate CursorsOk(h: History, mem: Node)
    requires mem.role.Leader?
  {
    && (forall p :: p in mem.role.nextIndex ==> 1 <= mem.role.nextIndex[p] <= |mem.log| + 1)
    && (forall p :: p in mem.role.matchIndex ==> MatchOk(h, mem, p))
    && mem.role.nextIndex.Keys == mem.role.matchIndex.Keys
  }

  ghost predicate MatchOk(h: History, mem: Node, p: NodeId)
    requires mem.role.Leader? && p in mem.role.matchIndex
  {
    var m := mem.role.matchIndex[p];
    m <= |mem.log| &&
    (m == 0 || ((p, mem.hard.currentTerm) in h.acks && m <= h.acks[(p, mem.hard.currentTerm)]))
  }

  /** `v` answered this exact pre-campaign of `n` with a grant. */
  ghost predicate PreGranted(h: History, n: NodeId, v: NodeId, prospective: Term, campaign: CampaignId) {
    exists t: Term :: t < prospective && Packet(v, n, PreVoteReply(t, prospective, campaign, true)) in h.net
  }

  ghost predicate RoleOk(h: History, n: NodeId, s: Server) {
    var t := s.mem.hard.currentTerm;
    match s.mem.role
    case Follower => true
    case PreCandidate(prospective, campaign, votes) =>
      && prospective == t + 1
      && campaign == CampaignId(s.mem.incarnation, s.mem.campaignSequence)
      && (forall v :: v in votes ==> v == n || (IsVoter(h.config, v) && PreGranted(h, n, v, prospective, campaign)))
    case Candidate(votes) =>
      && IsVoter(h.config, n) && s.mem.hard.votedFor == Some(n) && !HasLog(s.todo)
      && (t in h.terms ==> h.terms[t].leader != n)
      && (forall v :: v in votes ==> v == n || ((v, t) in h.votes && h.votes[(v, t)].candidate == n))
      && (!HasHard(s.todo) ==> (n, t) in h.votes && h.votes[(n, t)] == Vote(n, s.mem.log))
    case Leader(_, _) =>
      && IsVoter(h.config, n) && s.mem.hard.votedFor == Some(n) && Elected(h, n, t)
      && (HasHard(s.todo) ==> HasLog(s.todo) && SelfQuorum(s.mem))
      && (!HasHard(s.todo) ==> (n, t) in h.votes && h.votes[(n, t)].candidate == n)
      && LeaderLogOk(h, n, s) && CursorsOk(h, s.mem)
  }

  /** The queued append of a follower copies its term's leader; a leader's extends its own log. */
  ghost predicate PendingLogOk(h: History, mem: Node, todo: seq<Effect>) {
    if todo == [] then true
    else if todo[0].PersistLogEntries? then
      if mem.role.Leader? then
        && todo[0].truncateFrom.None?
        && forall i :: 0 <= i < |todo[0].entries| ==> todo[0].entries[i].term == mem.hard.currentTerm
      else mem.hard.currentTerm in h.terms && mem.log <= h.terms[mem.hard.currentTerm].log
    else PendingLogOk(h, mem, todo[1..])
  }

  /** A queued grant to another candidate: its solicitation and the comparison that justified it. */
  ghost predicate PendingVoteOk(h: History, mem: Node, todo: seq<Effect>) {
    HasHard(todo) && mem.hard.votedFor.Some? && mem.hard.votedFor.value != mem.id ==>
      var key := (mem.hard.votedFor.value, mem.hard.currentTerm);
      !HasLog(todo) && key in h.votes && h.votes[key].candidate == mem.hard.votedFor.value
      && UpToDate(h.votes[key].log, mem.log)
  }

  ghost predicate CommitOk(h: History, mem: Node, todo: seq<Effect>) {
    && mem.lastApplied == mem.commitIndex <= |mem.log|
    && (Committed(h, mem.log, mem.commitIndex) || (HasLog(todo) && mem.role.Leader? && SelfQuorum(mem)))
  }

  ghost predicate MemOk(h: History, n: NodeId, s: Server) {
    match s case Server(mem, disk, todo) =>
      && mem.id == n && mem.config == h.config && mem.incarnation < h.boots
      && WfLog(mem.log) && TermsAtMost(mem.log, mem.hard.currentTerm)
      && Ordered(todo)
      && HardsOk(disk.hard, mem.hard, n, todo)
      && LogsOk(disk.log, mem.log, todo)
      && PendingLogOk(h, mem, todo)
      && PendingVoteOk(h, mem, todo)
      && OutsOk(h, mem, todo)
      && RoleOk(h, n, s)
      && CommitOk(h, mem, todo)
  }

  // ---------------------------------------------------------------- everything

  ghost predicate TermsOk(h: History) {
    forall t {:trigger TermOk(h, t)} :: t in h.terms ==> TermOk(h, t)
  }

  ghost predicate VotesOk(h: History) {
    forall n, t {:trigger VoteOk(h, n, t)} :: (n, t) in h.votes ==> VoteOk(h, n, t)
  }

  ghost predicate AcksOk(h: History) {
    forall n, t {:trigger AckOk(h, n, t)} :: (n, t) in h.acks ==> AckOk(h, n, t)
  }

  ghost predicate PacketsOk(h: History) {
    forall p {:trigger PacketOk(h, p)} :: p in h.net ==> PacketOk(h, p)
  }

  ghost predicate AppliedOk(h: History) {
    forall a {:trigger EntryCommitted(h, a.1)} :: a in h.applied ==> EntryCommitted(h, a.1)
  }

  /** What the history alone says. */
  ghost predicate HistoryOk(h: History) {
    ValidConfig(h.config) && TermsOk(h) && VotesOk(h) && AcksOk(h)
  }

  ghost predicate DisksOk(sys: System) {
    forall n {:trigger DiskOk(sys.h, n, sys.servers[n].disk)} :: n in sys.servers ==>
      DiskOk(sys.h, n, sys.servers[n].disk)
  }

  ghost predicate MemsOk(sys: System) {
    forall n {:trigger MemOk(sys.h, n, sys.servers[n])} :: n in sys.servers ==> MemOk(sys.h, n, sys.servers[n])
  }

  /** Every recorded vote and acknowledgement came from one of the servers. */
  ghost predicate ActorsOk(sys: System) {
    (forall n, t :: (n, t) in sys.h.votes ==> n in sys.servers)
      && (forall n, t :: (n, t) in sys.h.acks ==> n in sys.servers)
  }

  ghost predicate Inv(sys: System) {
    HistoryOk(sys.h) && PacketsOk(sys.h) && AppliedOk(sys.h) && ActorsOk(sys) && DisksOk(sys) && MemsOk(sys)
  }
}
