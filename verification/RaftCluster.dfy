/** A cluster of nodes under the single-writer driver. A node's step queues effects; the
    driver executes them one at a time, so a crash may fall between any two of them or
    inside a log append. The network loses, duplicates and reorders. The history fields
    (`votes`, `terms`, `acks`, `applied`) only record what reached disk or the wire. */
module RaftCluster {
  import opened Types
  import opened RaftCore

  datatype Server = Server(mem: Node, disk: Disk, todo: seq<Effect>)

  datatype Packet = Packet(from: NodeId, to: NodeId, msg: Message)

  /** A durable vote, with the voter's durable log at that moment. */
  datatype Vote = Vote(candidate: NodeId, log: seq<Entry>)

  /** A term whose leader made its first entry durable. */
  datatype TermRecord = TermRecord(leader: NodeId, quorum: set<NodeId>, start: seq<Entry>, log: seq<Entry>)

  datatype History = History(
    config: VoterConfig,
    net: set<Packet>,
    votes: map<(NodeId, Term), Vote>,
    terms: map<Term, TermRecord>,
    acks: map<(NodeId, Term), LogIndex>,
    applied: set<(NodeId, Entry)>,
    boots: nat)

  datatype System = System(servers: map<NodeId, Server>, h: History)

  predicate Init(sys: System) {
    && ValidConfig(sys.h.config)
    && sys.h == History(sys.h.config, {}, map[], map[], map[], {}, sys.h.boots)
    && forall n :: n in sys.servers ==>
         var s := sys.servers[n];
         && s.disk == Disk(HardState(0, None), [])
         && s.mem == Restore(n, sys.h.config, s.mem.peers, s.mem.incarnation, s.disk)
         && s.mem.incarnation < sys.h.boots
         && s.todo == []
  }

  /** Everyone whose durable vote of term `t` is for `c`. */
  function Voters(votes: map<(NodeId, Term), Vote>, t: Term, c: NodeId): set<NodeId> {
    set k | k in votes.Keys && k.1 == t && votes[k].candidate == c :: k.0
  }

  // ---------------------------------------------------------------- effects reaching the outside

  /** What a durable hard state adds to the history: a first vote in its term, with the log it was cast on. */
  function RecordVote(h: History, n: NodeId, hard: HardState, log: seq<Entry>): History {
    var key := (n, hard.currentTerm);
    if hard.votedFor.Some? && key !in h.votes then h.(votes := h.votes[key := Vote(hard.votedFor.value, log)]) else h
  }

  /** What a leader's own durable append adds: its term's record and its own acknowledgement. */
  function RecordAppend(h: History, n: NodeId, t: Term, before: seq<Entry>, after: seq<Entry>): History {
    h.(terms := if t in h.terms then h.terms[t := h.terms[t].(log := after)]
                else h.terms[t := TermRecord(n, Voters(h.votes, t, n), before, after)],
       acks := h.acks[(n, t) := |after|])
  }

  function RecordSend(h: History, n: NodeId, to: NodeId, msg: Message): History {
    h.(net := h.net + {Packet(n, to, msg)},
       acks := if msg.AppendEntriesReply? && msg.success
               then h.acks[(n, msg.term) :=
                 if (n, msg.term) in h.acks then Max(h.acks[(n, msg.term)], msg.matchIndex) else msg.matchIndex]
               else h.acks)
  }

  /** One server and the history after the cut and the `written` entries reach its disk. */
  function SaveLog(sys: System, n: NodeId, truncateFrom: Option<LogIndex>, written: seq<Entry>,
                   rest: seq<Effect>): System
    requires n in sys.servers
  {
    var s := sys.servers[n];
    var log := Cut(s.disk.log, truncateFrom) + written;
    System(sys.servers[n := s.(disk := s.disk.(log := log), todo := rest)],
           if s.mem.role.Leader? && written != []
           then RecordAppend(sys.h, n, s.disk.hard.currentTerm, s.disk.log, log) else sys.h)
  }

  function Execute(sys: System, n: NodeId): System
    requires n in sys.servers && sys.servers[n].todo != []
  {
    var s := sys.servers[n];
    var rest := s.todo[1..];
    match s.todo[0]
    case PersistHardState(hard) =>
      System(sys.servers[n := s.(disk := s.disk.(hard := hard), todo := rest)],
             RecordVote(sys.h, n, hard, s.disk.log))
    case PersistLogEntries(from, entries) => SaveLog(sys, n, from, entries, rest)
    case Send(to, msg) =>
      System(sys.servers[n := s.(todo := rest)], RecordSend(sys.h, n, to, msg))
    case Apply(entry) =>
      System(sys.servers[n := s.(todo := rest)], sys.h.(applied := sys.h.applied + {(n, entry)}))
    case _ => sys.(servers := sys.servers[n := s.(todo := rest)])
  }

  /** Memory and queued effects vanish; the node recovers from disk under a fresh incarnation. */
  function Reboot(sys: System, n: NodeId): System
    requires n in sys.servers
  {
    var s := sys.servers[n];
    System(sys.servers[n := Server(Restore(n, sys.h.config, s.mem.peers, sys.h.boots, s.disk), s.disk, [])],
           sys.h.(boots := sys.h.boots + 1))
  }

  // ---------------------------------------------------------------- steps

  datatype Event =
    | Input(input: RaftCore.Input)      // the node handles one input; its effects are queued
    | Run                               // the driver executes the next queued effect
    | Crash
    | TornAppend(k: nat)                // a crash inside an append: the cut and `k` entries survive

  predicate Enabled(sys: System, n: NodeId, event: Event) {
    n in sys.servers &&
    var s := sys.servers[n];
    match event
    case Input(input) => s.todo == [] && (input.Deliver? ==> Packet(input.from, n, input.msg) in sys.h.net)
    case Run => s.todo != []
    case Crash => true
    case TornAppend(k) => s.todo != [] && s.todo[0].PersistLogEntries? && k <= |s.todo[0].entries|
  }

  function Next(sys: System, n: NodeId, event: Event): System
    requires Enabled(sys, n, event)
  {
    var s := sys.servers[n];
    match event
    case Input(input) =>
      var out := NodeStep(s.mem, input);
      sys.(servers := sys.servers[n := s.(mem := out.node, todo := out.effects)])
    case Run => Execute(sys, n)
    case Crash => Reboot(sys, n)
    case TornAppend(k) => Reboot(SaveLog(sys, n, s.todo[0].truncateFrom, s.todo[0].entries[..k], []), n)
  }

  /** A run: one event at one node per step, from a fresh cluster. */
  ghost predicate IsRun(states: seq<System>, moves: seq<(NodeId, Event)>) {
    && |states| == |moves| + 1
    && Init(states[0])
    && forall i {:trigger StepAt(states, moves, i)} :: 0 <= i < |moves| ==> StepAt(states, moves, i)
  }

  ghost predicate StepAt(states: seq<System>, moves: seq<(NodeId, Event)>, i: int)
    requires |states| == |moves| + 1 && 0 <= i < |moves|
  {
    Enabled(states[i], moves[i].0, moves[i].1) && states[i + 1] == Next(states[i], moves[i].0, moves[i].1)
  }
}
