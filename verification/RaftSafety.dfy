/** Every event keeps the invariant, so Raft's guarantees hold in every run. */
module RaftSafety {
  import opened Types
  import opened RaftCore
  import opened RaftCluster
  import opened RaftInvariants
  import opened RaftQuorums
  import opened RaftTheorems
  import opened RaftHandlers
  import opened RaftReplication
  import opened RaftStability
  import opened RaftExecution

  lemma InitOk(sys: System)
    requires Init(sys)
    ensures Inv(sys)
  {
    forall n | n in sys.servers ensures MemOk(sys.h, n, sys.servers[n]) && DiskOk(sys.h, n, sys.servers[n].disk) {
    }
  }

  /** Server `n` moved to `s` and the history to `k`; everybody else kept their part. */
  lemma Reassemble(sys: System, n: NodeId, s: Server, k: History)
    requires n in sys.servers && HistoryOk(k) && PacketsOk(k) && AppliedOk(k) && ActorsOk(System(sys.servers, k))
    requires DiskOk(k, n, s.disk) && MemOk(k, n, s)
    requires forall o :: o in sys.servers && o != n ==> DiskOk(k, o, sys.servers[o].disk) && MemOk(k, o, sys.servers[o])
    ensures Inv(System(sys.servers[n := s], k))
  {
    var next := System(sys.servers[n := s], k);
    forall o | o in next.servers ensures DiskOk(k, o, next.servers[o].disk) && MemOk(k, o, next.servers[o]) {
      assert o != n ==> next.servers[o] == sys.servers[o];
    }
  }

  lemma InputStep(sys: System, n: NodeId, input: RaftCore.Input)
    requires Inv(sys) && Enabled(sys, n, Event.Input(input))
    ensures Inv(Next(sys, n, Event.Input(input)))
  {
    var s := sys.servers[n];
    assert MemOk(sys.h, n, s) && DiskOk(sys.h, n, s.disk) && s == Server(s.mem, s.disk, []);
    InputKeeps(sys.h, n, s.mem, s.disk, input);
    var o := NodeStep(s.mem, input);
    Reassemble(sys, n, Server(o.node, s.disk, o.effects), sys.h);
  }

  lemma HardStep(sys: System, n: NodeId)
    requires Inv(sys) && n in sys.servers && sys.servers[n].todo != [] && sys.servers[n].todo[0].PersistHardState?
    ensures Inv(Execute(sys, n))
  {
    var s := sys.servers[n];
    var hard := s.todo[0].hard;
    var k := RecordVote(sys.h, n, hard, s.disk.log);
    assert MemOk(sys.h, n, s) && DiskOk(sys.h, n, s.disk);
    HardExtends(sys.h, n, hard, s.disk.log);
    HardHistory(sys.h, n, s);
    HardDisk(sys.h, n, s);
    HardMem(sys.h, n, s);
    PacketsStable(sys.h, k);
    AppliedStable(sys.h, k);
    OthersStable(sys, k, n);
    Reassemble(sys, n, s.(disk := s.disk.(hard := hard), todo := s.todo[1..]), k);
  }

  /** The history and every disk after the cut and `j` entries reach `n`'s disk. */
  lemma LogStep(sys: System, n: NodeId, j: nat)
    requires Inv(sys) && n in sys.servers && sys.servers[n].todo != [] && sys.servers[n].todo[0].PersistLogEntries?
    requires j <= |sys.servers[n].todo[0].entries|
    ensures var s := sys.servers[n];
      var k := SaveLog(sys, n, s.todo[0].truncateFrom, s.todo[0].entries[..j], []).h;
      && HistoryOk(k) && PacketsOk(k) && AppliedOk(k) && ActorsOk(System(sys.servers, k)) && k.boots == sys.h.boots
      && k.config == sys.h.config
      && DiskOk(k, n, s.disk.(log := Written(s, j)))
      && (j == |s.todo[0].entries| ==> MemOk(k, n, s.(disk := s.disk.(log := Written(s, j)), todo := s.todo[1..])))
      && (forall o :: o in sys.servers && o != n ==> DiskOk(k, o, sys.servers[o].disk) && MemOk(k, o, sys.servers[o]))
  {
    var s := sys.servers[n];
    assert MemOk(sys.h, n, s) && DiskOk(sys.h, n, s.disk);
    if s.mem.role.Leader? && j > 0 {
      LeaderLogStep(sys, n, j);
    } else if s.mem.role.Leader? {
      WrittenPrefix(sys.h, n, s, j);
      assert Written(s, j) == s.disk.log;
      assert s.todo[0].entries != [];
    } else {
      FollowerLogDisk(sys.h, n, s, j);
      FollowerLogMem(sys.h, n, s);
    }
  }

  lemma LeaderLogStep(sys: System, n: NodeId, j: nat)
    requires Inv(sys) && n in sys.servers && LeaderWrites(sys.h, n, sys.servers[n], j)
    ensures var s := sys.servers[n];
      var k := RecordAppend(sys.h, n, s.disk.hard.currentTerm, s.disk.log, Written(s, j));
      && HistoryOk(k) && PacketsOk(k) && AppliedOk(k) && ActorsOk(System(sys.servers, k))
      && DiskOk(k, n, s.disk.(log := Written(s, j)))
      && (j == |s.todo[0].entries| ==> MemOk(k, n, s.(disk := s.disk.(log := Written(s, j)), todo := s.todo[1..])))
      && (forall o :: o in sys.servers && o != n ==> DiskOk(k, o, sys.servers[o].disk) && MemOk(k, o, sys.servers[o]))
  {
    var s := sys.servers[n];
    var h, t, b := sys.h, s.disk.hard.currentTerm, Written(s, j);
    var k := RecordAppend(h, n, t, s.disk.log, b);
    assert MemOk(h, n, s) && DiskOk(h, n, s.disk);
    LeaderFacts(h, n, s, j);
    AppendExtends(h, n, t, s.disk.log, b);
    AppendHistory(h, n, t, s.disk.log, b) by {
      forall u | (n, u) in h.votes ensures u <= t {
        assert VotePersisted(s.disk.hard, u, h.votes[(n, u)].candidate);
      }
    }
    PacketsStable(h, k);
    AppliedStable(h, k);
    AppendDisk(h, n, s.disk, b);
    if j == |s.todo[0].entries| {
      WrittenPrefix(h, n, s, j);
      AppendMem(h, n, s, k);
    }
    SoleWriter(sys, n, j);
    OthersStable(sys, k, n);
  }

  /** No other leader is waiting to open the term this append opens. */
  lemma SoleWriter(sys: System, n: NodeId, j: nat)
    requires Inv(sys) && n in sys.servers && LeaderWrites(sys.h, n, sys.servers[n], j)
    ensures var s := sys.servers[n];
      var k := RecordAppend(sys.h, n, s.disk.hard.currentTerm, s.disk.log, Written(s, j));
      forall o ::
        o in sys.servers && o != n && sys.servers[o].mem.role.Leader? && sys.servers[o].mem.hard.currentTerm in k.terms
        ==> sys.servers[o].mem.hard.currentTerm in sys.h.terms
  {
    var s := sys.servers[n];
    assert MemOk(sys.h, n, s) && DiskOk(sys.h, n, s.disk);
    LeaderFacts(sys.h, n, s, j);
    forall o | o in sys.servers && o != n && sys.servers[o].mem.role.Leader?
      ensures sys.servers[o].mem.hard.currentTerm != s.disk.hard.currentTerm
    {
      if sys.servers[o].mem.hard.currentTerm == s.mem.hard.currentTerm {
        OneLeaderPerTerm(sys, n, o, s.mem.hard.currentTerm);
      }
    }
  }

  lemma AppendStep(sys: System, n: NodeId)
    requires Inv(sys) && n in sys.servers && sys.servers[n].todo != [] && sys.servers[n].todo[0].PersistLogEntries?
    ensures Inv(Execute(sys, n))
  {
    var s := sys.servers[n];
    var j := |s.todo[0].entries|;
    LogStep(sys, n, j);
    assert s.todo[0].entries[..j] == s.todo[0].entries;
    Reassemble(sys, n, s.(disk := s.disk.(log := Written(s, j)), todo := s.todo[1..]), Execute(sys, n).h);
  }

  lemma SendStep(sys: System, n: NodeId)
    requires Inv(sys) && n in sys.servers && sys.servers[n].todo != [] && sys.servers[n].todo[0].Send?
    ensures Inv(Execute(sys, n))
  {
    var s := sys.servers[n];
    var h, to, msg := sys.h, s.todo[0].to, s.todo[0].msg;
    var k := RecordSend(h, n, to, msg);
    assert MemOk(h, n, s) && DiskOk(h, n, s.disk);
    SendMem(h, n, s);
    if !(msg.AppendEntriesReply? && msg.success) { SentOk(h, n, s); }
    SendExtends(h, n, s.disk, to, msg);
    SendHistory(h, n, s.disk, to, msg);
    SendDisk(h, n, s.disk, to, msg);
    AppliedStable(h, k);
    OthersStable(sys, k, n);
    Reassemble(sys, n, s.(todo := s.todo[1..]), k);
  }

  /** A history that differs in applications and boots only. */
  lemma SameEvidence(h: History, k: History)
    requires HistoryOk(h) && PacketsOk(h) && k == h.(applied := k.applied, boots := k.boots)
    requires h.applied <= k.applied && h.boots <= k.boots
    ensures Extends(h, k) && HistoryOk(k) && PacketsOk(k) && (forall n :: Foreign(h, k, n))
  {
    forall t | t in k.terms ensures TermOk(k, t) { TermStable(h, k, t); }
    forall v, t | (v, t) in k.votes ensures VoteOk(k, v, t) { VoteStable(h, k, v, t); }
    forall v, t | (v, t) in k.acks ensures AckOk(k, v, t) { assert AckOk(h, v, t); }
    PacketsStable(h, k);
  }

  lemma ApplyStep(sys: System, n: NodeId)
    requires Inv(sys) && n in sys.servers && sys.servers[n].todo != [] && sys.servers[n].todo[0].Apply?
    ensures Inv(Execute(sys, n))
  {
    var s := sys.servers[n];
    var k := sys.h.(applied := sys.h.applied + {(n, s.todo[0].entry)});
    assert MemOk(sys.h, n, s) && DiskOk(sys.h, n, s.disk);
    SameEvidence(sys.h, k);
    ApplyCommitted(sys.h, n, s);
    EntryStable(sys.h, k, s.todo[0].entry);
    AppliedStable(sys.h, k);
    PopOutput(sys.h, n, s);
    MemStable(sys.h, k, n, s.(todo := s.todo[1..]));
    DiskStable(sys.h, k, n, s.disk);
    OthersStable(sys, k, n);
    Reassemble(sys, n, s.(todo := s.todo[1..]), k);
  }

  lemma QuietStep(sys: System, n: NodeId)
    requires Inv(sys) && n in sys.servers && sys.servers[n].todo != []
    requires var e := sys.servers[n].todo[0]; e.RoleChanged? || e.ProposeAccepted? || e.ProposeRejected?
    ensures Inv(Execute(sys, n))
  {
    var s := sys.servers[n];
    assert MemOk(sys.h, n, s) && DiskOk(sys.h, n, s.disk);
    PopOutput(sys.h, n, s);
    Reassemble(sys, n, s.(todo := s.todo[1..]), sys.h);
  }

  /** A rebooted node starts from what its disk supports. */
  lemma RebootMem(h: History, n: NodeId, peers: seq<NodeId>, incarnation: nat, d: Disk)
    requires DiskOk(h, n, d) && incarnation < h.boots
    ensures MemOk(h, n, Server(Restore(n, h.config, peers, incarnation, d), d, []))
  {
  }

  /** Everything but `n`'s memory agrees with the history `h`, and `n`'s disk would with `d`. */
  ghost predicate Restartable(sys: System, n: NodeId, h: History, d: Disk) {
    && n in sys.servers && HistoryOk(h) && PacketsOk(h) && AppliedOk(h) && ActorsOk(System(sys.servers, h))
    && DiskOk(h, n, d)
    && forall o :: o in sys.servers && o != n ==> DiskOk(h, o, sys.servers[o].disk) && MemOk(h, o, sys.servers[o])
  }

  lemma RebootStep(sys: System, n: NodeId, h: History, d: Disk)
    requires Restartable(sys, n, h, d)
    ensures var k := h.(boots := h.boots + 1);
      Inv(System(sys.servers[n := Server(Restore(n, h.config, sys.servers[n].mem.peers, h.boots, d), d, [])], k))
  {
    var k := h.(boots := h.boots + 1);
    SameEvidence(h, k);
    AppliedStable(h, k);
    DiskStable(h, k, n, d);
    RebootMem(k, n, sys.servers[n].mem.peers, h.boots, d);
    forall o | o in sys.servers && o != n ensures DiskOk(k, o, sys.servers[o].disk) && MemOk(k, o, sys.servers[o]) {
      DiskStable(h, k, o, sys.servers[o].disk);
      MemStable(h, k, o, sys.servers[o]);
    }
    Reassemble(sys, n, Server(Restore(n, h.config, sys.servers[n].mem.peers, h.boots, d), d, []), k);
  }

  lemma CrashStep(sys: System, n: NodeId)
    requires Inv(sys) && n in sys.servers
    ensures Inv(Reboot(sys, n))
  {
    RebootStep(sys, n, sys.h, sys.servers[n].disk);
  }

  /** A torn append is a save of part of the entries, then a restart from what was saved. */
  lemma TornShape(sys: System, n: NodeId, j: nat)
    requires Enabled(sys, n, TornAppend(j))
    ensures var s := sys.servers[n]; var d := s.disk.(log := Written(s, j));
      var k := SaveLog(sys, n, s.todo[0].truncateFrom, s.todo[0].entries[..j], []).h;
      k.config == sys.h.config && k.boots == sys.h.boots &&
      Next(sys, n, TornAppend(j)) ==
        System(sys.servers[n := Server(Restore(n, k.config, s.mem.peers, k.boots, d), d, [])], k.(boots := k.boots + 1))
  {
    var s := sys.servers[n];
    var torn := SaveLog(sys, n, s.todo[0].truncateFrom, s.todo[0].entries[..j], []);
    assert torn.servers[n := Reboot(torn, n).servers[n]] == sys.servers[n := Reboot(torn, n).servers[n]];
  }

  lemma TornReady(sys: System, n: NodeId, j: nat)
    requires Inv(sys) && Enabled(sys, n, TornAppend(j))
    ensures var s := sys.servers[n];
      Restartable(sys, n, SaveLog(sys, n, s.todo[0].truncateFrom, s.todo[0].entries[..j], []).h,
                  s.disk.(log := Written(s, j)))
  {
    LogStep(sys, n, j);
  }

  lemma TornRestart(sys: System, n: NodeId, h: History, d: Disk, next: System)
    requires Restartable(sys, n, h, d)
    requires next
      == System(sys.servers[n := Server(Restore(n, h.config, sys.servers[n].mem.peers, h.boots, d), d, [])],
                h.(boots := h.boots + 1))
    ensures Inv(next)
  {
    RebootStep(sys, n, h, d);
  }

  lemma TornStep(sys: System, n: NodeId, j: nat)
    requires Inv(sys) && Enabled(sys, n, TornAppend(j))
    ensures Inv(Next(sys, n, TornAppend(j)))
  {
    var s := sys.servers[n];
    TornReady(sys, n, j);
    TornShape(sys, n, j);
    var k := SaveLog(sys, n, s.todo[0].truncateFrom, s.todo[0].entries[..j], []).h;
    TornRestart(sys, n, k, s.disk.(log := Written(s, j)), Next(sys, n, TornAppend(j)));
  }

  /** The invariant is kept by every event at every node. */
  lemma NextOk(sys: System, n: NodeId, event: Event)
    requires Inv(sys) && Enabled(sys, n, event)
    ensures Inv(Next(sys, n, event))
  {
    match event
    case Input(input) => InputStep(sys, n, input);
    case Run =>
      match sys.servers[n].todo[0] {
        case PersistHardState(_) => HardStep(sys, n);
        case PersistLogEntries(_, _) => AppendStep(sys, n);
        case Send(_, _) => SendStep(sys, n);
        case Apply(_) => ApplyStep(sys, n);
        case _ => QuietStep(sys, n);
      }
    case Crash => CrashStep(sys, n);
    case TornAppend(k) => TornStep(sys, n, k);
  }

  lemma {:induction false} RunOk(states: seq<System>, moves: seq<(NodeId, Event)>, i: nat)
    requires IsRun(states, moves) && i < |states|
    ensures Inv(states[i])
    decreases i
  {
    if i == 0 {
      InitOk(states[0]);
    } else {
      RunOk(states, moves, i - 1);
      assert StepAt(states, moves, i - 1);
      NextOk(states[i - 1], moves[i - 1].0, moves[i - 1].1);
    }
  }
}
