/** Replication handlers keep the invariant; every input does. */
module RaftReplication {
  import opened Basics
  import opened Types
  import opened RaftCore
  import opened RaftCluster
  import opened RaftInvariants
  import opened RaftQuorums
  import opened RaftTheorems
  import opened RaftQueues
  import opened RaftHandlers

  // ---------------------------------------------------------------- the payload walk

  /** Past the first new or conflicting entry the walk only collects. */
  lemma {:induction false} WalkCollects(w: Walk, es: seq<Entry>, at: nat)
    requires forall i :: 0 <= i < |es| ==> es[i].index == at + 1 + i
    requires |w.log| <= at
    ensures WalkEntries(w, es) == w.(appended := w.appended + es)
    decreases |es|
  {
    if es != [] {
      var next := WalkEntry(w, es[0]);
      assert next == w.(appended := w.appended + [es[0]]);
      WalkCollects(next, es[1..], at + 1);
      assert w.appended + [es[0]] + es[1..] == w.appended + es;
    } else {
      assert w.appended + es == w.appended;
    }
  }

  /** A walk's outcome against the leader's own log `l`: either everything was present, or the
      result is exactly the leader's prefix, cut (if at all) at a real conflict. */
  predicate WalkOk(log: seq<Entry>, l: seq<Entry>, at: nat, last: nat, w: Walk)
    requires at <= last <= |l|
  {
    if w.appended == [] then
      w == Walk(log, None, []) && last <= |log| && log[..last] == l[..last]
    else
      && w.log + w.appended == l[..last]
      && w.log == Cut(log, w.truncateFrom)
      && at <= |w.log| < last && |w.log| <= |log| && log[..|w.log|] == l[..|w.log|]
      && (w.truncateFrom.None? ==> w.log == log)
      && (w.truncateFrom.Some? ==> w.truncateFrom.value == |w.log| + 1 <= |log| && log[|w.log|].term != l[|w.log|].term)
  }

  lemma {:induction false} WalkMatches(terms: map<Term, TermRecord>, log: seq<Entry>, l: seq<Entry>, at: nat,
                                       es: seq<Entry>)
    requires Consistent(terms, log) && Consistent(terms, l) && WfLog(l)
    requires at <= |log| && at + |es| <= |l| && log[..at] == l[..at] && es == l[at..at + |es|]
    ensures WalkOk(log, l, at, at + |es|, WalkEntries(Walk(log, None, []), es))
    decreases |es|
  {
    if es != [] {
      var e := es[0];
      assert e == l[at] && e.index == at + 1;
      if at < |log| && log[at].term == e.term {
        LogMatching(terms, log, l, at);
        assert es[1..] == l[at + 1..at + 1 + |es[1..]|];
        WalkMatches(terms, log, l, at + 1, es[1..]);
      } else {
        WalkDiverges(log, at, es);
        assert log[..at] + es == l[..at] + l[at..at + |es|] == l[..at + |es|];
      }
    }
  }

  /** From the first entry that is new or in conflict, the walk takes the leader's payload whole. */
  lemma {:induction false} WalkDiverges(log: seq<Entry>, at: nat, es: seq<Entry>)
    requires es != [] && at <= |log| && forall i :: 0 <= i < |es| ==> es[i].index == at + 1 + i
    requires at < |log| ==> log[at].term != es[0].term
    ensures WalkEntries(Walk(log, None, []), es) == Walk(log[..at], if at < |log| then Some(at + 1) else None, es)
  {
    var w := WalkEntry(Walk(log, None, []), es[0]);
    assert log[..|log|] == log;
    assert w == Walk(log[..at], if at < |log| then Some(at + 1) else None, [es[0]]);
    WalkCollects(w, es[1..], at + 1);
    assert [es[0]] + es[1..] == es;
  }

  /** The follower's log agrees with the leader's up to a matching anchor. */
  lemma AnchorMatches(terms: map<Term, TermRecord>, log: seq<Entry>, l: seq<Entry>, prev: LogIndex)
    requires Consistent(terms, log) && Consistent(terms, l) && prev <= |l|
    requires LogTerm(log, prev) == Some(TermAt(l, prev))
    ensures prev <= |log| && log[..prev] == l[..prev]
  {
    if prev > 0 {
      LogMatching(terms, log, l, prev - 1);
    }
  }

  // ---------------------------------------------------------------- follower accept path

  /** What an accepted append leaves in memory. */
  function Merged(mem: Node, es: seq<Entry>): Node {
    var w := WalkEntries(Walk(mem.log, None, []), es);
    mem.(role := Follower, log := w.log + w.appended)
  }

  function Accepted(mem: Node, prev: LogIndex, es: seq<Entry>, leaderCommit: LogIndex): Outcome {
    AdvanceCommit(Merged(mem, es), Min(leaderCommit, prev + |es|))
  }

  /** No payload entry conflicts below the commit index, so the merge keeps the committed prefix. */
  lemma MergeKeepsCommitted(mem: Node, l: seq<Entry>, prev: LogIndex, es: seq<Entry>, w: Walk)
    requires WfLog(l) && prev + |es| <= |l| && es == l[prev..prev + |es|]
    requires WalkOk(mem.log, l, prev, prev + |es|, w) && mem.commitIndex <= |mem.log|
    requires forall i :: 0 <= i < |es| ==>
      !(es[i].index <= mem.commitIndex && LogTerm(mem.log, es[i].index) != Some(es[i].term))
    ensures var log := w.log + w.appended;
      && mem.commitIndex <= |log| && log[..mem.commitIndex] == mem.log[..mem.commitIndex]
      && prev + |es| <= |log| && log[..prev + |es|] == l[..prev + |es|]
  {
    if w.appended == [] {
      assert w.log + w.appended == mem.log;
    } else {
      var log := w.log + w.appended;
      if w.truncateFrom.Some? {
        var i := |w.log| - prev;
        assert es[i] == l[|w.log|] && es[i].index == |w.log| + 1;
        assert LogTerm(mem.log, es[i].index) == Some(mem.log[|w.log|].term);
        assert mem.commitIndex <= |w.log|;
      }
      assert log[..prev + |es|] == log;
      assert log[..mem.commitIndex] == l[..mem.commitIndex];
      assert mem.log[..|w.log|][..mem.commitIndex] == l[..|w.log|][..mem.commitIndex];
    }
  }

  lemma AcceptCommits(h: History, mem: Node, l: seq<Entry>, prev: LogIndex, es: seq<Entry>, lc: LogIndex)
    requires Committed(h, mem.log, mem.commitIndex) && Committed(h, l, lc) && lc <= |l|
    requires mem.lastApplied == mem.commitIndex <= |mem.log|
    requires var log := Merged(mem, es).log;
      && WfLog(log)
      && mem.commitIndex <= |log| && log[..mem.commitIndex] == mem.log[..mem.commitIndex]
      && prev + |es| <= |log| && prev + |es| <= |l| && log[..prev + |es|] == l[..prev + |es|]
    ensures var a := Accepted(mem, prev, es, lc);
      && a.node == Merged(mem, es).(commitIndex := a.node.commitIndex, lastApplied := a.node.commitIndex)
      && a.node.commitIndex <= |a.node.log| && Committed(h, a.node.log, a.node.commitIndex)
      && Quiet(a.effects) && OutsOk(h, a.node, a.effects)
  {
    var m := Merged(mem, es);
    var k := Min(lc, prev + |es|);
    var a := Accepted(mem, prev, es, lc);
    CommittedCopy(h, mem.log, m.log, mem.commitIndex, mem.commitIndex);
    if k > mem.commitIndex {
      assert m.log[..k] == m.log[..prev + |es|][..k] == l[..prev + |es|][..k] == l[..k];
      CommittedCopy(h, l, m.log, lc, k);
      ApplyRangeOk(h, a.node, mem.lastApplied, k);
    }
  }

  lemma {:induction false} FollowerAppendKeeps(h: History, n: NodeId, mem: Node, disk: Disk, pre: seq<Effect>,
                                               next: Node, from: Option<LogIndex>, es: seq<Entry>, outs: seq<Effect>)
    requires MemOk(h, n, Server(mem, disk, pre)) && Adoption(pre) && mem.role.Follower? && Quiet(outs) && es != []
    requires next == mem.(log := next.log, commitIndex := next.commitIndex, lastApplied := next.commitIndex)
    requires next.log == Cut(mem.log, from) + es && CutAtConflict(mem.log, next.log, from)
    requires WfLog(next.log) && TermsAtMost(next.log, next.hard.currentTerm)
    requires next.hard.currentTerm in h.terms && next.log <= h.terms[next.hard.currentTerm].log
    requires next.commitIndex <= |next.log| && Committed(h, next.log, next.commitIndex)
    requires OutsOk(h, next, outs)
    requires HasHard(pre) ==> mem.hard.votedFor.None?
    ensures MemOk(h, n, Server(next, disk, pre + [PersistLogEntries(from, es)] + outs))
  {
    OutputsQueue(h, mem, pre, []);
    AppendQueue(h, next, pre, from, es, outs);
    PreambleOuts(h, next, pre);
    assert OutsOk(h, next, [PersistLogEntries(from, es)]);
    OutsConcat(h, next, pre, [PersistLogEntries(from, es)]);
    OutsConcat(h, next, pre + [PersistLogEntries(from, es)], outs);
  }

  lemma {:induction false} AdoptionClearsVote(disk: HardState, mem: HardState, self: NodeId, pre: seq<Effect>)
    requires Adoption(pre) && HasHard(pre) && HardsOk(disk, mem, self, pre)
    ensures mem.votedFor.None?
    decreases |pre|
  {
    if pre[0].PersistHardState? {
      if HasHard(pre[1..]) {
        AdoptionClearsVote(pre[0].hard, mem, self, pre[1..]);
      } else {
        NoHard(pre[0].hard, mem, self, pre[1..]);
      }
    } else {
      AdoptionClearsVote(disk, mem, self, pre[1..]);
    }
  }

  lemma {:induction false} NoHard(disk: HardState, mem: HardState, self: NodeId, todo: seq<Effect>)
    requires !HasHard(todo) && HardsOk(disk, mem, self, todo)
    ensures disk == mem
  {
    if todo != [] {
      NoHard(disk, mem, self, todo[1..]);
    }
  }

  /** A payload and anchor that match the log of the current term's leader. */
  ghost predicate Agrees(h: History, mem: Node, prev: LogIndex, es: seq<Entry>, lc: LogIndex) {
    && Consistent(h.terms, mem.log) && mem.hard.currentTerm in h.terms
    && var l := h.terms[mem.hard.currentTerm].log;
    && Consistent(h.terms, l) && WfLog(l) && TermsAtMost(l, mem.hard.currentTerm)
    && prev <= |mem.log| && prev + |es| <= |l| && mem.log[..prev] == l[..prev] && es == l[prev..prev + |es|]
    && lc <= |l| && Committed(h, l, lc)
    && forall i :: 0 <= i < |es| ==>
       !(es[i].index <= mem.commitIndex && LogTerm(mem.log, es[i].index) != Some(es[i].term))
  }

  function Success(mem: Node, leader: NodeId, last: LogIndex): Effect {
    Send(leader, AppendEntriesReply(mem.hard.currentTerm, true, last, None))
  }

  /** Where an accepted payload leaves the log. */
  ghost predicate MergeOk(h: History, mem: Node, w: Walk, node: Node) {
    match node.role
    case Follower =>
      && node
         == mem.(role := Follower, log := w.log + w.appended, commitIndex := node.commitIndex,
                 lastApplied := node.commitIndex)
      && WfLog(node.log) && TermsAtMost(node.log, mem.hard.currentTerm)
      && node.commitIndex <= |node.log| && Committed(h, node.log, node.commitIndex)
      && (if w.appended == [] then node.log == mem.log
          else node.log == Cut(mem.log, w.truncateFrom) + w.appended && CutAtConflict(mem.log, node.log, w.truncateFrom)
               && mem.hard.currentTerm in h.terms && node.log <= h.terms[mem.hard.currentTerm].log)
    case _ => false
  }

  /** A walk that took anything cut the log at the first conflict and ended on the leader's own prefix. */
  lemma WalkCuts(log: seq<Entry>, l: seq<Entry>, at: nat, last: nat, w: Walk)
    requires at <= last <= |l| && WalkOk(log, l, at, last, w)
    ensures if w.appended == [] then w.log + w.appended == log
            else w.log + w.appended == Cut(log, w.truncateFrom) + w.appended
                 && CutAtConflict(log, w.log + w.appended, w.truncateFrom) && w.log + w.appended <= l
  {
    if w.appended != [] && w.truncateFrom.Some? {
      assert (w.log + w.appended)[|w.log|] == l[|w.log|];
    }
  }

  lemma MergeJoins(h: History, mem: Node, w: Walk, node: Node)
    requires mem.hard.currentTerm in h.terms
    requires node
      == mem.(role := Follower, log := w.log + w.appended, commitIndex := node.commitIndex,
              lastApplied := node.commitIndex)
    requires WfLog(node.log) && TermsAtMost(node.log, mem.hard.currentTerm)
    requires node.commitIndex <= |node.log| && Committed(h, node.log, node.commitIndex)
    requires if w.appended == [] then node.log == mem.log
             else node.log == Cut(mem.log, w.truncateFrom) + w.appended
                  && CutAtConflict(mem.log, node.log, w.truncateFrom) && node.log <= h.terms[mem.hard.currentTerm].log
    ensures MergeOk(h, mem, w, node)
  {
  }

  lemma {:induction false} AcceptMerges(h: History, mem: Node, prev: LogIndex, es: seq<Entry>, lc: LogIndex)
    requires Agrees(h, mem, prev, es, lc)
    requires WfLog(mem.log) && TermsAtMost(mem.log, mem.hard.currentTerm)
    requires Committed(h, mem.log, mem.commitIndex) && mem.lastApplied == mem.commitIndex <= |mem.log|
    ensures MergeOk(h, mem, WalkEntries(Walk(mem.log, None, []), es), Accepted(mem, prev, es, lc).node)
  {
    var l := h.terms[mem.hard.currentTerm].log;
    var w := WalkEntries(Walk(mem.log, None, []), es);
    WalkMatches(h.terms, mem.log, l, prev, es);
    MergeKeepsCommitted(mem, l, prev, es, w);
    MergedWf(mem.log, l, prev, prev + |es|, w, mem.hard.currentTerm);
    AcceptCommits(h, mem, l, prev, es, lc);
    WalkCuts(mem.log, l, prev, prev + |es|, w);
    MergeJoins(h, mem, w, Accepted(mem, prev, es, lc).node);
  }

  lemma {:induction false} AcceptSends(h: History, mem: Node, prev: LogIndex, es: seq<Entry>, lc: LogIndex)
    requires Agrees(h, mem, prev, es, lc)
    requires WfLog(mem.log) && TermsAtMost(mem.log, mem.hard.currentTerm)
    requires Committed(h, mem.log, mem.commitIndex) && mem.lastApplied == mem.commitIndex <= |mem.log|
    ensures Quiet(Accepted(mem, prev, es, lc).effects)
    ensures OutsOk(h, Accepted(mem, prev, es, lc).node, Accepted(mem, prev, es, lc).effects)
    ensures var log := Accepted(mem, prev, es, lc).node.log;
      prev + |es| <= |log| && log[..prev + |es|] <= h.terms[mem.hard.currentTerm].log
  {
    var l := h.terms[mem.hard.currentTerm].log;
    var w := WalkEntries(Walk(mem.log, None, []), es);
    WalkMatches(h.terms, mem.log, l, prev, es);
    MergeKeepsCommitted(mem, l, prev, es, w);
    MergedWf(mem.log, l, prev, prev + |es|, w, mem.hard.currentTerm);
    AcceptCommits(h, mem, l, prev, es, lc);
  }

  lemma AcceptOutputs(h: History, mem: Node, node: Node, applies: seq<Effect>, leader: NodeId, last: LogIndex)
    requires Quiet(applies) && OutsOk(h, node, applies) && node.hard == mem.hard && mem.hard.currentTerm in h.terms
    requires last <= |node.log| && node.log[..last] <= h.terms[mem.hard.currentTerm].log
    ensures var outs := applies + [Success(mem, leader, last)]; Quiet(outs) && OutsOk(h, node, outs)
  {
    assert OutOk(h, node, Success(mem, leader, last));
    OutsConcat(h, node, applies, [Success(mem, leader, last)]);
  }

  function Persists(w: Walk): seq<Effect> {
    if w.appended == [] then [] else [PersistLogEntries(w.truncateFrom, w.appended)]
  }

  lemma MergeKeeps(h: History, n: NodeId, mem: Node, disk: Disk, pre: seq<Effect>, w: Walk, node: Node,
                   outs: seq<Effect>)
    requires MemOk(h, n, Server(mem, disk, pre)) && Adoption(pre) && mem.role.Follower?
    requires MergeOk(h, mem, w, node) && Quiet(outs) && OutsOk(h, node, outs)
    ensures MemOk(h, n, Server(node, disk, pre + Persists(w) + outs))
  {
    if w.appended == [] {
      assert pre + [] + outs == pre + outs;
      OutputsKeep(h, n, mem, disk, pre, node, outs);
    } else {
      if HasHard(pre) { AdoptionClearsVote(disk.hard, mem.hard, n, pre); }
      FollowerAppendKeeps(h, n, mem, disk, pre, node, w.truncateFrom, w.appended, outs);
    }
  }

  /** Behind a preamble the memory log is the disk log and everything up to the commit index is committed. */
  lemma PreambleFacts(h: History, n: NodeId, mem: Node, disk: Disk, pre: seq<Effect>)
    requires MemOk(h, n, Server(mem, disk, pre)) && Preamble(pre)
    ensures mem.log == disk.log && WfLog(mem.log) && TermsAtMost(mem.log, mem.hard.currentTerm)
    ensures Committed(h, mem.log, mem.commitIndex) && mem.lastApplied == mem.commitIndex <= |mem.log|
  {
    OutputsQueue(h, mem, pre, []);
    assert pre + [] == pre;
  }

  /** The accept branch of a follower whose anchor and payload match the leader's log. */
  lemma {:induction false} AcceptKeeps(h: History, n: NodeId, mem: Node, disk: Disk, pre: seq<Effect>, leader: NodeId,
                                       prev: LogIndex, es: seq<Entry>, lc: LogIndex)
    requires MemOk(h, n, Server(mem, disk, pre)) && Adoption(pre) && mem.role.Follower?
    requires Agrees(h, mem, prev, es, lc)
    ensures var a := Accepted(mem, prev, es, lc);
      MemOk(h, n, Server(a.node, disk, pre + Persists(WalkEntries(Walk(mem.log, None, []), es))
                                       + (a.effects + [Success(mem, leader, prev + |es|)])))
  {
    var a := Accepted(mem, prev, es, lc);
    PreambleFacts(h, n, mem, disk, pre);
    AcceptMerges(h, mem, prev, es, lc);
    AcceptSends(h, mem, prev, es, lc);
    AcceptOutputs(h, mem, a.node, a.effects, leader, prev + |es|);
    MergeKeeps(h, n, mem, disk, pre, WalkEntries(Walk(mem.log, None, []), es), a.node,
               a.effects + [Success(mem, leader, prev + |es|)]);
  }

  lemma MergedWf(log: seq<Entry>, l: seq<Entry>, at: nat, last: nat, w: Walk, term: Term)
    requires WfLog(l) && WfLog(log) && TermsAtMost(l, term) && TermsAtMost(log, term)
    requires at <= last <= |l| && WalkOk(log, l, at, last, w)
    ensures WfLog(w.log + w.appended) && TermsAtMost(w.log + w.appended, term)
  {
    if w.appended == [] {
      assert w.log + w.appended == log;
    }
  }

  lemma RefusalKeeps(h: History, n: NodeId, mem: Node, disk: Disk, pre: seq<Effect>, to: NodeId,
                     conflict: Option<ConflictHint>)
    requires MemOk(h, n, Server(mem, disk, pre)) && Preamble(pre)
    ensures MemOk(h, n, Server(mem, disk, pre + [Refusal(mem, to, conflict)]))
  {
    OutputsQueue(h, mem, pre, []);
    OutputsKeep(h, n, mem, disk, pre, mem, [Refusal(mem, to, conflict)]);
  }

  lemma AppendEntriesKeeps(h: History, n: NodeId, mem: Node, disk: Disk, pre: seq<Effect>, term: Term, leader: NodeId,
                           prev: LogIndex, prevTerm: Term, es: seq<Entry>, lc: LogIndex)
    requires HistoryOk(h) && DiskOk(h, n, disk) && MemOk(h, n, Server(mem, disk, pre)) && Adoption(pre)
    requires term <= mem.hard.currentTerm
    requires PacketOk(h, Packet(leader, n, AppendEntries(term, leader, prev, prevTerm, es, lc)))
    ensures var o := OnAppendEntries(mem, term, leader, prev, prevTerm, es, lc);
      MemOk(h, n, Server(o.node, disk, pre + o.effects))
  {
    if term < mem.hard.currentTerm {
      RefusalKeeps(h, n, mem, disk, pre, leader, None);
    } else {
      var f := BecomeFollower(mem);
      FollowerKeeps(h, n, mem, disk, pre, f.node);
      var pre2 := pre + f.effects;
      FollowerHandles(h, n, f.node, disk, pre2, term, leader, prev, prevTerm, es, lc);
      AppendShape(mem, pre, term, leader, prev, prevTerm, es, lc);
    }
  }

  /** The accept path of a node that is already a follower. */
  function FollowerAppend(mem: Node, term: Term, leader: NodeId, prev: LogIndex, prevTerm: Term, es: seq<Entry>,
                          lc: LogIndex): Outcome {
    if LogTerm(mem.log, prev) != Some(prevTerm)
      then Outcome(mem, [Refusal(mem, leader, ConflictHintFor(mem.log, prev))])
    else if exists i ::
      0 <= i < |es| && es[i].index <= mem.commitIndex && LogTerm(mem.log, es[i].index) != Some(es[i].term) then
      Outcome(mem, [Refusal(mem, leader, None)])
    else
      var a := Accepted(mem, prev, es, lc);
      Outcome(a.node, Persists(WalkEntries(Walk(mem.log, None, []), es))
              + (a.effects + [Success(mem, leader, prev + |es|)]))
  }

  lemma AppendShape(mem: Node, pre: seq<Effect>, term: Term, leader: NodeId, prev: LogIndex, prevTerm: Term,
                    es: seq<Entry>, lc: LogIndex)
    requires term == mem.hard.currentTerm
    ensures var f := BecomeFollower(mem);
      var o := OnAppendEntries(mem, term, leader, prev, prevTerm, es, lc);
      var g := FollowerAppend(f.node, term, leader, prev, prevTerm, es, lc);
      o.node == g.node && pre + o.effects == pre + f.effects + g.effects
  {
  }

  lemma FollowerHandles(h: History, n: NodeId, mem: Node, disk: Disk, pre: seq<Effect>, term: Term, leader: NodeId,
                        prev: LogIndex, prevTerm: Term, es: seq<Entry>, lc: LogIndex)
    requires HistoryOk(h) && DiskOk(h, n, disk) && MemOk(h, n, Server(mem, disk, pre)) && Adoption(pre)
    requires mem.role.Follower? && term == mem.hard.currentTerm
    requires PacketOk(h, Packet(leader, n, AppendEntries(term, leader, prev, prevTerm, es, lc)))
    ensures var o := FollowerAppend(mem, term, leader, prev, prevTerm, es, lc);
      MemOk(h, n, Server(o.node, disk, pre + o.effects))
  {
    if LogTerm(mem.log, prev) != Some(prevTerm) {
      RefusalKeeps(h, n, mem, disk, pre, leader, ConflictHintFor(mem.log, prev));
    } else if exists i ::
      0 <= i < |es| && es[i].index <= mem.commitIndex && LogTerm(mem.log, es[i].index) != Some(es[i].term) {
      RefusalKeeps(h, n, mem, disk, pre, leader, None);
    } else {
      PacketAgrees(h, n, mem, disk, pre, term, leader, prev, prevTerm, es, lc);
      AcceptKeeps(h, n, mem, disk, pre, leader, prev, es, lc);
      FollowerShape(mem, pre, term, leader, prev, prevTerm, es, lc);
    }
  }

  lemma {:induction false} FollowerShape(mem: Node, pre: seq<Effect>, term: Term, leader: NodeId, prev: LogIndex,
                                         prevTerm: Term, es: seq<Entry>, lc: LogIndex)
    requires LogTerm(mem.log, prev) == Some(prevTerm)
    requires !exists i ::
      0 <= i < |es| && es[i].index <= mem.commitIndex && LogTerm(mem.log, es[i].index) != Some(es[i].term)
    ensures var o := FollowerAppend(mem, term, leader, prev, prevTerm, es, lc);
      var a := Accepted(mem, prev, es, lc);
      && o.node == a.node
      && pre + o.effects == pre + Persists(WalkEntries(Walk(mem.log, None, []), es))
         + (a.effects + [Success(mem, leader, prev + |es|)])
  {
    var a, persists := Accepted(mem, prev, es, lc), Persists(WalkEntries(Walk(mem.log, None, []), es));
    Associates(pre, persists, a.effects + [Success(mem, leader, prev + |es|)]);
  }

  lemma PacketAgrees(h: History, n: NodeId, mem: Node, disk: Disk, pre: seq<Effect>, term: Term, leader: NodeId,
                     prev: LogIndex, prevTerm: Term, es: seq<Entry>, lc: LogIndex)
    requires HistoryOk(h) && DiskOk(h, n, disk) && MemOk(h, n, Server(mem, disk, pre)) && Preamble(pre)
    requires term == mem.hard.currentTerm && LogTerm(mem.log, prev) == Some(prevTerm)
    requires PacketOk(h, Packet(leader, n, AppendEntries(term, leader, prev, prevTerm, es, lc)))
    requires !exists i ::
      0 <= i < |es| && es[i].index <= mem.commitIndex && LogTerm(mem.log, es[i].index) != Some(es[i].term)
    ensures Agrees(h, mem, prev, es, lc)
  {
    LeaderLogFacts(h, n, mem, disk, pre, term, prev);
  }

  lemma LeaderLogFacts(h: History, n: NodeId, mem: Node, disk: Disk, pre: seq<Effect>, term: Term, prev: LogIndex)
    requires HistoryOk(h) && DiskOk(h, n, disk) && MemOk(h, n, Server(mem, disk, pre)) && Preamble(pre)
    requires term in h.terms && prev <= |h.terms[term].log|
    requires LogTerm(mem.log, prev) == Some(TermAt(h.terms[term].log, prev))
    ensures Consistent(h.terms, mem.log)
    ensures var l := h.terms[term].log;
      Consistent(h.terms, l) && WfLog(l) && TermsAtMost(l, term) && prev <= |mem.log| && mem.log[..prev] == l[..prev]
  {
    PreambleFacts(h, n, mem, disk, pre);
    assert TermOk(h, term);
    var r := h.terms[term];
    assert forall i :: 0 <= i < |r.start| ==> r.log[i] == r.start[i];
    AnchorMatches(h.terms, mem.log, r.log, prev);
  }

  // ---------------------------------------------------------------- leader

  lemma QuorumHolds(h: History, n: NodeId, mem: Node, disk: Disk, c: LogIndex)
    requires MemOk(h, n, Server(mem, disk, [])) && mem.role.Leader? && ValidConfig(h.config)
    requires 0 < c <= |mem.log| && mem.log[c - 1].term == mem.hard.currentTerm
    requires c <= ReplicatedIndex(mem.config, mem.role.matchIndex[mem.id := LastIndex(mem.log)])
    ensures Chosen(h, mem.hard.currentTerm, c)
  {
    var t := mem.hard.currentTerm;
    var matched := mem.role.matchIndex[mem.id := LastIndex(mem.log)];
    ReplicatedIndexExact(mem.config, matched, c);
    forall v | v in Holders(mem.config, matched, c) ensures v in Ackers(h.acks, t, c) {
      assert Matched(matched, v) >= c;
      if v != n {
        assert MatchOk(h, mem, v);
      }
      assert (v, t) in h.acks;
    }
    QuorumMonotone(h.config, Holders(mem.config, matched, c), Ackers(h.acks, t, c));
  }

  /** What advancing the commit index to `c`, if there is such an index, does to a leader. */
  predicate Advances(mem: Node, c: Option<LogIndex>, o: Outcome)
    requires mem.role.Leader?
  {
    match c
    case None => o == Outcome(mem, [])
    case Some(i) =>
      && mem.commitIndex < i <= |mem.log| && mem.log[i - 1].term == mem.hard.currentTerm
      && i <= ReplicatedIndex(mem.config, mem.role.matchIndex[mem.id := LastIndex(mem.log)])
      && (mem.lastApplied <= mem.commitIndex ==>
            o == Outcome(mem.(commitIndex := i, lastApplied := i), ApplyRange(mem.log, mem.lastApplied, i)))
  }

  lemma QuorumCommitShape(mem: Node) returns (c: Option<LogIndex>)
    requires mem.role.Leader?
    ensures Advances(mem, c, QuorumCommit(mem))
  {
    var matched := mem.role.matchIndex[mem.id := LastIndex(mem.log)];
    var replicated := ReplicatedIndex(mem.config, matched);
    c := CommitCandidate(mem.log, mem.commitIndex, replicated, mem.hard.currentTerm, |mem.log|);
  }

  lemma {:induction false} ChosenKeeps(h: History, n: NodeId, mem: Node, disk: Disk, i: LogIndex, o: Outcome)
    requires MemOk(h, n, Server(mem, disk, [])) && mem.role.Leader? && ValidConfig(h.config)
    requires Advances(mem, Some(i), o)
    ensures MemOk(h, n, Server(o.node, disk, o.effects))
  {
    QuorumHolds(h, n, mem, disk, i);
    assert CommittedVia(h, o.node.log, i, mem.hard.currentTerm, i);
    ApplyRangeOk(h, o.node, mem.lastApplied, i);
    LeaderOutputs(h, n, mem, disk, o.node, o.effects);
  }

  lemma QuorumCommitKeeps(h: History, n: NodeId, mem: Node, disk: Disk)
    requires MemOk(h, n, Server(mem, disk, [])) && mem.role.Leader? && ValidConfig(h.config)
    ensures var o := QuorumCommit(mem); MemOk(h, n, Server(o.node, disk, o.effects))
  {
    var c := QuorumCommitShape(mem);
    match c
    case None => assert Server(QuorumCommit(mem).node, disk, QuorumCommit(mem).effects) == Server(mem, disk, []);
    case Some(i) => ChosenKeeps(h, n, mem, disk, i, QuorumCommit(mem));
  }

  /** A leader's step that only adds outputs and touches cursors or the commit index. */
  lemma LeaderOutputs(h: History, n: NodeId, mem: Node, disk: Disk, next: Node, outs: seq<Effect>)
    requires MemOk(h, n, Server(mem, disk, [])) && mem.role.Leader? && Quiet(outs) && OutsOk(h, next, outs)
    requires next == mem.(role := next.role, commitIndex := next.commitIndex, lastApplied := next.commitIndex)
    requires next.role.Leader? && CursorsOk(h, next)
    requires next.commitIndex <= |next.log| && Committed(h, next.log, next.commitIndex)
    ensures MemOk(h, n, Server(next, disk, outs))
  {
    OutputsKeep(h, n, mem, disk, [], next, outs);
    assert [] + outs == outs;
  }

  lemma AppendReplyKeeps(h: History, n: NodeId, mem: Node, disk: Disk, pre: seq<Effect>, from: NodeId, term: Term,
                         success: bool, matchIndex: LogIndex, conflict: Option<ConflictHint>)
    requires MemOk(h, n, Server(mem, disk, pre)) && ValidConfig(h.config) && (pre != [] ==> mem.role.Follower?)
    requires PacketOk(h, Packet(from, n, AppendEntriesReply(term, success, matchIndex, conflict)))
    ensures var o := OnAppendEntriesReply(mem, from, term, success, matchIndex, conflict);
      MemOk(h, n, Server(o.node, disk, pre + o.effects))
  {
    var o := OnAppendEntriesReply(mem, from, term, success, matchIndex, conflict);
    ReplyShape(mem, from, term, success, matchIndex, conflict);
    if o == Outcome(mem, []) {
      assert pre + [] == pre;
    } else {
      assert pre == [] && [] + o.effects == o.effects;
      if success {
        RaiseKeeps(h, n, mem, disk, from, matchIndex, o);
      } else {
        RetryKeeps(h, n, mem, disk, from, o);
      }
    }
  }

  /** A success raises the peer's watermark and recounts the quorum. */
  ghost predicate Raises(mem: Node, from: NodeId, matchIndex: LogIndex, o: Outcome) {
    && mem.role.Leader? && from in mem.role.nextIndex && from in mem.role.matchIndex && matchIndex <= |mem.log|
    && var raised := Max(mem.role.matchIndex[from], matchIndex);
       o
         == QuorumCommit(mem.(role := Leader(mem.role.nextIndex[from := raised + 1],
                                             mem.role.matchIndex[from := raised])))
  }

  /** A refusal only lowers the peer's retry cursor. */
  ghost predicate Retries(mem: Node, from: NodeId, o: Outcome) {
    && mem.role.Leader? && from in mem.role.nextIndex && from in mem.role.matchIndex
    && o.node.role.Leader? && from in o.node.role.nextIndex && o.effects == []
    && o.node == mem.(role := mem.role.(nextIndex := mem.role.nextIndex[from := o.node.role.nextIndex[from]]))
    && (mem.role.nextIndex[from] <= |mem.log| + 1 && mem.role.matchIndex[from] <= |mem.log| ==>
          1 <= o.node.role.nextIndex[from] <= |mem.log| + 1)
  }

  lemma ReplyShape(mem: Node, from: NodeId, term: Term, success: bool, matchIndex: LogIndex,
                   conflict: Option<ConflictHint>)
    ensures var o := OnAppendEntriesReply(mem, from, term, success, matchIndex, conflict);
      o == Outcome(mem, []) ||
      (term == mem.hard.currentTerm && if success then Raises(mem, from, matchIndex, o) else Retries(mem, from, o))
  {
  }

  lemma RaiseKeeps(h: History, n: NodeId, mem: Node, disk: Disk, from: NodeId, matchIndex: LogIndex, o: Outcome)
    requires MemOk(h, n, Server(mem, disk, [])) && ValidConfig(h.config) && Raises(mem, from, matchIndex, o)
    requires (from, mem.hard.currentTerm) in h.acks && matchIndex <= h.acks[(from, mem.hard.currentTerm)]
    ensures MemOk(h, n, Server(o.node, disk, o.effects))
  {
    assert MatchOk(h, mem, from);
    SuccessKeeps(h, n, mem, disk, from, Max(mem.role.matchIndex[from], matchIndex));
  }

  lemma RetryKeeps(h: History, n: NodeId, mem: Node, disk: Disk, from: NodeId, o: Outcome)
    requires MemOk(h, n, Server(mem, disk, [])) && Retries(mem, from, o)
    ensures MemOk(h, n, Server(o.node, disk, o.effects))
  {
    assert MatchOk(h, mem, from);
    FailureKeeps(h, n, mem, disk, from, o.node.role.nextIndex[from]);
  }

  lemma FailureKeeps(h: History, n: NodeId, mem: Node, disk: Disk, from: NodeId, k: LogIndex)
    requires MemOk(h, n, Server(mem, disk, [])) && mem.role.Leader? && from in mem.role.nextIndex
      && 1 <= k <= |mem.log| + 1
    ensures MemOk(h, n, Server(mem.(role := mem.role.(nextIndex := mem.role.nextIndex[from := k])), disk, []))
  {
    LoweredCursors(h, mem, from, k);
    LeaderOutputs(h, n, mem, disk, mem.(role := mem.role.(nextIndex := mem.role.nextIndex[from := k])), []);
  }

  lemma SuccessKeeps(h: History, n: NodeId, mem: Node, disk: Disk, from: NodeId, raised: LogIndex)
    requires MemOk(h, n, Server(mem, disk, [])) && ValidConfig(h.config) && mem.role.Leader?
    requires from in mem.role.matchIndex && from in mem.role.nextIndex && raised <= |mem.log|
    requires raised == 0 || ((from, mem.hard.currentTerm) in h.acks && raised <= h.acks[(from, mem.hard.currentTerm)])
    ensures var next :=
      mem.(role := Leader(mem.role.nextIndex[from := raised + 1], mem.role.matchIndex[from := raised]));
      var o := QuorumCommit(next); MemOk(h, n, Server(o.node, disk, o.effects))
  {
    var next := mem.(role := Leader(mem.role.nextIndex[from := raised + 1], mem.role.matchIndex[from := raised]));
    RaisedCursors(h, mem, from, raised, next);
    LeaderOutputs(h, n, mem, disk, next, []);
    QuorumCommitKeeps(h, n, next, disk);
  }

  lemma RaisedCursors(h: History, mem: Node, from: NodeId, raised: LogIndex, next: Node)
    requires mem.role.Leader? && CursorsOk(h, mem) && from in mem.role.matchIndex && from in mem.role.nextIndex
    requires next == mem.(role := Leader(mem.role.nextIndex[from := raised + 1], mem.role.matchIndex[from := raised]))
    requires raised <= |mem.log|
    requires raised == 0 || ((from, mem.hard.currentTerm) in h.acks && raised <= h.acks[(from, mem.hard.currentTerm)])
    ensures CursorsOk(h, next)
  {
    forall p | p in next.role.matchIndex ensures MatchOk(h, next, p) {
      assert p != from ==> MatchOk(h, mem, p);
    }
  }

  lemma LoweredCursors(h: History, mem: Node, from: NodeId, k: LogIndex)
    requires mem.role.Leader? && CursorsOk(h, mem) && from in mem.role.nextIndex && 1 <= k <= |mem.log| + 1
    ensures CursorsOk(h, mem.(role := mem.role.(nextIndex := mem.role.nextIndex[from := k])))
  {
    var next := mem.(role := mem.role.(nextIndex := mem.role.nextIndex[from := k]));
    forall p | p in next.role.matchIndex ensures MatchOk(h, next, p) {
      assert MatchOk(h, mem, p);
    }
  }

  lemma {:induction false} StampOk(commands: seq<Command>, next: LogIndex, term: Term)
    ensures var es := Stamp(commands, next, term);
      |es| == |commands| && forall i :: 0 <= i < |es| ==> es[i].index == next + i && es[i].term == term
  {
    if commands != [] {
      StampOk(commands[1..], next + 1, term);
    }
  }

  lemma {:induction false} AcceptancesOk(h: History, mem: Node, es: seq<Entry>)
    ensures Quiet(Acceptances(es)) && OutsOk(h, mem, Acceptances(es))
  {
    if es != [] {
      AcceptancesOk(h, mem, es[1..]);
    }
  }

  /** The leader after appending a batch, with the commit a self-quorum makes at once. */
  function Proposed(mem: Node, es: seq<Entry>): Outcome {
    var next := mem.(log := mem.log + es);
    if SelfQuorum(mem) then AdvanceCommit(next, LastIndex(next.log)) else Outcome(next, [])
  }

  lemma ProposedOk(h: History, mem: Node, es: seq<Entry>)
    requires mem.role.Leader? && WfLog(mem.log) && TermsAtMost(mem.log, mem.hard.currentTerm) && CursorsOk(h, mem)
    requires mem.lastApplied == mem.commitIndex <= |mem.log|
    requires forall i :: 0 <= i < |es| ==> es[i].index == |mem.log| + 1 + i && es[i].term == mem.hard.currentTerm
    ensures var p := Proposed(mem, es);
      && p.node == mem.(log := mem.log + es, commitIndex := p.node.commitIndex, lastApplied := p.node.commitIndex)
      && WfLog(p.node.log) && CursorsOk(h, p.node)
      && p.node.commitIndex <= |p.node.log| && (p.node.commitIndex == mem.commitIndex || SelfQuorum(p.node))
      && Quiet(p.effects) && OutsOk(h, p.node, p.effects)
  {
    var p := Proposed(mem, es);
    assert WfLog(p.node.log);
    forall q | q in p.node.role.matchIndex ensures MatchOk(h, p.node, q) {
      assert MatchOk(h, mem, q);
    }
    if p.effects != [] {
      ApplyRangeOk(h, p.node, mem.lastApplied, p.node.commitIndex);
    }
  }

  lemma ProposeKeeps(h: History, n: NodeId, mem: Node, disk: Disk, commands: seq<Command>)
    requires MemOk(h, n, Server(mem, disk, []))
    ensures var o := OnClientPropose(mem, commands); MemOk(h, n, Server(o.node, disk, o.effects))
  {
    var o := OnClientPropose(mem, commands);
    if o.node == mem && Quiet(o.effects) && OutsOk(h, mem, o.effects) {
      OutputsKeep(h, n, mem, disk, [], mem, o.effects);
      assert [] + o.effects == o.effects;
    } else {
      var es := Stamp(commands, LastIndex(mem.log) + 1, mem.hard.currentTerm);
      StampOk(commands, LastIndex(mem.log) + 1, mem.hard.currentTerm);
      LeaderProposes(h, n, mem, disk, es);
      assert o
        == Outcome(Proposed(mem, es).node, [PersistLogEntries(None, es)] + Acceptances(es) + Proposed(mem, es).effects);
      assert [PersistLogEntries(None, es)] + (Acceptances(es) + Proposed(mem, es).effects) == o.effects;
    }
  }

  lemma {:induction false} LeaderProposes(h: History, n: NodeId, mem: Node, disk: Disk, es: seq<Entry>)
    requires MemOk(h, n, Server(mem, disk, [])) && mem.role.Leader? && es != []
    requires forall i :: 0 <= i < |es| ==> es[i].index == |mem.log| + 1 + i && es[i].term == mem.hard.currentTerm
    ensures var p := Proposed(mem, es);
      MemOk(h, n, Server(p.node, disk, [PersistLogEntries(None, es)] + (Acceptances(es) + p.effects)))
  {
    var p := Proposed(mem, es);
    ProposedOk(h, mem, es);
    AcceptancesOk(h, p.node, es);
    OutsConcat(h, p.node, Acceptances(es), p.effects);
    LeaderAppendKeeps(h, n, mem, disk, [], p.node, es, Acceptances(es) + p.effects);
    assert [] + [PersistLogEntries(None, es)] == [PersistLogEntries(None, es)];
  }

  // ---------------------------------------------------------------- every input

  lemma HandleKeeps(h: History, n: NodeId, mem: Node, disk: Disk, pre: seq<Effect>, from: NodeId, msg: Message,
                    mayVote: bool, recent: bool)
    requires HistoryOk(h) && DiskOk(h, n, disk) && MemOk(h, n, Server(mem, disk, pre)) && Adoption(pre)
    requires Packet(from, n, msg) in h.net && PacketOk(h, Packet(from, n, msg)) && from != n
    requires MessageTerm(mem, msg) <= mem.hard.currentTerm
    requires pre != [] ==> mem.role.Follower?
    requires msg.RequestVote? ==> msg.candidate == from
    requires msg.AppendEntries? ==> msg.leader == from
    ensures var o := Handle(mem, from, msg, mayVote, recent); MemOk(h, n, Server(o.node, disk, pre + o.effects))
  {
    match msg
    case RequestVote(t, c, li, lt) => RequestVoteKeeps(h, n, mem, disk, pre, from, t, li, lt, mayVote);
    case RequestVoteReply(t, g) => RequestVoteReplyKeeps(h, n, mem, disk, pre, from, t, g);
    case AppendEntries(t, l, pi, pt, es, lc) => AppendEntriesKeeps(h, n, mem, disk, pre, t, l, pi, pt, es, lc);
    case AppendEntriesReply(t, s, m, c) => AppendReplyKeeps(h, n, mem, disk, pre, from, t, s, m, c);
    case PreVote(p, c, cand, li, lt) => PreVoteKeeps(h, n, mem, disk, pre, p, c, cand, li, lt, mayVote, recent);
    case PreVoteReply(t, p, c, g) => PreVoteReplyKeeps(h, n, mem, disk, pre, from, t, p, c, g);
  }

  lemma MessageKeeps(h: History, n: NodeId, mem: Node, disk: Disk, from: NodeId, msg: Message, mayVote: bool,
                     recent: bool)
    requires HistoryOk(h) && DiskOk(h, n, disk) && MemOk(h, n, Server(mem, disk, []))
    requires Packet(from, n, msg) in h.net && PacketOk(h, Packet(from, n, msg))
    ensures var o := OnMessage(mem, from, msg, mayVote, recent); MemOk(h, n, Server(o.node, disk, o.effects))
  {
    if Admissible(mem, from, msg, mayVote) {
      if msg.AppendEntries? && !WellFramed(msg.term, msg.prevIndex, msg.prevTerm, msg.entries) {
        RefusalKeeps(h, n, mem, disk, [], msg.leader, None);
        assert [] + [Refusal(mem, msg.leader, None)] == [Refusal(mem, msg.leader, None)];
      } else {
        AdoptKeeps(h, n, mem, disk, MessageTerm(mem, msg));
        var a := AdoptTerm(mem, MessageTerm(mem, msg));
        HandleKeeps(h, n, a.node, disk, a.effects, from, msg, mayVote, recent);
      }
    }
  }

  lemma {:induction false} TickKeeps(h: History, n: NodeId, mem: Node, disk: Disk)
    requires MemOk(h, n, Server(mem, disk, []))
    ensures var o := BecomeFollower(mem); MemOk(h, n, Server(o.node, disk, o.effects))
    ensures mem.role.Leader? ==> MemOk(h, n, Server(mem, disk, Heartbeats(mem, mem.peers)))
  {
    FollowerKeeps(h, n, mem, disk, [], mem.(role := Follower));
    assert [] + BecomeFollower(mem).effects == BecomeFollower(mem).effects;
    if mem.role.Leader? {
      HeartbeatsOk(h, mem, mem.peers);
      LeaderOutputs(h, n, mem, disk, mem, Heartbeats(mem, mem.peers));
    }
  }

  /** Whatever a node is handed, it keeps its part of the invariant. */
  lemma InputKeeps(h: History, n: NodeId, mem: Node, disk: Disk, input: RaftCore.Input)
    requires HistoryOk(h) && PacketsOk(h) && DiskOk(h, n, disk) && MemOk(h, n, Server(mem, disk, []))
    requires input.Deliver? ==> Packet(input.from, n, input.msg) in h.net
    ensures var o := NodeStep(mem, input); MemOk(h, n, Server(o.node, disk, o.effects))
  {
    match input
    case Timeout => StartPreVoteKeeps(h, n, mem, disk);
    case StepDown => TickKeeps(h, n, mem, disk);
    case Heartbeat => TickKeeps(h, n, mem, disk);
    case Propose(commands) => ProposeKeeps(h, n, mem, disk, commands);
    case Deliver(from, msg, mayVote, recent) => MessageKeeps(h, n, mem, disk, from, msg, mayVote, recent);
  }
}
