/** The shapes of a step's effect list: hard-state saves and role changes, then at most one
    log append, then only sends, applies and client answers. */
module RaftQueues {
  import opened Types
  import opened RaftCore
  import opened RaftCluster
  import opened RaftInvariants

  ghost predicate Preamble(pre: seq<Effect>) {
    forall i :: 0 <= i < |pre| ==> pre[i].PersistHardState? || pre[i].RoleChanged?
  }

  /** A preamble that only adopts a term. */
  ghost predicate Adoption(pre: seq<Effect>) {
    Preamble(pre) && forall i :: 0 <= i < |pre| && pre[i].PersistHardState? ==> pre[i].hard.votedFor.None?
  }

  ghost predicate Quiet(outs: seq<Effect>) {
    forall i :: 0 <= i < |outs| ==> !IsPersist(outs[i])
  }

  lemma {:induction false} QuietQueue(h: History, mem: Node, outs: seq<Effect>)
    requires Quiet(outs)
    ensures !HasHard(outs) && !HasLog(outs) && Ordered(outs)
    ensures forall d, m, self :: HardsOk(d, m, self, outs) <==> d == m
    ensures forall d, m :: LogsOk(d, m, outs) <==> d == m
    ensures PendingLogOk(h, mem, outs)
  {
    if outs != [] {
      QuietQueue(h, mem, outs[1..]);
    }
  }

  /** Trailing outputs change nothing about the persists before them. */
  lemma {:induction false} OutputsQueue(h: History, mem: Node, pre: seq<Effect>, outs: seq<Effect>)
    requires Preamble(pre) && Quiet(outs)
    ensures HasHard(pre + outs) == HasHard(pre) && !HasLog(pre) && !HasLog(pre + outs) && Ordered(pre + outs)
      && Ordered(pre)
    ensures forall d, m, self :: HardsOk(d, m, self, pre + outs) <==> HardsOk(d, m, self, pre)
    ensures forall d, m :: LogsOk(d, m, pre + outs) <==> d == m
    ensures forall d, m :: LogsOk(d, m, pre) <==> d == m
    ensures PendingLogOk(h, mem, pre + outs)
  {
    if pre == [] {
      assert pre + outs == outs;
      QuietQueue(h, mem, outs);
    } else {
      OutputsQueue(h, mem, pre[1..], outs);
      assert (pre + outs)[1..] == pre[1..] + outs;
    }
  }

  lemma {:induction false} AppendQueue(h: History, mem: Node, pre: seq<Effect>, from: Option<LogIndex>, es: seq<Entry>,
                                       outs: seq<Effect>)
    requires Preamble(pre) && Quiet(outs)
    ensures var todo := pre + [PersistLogEntries(from, es)] + outs;
      && HasHard(todo) == HasHard(pre) && HasLog(todo) && Ordered(todo)
      && (forall d, m, self :: HardsOk(d, m, self, todo) <==> HardsOk(d, m, self, pre))
      && (forall d, m :: LogsOk(d, m, todo) <==> (es != [] && Cut(d, from) + es == m && CutAtConflict(d, m, from)))
      && (PendingLogOk(h, mem, todo) <==> PendingLogOk(h, mem, [PersistLogEntries(from, es)]))
  {
    var todo := pre + [PersistLogEntries(from, es)] + outs;
    if pre == [] {
      assert todo[1..] == outs && todo[0] == PersistLogEntries(from, es);
      QuietQueue(h, mem, outs);
    } else {
      AppendQueue(h, mem, pre[1..], from, es, outs);
      assert todo[1..] == pre[1..] + [PersistLogEntries(from, es)] + outs && todo[0] == pre[0];
    }
  }

  /** A vote queued behind an adoption (or nothing). */
  lemma {:induction false} VoteQueue(h: History, mem: Node, pre: seq<Effect>, disk: HardState, old_: HardState,
                                     hard: HardState, self: NodeId, outs: seq<Effect>)
    requires Adoption(pre) && Quiet(outs)
    requires HardsOk(disk, old_, self, pre)
    requires hard.currentTerm == old_.currentTerm && hard.votedFor.Some? && hard.votedFor != Some(self)
    requires old_.votedFor.None? || old_ == hard
    ensures var todo := pre + [PersistHardState(hard)] + outs;
      && HasHard(todo) && !HasLog(todo) && Ordered(todo) && HardsOk(disk, hard, self, todo)
      && (forall d, m :: LogsOk(d, m, todo) <==> d == m) && PendingLogOk(h, mem, todo)
    decreases |pre|
  {
    var todo := pre + [PersistHardState(hard)] + outs;
    if pre == [] {
      assert todo[1..] == outs && todo[0] == PersistHardState(hard);
      QuietQueue(h, mem, outs);
    } else {
      assert todo[1..] == pre[1..] + [PersistHardState(hard)] + outs && todo[0] == pre[0];
      VoteQueue(h, mem, pre[1..], if pre[0].PersistHardState? then pre[0].hard else disk, old_, hard, self, outs);
    }
  }

  /** The queue of an election start: a self-vote in a new term. */
  lemma {:induction false} SelfVoteQueue(h: History, mem: Node, disk: HardState, hard: HardState, self: NodeId,
                                         outs: seq<Effect>)
    requires Quiet(outs) && disk.currentTerm < hard.currentTerm && hard.votedFor.Some?
    ensures var todo := [PersistHardState(hard)] + outs;
      && HasHard(todo) && !HasLog(todo) && Ordered(todo) && HardsOk(disk, hard, self, todo)
      && (forall d, m :: LogsOk(d, m, todo) <==> d == m) && PendingLogOk(h, mem, todo)
  {
    assert ([PersistHardState(hard)] + outs)[1..] == outs;
    QuietQueue(h, mem, outs);
  }

  lemma OutsConcat(h: History, mem: Node, a: seq<Effect>, b: seq<Effect>)
    requires OutsOk(h, mem, a) && OutsOk(h, mem, b)
    ensures OutsOk(h, mem, a + b)
  {
  }

  lemma PreambleOuts(h: History, mem: Node, pre: seq<Effect>)
    requires Preamble(pre)
    ensures OutsOk(h, mem, pre)
  {
  }
}
