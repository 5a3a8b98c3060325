/** A leader brings a follower's log in line with its own, whatever it was, in finitely many exchanges of one
    batch and one answer; and commits once a quorum is in line. */
module RaftCatchUp {
  import opened Types
  import opened RaftCore
  import opened RaftCluster
  import opened RaftInvariants
  import opened RaftQuorums
  import opened RaftTheorems
  import opened RaftReplication
  import opened RaftSafety
  import opened RaftGuarantees
  import opened RaftCampaigns
  import opened RaftAnswers
  import opened RaftProgress

  // ---------------------------------------------------------------- one exchange

  /** The batch a leader owes a peer: at most 16 entries from the peer's cursor on, and what precedes them. */
  function Batch(ld: Node, p: NodeId): Message
    requires ld.role.Leader? && p in ld.role.nextIndex && 0 < ld.role.nextIndex[p] <= |ld.log| + 1
  {
    var prev := ld.role.nextIndex[p] - 1;
    AppendEntries(ld.hard.currentTerm, ld.id, prev, if prev == 0 then 0 else ld.log[prev - 1].term,
                  ld.log[prev..Min(prev + 16, |ld.log|)], ld.commitIndex)
  }

  lemma {:induction false} HeartbeatReaches(ld: Node, peers: seq<NodeId>, p: NodeId)
    requires ld.role.Leader? && p in peers && p in ld.role.nextIndex && 0 < ld.role.nextIndex[p] <= |ld.log| + 1
    ensures Send(p, Batch(ld, p)) in Heartbeats(ld, peers)
    decreases |peers|
  {
    if peers[0] != p {
      assert p in peers[1..];
      HeartbeatReaches(ld, peers[1..], p);
    } else {
      assert AppendFor(ld, p) == Batch(ld, p);
    }
  }

  /** Every heartbeat sends every peer its batch. */
  lemma HeartbeatSends(ld: Node, p: NodeId)
    requires ld.role.Leader? && p in ld.peers && p in ld.role.nextIndex && 0 < ld.role.nextIndex[p] <= |ld.log| + 1
    ensures NodeStep(ld, Heartbeat).node == ld && Send(p, Batch(ld, p)) in NodeStep(ld, Heartbeat).effects
  {
    HeartbeatReaches(ld, ld.peers, p);
  }

  datatype Pair = Pair(leader: Node, follower: Node)

  /** The batch reaches the follower and its answer the leader. */
  function Exchange(x: Pair): Pair
    requires x.leader.role.Leader? && x.follower.id in x.leader.role.nextIndex
    requires 0 < x.leader.role.nextIndex[x.follower.id] <= |x.leader.log| + 1
  {
    var msg := Batch(x.leader, x.follower.id);
    var answer := AnswerTo(x.follower, x.leader.id, msg);
    Pair(if answer.Some? then NodeStep(x.leader, Deliver(x.follower.id, answer.value, true, false)).node else x.leader,
         NodeStep(x.follower, Deliver(x.leader.id, msg, true, false)).node)
  }

  /** A well-formed log, written by the leaders of `terms`, no newer than the node's term. */
  ghost predicate LogOk(terms: map<Term, TermRecord>, node: Node) {
    && WfLog(node.log) && TermsAtMost(node.log, node.hard.currentTerm) && Consistent(terms, node.log)
    && node.lastApplied <= node.commitIndex <= |node.log|
  }

  predicate Agree(a: seq<Entry>, b: seq<Entry>, n: nat) {
    n <= |a| && n <= |b| && a[..n] == b[..n]
  }

  /** The leader replicates to the follower, which knows no newer term. */
  predicate Linked(ld: Node, f: Node) {
    && ld.role.Leader? && f.id != ld.id && f.id in ld.peers && f.id in ld.role.nextIndex && f.id in ld.role.matchIndex
    && IsVoter(f.config, ld.id) && f.hard.currentTerm <= ld.hard.currentTerm && |ld.log| <= U64_MAX
    && ld.role.matchIndex[f.id] < ld.role.nextIndex[f.id] <= |ld.log| + 1
  }

  /** What holds in every run between a leader and a node that knows no newer term: both logs come from the
      logs that leaders wrote, the cursors are within the log, what the leader believes confirmed is there, and
      what the follower has committed the leader has. */
  ghost predicate Compatible(terms: map<Term, TermRecord>, x: Pair) {
    && Linked(x.leader, x.follower) && LogOk(terms, x.leader) && LogOk(terms, x.follower)
    && Agree(x.leader.log, x.follower.log, x.leader.role.matchIndex[x.follower.id])
    && Agree(x.leader.log, x.follower.log, x.follower.commitIndex)
  }

  function Confirmed(x: Pair): LogIndex
    requires x.leader.role.Leader? && x.follower.id in x.leader.role.matchIndex
  {
    x.leader.role.matchIndex[x.follower.id]
  }

  function Cursor(x: Pair): LogIndex
    requires x.leader.role.Leader? && x.follower.id in x.leader.role.nextIndex
  {
    x.leader.role.nextIndex[x.follower.id]
  }

  /** The follower holds what precedes the batch. */
  predicate Anchored(x: Pair)
    requires x.leader.role.Leader? && x.follower.id in x.leader.role.nextIndex && Cursor(x) > 0
  {
    var prev := Cursor(x) - 1;
    LogTerm(x.follower.log, prev) == LogTerm(x.leader.log, prev)
  }

  /** How far the batch reaches. */
  function Reach(x: Pair): LogIndex
    requires x.leader.role.Leader? && x.follower.id in x.leader.role.nextIndex && Cursor(x) > 0
  {
    Min(Cursor(x) + 15, |x.leader.log|)
  }

  lemma SliceFramed(l: seq<Entry>, term: Term, prev: nat, n: nat)
    requires WfLog(l) && TermsAtMost(l, term) && prev <= n <= |l| <= U64_MAX
    ensures WellFramed(term, prev, TermAt(l, prev), l[prev..n])
  {
    var es := l[prev..n];
    forall i | 0 <= i < |es|
      ensures es[i].index == prev + 1 + i && es[i].term <= term
      ensures (if i == 0 then TermAt(l, prev) else es[i - 1].term) <= es[i].term
    {
      assert es[i] == l[prev + i];
    }
  }

  lemma BatchFramed(terms: map<Term, TermRecord>, x: Pair)
    requires Compatible(terms, x)
    ensures var msg := Batch(x.leader, x.follower.id);
      && WellFramed(msg.term, msg.prevIndex, msg.prevTerm, msg.entries)
      && msg.prevTerm == TermAt(x.leader.log, msg.prevIndex)
      && msg.entries == x.leader.log[msg.prevIndex..Reach(x)] && msg.prevIndex + |msg.entries| == Reach(x)
  {
    SliceFramed(x.leader.log, x.leader.hard.currentTerm, Cursor(x) - 1, Reach(x));
  }

  /** The follower after it has adopted the leader's term and stepped down. */
  function Adopted(x: Pair): Node {
    AdoptTerm(x.follower, x.leader.hard.currentTerm).node.(role := Follower)
  }

  /** The follower's own handling of the batch. */
  function Handled(x: Pair): Outcome
    requires x.leader.role.Leader? && x.follower.id in x.leader.role.nextIndex
    requires 0 < Cursor(x) <= |x.leader.log| + 1
  {
    var msg := Batch(x.leader, x.follower.id);
    FollowerAppend(Adopted(x), msg.term, x.leader.id, msg.prevIndex, msg.prevTerm, msg.entries, msg.leaderCommit)
  }

  /** How a well-framed append of at least the node's term is dispatched: adopt the term, step down, handle. */
  lemma AppendDispatched(f: Node, from: NodeId, msg: Message)
    requires msg.AppendEntries? && WellFramed(msg.term, msg.prevIndex, msg.prevTerm, msg.entries)
    requires from != f.id && IsVoter(f.config, from) && msg.leader == from && f.hard.currentTerm <= msg.term
    ensures var o := NodeStep(f, Deliver(from, msg, true, false)); var adopted := AdoptTerm(f, msg.term);
      var g := FollowerAppend(adopted.node.(role := Follower), msg.term, from, msg.prevIndex, msg.prevTerm, msg.entries,
                              msg.leaderCommit);
      o.node == g.node && o.effects == adopted.effects + BecomeFollower(adopted.node).effects + g.effects
  {
    var adopted := AdoptTerm(f, msg.term);
    AppendShape(adopted.node, adopted.effects, msg.term, from, msg.prevIndex, msg.prevTerm, msg.entries,
                msg.leaderCommit);
  }

  lemma Answers(mem: Node, term: Term, leader: NodeId, prev: LogIndex, prevTerm: Term, es: seq<Entry>, lc: LogIndex)
    ensures var effects := FollowerAppend(mem, term, leader, prev, prevTerm, es, lc).effects;
      && effects != [] && effects[|effects| - 1].Send? && effects[|effects| - 1].to == leader
  {
  }

  lemma Dispatched(terms: map<Term, TermRecord>, x: Pair)
    requires Compatible(terms, x)
    ensures var effects := Handled(x).effects;
      && effects != [] && effects[|effects| - 1].Send? && Exchange(x).follower == Handled(x).node
      && AnswerTo(x.follower, x.leader.id, Batch(x.leader, x.follower.id)) == Some(effects[|effects| - 1].msg)
  {
    BatchFramed(terms, x);
    var msg := Batch(x.leader, x.follower.id);
    AppendDispatched(x.follower, x.leader.id, msg);
    Answers(Adopted(x), msg.term, x.leader.id, msg.prevIndex, msg.prevTerm, msg.entries, msg.leaderCommit);
  }

  lemma AgreedTerm(a: seq<Entry>, b: seq<Entry>, n: nat)
    requires Agree(a, b, n)
    ensures LogTerm(a, n) == LogTerm(b, n)
  {
    assert n > 0 ==> a[n - 1] == a[..n][n - 1] && b[n - 1] == b[..n][n - 1];
  }

  /** Accepting a leader's batch that is anchored in the log. */
  lemma BatchTaken(terms: map<Term, TermRecord>, mem: Node, l: seq<Entry>, prev: nat, n: nat, lc: LogIndex)
    requires LogOk(terms, mem) && WfLog(l) && Consistent(terms, l) && prev <= n <= |l|
    requires Agree(l, mem.log, prev) && Agree(l, mem.log, mem.commitIndex)
    ensures var es := l[prev..n]; var now := Accepted(mem, prev, es, lc).node;
      && Agree(l, now.log, n) && (now.log == mem.log || now.log == l[..n])
      && now.commitIndex == Max(mem.commitIndex, Min(lc, n)) && now.lastApplied <= now.commitIndex <= |now.log|
      && now == mem.(role := Follower, log := now.log, commitIndex := now.commitIndex, lastApplied := now.lastApplied)
      && !exists i ::
         0 <= i < |es| && es[i].index <= mem.commitIndex && LogTerm(mem.log, es[i].index) != Some(es[i].term)
  {
    var es := l[prev..n];
    forall i | 0 <= i < |es| && es[i].index <= mem.commitIndex
      ensures LogTerm(mem.log, es[i].index) == Some(es[i].term)
    {
      assert es[i] == l[prev + i] == l[..mem.commitIndex][prev + i];
    }
    WalkMatches(terms, mem.log, l, prev, es);
    var w := WalkEntries(Walk(mem.log, None, []), es);
    MergeKeepsCommitted(mem, l, prev, es, w);
    assert w.appended == [] ==> w.log + w.appended == mem.log;
  }

  lemma AcceptsAppend(mem: Node, term: Term, leader: NodeId, prev: LogIndex, prevTerm: Term, es: seq<Entry>,
                      lc: LogIndex)
    requires LogTerm(mem.log, prev) == Some(prevTerm)
    requires !exists i ::
      0 <= i < |es| && es[i].index <= mem.commitIndex && LogTerm(mem.log, es[i].index) != Some(es[i].term)
    ensures var o := FollowerAppend(mem, term, leader, prev, prevTerm, es, lc);
      && o.node == Accepted(mem, prev, es, lc).node && o.effects != []
      && o.effects[|o.effects| - 1] == Send(leader, AppendEntriesReply(mem.hard.currentTerm, true, prev + |es|, None))
  {
  }

  /** What the follower `f` is after taking the leader's log up to `n`. */
  ghost predicate Took(ld: Node, f: Node, now: Node, n: LogIndex) {
    && Agree(ld.log, now.log, n) && (now.log == f.log || now.log == ld.log[..n])
    && now.commitIndex == Max(f.commitIndex, Min(ld.commitIndex, n)) && now.lastApplied <= now.commitIndex <= |now.log|
    && now.hard.currentTerm == ld.hard.currentTerm && now.id == f.id && now.config == f.config
  }

  lemma BatchAnswered(terms: map<Term, TermRecord>, ld: Node, mem: Node, prev: nat, n: nat)
    requires LogOk(terms, mem) && WfLog(ld.log) && Consistent(terms, ld.log) && prev <= n <= |ld.log|
    requires Agree(ld.log, mem.log, prev) && Agree(ld.log, mem.log, mem.commitIndex)
    requires mem.hard.currentTerm == ld.hard.currentTerm
    ensures var o :=
      FollowerAppend(mem, ld.hard.currentTerm, ld.id, prev, TermAt(ld.log, prev), ld.log[prev..n], ld.commitIndex);
      && Took(ld, mem, o.node, n) && o.effects != []
      && o.effects[|o.effects| - 1] == Send(ld.id, AppendEntriesReply(ld.hard.currentTerm, true, n, None))
  {
    AgreedTerm(ld.log, mem.log, prev);
    BatchTaken(terms, mem, ld.log, prev, n, ld.commitIndex);
    AcceptsAppend(mem, ld.hard.currentTerm, ld.id, prev, TermAt(ld.log, prev), ld.log[prev..n], ld.commitIndex);
  }

  lemma HandledTakes(terms: map<Term, TermRecord>, x: Pair)
    requires Compatible(terms, x) && Anchored(x)
    ensures var o := Handled(x);
      && Took(x.leader, x.follower, o.node, Reach(x)) && o.effects != []
      && o.effects[|o.effects| - 1]
         == Send(x.leader.id, AppendEntriesReply(x.leader.hard.currentTerm, true, Reach(x), None))
  {
    BatchFramed(terms, x);
    AnchorMatches(terms, x.follower.log, x.leader.log, Cursor(x) - 1);
    BatchAnswered(terms, x.leader, Adopted(x), Cursor(x) - 1, Reach(x));
  }

  /** A follower that holds what precedes the batch takes it, and says so. */
  lemma AnchoredTakes(terms: map<Term, TermRecord>, x: Pair)
    requires Compatible(terms, x) && Anchored(x)
    ensures Took(x.leader, x.follower, Exchange(x).follower, Reach(x))
    ensures AnswerTo(x.follower, x.leader.id, Batch(x.leader, x.follower.id))
      == Some(AppendEntriesReply(x.leader.hard.currentTerm, true, Reach(x), None))
  {
    Dispatched(terms, x);
    HandledTakes(terms, x);
  }

  // ---------------------------------------------------------------- refusals

  lemma {:induction false} FirstIndexExact(log: seq<Entry>, term: Term, from: nat)
    requires from <= |log|
    ensures var i := FirstIndexAtLeast(log, term, from);
      && (forall j :: from <= j < i - 1 ==> log[j].term < term) && (i <= |log| ==> log[i - 1].term >= term)
    decreases |log| - from
  {
    if from < |log| && log[from].term < term { FirstIndexExact(log, term, from + 1); }
  }

  /** What a refusal says: of a shorter log its end; otherwise the term held at the anchor and the first entry of
      that term, in a log whose terms never fall. */
  lemma HintExact(g: seq<Entry>, prev: LogIndex)
    requires WfLog(g) && 0 < prev && (prev <= |g| ==> g[prev - 1].term > 0)
    ensures var hint := ConflictHintFor(g, prev);
      if prev > |g| then hint == Some(ConflictHint(prev, None, |g| + 1))
      else
        && hint.Some? && hint.value.rejectedIndex == prev && hint.value.term == Some(g[prev - 1].term)
        && 0 < hint.value.firstIndex <= prev && g[hint.value.firstIndex - 1].term == g[prev - 1].term
        && forall j :: 0 <= j < hint.value.firstIndex - 1 ==> g[j].term < g[prev - 1].term
  {
    if prev <= |g| {
      var t := g[prev - 1].term;
      FirstIndexExact(g, t, 0);
      var i := FirstIndexAtLeast(g, t, 0);
      TermsNeverFall(g, i - 1, prev - 1);
    }
  }

  lemma {:induction false} TermsNeverFall(g: seq<Entry>, i: nat, j: nat)
    requires WfLog(g) && i <= j < |g|
    ensures g[i].term <= g[j].term
  {
    if i < j { TermsNeverFall(g, i, j - 1); }
  }

  lemma {:induction false} LastInTermExact(log: seq<Entry>, term: Term, upto: nat)
    requires upto <= |log| && term > 0
    ensures var r := LastIndexInTerm(log, term, upto);
      if r.None? then forall j :: 0 <= j < upto ==> log[j].term != term
      else && 0 < r.value <= upto && log[r.value - 1].term == term
           && forall j :: r.value <= j < upto ==> log[j].term != term
  {
    if upto > 0 && log[upto - 1].term != term { LastInTermExact(log, term, upto - 1); }
  }

  /** Where the leader tries next: just past its own last entry of the term the follower named, if it has one,
      else where the follower's entries of that term begin, or where its log ends. */
  ghost predicate RetriesAt(log: seq<Entry>, hint: Option<ConflictHint>, holds: LogIndex, target: LogIndex) {
    if hint.None? then target == holds + 1
    else if hint.value.term.Some? && exists j :: 0 <= j < |log| && log[j].term == hint.value.term.value
    then 0 < target - 1 <= |log| && log[target - 2].term == hint.value.term.value
         && forall j :: target - 1 <= j < |log| ==> log[j].term != hint.value.term.value
    else target == hint.value.firstIndex
  }

  /** The hint names the refused anchor, and the first entry of the term held there or the end of a shorter log. */
  lemma HintValid(l: seq<Entry>, g: seq<Entry>, prev: LogIndex, term: Term)
    requires 0 < prev <= |l| && LogTerm(g, prev) != LogTerm(l, prev) && TermsAtMost(g, term)
    ensures var hint := ConflictHintFor(g, prev);
      hint.Some? ==> ValidHint(l, hint.value, term, false, |g|) && hint.value.rejectedIndex == prev
  {
    if prev <= |g| { FirstIndexExact(g, g[prev - 1].term, 0); }
  }

  lemma HandledRefuses(terms: map<Term, TermRecord>, x: Pair)
    requires Compatible(terms, x) && !Anchored(x)
    ensures Handled(x) == Outcome(Adopted(x), [Send(x.leader.id,
      AppendEntriesReply(x.leader.hard.currentTerm, false, |x.follower.log|,
                         ConflictHintFor(x.follower.log, Cursor(x) - 1)))])
  {
    BatchFramed(terms, x);
  }

  /** A follower that lacks what precedes the batch keeps its log, and says where it differs. */
  lemma UnanchoredRefuses(terms: map<Term, TermRecord>, x: Pair)
    requires Compatible(terms, x) && !Anchored(x)
    ensures Exchange(x).follower == Adopted(x)
    ensures AnswerTo(x.follower, x.leader.id, Batch(x.leader, x.follower.id))
      == Some(AppendEntriesReply(x.leader.hard.currentTerm, false, |x.follower.log|,
                                 ConflictHintFor(x.follower.log, Cursor(x) - 1)))
  {
    Dispatched(terms, x);
    HandledRefuses(terms, x);
  }

  lemma RefusedHint(terms: map<Term, TermRecord>, x: Pair)
    requires Compatible(terms, x) && !Anchored(x)
    ensures var prev := Cursor(x) - 1; var hint := ConflictHintFor(x.follower.log, prev);
      && Confirmed(x) < prev
      && (hint.Some? ==> hint.value.rejectedIndex == prev)
      && (hint.Some? ==> ValidHint(x.leader.log, hint.value, x.leader.hard.currentTerm, false, |x.follower.log|))
  {
    AgreedTerm(x.leader.log, x.follower.log, Confirmed(x));
    HintValid(x.leader.log, x.follower.log, Cursor(x) - 1, x.leader.hard.currentTerm);
  }

  // ---------------------------------------------------------------- progress

  /** What one exchange achieves. */
  ghost predicate Advanced(x: Pair, y: Pair)
    requires x.leader.role.Leader? && x.follower.id in x.leader.role.nextIndex
      && x.follower.id in x.leader.role.matchIndex
  {
    && y.follower.id == x.follower.id && y.leader.role.Leader? && x.follower.id in y.leader.role.nextIndex
    && x.follower.id in y.leader.role.matchIndex
    && y.leader
       == x.leader.(role := y.leader.role, commitIndex := y.leader.commitIndex, lastApplied := y.leader.lastApplied)
    && y.leader.role.nextIndex == x.leader.role.nextIndex[x.follower.id := Cursor(y)]
    && y.leader.role.matchIndex == x.leader.role.matchIndex[x.follower.id := Confirmed(y)]
    && y.leader.commitIndex >= x.leader.commitIndex
    && (Confirmed(y) > Confirmed(x)
        || (Confirmed(y) == Confirmed(x) && (Cursor(y) < Cursor(x) || Confirmed(y) == |x.leader.log|)))
  }

  /** Unless the follower is in line already, one exchange confirms more of the log, or moves the cursor back
      towards what is confirmed; and what holds between the two still holds. */
  lemma ExchangeAdvances(terms: map<Term, TermRecord>, x: Pair)
    requires Compatible(terms, x)
    ensures Compatible(terms, Exchange(x)) && Advanced(x, Exchange(x))
    ensures Anchored(x) ==> CommittedExactly(x.leader, Outcome(Exchange(x).leader, LeaderEffects(x)))
  {
    if Anchored(x) { TakenAdvances(terms, x); } else { RefusedAdvances(terms, x); }
  }

  /** What the leader does about the answer. */
  function LeaderEffects(x: Pair): seq<Effect>
    requires x.leader.role.Leader? && x.follower.id in x.leader.role.nextIndex && 0 < Cursor(x) <= |x.leader.log| + 1
  {
    var answer := AnswerTo(x.follower, x.leader.id, Batch(x.leader, x.follower.id));
    if answer.None? then [] else NodeStep(x.leader, Deliver(x.follower.id, answer.value, true, false)).effects
  }

  lemma ReplyDispatched(ld: Node, p: NodeId, success: bool, n: LogIndex, conflict: Option<ConflictHint>)
    requires p in ld.peers && p != ld.id
    ensures NodeStep(ld, Deliver(p, AppendEntriesReply(ld.hard.currentTerm, success, n, conflict), true, false))
      == OnAppendEntriesReply(ld, p, ld.hard.currentTerm, success, n, conflict)
  {
    var o := OnAppendEntriesReply(ld, p, ld.hard.currentTerm, success, n, conflict);
    assert [] + o.effects == o.effects;
  }

  /** The leader hears of a batch taken. */
  lemma LeaderHears(ld: Node, p: NodeId, n: LogIndex)
    requires ld.role.Leader? && p in ld.peers && p != ld.id && p in ld.role.nextIndex && p in ld.role.matchIndex
    requires ld.lastApplied <= ld.commitIndex <= |ld.log| && ld.role.matchIndex[p] <= n <= |ld.log|
    ensures var o := NodeStep(ld, Deliver(p, AppendEntriesReply(ld.hard.currentTerm, true, n, None), true, false));
      && CommittedExactly(ld, o) && o.node.role.matchIndex == ld.role.matchIndex[p := n]
      && o.node.role.nextIndex == ld.role.nextIndex[p := n + 1]
  {
    CommitExact(ld, p, ld.hard.currentTerm, n, None);
    ReplyDispatched(ld, p, true, n, None);
  }

  /** What the leader makes of the answer to a batch taken. */
  lemma HeardTaken(terms: map<Term, TermRecord>, x: Pair)
    requires Compatible(terms, x) && Anchored(x)
    ensures CommittedExactly(x.leader, Outcome(Exchange(x).leader, LeaderEffects(x)))
    ensures Exchange(x).leader.role.matchIndex == x.leader.role.matchIndex[x.follower.id := Reach(x)]
    ensures Exchange(x).leader.role.nextIndex == x.leader.role.nextIndex[x.follower.id := Reach(x) + 1]
  {
    AnchoredTakes(terms, x);
    LeaderHears(x.leader, x.follower.id, Reach(x));
  }

  lemma TakenAdvanced(terms: map<Term, TermRecord>, x: Pair, y: Pair, effects: seq<Effect>)
    requires Compatible(terms, x) && y.follower.id == x.follower.id
      && CommittedExactly(x.leader, Outcome(y.leader, effects))
    requires y.leader.role.matchIndex == x.leader.role.matchIndex[x.follower.id := Reach(x)]
    requires y.leader.role.nextIndex == x.leader.role.nextIndex[x.follower.id := Reach(x) + 1]
    ensures Advanced(x, y) && Confirmed(y) == Reach(x)
  {
  }

  lemma TakenAdvances(terms: map<Term, TermRecord>, x: Pair)
    requires Compatible(terms, x) && Anchored(x)
    ensures Compatible(terms, Exchange(x)) && Advanced(x, Exchange(x)) && Confirmed(Exchange(x)) == Reach(x)
    ensures CommittedExactly(x.leader, Outcome(Exchange(x).leader, LeaderEffects(x)))
  {
    AnchoredTakes(terms, x);
    HeardTaken(terms, x);
    TakenCompatible(terms, x, Exchange(x), LeaderEffects(x));
    TakenAdvanced(terms, x, Exchange(x), LeaderEffects(x));
  }

  lemma PrefixLogOk(terms: map<Term, TermRecord>, l: seq<Entry>, n: nat)
    requires WfLog(l) && Consistent(terms, l) && n <= |l|
    ensures WfLog(l[..n]) && Consistent(terms, l[..n])
  {
    forall i | 0 <= i < n ensures Sourced(terms, l[..n], i) {
      assert Sourced(terms, l, i) && l[..n][..i + 1] == l[..i + 1];
    }
  }

  lemma AgreeLess(a: seq<Entry>, b: seq<Entry>, n: nat, m: nat)
    requires Agree(a, b, n) && m <= n
    ensures Agree(a, b, m)
  {
    assert a[..m] == a[..n][..m] && b[..m] == b[..n][..m];
  }

  /** A follower's log after a batch is still well-formed and agrees with the leader's up to both marks. */
  lemma TakenLogOk(terms: map<Term, TermRecord>, ld: Node, f: Node, now: Node, n: nat)
    requires LogOk(terms, ld) && LogOk(terms, f) && Agree(ld.log, f.log, f.commitIndex)
    requires Took(ld, f, now, n) && f.hard.currentTerm <= ld.hard.currentTerm
    ensures LogOk(terms, now) && Agree(ld.log, now.log, now.commitIndex)
  {
    PrefixLogOk(terms, ld.log, n);
    if now.commitIndex <= n { AgreeLess(ld.log, now.log, n, now.commitIndex); }
  }

  lemma TakenCompatible(terms: map<Term, TermRecord>, x: Pair, y: Pair, effects: seq<Effect>)
    requires Compatible(terms, x) && Took(x.leader, x.follower, y.follower, Reach(x))
    requires CommittedExactly(x.leader, Outcome(y.leader, effects))
    requires y.leader.role.matchIndex == x.leader.role.matchIndex[x.follower.id := Reach(x)]
    requires y.leader.role.nextIndex == x.leader.role.nextIndex[x.follower.id := Reach(x) + 1]
    ensures Compatible(terms, y)
  {
    TakenLogOk(terms, x.leader, x.follower, y.follower, Reach(x));
  }

  /** The leader hears of a refusal of what it sent: the cursor goes back, never to what is confirmed. */
  lemma LeaderRetries(ld: Node, p: NodeId, holds: LogIndex, hint: Option<ConflictHint>)
    requires ld.role.Leader? && p in ld.peers && p != ld.id && p in ld.role.nextIndex && p in ld.role.matchIndex
    requires ld.role.matchIndex[p] + 1 < ld.role.nextIndex[p]
    requires hint.Some? ==> ValidHint(ld.log, hint.value, ld.hard.currentTerm, false, holds)
                            && hint.value.rejectedIndex == ld.role.nextIndex[p] - 1
    ensures var now :=
      NodeStep(ld, Deliver(p, AppendEntriesReply(ld.hard.currentTerm, false, holds, hint), true, false)).node;
      && now.role.Leader? && now == ld.(role := now.role) && now.role.matchIndex == ld.role.matchIndex
      && now.role.nextIndex.Keys == ld.role.nextIndex.Keys
      && ld.role.matchIndex[p] < now.role.nextIndex[p] < ld.role.nextIndex[p]
      && now.role.nextIndex == ld.role.nextIndex[p := now.role.nextIndex[p]]
      && exists target ::
           && RetriesAt(ld.log, hint, holds, target)
           && now.role.nextIndex[p] == Max(Min(target, ld.role.nextIndex[p] - 1), ld.role.matchIndex[p] + 1)
  {
    var named := hint.Some? && hint.value.term.Some?;
    var mine := if named then LastIndexInTerm(ld.log, hint.value.term.value, |ld.log|) else None;
    if named { LastInTermExact(ld.log, hint.value.term.value, |ld.log|); }
    var target := if hint.None? then holds + 1 else if mine.Some? then mine.value + 1 else hint.value.firstIndex;
    assert RetriesAt(ld.log, hint, holds, target);
  }

  lemma RefusedAdvances(terms: map<Term, TermRecord>, x: Pair)
    requires Compatible(terms, x) && !Anchored(x)
    ensures Compatible(terms, Exchange(x)) && Advanced(x, Exchange(x)) && Confirmed(Exchange(x)) == Confirmed(x)
  {
    UnanchoredRefuses(terms, x);
    RefusedHint(terms, x);
    LeaderRetries(x.leader, x.follower.id, |x.follower.log|, ConflictHintFor(x.follower.log, Cursor(x) - 1));
  }

  // ---------------------------------------------------------------- in line

  /** Nothing more of the leader's own term can be committed on what it knows. */
  ghost predicate CommitDone(ld: Node) {
    ld.role.Leader? && forall m :: ld.commitIndex < m <= |ld.log| && ld.log[m - 1].term == ld.hard.currentTerm ==>
      !HasQuorum(ld.config, Having(ld, m))
  }

  /** The same leader with other knowledge of one peer, and perhaps a higher commit index. */
  ghost predicate SameButFor(ld: Node, now: Node, p: NodeId) {
    && ld.role.Leader? && now.role.Leader? && p in now.role.nextIndex && p in now.role.matchIndex
    && now == ld.(role := now.role, commitIndex := now.commitIndex, lastApplied := now.lastApplied)
    && now.role.nextIndex == ld.role.nextIndex[p := now.role.nextIndex[p]]
    && now.role.matchIndex == ld.role.matchIndex[p := now.role.matchIndex[p]]
    && ld.commitIndex <= now.commitIndex && now.lastApplied <= now.commitIndex <= |now.log|
  }

  lemma SettledDone(terms: map<Term, TermRecord>, x: Pair)
    requires Compatible(terms, x)
    ensures Compatible(terms, Exchange(x)) && SameButFor(x.leader, Exchange(x).leader, x.follower.id)
    ensures Exchange(x).follower.id == x.follower.id
    ensures Confirmed(Exchange(x)) == |x.leader.log| ==> CommitDone(Exchange(x).leader)
    ensures Confirmed(Exchange(x)) != |x.leader.log| ==>
      Confirmed(Exchange(x)) > Confirmed(x)
        || (Confirmed(Exchange(x)) == Confirmed(x) && Cursor(Exchange(x)) < Cursor(x))
  {
    ExchangeAdvances(terms, x);
    if !Anchored(x) { RefusedHint(terms, x); RefusedAdvances(terms, x); }
  }

  /** Exchanges until the follower's whole log is confirmed: there are only finitely many. */
  ghost function Settled(terms: map<Term, TermRecord>, x: Pair): (y: Pair)
    requires Compatible(terms, x)
    ensures Compatible(terms, y) && y.follower.id == x.follower.id && SameButFor(x.leader, y.leader, x.follower.id)
    ensures Confirmed(y) == |x.leader.log| && CommitDone(y.leader)
    decreases |x.leader.log| - Confirmed(x), Cursor(x)
  {
    SettledDone(terms, x);
    var y := Exchange(x);
    if Confirmed(y) == |x.leader.log| then y else Settled(terms, y)
  }

  /** A follower catches up: whatever its log was, it comes to hold the leader's whole log. */
  lemma {:induction false} CatchesUp(terms: map<Term, TermRecord>, x: Pair)
    requires Compatible(terms, x)
    ensures var y := Settled(terms, x);
      y.leader.log == x.leader.log && x.leader.log <= y.follower.log && Confirmed(y) == |x.leader.log|
  {
    var y := Settled(terms, x);
    assert y.follower.log[..|x.leader.log|] == y.leader.log[..|x.leader.log|] == x.leader.log;
  }

  // ---------------------------------------------------------------- a quorum in line

  ghost predicate AllCompatible(terms: map<Term, TermRecord>, ld: Node, followers: seq<Node>) {
    forall i :: 0 <= i < |followers| ==> Compatible(terms, Pair(ld, followers[i]))
  }

  predicate DistinctIds(nodes: seq<Node>) {
    forall i, j :: 0 <= i < j < |nodes| ==> nodes[i].id != nodes[j].id
  }

  /** The leader knows that these followers hold its whole log. */
  ghost predicate AllConfirmed(ld: Node, followers: seq<Node>) {
    ld.role.Leader? && forall i :: 0 <= i < |followers| ==>
      followers[i].id in ld.role.matchIndex && ld.role.matchIndex[followers[i].id] == |ld.log|
  }

  lemma OtherCompatible(terms: map<Term, TermRecord>, ld: Node, now: Node, p: NodeId, f: Node)
    requires Compatible(terms, Pair(ld, f)) && f.id != p && SameButFor(ld, now, p)
    ensures Compatible(terms, Pair(now, f))
  {
  }

  /** What holding a quorum in line has left: the leader and the followers. */
  datatype Group = Group(leader: Node, followers: seq<Node>)

  /** The leader with these followers in line, and as compatible with all others as before. */
  ghost predicate InLine(terms: map<Term, TermRecord>, ld: Node, followers: seq<Node>, g: Group) {
    && |g.followers| == |followers| && (forall i :: 0 <= i < |followers| ==> g.followers[i].id == followers[i].id)
    && AllCompatible(terms, g.leader, g.followers) && AllConfirmed(g.leader, g.followers)
    && g.leader == ld.(role := g.leader.role, commitIndex := g.leader.commitIndex, lastApplied := g.leader.lastApplied)
    && (followers != [] ==> CommitDone(g.leader))
    && forall f: Node {:trigger Compatible(terms, Pair(g.leader, f))} ::
         f.id !in Ids(followers) && Compatible(terms, Pair(ld, f)) ==> Compatible(terms, Pair(g.leader, f))
  }

  /** The leader brings the followers in line one after the other. */
  ghost function SettledAll(terms: map<Term, TermRecord>, ld: Node, followers: seq<Node>): (g: Group)
    requires ld.role.Leader? && AllCompatible(terms, ld, followers) && DistinctIds(followers)
    ensures InLine(terms, ld, followers, g)
    decreases |followers|
  {
    if followers == [] then Group(ld, [])
    else
      var n := |followers| - 1;
      var g := SettledAll(terms, ld, followers[..n]);
      NextCompatible(terms, ld, followers, g);
      var y := Settled(terms, Pair(g.leader, followers[n]));
      SettleOne(terms, ld, followers, g, y);
      Group(y.leader, g.followers + [y.follower])
  }

  lemma NextCompatible(terms: map<Term, TermRecord>, ld: Node, followers: seq<Node>, g: Group)
    requires followers != [] && DistinctIds(followers) && AllCompatible(terms, ld, followers)
    requires InLine(terms, ld, followers[..|followers| - 1], g)
    ensures Compatible(terms, Pair(g.leader, followers[|followers| - 1]))
  {
    var n := |followers| - 1;
    assert Compatible(terms, Pair(ld, followers[n])) && followers[n].id !in Ids(followers[..n]);
  }

  lemma FewerIds(followers: seq<Node>, n: nat)
    requires n < |followers|
    ensures Ids(followers[..n]) <= Ids(followers) && followers[n].id in Ids(followers)
  {
    assert forall i :: 0 <= i < n ==> followers[..n][i] == followers[i];
  }

  lemma SettleOne(terms: map<Term, TermRecord>, ld: Node, followers: seq<Node>, g: Group, y: Pair)
    requires followers != [] && DistinctIds(followers) && InLine(terms, ld, followers[..|followers| - 1], g)
    requires y.follower.id == followers[|followers| - 1].id && SameButFor(g.leader, y.leader, y.follower.id)
    requires Compatible(terms, y) && Confirmed(y) == |g.leader.log| && CommitDone(y.leader)
    ensures InLine(terms, ld, followers, Group(y.leader, g.followers + [y.follower]))
  {
    var n, all := |followers| - 1, g.followers + [y.follower];
    forall i | 0 <= i < |all| ensures all[i].id == followers[i].id && Compatible(terms, Pair(y.leader, all[i])) {
      if i < n {
        assert followers[..n][i] == followers[i] && Compatible(terms, Pair(g.leader, g.followers[i]));
        OtherCompatible(terms, g.leader, y.leader, y.follower.id, g.followers[i]);
      } else {
        assert Pair(y.leader, all[i]) == y;
      }
    }
    forall f: Node | f.id !in Ids(followers) && Compatible(terms, Pair(ld, f))
      ensures Compatible(terms, Pair(y.leader, f))
    {
      FewerIds(followers, n);
      OtherCompatible(terms, g.leader, y.leader, y.follower.id, f);
    }
  }

  lemma QuorumConfirmed(ld: Node, now: Node, followers: seq<Node>, all: seq<Node>)
    requires now.role.Leader? && now.id == ld.id && now.config == ld.config && now.log == ld.log && |all| == |followers|
    requires forall i :: 0 <= i < |followers| ==> all[i].id == followers[i].id
    requires AllConfirmed(now, all) && HasQuorum(ld.config, {ld.id} + Ids(followers))
    ensures HasQuorum(now.config, Having(now, |ld.log|))
  {
    forall v | v in {ld.id} + Ids(followers) ensures v in Having(now, |ld.log|) {
      if v != ld.id {
        var i :| 0 <= i < |followers| && followers[i].id == v;
        assert all[i].id == v;
      }
    }
    QuorumMonotone(ld.config, {ld.id} + Ids(followers), Having(now, |ld.log|));
  }

  lemma InLineCommits(terms: map<Term, TermRecord>, ld: Node, followers: seq<Node>, g: Group)
    requires ld.role.Leader? && InLine(terms, ld, followers, g) && followers != []
    requires HasQuorum(ld.config, {ld.id} + Ids(followers)) && ld.log != [] && LastTerm(ld.log) == ld.hard.currentTerm
    ensures g.leader.commitIndex == |ld.log| && g.leader.log == ld.log
  {
    assert Compatible(terms, Pair(g.leader, g.followers[0]));
    QuorumConfirmed(ld, g.leader, followers, g.followers);
    assert g.leader.log[|ld.log| - 1].term == g.leader.hard.currentTerm;
  }

  /** Replication commits: once the leader has brought in line followers that make up a quorum with it, and its
      last entry is of its own term, its whole log is committed. */
  lemma {:induction false} ReplicationCommits(terms: map<Term, TermRecord>, ld: Node, followers: seq<Node>)
    requires ld.role.Leader? && AllCompatible(terms, ld, followers) && DistinctIds(followers) && followers != []
    requires HasQuorum(ld.config, {ld.id} + Ids(followers)) && ld.log != [] && LastTerm(ld.log) == ld.hard.currentTerm
    ensures var g := SettledAll(terms, ld, followers); g.leader.commitIndex == |ld.log| && g.leader.log == ld.log
  {
    InLineCommits(terms, ld, followers, SettledAll(terms, ld, followers));
  }

  /** ... and with the next batch every follower in line learns it. */
  lemma FollowerLearns(terms: map<Term, TermRecord>, x: Pair)
    requires Compatible(terms, x) && Confirmed(x) == |x.leader.log|
    ensures var f := Exchange(x).follower;
      f.commitIndex == Max(x.follower.commitIndex, x.leader.commitIndex) && x.leader.log <= f.log
  {
    AgreedTerm(x.leader.log, x.follower.log, Confirmed(x));
    AnchoredTakes(terms, x);
    assert Exchange(x).follower.log[..|x.leader.log|] == x.leader.log[..|x.leader.log|] == x.leader.log;
  }

  // ---------------------------------------------------------------- in runs

  /** An idle node: everything it decided has been carried out. */
  ghost predicate Idle(sys: System, n: NodeId) {
    n in sys.servers && sys.servers[n].todo == []
  }

  /** In every state of every run, the idle leader of the newest term and any idle node it replicates to are
      compatible, so everything above applies to them. */
  lemma RunCompatible(states: seq<System>, moves: seq<(NodeId, Event)>, i: nat, a: NodeId, b: NodeId)
    requires IsRun(states, moves) && i < |states| && Idle(states[i], a) && Idle(states[i], b) && a != b
    requires var ld, f := states[i].servers[a].mem, states[i].servers[b].mem;
      && ld.role.Leader? && b in ld.peers && b in ld.role.nextIndex && |ld.log| <= U64_MAX
      && f.hard.currentTerm <= ld.hard.currentTerm && forall t :: t in states[i].h.terms ==> t <= ld.hard.currentTerm
    ensures Compatible(states[i].h.terms, Pair(states[i].servers[a].mem, states[i].servers[b].mem))
  {
    RunOk(states, moves, i);
    CursorsInRun(states, moves, i, a);
    var h, sa, sb := states[i].h, states[i].servers[a], states[i].servers[b];
    assert MemOk(h, a, sa) && DiskOk(h, a, sa.disk) && MemOk(h, b, sb) && DiskOk(h, b, sb.disk);
    ConfirmedHeld(h, sa.mem, b, sb.disk);
    CommittedHeld(h, a, sa, sb.mem);
  }

  lemma ConfirmedHeld(h: History, ld: Node, p: NodeId, d: Disk)
    requires ld.role.Leader? && p in ld.role.matchIndex && MatchOk(h, ld, p) && DiskOk(h, p, d)
    requires ld.hard.currentTerm in h.terms && h.terms[ld.hard.currentTerm].log == ld.log
    requires d.hard.currentTerm <= ld.hard.currentTerm
    ensures Agree(ld.log, d.log, ld.role.matchIndex[p])
  {
    var t, m := ld.hard.currentTerm, ld.role.matchIndex[p];
    if m > 0 {
      assert AckPersisted(h, p, t, d);
      assert Retained(h, d.log, t, m, d.hard.currentTerm + 1);
      assert ld.log[..m] <= d.log;
    }
  }

  lemma CommittedHeld(h: History, a: NodeId, s: Server, f: Node)
    requires HistoryOk(h) && MemOk(h, a, s) && DiskOk(h, a, s.disk) && s.mem.role.Leader?
    requires WfLog(f.log) && f.commitIndex <= |f.log| && Committed(h, f.log, f.commitIndex)
    requires forall t :: t in h.terms ==> t <= s.mem.hard.currentTerm
    ensures Agree(s.mem.log, f.log, f.commitIndex)
  {
    var k := f.commitIndex;
    if k > 0 {
      var t, m :| CommittedVia(h, f.log, k, t, m);
      CommittedEntryHeld(h, a, s, f.log, k, t, m, k - 1);
      forall j | 0 <= j < k ensures s.mem.log[j] == f.log[j] { CommittedEntryHeld(h, a, s, f.log, k, t, m, j); }
    }
  }

  lemma CommittedEntryHeld(h: History, a: NodeId, s: Server, log: seq<Entry>, k: LogIndex, t: Term, m: LogIndex, j: nat)
    requires HistoryOk(h) && MemOk(h, a, s) && DiskOk(h, a, s.disk) && s.mem.role.Leader?
    requires WfLog(log) && CommittedVia(h, log, k, t, m) && j < k && t <= s.mem.hard.currentTerm
    ensures j < |s.mem.log| && s.mem.log[j] == log[j]
  {
    assert log[j] == log[..k][j] == h.terms[t].log[..k][j];
    assert EntryVia(h, log[j], t, m);
    LeaderHolds(h, a, s, log[j], t, m);
  }
}
