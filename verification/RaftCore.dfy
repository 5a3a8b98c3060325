/** One Raft node as a pure state machine: quorum arithmetic, elections with PreVote,
    log replication and commitment, for one fixed voter configuration and an
    uncompacted log. Every handler maps a node to its successor and the ordered
    effects the driver must execute. */
module RaftCore {
  import opened Types

  // ---------------------------------------------------------------- quorums

  datatype VoterConfig = Stable(voters: seq<NodeId>) | Joint(old_: seq<NodeId>, new_: seq<NodeId>)

  predicate ValidSet(voters: seq<NodeId>) {
    0 < |voters| <= 256 && forall i :: 0 < i < |voters| ==> voters[i - 1] < voters[i]
  }

  predicate ValidConfig(config: VoterConfig) {
    match config
    case Stable(voters) => ValidSet(voters)
    case Joint(o, n) => ValidSet(o) && ValidSet(n)
  }

  function CountIn(voters: seq<NodeId>, votes: set<NodeId>): nat {
    if voters == [] then 0
    else (if voters[0] in votes then 1 else 0) + CountIn(voters[1..], votes)
  }

  predicate Majority(voters: seq<NodeId>, votes: set<NodeId>) {
    CountIn(voters, votes) > |voters| / 2
  }

  /** Invalid configurations fail closed. */
  predicate HasQuorum(config: VoterConfig, votes: set<NodeId>) {
    ValidConfig(config) &&
    match config
    case Stable(voters) => Majority(voters, votes)
    case Joint(o, n) => Majority(o, votes) && Majority(n, votes)
  }

  predicate IsVoter(config: VoterConfig, id: NodeId) {
    match config
    case Stable(voters) => id in voters
    case Joint(o, n) => id in o || id in n
  }

  function Matched(matched: map<NodeId, LogIndex>, id: NodeId): LogIndex {
    if id in matched then matched[id] else 0
  }

  function InsertSorted(x: nat, s: seq<nat>): seq<nat> {
    if s == [] || x <= s[0] then [x] + s else [s[0]] + InsertSorted(x, s[1..])
  }

  /** The voters' replication watermarks in ascending order. */
  function SortedMatches(voters: seq<NodeId>, matched: map<NodeId, LogIndex>): (r: seq<nat>)
    ensures |r| == |voters|
  {
    if voters == [] then []
    else
      var rest := SortedMatches(voters[1..], matched);
      InsertSortedLength(Matched(matched, voters[0]), rest);
      InsertSorted(Matched(matched, voters[0]), rest)
  }

  lemma {:induction false} InsertSortedLength(x: nat, s: seq<nat>)
    ensures |InsertSorted(x, s)| == |s| + 1
  {
    if s != [] && x > s[0] { InsertSortedLength(x, s[1..]); }
  }

  function MajorityIndex(voters: seq<NodeId>, matched: map<NodeId, LogIndex>): LogIndex {
    if voters == [] then 0
    else
      var indexes := SortedMatches(voters, matched);
      indexes[|indexes| - (|indexes| / 2 + 1)]
  }

  function ReplicatedIndex(config: VoterConfig, matched: map<NodeId, LogIndex>): LogIndex {
    if !ValidConfig(config) then 0
    else match config
      case Stable(voters) => MajorityIndex(voters, matched)
      case Joint(o, n) =>
        var a, b := MajorityIndex(o, matched), MajorityIndex(n, matched);
        if a <= b then a else b
  }

  // ---------------------------------------------------------------- state, messages, effects

  datatype HardState = HardState(currentTerm: Term, votedFor: Option<NodeId>)

  datatype CampaignId = CampaignId(incarnation: nat, sequence: nat)

  datatype Role =
    | Follower
    | PreCandidate(prospectiveTerm: Term, campaign: CampaignId, votes: set<NodeId>)
    | Candidate(votes: set<NodeId>)
    | Leader(nextIndex: map<NodeId, LogIndex>, matchIndex: map<NodeId, LogIndex>)

  datatype ConflictHint = ConflictHint(rejectedIndex: LogIndex, term: Option<Term>, firstIndex: LogIndex)

  datatype Message =
    | RequestVote(term: Term, candidate: NodeId, lastIndex: LogIndex, lastTerm: Term)
    | RequestVoteReply(term: Term, granted: bool)
    | AppendEntries(term: Term, leader: NodeId, prevIndex: LogIndex, prevTerm: Term,
                    entries: seq<Entry>, leaderCommit: LogIndex)
    | AppendEntriesReply(term: Term, success: bool, matchIndex: LogIndex, conflict: Option<ConflictHint>)
    | PreVote(prospectiveTerm: Term, campaign: CampaignId, candidate: NodeId,
              lastIndex: LogIndex, lastTerm: Term)
    | PreVoteReply(term: Term, prospectiveTerm: Term, campaign: CampaignId, granted: bool)

  datatype Effect =
    | PersistHardState(hard: HardState)
    | PersistLogEntries(truncateFrom: Option<LogIndex>, entries: seq<Entry>)
    | Send(to: NodeId, msg: Message)
    | Apply(entry: Entry)
    | RoleChanged(leading: bool)
    | ProposeAccepted(index: LogIndex)
    | ProposeRejected

  datatype Node = Node(
    id: NodeId,
    config: VoterConfig,
    peers: seq<NodeId>,
    hard: HardState,
    log: seq<Entry>,
    commitIndex: LogIndex,
    lastApplied: LogIndex,
    role: Role,
    incarnation: nat,
    campaignSequence: nat,
    campaignExhausted: bool)

  /** A handler's result: the node afterwards and the effects, in the order the driver must run them. */
  datatype Outcome = Outcome(node: Node, effects: seq<Effect>)

  const MAX_APPEND_ENTRIES: nat := 16
  const MAX_PROPOSAL_BATCH: nat := 16

  function LastIndex(log: seq<Entry>): LogIndex {
    |log|
  }

  function LastTerm(log: seq<Entry>): Term {
    if log == [] then 0 else log[|log| - 1].term
  }

  /** The term at a 1-based index: index zero holds term zero, an index past the end none. */
  function LogTerm(log: seq<Entry>, index: LogIndex): Option<Term> {
    if index == 0 then Some(0)
    else if index <= |log| then Some(log[index - 1].term)
    else None
  }

  function TermAt(log: seq<Entry>, index: LogIndex): Term {
    match LogTerm(log, index)
    case Some(t) => t
    case None => 0
  }

  predicate SelfQuorum(node: Node) {
    HasQuorum(node.config, {node.id})
  }

  // ---------------------------------------------------------------- election

  function BecomeFollower(node: Node): Outcome {
    Outcome(node.(role := Follower), if node.role.Follower? then [] else [RoleChanged(false)])
  }

  /** One copy of `msg` for every peer that is a voter. */
  function Solicit(config: VoterConfig, peers: seq<NodeId>, msg: Message): seq<Effect> {
    if peers == [] then []
    else (if IsVoter(config, peers[0]) then [Send(peers[0], msg)] else []) + Solicit(config, peers[1..], msg)
  }

  /** Grant iff the vote is free for this candidate and its log is at least as up to date. */
  predicate DecideVote(hard: HardState, myLastIndex: LogIndex, myLastTerm: Term,
                       candidate: NodeId, lastIndex: LogIndex, lastTerm: Term)
  {
    (hard.votedFor.None? || hard.votedFor.value == candidate) &&
    (lastTerm > myLastTerm || (lastTerm == myLastTerm && lastIndex >= myLastIndex))
  }

  /** The node opening a pre-campaign: term and vote untouched, a fresh campaign id. */
  function PreCampaign(node: Node): Node {
    node.(campaignSequence := node.campaignSequence + 1,
          role := PreCandidate(node.hard.currentTerm + 1, CampaignId(node.incarnation, node.campaignSequence + 1),
                               {node.id}))
  }

  function PreVoteFor(node: Node): Message {
    PreVote(node.hard.currentTerm + 1, CampaignId(node.incarnation, node.campaignSequence + 1), node.id,
            LastIndex(node.log), LastTerm(node.log))
  }

  function StartPreVote(node: Node): Outcome {
    if !IsVoter(node.config, node.id) then Outcome(node, [])
    else if node.hard.currentTerm >= U64_MAX || node.campaignSequence >= U64_MAX then
      BecomeFollower(node.(campaignExhausted := true))
    else if SelfQuorum(node) then StartElection(PreCampaign(node))
    else Outcome(PreCampaign(node), [RoleChanged(false)] + Solicit(node.config, node.peers, PreVoteFor(node)))
  }

  /** `mayVote` is the membership guard; `recentLeader` is the leader-contact timer's verdict. */
  function OnPreVote(node: Node, prospective: Term, campaign: CampaignId, candidate: NodeId,
                     lastIndex: LogIndex, lastTerm: Term, mayVote: bool, recentLeader: bool): Outcome
  {
    var freshLog := lastTerm > LastTerm(node.log)
                 || (lastTerm == LastTerm(node.log) && lastIndex >= LastIndex(node.log));
    var granted := mayVote && prospective > node.hard.currentTerm && freshLog && !node.role.Leader? && !recentLeader;
    Outcome(node, [Send(candidate, PreVoteReply(node.hard.currentTerm, prospective, campaign, granted))])
  }

  function OnPreVoteReply(node: Node, from: NodeId, term: Term, prospective: Term,
                          campaign: CampaignId, granted: bool): Outcome
  {
    if !granted || term >= prospective || !IsVoter(node.config, from) then Outcome(node, [])
    else if !node.role.PreCandidate? then Outcome(node, [])
    else if prospective != node.role.prospectiveTerm || campaign != node.role.campaign then Outcome(node, [])
    else
      var votes := node.role.votes + {from};
      var next := node.(role := node.role.(votes := votes));
      if HasQuorum(node.config, votes) then StartElection(next) else Outcome(next, [])
  }

  /** The node opening an election: next term, own vote. */
  function Campaign(node: Node): Node {
    node.(hard := HardState(node.hard.currentTerm + 1, Some(node.id)), role := Candidate({node.id}))
  }

  function RequestVoteFor(node: Node): Message {
    RequestVote(node.hard.currentTerm + 1, node.id, LastIndex(node.log), LastTerm(node.log))
  }

  function StartElection(node: Node): Outcome {
    if !IsVoter(node.config, node.id) then Outcome(node, [])
    else if node.hard.currentTerm >= U64_MAX then BecomeFollower(node.(campaignExhausted := true))
    else if SelfQuorum(node) then
      var won := BecomeLeader(Campaign(node));
      Outcome(won.node, [PersistHardState(Campaign(node).hard)] + won.effects)
    else Outcome(Campaign(node),
                 [PersistHardState(Campaign(node).hard)]
                 + ([RoleChanged(false)] + Solicit(node.config, node.peers, RequestVoteFor(node))))
  }

  /** The term rules already ran, so `term <= currentTerm`. */
  function OnRequestVote(node: Node, term: Term, candidate: NodeId, lastIndex: LogIndex, lastTerm: Term,
                         mayVote: bool): Outcome
  {
    if term < node.hard.currentTerm then
      Outcome(node, [Send(candidate, RequestVoteReply(node.hard.currentTerm, false))])
    else if mayVote
      && DecideVote(node.hard, LastIndex(node.log), LastTerm(node.log), candidate, lastIndex, lastTerm) then
      var hard := node.hard.(votedFor := Some(candidate));
      Outcome(node.(hard := hard),
              [PersistHardState(hard), Send(candidate, RequestVoteReply(hard.currentTerm, true))])
    else
      Outcome(node, [Send(candidate, RequestVoteReply(node.hard.currentTerm, false))])
  }

  function OnRequestVoteReply(node: Node, from: NodeId, term: Term, granted: bool): Outcome {
    if term != node.hard.currentTerm || !granted || !IsVoter(node.config, from) then Outcome(node, [])
    else if !node.role.Candidate? then Outcome(node, [])
    else
      var votes := node.role.votes + {from};
      var next := node.(role := Candidate(votes));
      if HasQuorum(node.config, votes) then BecomeLeader(next) else Outcome(next, [])
  }

  function Cursors(peers: seq<NodeId>, index: LogIndex): map<NodeId, LogIndex> {
    map p | p in peers :: index
  }

  function Noop(node: Node): Entry {
    Entry(LastIndex(node.log) + 1, node.hard.currentTerm, NoOp)
  }

  /** The new leader: cursors just past the old log, the current-term NoOp appended, and
      committed at once when the node is a quorum by itself. */
  function Inaugurate(node: Node): (r: Outcome)
    ensures r.node.role.Leader?
  {
    var next := LastIndex(node.log) + 1;
    var leading :=
      node.(role := Leader(Cursors(node.peers, next), Cursors(node.peers, 0)), log := node.log + [Noop(node)]);
    if SelfQuorum(node) then AdvanceCommit(leading, next) else Outcome(leading, [])
  }

  /** The NoOp is persisted before the first heartbeat carries it. */
  function BecomeLeader(node: Node): Outcome {
    if LastIndex(node.log) + 1 >= U64_MAX then BecomeFollower(node.(campaignExhausted := true))
    else
      var won := Inaugurate(node);
      Outcome(won.node,
              [PersistLogEntries(None, [Noop(node)])]
              + ([RoleChanged(true)] + Heartbeats(won.node, node.peers) + won.effects))
  }

  // ---------------------------------------------------------------- replication

  /** The bounded batch a leader sends to one peer, anchored just before its cursor. */
  function AppendFor(node: Node, peer: NodeId): Message
    requires node.role.Leader?
  {
    var next := if peer in node.role.nextIndex then node.role.nextIndex[peer] else LastIndex(node.log) + 1;
    var prev := if next == 0 then 0 else next - 1;
    var upper := if prev + MAX_APPEND_ENTRIES < |node.log| then prev + MAX_APPEND_ENTRIES else |node.log|;
    AppendEntries(node.hard.currentTerm, node.id, prev, TermAt(node.log, prev),
                  if prev <= upper then node.log[prev..upper] else [], node.commitIndex)
  }

  function Heartbeats(node: Node, peers: seq<NodeId>): seq<Effect>
    requires node.role.Leader?
  {
    if peers == [] then [] else [Send(peers[0], AppendFor(node, peers[0]))] + Heartbeats(node, peers[1..])
  }

  function ApplyRange(log: seq<Entry>, from: LogIndex, through: LogIndex): seq<Effect>
    requires from <= through <= |log|
    decreases through - from
  {
    if from == through then [] else [Apply(log[from])] + ApplyRange(log, from + 1, through)
  }

  /** Raise the commit index and emit every newly committed entry in index order. */
  function AdvanceCommit(node: Node, index: LogIndex): (r: Outcome)
    ensures r.node.role == node.role
  {
    if index <= node.commitIndex || index > |node.log| || node.lastApplied > index then Outcome(node, [])
    else Outcome(node.(commitIndex := index, lastApplied := index), ApplyRange(node.log, node.lastApplied, index))
  }

  function Stamp(commands: seq<Command>, next: LogIndex, term: Term): seq<Entry> {
    if commands == [] then [] else [Entry(next, term, commands[0])] + Stamp(commands[1..], next + 1, term)
  }

  function Acceptances(entries: seq<Entry>): seq<Effect> {
    if entries == [] then [] else [ProposeAccepted(entries[0].index)] + Acceptances(entries[1..])
  }

  function Rejections(n: nat): seq<Effect> {
    seq(n, _ => ProposeRejected)
  }

  function OnClientPropose(node: Node, commands: seq<Command>): Outcome {
    if commands == [] then Outcome(node, [])
    else if !node.role.Leader? || !IsVoter(node.config, node.id)
            || (exists i :: 0 <= i < |commands| && commands[i].Configuration?)
            || |commands| > MAX_PROPOSAL_BATCH
            || LastIndex(node.log) + |commands| >= U64_MAX then
      Outcome(node, Rejections(|commands|))
    else
      var entries := Stamp(commands, LastIndex(node.log) + 1, node.hard.currentTerm);
      var next := node.(log := node.log + entries);
      var committed := if SelfQuorum(node) then AdvanceCommit(next, LastIndex(next.log)) else Outcome(next, []);
      Outcome(committed.node, [PersistLogEntries(None, entries)] + Acceptances(entries) + committed.effects)
  }

  /** Structural framing of an append: contiguous indices, nondecreasing terms no newer than the sender's. */
  predicate WellFramed(term: Term, prevIndex: LogIndex, prevTerm: Term, entries: seq<Entry>) {
    prevTerm <= term && prevIndex + |entries| <= U64_MAX &&
    forall i :: 0 <= i < |entries| ==>
      && entries[i].index == prevIndex + 1 + i
      && entries[i].term <= term
      && (if i == 0 then prevTerm else entries[i - 1].term) <= entries[i].term
  }

  /** Where a payload walk stands: the surviving log, the cut if any, and the entries to append. */
  datatype Walk = Walk(log: seq<Entry>, truncateFrom: Option<LogIndex>, appended: seq<Entry>)

  /** One payload entry: new past the end, already present, or the first real conflict. */
  function WalkEntry(w: Walk, entry: Entry): Walk {
    if entry.index > |w.log| then w.(appended := w.appended + [entry])
    else if entry.index == 0 || w.log[entry.index - 1].term == entry.term then w
    else Walk(w.log[..entry.index - 1], Some(entry.index), w.appended + [entry])
  }

  function WalkEntries(w: Walk, entries: seq<Entry>): Walk
    decreases |entries|
  {
    if entries == [] then w else WalkEntries(WalkEntry(w, entries[0]), entries[1..])
  }

  /** First index whose entry carries `term` or newer; one past the end when there is none. */
  function FirstIndexAtLeast(log: seq<Entry>, term: Term, from: nat): (i: LogIndex)
    requires from <= |log|
    ensures from + 1 <= i <= |log| + 1
    decreases |log| - from
  {
    if from == |log| || log[from].term >= term then from + 1 else FirstIndexAtLeast(log, term, from + 1)
  }

  function ConflictHintFor(log: seq<Entry>, rejected: LogIndex): Option<ConflictHint> {
    match LogTerm(log, rejected)
    case Some(t) =>
      if t == 0 then None else Some(ConflictHint(rejected, Some(t), FirstIndexAtLeast(log, t, 0)))
    case None => Some(ConflictHint(rejected, None, LastIndex(log) + 1))
  }

  function Min(a: nat, b: nat): nat { if a <= b then a else b }
  function Max(a: nat, b: nat): nat { if a <= b then b else a }

  function Refusal(node: Node, to: NodeId, conflict: Option<ConflictHint>): Effect {
    Send(to, AppendEntriesReply(node.hard.currentTerm, false, LastIndex(node.log), conflict))
  }

  /** The follower's accept path; the term rules already ran and the frame is well formed. */
  function OnAppendEntries(node: Node, term: Term, leader: NodeId, prevIndex: LogIndex, prevTerm: Term,
                           entries: seq<Entry>, leaderCommit: LogIndex): Outcome
  {
    if term < node.hard.currentTerm then Outcome(node, [Refusal(node, leader, None)])
    else
      var stepped := BecomeFollower(node);
      var n := stepped.node;
      if LogTerm(n.log, prevIndex) != Some(prevTerm) then
        Outcome(n, stepped.effects + [Refusal(n, leader, ConflictHintFor(n.log, prevIndex))])
      else if exists i :: 0 <= i < |entries| && entries[i].index <= n.commitIndex
                          && LogTerm(n.log, entries[i].index) != Some(entries[i].term) then
        Outcome(n, stepped.effects + [Refusal(n, leader, None)])
      else
        var w := WalkEntries(Walk(n.log, None, []), entries);
        var merged := n.(log := w.log + w.appended);
        var persists := if w.appended == [] then [] else [PersistLogEntries(w.truncateFrom, w.appended)];
        var last := prevIndex + |entries|;
        var committed := AdvanceCommit(merged, Min(leaderCommit, last));
        Outcome(committed.node,
                stepped.effects + persists + committed.effects
                + [Send(leader, AppendEntriesReply(node.hard.currentTerm, true, last, None))])
  }

  function LastIndexInTerm(log: seq<Entry>, term: Term, upto: nat): (r: Option<LogIndex>)
    requires upto <= |log|
    ensures r.Some? ==> r.value <= upto
  {
    if upto == 0 then (if term == 0 then Some(0) else None)
    else if log[upto - 1].term == term then Some(upto)
    else LastIndexInTerm(log, term, upto - 1)
  }

  predicate ValidHint(log: seq<Entry>, hint: ConflictHint, term: Term, success: bool, matchIndex: LogIndex) {
    !success && hint.firstIndex > 0 && hint.firstIndex <= hint.rejectedIndex &&
    match hint.term
    case Some(t) => 0 < t <= term && hint.rejectedIndex <= matchIndex && LogTerm(log, hint.rejectedIndex) != Some(t)
    case None => matchIndex + 1 == hint.firstIndex
  }

  /** The largest index above the commit index that a quorum holds and that carries the current term. */
  function CommitCandidate(log: seq<Entry>, commitIndex: LogIndex, quorumIndex: LogIndex, term: Term,
                           upto: nat): (r: Option<LogIndex>)
    requires upto <= |log|
    ensures r.Some? ==> commitIndex < r.value <= quorumIndex && 0 < r.value <= upto && log[r.value - 1].term == term
  {
    if upto == 0 then None
    else if commitIndex < upto <= quorumIndex && log[upto - 1].term == term then Some(upto)
    else CommitCandidate(log, commitIndex, quorumIndex, term, upto - 1)
  }

  function QuorumCommit(node: Node): Outcome
    requires node.role.Leader?
  {
    var matched := node.role.matchIndex[node.id := LastIndex(node.log)];
    match CommitCandidate(node.log, node.commitIndex, ReplicatedIndex(node.config, matched),
                          node.hard.currentTerm, |node.log|)
    case Some(n) => AdvanceCommit(node, n)
    case None => Outcome(node, [])
  }

  /** Successes raise watermarks monotonically; rejections only move the retry cursor back, never below them. */
  function OnAppendEntriesReply(node: Node, from: NodeId, term: Term, success: bool, matchIndex: LogIndex,
                                conflict: Option<ConflictHint>): Outcome
  {
    if term != node.hard.currentTerm || (success && matchIndex > LastIndex(node.log)) then Outcome(node, [])
    else if conflict.Some? && !ValidHint(node.log, conflict.value, term, success, matchIndex) then Outcome(node, [])
    else if !node.role.Leader? || from !in node.role.nextIndex || from !in node.role.matchIndex then Outcome(node, [])
    else
      var next, matched := node.role.nextIndex[from], node.role.matchIndex[from];
      if conflict.Some? && (conflict.value.rejectedIndex + 1 != Max(next, 1) || conflict.value.rejectedIndex <= matched)
      then Outcome(node, [])
      else if success then
        var raised := Max(matched, matchIndex);
        QuorumCommit(node.(role := Leader(node.role.nextIndex[from := raised + 1],
                                          node.role.matchIndex[from := raised])))
      else
        var candidate := match conflict
          case Some(hint) =>
            (var mine := if hint.term.Some? then LastIndexInTerm(node.log, hint.term.value, |node.log|) else None;
             if mine.Some? then mine.value + 1 else hint.firstIndex)
          case None => matchIndex + 1;
        var back := if next == 0 then 0 else next - 1;
        Outcome(node.(role := node.role.(
                        nextIndex := node.role.nextIndex[from := Max(Min(candidate, back), matched + 1)])),
                [])
  }

  // ---------------------------------------------------------------- dispatch

  datatype Input =
    | Timeout                                        // an election deadline passed
    | StepDown                                       // the leader's quorum window lapsed
    | Heartbeat                                      // a heartbeat is due
    | Propose(commands: seq<Command>)
    | Deliver(from: NodeId, msg: Message, mayVote: bool, recentLeader: bool)

  /** The term a message carries for the higher-term rule; a PreVote never moves it. */
  function MessageTerm(node: Node, msg: Message): Term {
    match msg
    case RequestVote(t, _, _, _) => t
    case RequestVoteReply(t, _) => t
    case AppendEntries(t, _, _, _, _, _) => t
    case AppendEntriesReply(t, _, _, _) => t
    case PreVoteReply(t, _, _, _) => t
    case PreVote(_, _, _, _, _) => node.hard.currentTerm
  }

  /** Sender and payload checks made before any state is touched. */
  predicate Admissible(node: Node, from: NodeId, msg: Message, mayVote: bool) {
    from != node.id &&
    match msg
    case RequestVote(t, c, _, lt) => mayVote && c == from && lt <= t
    case PreVote(p, _, c, _, lt) => mayVote && c == from && lt < p
    case AppendEntries(_, l, _, _, _, _) => IsVoter(node.config, from) && l == from
    case AppendEntriesReply(_, _, _, _) => from in node.peers
    case RequestVoteReply(_, _) => IsVoter(node.config, from)
    case PreVoteReply(_, _, _, _) => IsVoter(node.config, from)
  }

  /** A newer term is adopted and persisted before its content is processed. */
  function AdoptTerm(node: Node, term: Term): Outcome {
    if term > node.hard.currentTerm then
      var hard := HardState(term, None);
      var stepped := BecomeFollower(node.(hard := hard));
      Outcome(stepped.node, [PersistHardState(hard)] + stepped.effects)
    else Outcome(node, [])
  }

  function Handle(node: Node, from: NodeId, msg: Message, mayVote: bool, recentLeader: bool): Outcome {
    match msg
    case RequestVote(t, c, li, lt) => OnRequestVote(node, t, c, li, lt, mayVote)
    case RequestVoteReply(t, g) => OnRequestVoteReply(node, from, t, g)
    case AppendEntries(t, l, pi, pt, es, lc) => OnAppendEntries(node, t, l, pi, pt, es, lc)
    case AppendEntriesReply(t, s, m, c) => OnAppendEntriesReply(node, from, t, s, m, c)
    case PreVote(p, c, cand, li, lt) => OnPreVote(node, p, c, cand, li, lt, mayVote, recentLeader)
    case PreVoteReply(t, p, c, g) => OnPreVoteReply(node, from, t, p, c, g)
  }

  function OnMessage(node: Node, from: NodeId, msg: Message, mayVote: bool, recentLeader: bool): Outcome {
    if !Admissible(node, from, msg, mayVote) then Outcome(node, [])
    else if msg.AppendEntries? && !WellFramed(msg.term, msg.prevIndex, msg.prevTerm, msg.entries) then
      Outcome(node, [Refusal(node, msg.leader, None)])
    else
      var adopted := AdoptTerm(node, MessageTerm(node, msg));
      var handled := Handle(adopted.node, from, msg, mayVote, recentLeader);
      Outcome(handled.node, adopted.effects + handled.effects)
  }

  function NodeStep(node: Node, input: Input): Outcome {
    match input
    case Timeout => if node.role.Leader? || node.campaignExhausted then Outcome(node, []) else StartPreVote(node)
    case StepDown => BecomeFollower(node)
    case Heartbeat => if node.role.Leader? then Outcome(node, Heartbeats(node, node.peers)) else Outcome(node, [])
    case Propose(commands) => OnClientPropose(node, commands)
    case Deliver(from, msg, mayVote, recent) => OnMessage(node, from, msg, mayVote, recent)
  }

  // ---------------------------------------------------------------- durability

  datatype Disk = Disk(hard: HardState, log: seq<Entry>)

  /** The durable log after the cut, before the new entries. */
  function Cut(log: seq<Entry>, truncateFrom: Option<LogIndex>): seq<Entry> {
    if truncateFrom.Some? && 0 < truncateFrom.value <= |log| then log[..truncateFrom.value - 1] else log
  }

  /** The structural checks a recovering node makes on its log. */
  predicate RestoreAccepts(disk: Disk) {
    forall i :: 0 <= i < |disk.log| ==>
      && disk.log[i].index == i + 1
      && disk.log[i].term <= disk.hard.currentTerm
      && (i > 0 ==> disk.log[i - 1].term <= disk.log[i].term)
  }

  function Restore(id: NodeId, config: VoterConfig, peers: seq<NodeId>, incarnation: nat, disk: Disk): Node {
    Node(id, config, peers, disk.hard, disk.log, 0, 0, Follower, incarnation, 0, false)
  }
}
