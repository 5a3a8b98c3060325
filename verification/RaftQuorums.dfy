/** Quorum facts: two quorums share a voter, and the sorted-watermark rule finds exactly
    the greatest index a quorum holds. */
module RaftQuorums {
  import opened Types
  import opened RaftCore

  lemma {:induction false} CountMonotone(voters: seq<NodeId>, a: set<NodeId>, b: set<NodeId>)
    requires forall v :: v in voters && v in a ==> v in b
    ensures CountIn(voters, a) <= CountIn(voters, b)
  {
    if voters != [] {
      CountMonotone(voters[1..], a, b);
    }
  }

  lemma QuorumMonotone(config: VoterConfig, a: set<NodeId>, b: set<NodeId>)
    requires HasQuorum(config, a)
    requires forall v :: IsVoter(config, v) && v in a ==> v in b
    ensures HasQuorum(config, b)
  {
    match config
    case Stable(voters) => CountMonotone(voters, a, b);
    case Joint(o, n) => CountMonotone(o, a, b); CountMonotone(n, a, b);
  }

  lemma {:induction false} CountOverlap(voters: seq<NodeId>, a: set<NodeId>, b: set<NodeId>)
    ensures CountIn(voters, a) + CountIn(voters, b) <= |voters| + CountIn(voters, a * b)
  {
    if voters != [] {
      CountOverlap(voters[1..], a, b);
    }
  }

  lemma {:induction false} CountWitness(voters: seq<NodeId>, a: set<NodeId>) returns (v: NodeId)
    requires CountIn(voters, a) > 0
    ensures v in voters && v in a
  {
    if voters[0] in a {
      v := voters[0];
    } else {
      v := CountWitness(voters[1..], a);
    }
  }

  /** Any two quorums of one configuration, stable or joint, share a voter. */
  lemma QuorumsIntersect(config: VoterConfig, a: set<NodeId>, b: set<NodeId>) returns (v: NodeId)
    requires HasQuorum(config, a) && HasQuorum(config, b)
    ensures v in a && v in b && IsVoter(config, v)
  {
    var voters := match config case Stable(vs) => vs case Joint(o, _) => o;
    CountOverlap(voters, a, b);
    v := CountWitness(voters, a * b);
  }

  // ---------------------------------------------------------------- the commit watermark

  function AtLeast(voters: seq<NodeId>, matched: map<NodeId, LogIndex>, k: LogIndex): set<NodeId> {
    set v | v in voters && Matched(matched, v) >= k
  }

  function CountGe(s: seq<nat>, k: nat): nat {
    if s == [] then 0 else (if s[0] >= k then 1 else 0) + CountGe(s[1..], k)
  }

  ghost predicate Ascending(s: seq<nat>) {
    forall i, j :: 0 <= i <= j < |s| ==> s[i] <= s[j]
  }

  lemma {:induction false} InsertKeepsOrder(x: nat, s: seq<nat>)
    requires Ascending(s)
    ensures Ascending(InsertSorted(x, s))
    ensures forall k :: CountGe(InsertSorted(x, s), k) == (if x >= k then 1 else 0) + CountGe(s, k)
    ensures forall y :: y in InsertSorted(x, s) ==> y == x || y in s
  {
    if s != [] && x > s[0] {
      InsertKeepsOrder(x, s[1..]);
      var r := InsertSorted(x, s[1..]);
      assert InsertSorted(x, s) == [s[0]] + r;
      forall i | 0 <= i < |r| ensures s[0] <= r[i] {
        assert r[i] in r;
      }
      assert forall k :: CountGe([s[0]] + r, k) == (if s[0] >= k then 1 else 0) + CountGe(r, k) by {
        assert ([s[0]] + r)[1..] == r;
      }
    } else {
      assert ([x] + s)[1..] == s;
    }
  }

  lemma {:induction false} SortedCounts(voters: seq<NodeId>, matched: map<NodeId, LogIndex>, all: seq<NodeId>, k: nat)
    requires forall v :: v in voters ==> v in all
    ensures Ascending(SortedMatches(voters, matched))
    ensures CountGe(SortedMatches(voters, matched), k) == CountIn(voters, AtLeast(all, matched, k))
  {
    if voters != [] {
      SortedCounts(voters[1..], matched, all, k);
      InsertKeepsOrder(Matched(matched, voters[0]), SortedMatches(voters[1..], matched));
      assert voters[0] in all;
    }
  }

  lemma {:induction false} CountSplit(s: seq<nat>, k: nat, i: nat)
    requires Ascending(s) && i < |s|
    ensures s[i] >= k ==> CountGe(s, k) >= |s| - i
    ensures s[i] < k ==> CountGe(s, k) < |s| - i
  {
    if i == 0 {
      CountBounds(s, k);
    } else {
      assert s[1..][i - 1] == s[i];
      CountSplit(s[1..], k, i - 1);
    }
  }

  lemma {:induction false} CountBounds(s: seq<nat>, k: nat)
    requires Ascending(s) && s != []
    ensures CountGe(s, k) <= |s|
    ensures s[0] >= k ==> CountGe(s, k) == |s|
    ensures s[0] < k ==> CountGe(s, k) < |s|
  {
    if |s| > 1 {
      assert s[0] <= s[1] == s[1..][0];
      CountBounds(s[1..], k);
    } else {
      assert s[1..] == [];
    }
  }

  /** An index is held by a majority exactly when it does not exceed the sorted-watermark rule's answer. */
  lemma MajorityIndexExact(voters: seq<NodeId>, matched: map<NodeId, LogIndex>, k: LogIndex)
    requires voters != []
    ensures Majority(voters, AtLeast(voters, matched, k)) <==> k <= MajorityIndex(voters, matched)
  {
    SortedCounts(voters, matched, voters, k);
    var s := SortedMatches(voters, matched);
    CountSplit(s, k, |s| - (|s| / 2 + 1));
  }

  /** The replicated index is the greatest index a whole quorum of the configuration holds. */
  lemma ReplicatedIndexExact(config: VoterConfig, matched: map<NodeId, LogIndex>, k: LogIndex)
    requires ValidConfig(config)
    ensures HasQuorum(config, Holders(config, matched, k)) <==> k <= ReplicatedIndex(config, matched)
  {
    match config
    case Stable(voters) =>
      MajorityIndexExact(voters, matched, k);
      assert Holders(config, matched, k) == AtLeast(voters, matched, k);
    case Joint(o, n) =>
      MajorityIndexExact(o, matched, k);
      MajorityIndexExact(n, matched, k);
      var h := Holders(config, matched, k);
      CountMonotone(o, AtLeast(o, matched, k), h);
      CountMonotone(o, h, AtLeast(o, matched, k));
      CountMonotone(n, AtLeast(n, matched, k), h);
      CountMonotone(n, h, AtLeast(n, matched, k));
  }

  function AllVoters(config: VoterConfig): seq<NodeId> {
    match config
    case Stable(voters) => voters
    case Joint(o, n) => o + n
  }

  function Holders(config: VoterConfig, matched: map<NodeId, LogIndex>, k: LogIndex): set<NodeId> {
    AtLeast(AllVoters(config), matched, k)
  }
}
