/** The accepted peer address cache: every refresh is validated against the whole, so that under any
    interleaving of refreshes no two peers share a destination and none points back at this node. */
module AddressCache {
  import opened Types

  const MAX_DNS_ADDRESSES: nat := 16

  datatype Address = Address(ip: nat, port: nat)

  /** `canonical` folds aliases of one address, `allowed` is the destination policy, and `unspecified`
      recognises wildcard listeners. */
  datatype Config = Config(
    peers: map<NodeId, nat>,
    raftPort: nat,
    httpPort: nat,
    raftListen: Address,
    httpListen: Address,
    canonical: Address -> Address,
    allowed: Address -> bool,
    unspecified: Address -> bool)

  /** Addresses by peer, and this node's own advertisements. */
  datatype Resolved = Resolved(peers: seq<(NodeId, seq<Address>)>, raft: seq<Address>, http: seq<Address>)

  function Canon(config: Config, addresses: seq<Address>): set<Address> {
    set i | 0 <= i < |addresses| :: config.canonical(addresses[i])
  }

  predicate CandidatesOk(config: Config, port: nat, addresses: seq<Address>) {
    0 < |addresses| <= MAX_DNS_ADDRESSES
    && forall i :: 0 <= i < |addresses| ==> addresses[i].port == port && config.allowed(addresses[i])
  }

  function Listeners(config: Config): set<Address> {
    (if config.unspecified(config.raftListen) then {} else {config.canonical(config.raftListen)})
    + (if config.unspecified(config.httpListen) then {} else {config.canonical(config.httpListen)})
  }

  /** The advertisements do not point at this node's other protocol. */
  predicate ServicesApart(config: Config, raft: seq<Address>, http: seq<Address>) {
    && Canon(config, raft) !! Canon(config, http)
    && (config.unspecified(config.httpListen) || config.canonical(config.httpListen) !in Canon(config, raft))
    && (config.unspecified(config.raftListen) || config.canonical(config.raftListen) !in Canon(config, http))
  }

  function Local(config: Config, s: Resolved): set<Address> {
    Listeners(config) + Canon(config, s.raft) + Canon(config, s.http)
  }

  predicate PeerOk(config: Config, local: set<Address>, peer: (NodeId, seq<Address>)) {
    peer.0 in config.peers && CandidatesOk(config, config.peers[peer.0], peer.1) && Canon(config, peer.1) !! local
  }

  predicate PeersApart(config: Config, peers: seq<(NodeId, seq<Address>)>) {
    forall i, j :: 0 <= i < j < |peers| ==>
      peers[i].0 != peers[j].0 && Canon(config, peers[i].1) !! Canon(config, peers[j].1)
  }

  predicate OwnOk(config: Config, s: Resolved) {
    CandidatesOk(config, config.raftPort, s.raft) && CandidatesOk(config, config.httpPort, s.http)
      && ServicesApart(config, s.raft, s.http)
  }

  /** Peer destinations are pairwise disjoint and disjoint from local services; a complete snapshot has every
      configured peer. */
  ghost predicate ValidSnapshot(config: Config, s: Resolved, complete: bool) {
    && OwnOk(config, s)
    && AllPeersOk(config, Local(config, s), s.peers)
    && PeersApart(config, s.peers)
    && (complete ==> Ids(s.peers) == config.peers.Keys)
  }

  // ---------------------------------------------------------------- validation

  /** The candidates without aliases of earlier ones. */
  method CheckCandidates(config: Config, port: nat, addresses: seq<Address>) returns (r: Option<seq<Address>>)
    ensures r.Some? <==> CandidatesOk(config, port, addresses)
    ensures r.Some? ==> (forall a :: a in r.value <==> a in Canon(config, addresses))
    ensures r.Some? ==> forall i, j :: 0 <= i < j < |r.value| ==> r.value[i] != r.value[j]
  {
    if addresses == [] || |addresses| > MAX_DNS_ADDRESSES { return None; }
    var seen: set<Address>, unique: seq<Address> := {}, [];
    var n := 0;
    while n < |addresses|
      invariant n <= |addresses| && seen == Canon(config, addresses[..n])
      invariant (forall a :: a in unique <==> a in seen)
        && forall i, j :: 0 <= i < j < |unique| ==> unique[i] != unique[j]
      invariant forall i :: 0 <= i < n ==> addresses[i].port == port && config.allowed(addresses[i])
    {
      var address := addresses[n];
      if address.port != port || !config.allowed(address) { return None; }
      CanonSnoc(config, addresses, n);
      if config.canonical(address) !in seen {
        seen, unique := seen + {config.canonical(address)}, unique + [config.canonical(address)];
      }
      n := n + 1;
    }
    assert addresses[..n] == addresses;
    r := Some(unique);
  }

  lemma CanonSnoc(config: Config, addresses: seq<Address>, n: nat)
    requires n < |addresses|
    ensures Canon(config, addresses[..n + 1]) == Canon(config, addresses[..n]) + {config.canonical(addresses[n])}
  {
    assert addresses[..n + 1][n] == addresses[n]
      && forall i :: 0 <= i < n ==> addresses[..n + 1][i] == addresses[..n][i];
  }

  function Destinations(config: Config, peers: seq<(NodeId, seq<Address>)>): set<Address> {
    set i, a | 0 <= i < |peers| && a in Canon(config, peers[i].1) :: a
  }

  function Ids(peers: seq<(NodeId, seq<Address>)>): set<NodeId> {
    set i | 0 <= i < |peers| :: peers[i].0
  }

  lemma PeersSnoc(config: Config, peers: seq<(NodeId, seq<Address>)>, n: nat)
    requires n < |peers|
    ensures Ids(peers[..n + 1]) == Ids(peers[..n]) + {peers[n].0}
    ensures Destinations(config, peers[..n + 1]) == Destinations(config, peers[..n]) + Canon(config, peers[n].1)
    ensures PeersApart(config, peers[..n + 1]) <==>
      PeersApart(config, peers[..n]) && peers[n].0 !in Ids(peers[..n])
        && Canon(config, peers[n].1) !! Destinations(config, peers[..n])
  {
    var before, after := peers[..n], peers[..n + 1];
    assert after[n] == peers[n] && forall i :: 0 <= i < n ==> after[i] == before[i];
    if PeersApart(config, after) {
      forall a | a in Destinations(config, before) ensures a !in Canon(config, peers[n].1) {
        var i :| 0 <= i < |before| && a in Canon(config, before[i].1);
        assert Canon(config, after[i].1) !! Canon(config, after[n].1);
      }
    }
    if PeersApart(config, before) && peers[n].0 !in Ids(before)
       && Canon(config, peers[n].1) !! Destinations(config, before) {
      forall i, j | 0 <= i < j < |after|
        ensures after[i].0 != after[j].0 && Canon(config, after[i].1) !! Canon(config, after[j].1)
      {
        assert before[i].0 in Ids(before);
        assert forall a :: a in Canon(config, before[i].1) ==> a in Destinations(config, before);
      }
    }
  }

  /** Parts of a disjoint family stay disjoint. */
  lemma PeersApartPrefix(config: Config, peers: seq<(NodeId, seq<Address>)>, n: nat)
    requires PeersApart(config, peers) && n <= |peers|
    ensures PeersApart(config, peers[..n])
  {
  }

  /** One peer's candidates: accepted iff none aliases this node or an earlier destination. */
  method CheckPeer(config: Config, local: set<Address>, destinations: set<Address>, peer: (NodeId, seq<Address>))
    returns (r: Option<set<Address>>)
    requires peer.0 in config.peers
    ensures r.Some? <==> PeerOk(config, local, peer) && Canon(config, peer.1) !! destinations
    ensures r.Some? ==> r.value == destinations + Canon(config, peer.1)
  {
    var unique := CheckCandidates(config, config.peers[peer.0], peer.1);
    if unique.None? { return None; }
    var grown, n := destinations, 0;
    while n < |unique.value|
      invariant n <= |unique.value| && grown == destinations + set i | 0 <= i < n :: unique.value[i]
      invariant forall i :: 0 <= i < n ==> unique.value[i] !in local && unique.value[i] !in destinations
    {
      var address := unique.value[n];
      assert address in unique.value;
      if address in local || address in grown { return None; }
      grown := grown + {address};
      n := n + 1;
    }
    assert forall a :: a in Canon(config, peer.1) ==> a in unique.value;
    assert grown == destinations + Canon(config, peer.1);
    r := Some(grown);
  }

  ghost predicate AllPeersOk(config: Config, local: set<Address>, peers: seq<(NodeId, seq<Address>)>) {
    forall i {:trigger PeerOk(config, local, peers[i])} :: 0 <= i < |peers| ==> PeerOk(config, local, peers[i])
  }

  /** All peers, against growing sets of ids and destinations; the result counts them. */
  method CheckPeers(config: Config, local: set<Address>, peers: seq<(NodeId, seq<Address>)>) returns (r: Option<nat>)
    ensures r.Some? <==> AllPeersOk(config, local, peers) && PeersApart(config, peers)
    ensures r.Some? ==> r.value == |peers|
  {
    var ids: set<NodeId>, destinations: set<Address> := {}, {};
    var n := 0;
    while n < |peers|
      invariant n <= |peers| && ids == Ids(peers[..n]) && destinations == Destinations(config, peers[..n])
      invariant PeersApart(config, peers[..n]) && |ids| == n && AllPeersOk(config, local, peers[..n])
    {
      var peer := peers[n];
      PeersSnoc(config, peers, n);
      if peer.0 !in config.peers || peer.0 in ids {
        BadPeer(config, local, peers, n);
        return None;
      }
      var grown := CheckPeer(config, local, destinations, peer);
      if grown.None? {
        BadPeer(config, local, peers, n);
        return None;
      }
      OkSnoc(config, local, peers, n);
      ids, destinations := ids + {peer.0}, grown.value;
      n := n + 1;
    }
    assert peers[..n] == peers;
    r := Some(|ids|);
  }

  lemma OkSnoc(config: Config, local: set<Address>, peers: seq<(NodeId, seq<Address>)>, n: nat)
    requires n < |peers| && AllPeersOk(config, local, peers[..n]) && PeerOk(config, local, peers[n])
    ensures AllPeersOk(config, local, peers[..n + 1])
  {
    var before, after := peers[..n], peers[..n + 1];
    forall i | 0 <= i < |after| ensures PeerOk(config, local, after[i]) {
      assert i < n ==> after[i] == before[i] && PeerOk(config, local, before[i]);
    }
  }

  lemma BadPeer(config: Config, local: set<Address>, peers: seq<(NodeId, seq<Address>)>, n: nat)
    requires n < |peers| && (!PeerOk(config, local, peers[n]) || !PeersApart(config, peers[..n + 1]))
    ensures !(AllPeersOk(config, local, peers) && PeersApart(config, peers))
  {
    if PeersApart(config, peers) { PeersApartPrefix(config, peers, n + 1); }
  }

  lemma {:induction false} IdsSize(peers: seq<(NodeId, seq<Address>)>)
    requires forall i, j :: 0 <= i < j < |peers| ==> peers[i].0 != peers[j].0
    ensures |Ids(peers)| == |peers|
  {
    if peers != [] {
      var n := |peers| - 1;
      IdsSize(peers[..n]);
      assert Ids(peers) == Ids(peers[..n]) + {peers[n].0} by {
        forall id | id in Ids(peers) ensures id in Ids(peers[..n]) + {peers[n].0} {
          var i :| 0 <= i < |peers| && peers[i].0 == id;
          assert i < n ==> peers[..n][i].0 == id;
        }
        forall id | id in Ids(peers[..n]) ensures id in Ids(peers) {
          var i :| 0 <= i < n && peers[..n][i].0 == id;
          assert peers[i].0 == id;
        }
      }
    }
  }

  lemma {:induction false} SameSize(a: set<NodeId>, b: set<NodeId>)
    requires a <= b && |a| == |b|
    ensures a == b
  {
    if a != {} {
      var x :| x in a;
      SameSize(a - {x}, b - {x});
    }
  }

  /** Counting distinct configured peers decides whether all of them are there. */
  lemma CountIsComplete(config: Config, local: set<Address>, peers: seq<(NodeId, seq<Address>)>)
    requires AllPeersOk(config, local, peers) && PeersApart(config, peers)
    ensures |peers| == |config.peers| <==> Ids(peers) == config.peers.Keys
  {
    IdsSize(peers);
    assert |config.peers.Keys| == |config.peers|;
    forall id | id in Ids(peers) ensures id in config.peers {
      var i :| 0 <= i < |peers| && peers[i].0 == id;
      assert PeerOk(config, local, peers[i]);
    }
    if |peers| == |config.peers| { SameSize(Ids(peers), config.peers.Keys); }
  }

  method Validate(config: Config, s: Resolved, complete: bool) returns (ok: bool)
    ensures ok <==> ValidSnapshot(config, s, complete)
  {
    var raft := CheckCandidates(config, config.raftPort, s.raft);
    if raft.None? { return false; }
    var http := CheckCandidates(config, config.httpPort, s.http);
    if http.None? || !ServicesApart(config, s.raft, s.http) { return false; }
    var count := CheckPeers(config, Local(config, s), s.peers);
    if count.None? { return false; }
    CountIsComplete(config, Local(config, s), s.peers);
    return !(complete && count.value != |config.peers|);
  }

  // ---------------------------------------------------------------- refreshes

  datatype Verdict = Accepted(addresses: seq<Address>) | Invalid | CachedConflict | StaleSnapshot

  function Position(peers: seq<(NodeId, seq<Address>)>, id: NodeId): (r: Option<nat>)
    ensures r.Some? ==> r.value < |peers| && peers[r.value].0 == id
    ensures r.None? ==> forall i :: 0 <= i < |peers| ==> peers[i].0 != id
  {
    if peers == [] then None
    else if peers[0].0 == id then Some(0)
    else
      var rest := Position(peers[1..], id);
      if rest.None? then None else Some(rest.value + 1)
  }

  /** Every configured peer has its place in a complete snapshot, so a refresh of one never finds it absent. */
  lemma {:induction false} NeverAbsent(config: Config, s: Resolved, id: NodeId)
    requires ValidSnapshot(config, s, true)
    ensures Position(s.peers, id).Some? <==> id in config.peers
  {
    assert id in Ids(s.peers) <==> exists i :: 0 <= i < |s.peers| && s.peers[i].0 == id;
  }

  /** The cache with one peer and this node's advertisements replaced. */
  function Merged(cache: Resolved, update: Resolved, at: nat): Resolved
    requires |update.peers| == 1 && at < |cache.peers|
  {
    Resolved(cache.peers[at := (cache.peers[at].0, update.peers[0].1)], update.raft, update.http)
  }

  /** The updated peer has the fresh addresses, this node the fresh advertisements, all else is as it was. */
  predicate Replaced(cache: Resolved, update: Resolved, now: Resolved) {
    && |update.peers| == 1 && now.raft == update.raft && now.http == update.http && |now.peers| == |cache.peers|
    && forall i :: 0 <= i < |cache.peers| ==>
         now.peers[i] == if cache.peers[i].0 == update.peers[0].0 then update.peers[0] else cache.peers[i]
  }

  lemma MergedIds(cache: Resolved, update: Resolved, at: nat)
    requires |update.peers| == 1 && at < |cache.peers|
    ensures Ids(Merged(cache, update, at).peers) == Ids(cache.peers)
  {
    var m := Merged(cache, update, at);
    assert forall i :: 0 <= i < |m.peers| ==> m.peers[i].0 == cache.peers[i].0;
  }

  /** A fresh address, of the peer or of this node, coincides with another cached peer's. */
  ghost predicate Collides(config: Config, cache: Resolved, update: Resolved, at: nat) {
    |update.peers| == 1 && at < |cache.peers| &&
    exists j :: 0 <= j < |cache.peers| && j != at
      && !(Canon(config, cache.peers[j].1)
           !! Canon(config, update.peers[0].1) + Canon(config, update.raft) + Canon(config, update.http))
  }

  lemma CollisionInvalid(config: Config, cache: Resolved, update: Resolved, at: nat)
    requires |update.peers| == 1 && at < |cache.peers| && Collides(config, cache, update, at)
    ensures !ValidSnapshot(config, Merged(cache, update, at), true)
  {
    var m := Merged(cache, update, at);
    var own := Canon(config, update.peers[0].1);
    assert Local(config, m) == Local(config, update);
    var j :| 0 <= j < |cache.peers| && j != at
      && !(Canon(config, cache.peers[j].1) !! own + Canon(config, update.raft) + Canon(config, update.http));
    assert m.peers[j] == cache.peers[j] && m.peers[at].1 == update.peers[0].1;
    assert PeersApart(config, m.peers) ==> Canon(config, m.peers[j].1) !! Canon(config, m.peers[at].1);
    assert AllPeersOk(config, Local(config, m), m.peers) ==> PeerOk(config, Local(config, m), m.peers[j]);
  }

  lemma ApartValid(config: Config, cache: Resolved, update: Resolved, at: nat)
    requires ValidSnapshot(config, cache, true) && ValidSnapshot(config, update, false)
    requires |update.peers| == 1 && at < |cache.peers| && cache.peers[at].0 == update.peers[0].0
    requires !Collides(config, cache, update, at)
    ensures ValidSnapshot(config, Merged(cache, update, at), true)
  {
    var m := Merged(cache, update, at);
    assert PeerOk(config, Local(config, update), update.peers[0]);
    assert Local(config, m) == Local(config, update);
    MergedIds(cache, update, at);
    forall i | 0 <= i < |m.peers| ensures PeerOk(config, Local(config, m), m.peers[i]) {
      assert PeerOk(config, Local(config, cache), cache.peers[i]);
    }
    forall i, j | 0 <= i < j < |m.peers|
      ensures m.peers[i].0 != m.peers[j].0 && Canon(config, m.peers[i].1) !! Canon(config, m.peers[j].1)
    {
      assert cache.peers[i].0 != cache.peers[j].0
        && Canon(config, cache.peers[i].1) !! Canon(config, cache.peers[j].1);
    }
  }

  /** Merging two valid snapshots fails exactly on such a collision. */
  lemma MergeExact(config: Config, cache: Resolved, update: Resolved, at: nat)
    requires ValidSnapshot(config, cache, true) && ValidSnapshot(config, update, false)
    requires |update.peers| == 1 && at < |cache.peers| && cache.peers[at].0 == update.peers[0].0
    ensures ValidSnapshot(config, Merged(cache, update, at), true) <==> !Collides(config, cache, update, at)
  {
    if Collides(config, cache, update, at) {
      CollisionInvalid(config, cache, update, at);
    } else {
      ApartValid(config, cache, update, at);
    }
  }

  /** A valid refresh of one peer. */
  ghost predicate Refreshes(config: Config, update: Resolved) {
    |update.peers| == 1 && ValidSnapshot(config, update, false)
  }

  /** A single-peer refresh that is valid by itself but collides with another cached peer. */
  ghost predicate Conflicts(config: Config, cache: Resolved, update: Resolved) {
    |update.peers| == 1 && ValidSnapshot(config, update, false) &&
    exists at ::
      0 <= at < |cache.peers| && cache.peers[at].0 == update.peers[0].0 && Collides(config, cache, update, at)
  }

  /** The shared cache. Refreshes are serialised, but may be computed from anything at any time. */
  class Cache {
    const config: Config
    var accepted: Resolved

    /** Complete, peers pairwise disjoint and disjoint from local services. */
    ghost predicate Valid()
      reads this
    {
      ValidSnapshot(config, accepted, true)
    }

    constructor (config: Config, first: Resolved)
      requires ValidSnapshot(config, first, true)
      ensures Valid() && this.config == config && accepted == first
    {
      this.config, accepted := config, first;
    }

    /** Replace one peer. A conflict is reported only when a fresh address truly collides with another
        cached peer; a failure leaves the cache as it was. */
    method AcceptPeer(update: Resolved) returns (v: Verdict)
      requires Valid()
      modifies this
      ensures Valid()
      ensures v.Accepted? <==> Refreshes(config, update) && !Conflicts(config, old(accepted), update)
      ensures v.Accepted? ==> v.addresses == update.peers[0].1
      ensures v.Accepted? ==> Replaced(old(accepted), update, accepted)
      ensures !v.Accepted? ==> accepted == old(accepted)
      ensures v.CachedConflict? <==> Conflicts(config, old(accepted), update)
      ensures !v.StaleSnapshot?
    {
      if |update.peers| != 1 { return Invalid; }
      var ok := Validate(config, update, false);
      if !ok { return Invalid; }
      ok := Validate(config, accepted, true);
      if !ok { return Invalid; }
      var at := Position(accepted.peers, update.peers[0].0);
      assert PeerOk(config, Local(config, update), update.peers[0]);
      NeverAbsent(config, accepted, update.peers[0].0);
      var merged := Merged(accepted, update, at.value);
      MergeExact(config, accepted, update, at.value);
      OnePosition(config, accepted, update.peers[0].0, at.value);
      ok := Validate(config, merged, true);
      if !ok { return CachedConflict; }
      assert Replaced(accepted, update, merged);
      accepted := merged;
      return Accepted(update.peers[0].1);
    }

    /** Replace everything, but only if nothing was accepted since the caller looked. */
    method AcceptSnapshot(expected: Resolved, update: Resolved, peer: NodeId) returns (v: Verdict)
      requires Valid()
      modifies this
      ensures Valid()
      ensures v.Accepted? <==> ValidSnapshot(config, update, true) && old(accepted) == expected && peer in config.peers
      ensures v.Accepted? ==> accepted == update && (peer, v.addresses) in update.peers
      ensures !v.Accepted? ==> accepted == old(accepted)
      ensures v.StaleSnapshot? <==> ValidSnapshot(config, update, true) && old(accepted) != expected
    {
      var ok := Validate(config, update, true);
      if !ok { return Invalid; }
      if accepted != expected { return StaleSnapshot; }
      NeverAbsent(config, update, peer);
      var at := Position(update.peers, peer);
      if at.None? { return Invalid; }
      accepted := update;
      return Accepted(update.peers[at.value].1);
    }
  }

  lemma OnePosition(config: Config, s: Resolved, id: NodeId, at: nat)
    requires PeersApart(config, s.peers) && at < |s.peers| && s.peers[at].0 == id
    ensures forall i :: 0 <= i < |s.peers| && s.peers[i].0 == id ==> i == at
  {
    forall i | 0 <= i < |s.peers| && i != at ensures s.peers[i].0 != id {
      assert if i < at then s.peers[i].0 != s.peers[at].0 else s.peers[at].0 != s.peers[i].0;
    }
  }
}
