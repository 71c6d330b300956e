/** Candidate ordering: local instances first, then remote ones on connected peers by load and node id. */
module Router {
  import opened Text
  import opened Sorting
  import opened RegistryModel
  import opened RegistryRuns

  datatype NodeLoad = NodeLoad(activeStreams: nat, errorRate: real)

  function LoadOf(loads: map<string, NodeLoad>, id: string): NodeLoad {
    if id in loads then loads[id] else NodeLoad(0, 0.0)
  }

  /** The order among remote instances; with no loads it is the order of node ids. */
  predicate LighterLoad(loads: map<string, NodeLoad>, a: Service, b: Service) {
    var la, lb := LoadOf(loads, a.nodeID), LoadOf(loads, b.nodeID);
    if la.errorRate != lb.errorRate then la.errorRate < lb.errorRate
    else if la.activeStreams != lb.activeStreams then la.activeStreams < lb.activeStreams
    else Less(a.nodeID, b.nodeID)
  }

  predicate Precedes(self: string, loads: map<string, NodeLoad>, a: Service, b: Service) {
    if a.nodeID == self || b.nodeID == self then a.nodeID == self && b.nodeID != self
    else LighterLoad(loads, a, b)
  }

  function ByLoad(loads: map<string, NodeLoad>): (Service, Service) -> bool {
    (a, b) => LighterLoad(loads, a, b)
  }

  function Priority(self: string, loads: map<string, NodeLoad>): (Service, Service) -> bool {
    (a, b) => Precedes(self, loads, a, b)
  }

  predicate ByNode(a: Service, b: Service) {
    Less(a.nodeID, b.nodeID)
  }

  predicate Routable(s: Service, self: string, peers: set<string>) {
    s.nodeID == self || s.nodeID in peers
  }

  /** `out` is a permutation of the routable instances in priority order. */
  ghost predicate IsCandidates(services: seq<Service>, self: string, peers: set<string>, loads: map<string, NodeLoad>,
                               out: seq<Service>) {
    && (forall s :: multiset(out)[s] == if Routable(s, self, peers) then multiset(services)[s] else 0)
    && Sorted(Priority(self, loads), out)
  }

  lemma ByLoadOrder(loads: map<string, NodeLoad>)
    ensures WeakOrder(ByLoad(loads))
  {
    LessIsStrictTotal();
  }

  lemma ByNodeOrder()
    ensures WeakOrder(ByNode)
  {
    LessIsStrictTotal();
  }

  lemma PriorityAsymmetric(self: string, loads: map<string, NodeLoad>)
    ensures Asymmetric(Priority(self, loads))
  {
    LessIsStrictTotal();
  }

  /** The two slices joined, local first, are in priority order. */
  lemma JoinedInOrder(self: string, loads: map<string, NodeLoad>, local: seq<Service>, remote: seq<Service>)
    requires forall i | 0 <= i < |local| :: local[i].nodeID == self
    requires forall i | 0 <= i < |remote| :: remote[i].nodeID != self
    requires Sorted(ByLoad(loads), remote)
    ensures Sorted(Priority(self, loads), local + remote)
  {
    var out := local + remote;
    forall i, j | 0 <= i < j < |out| ensures !Precedes(self, loads, out[j], out[i]) {
      if i >= |local| {
        assert !ByLoad(loads)(remote[j - |local|], remote[i - |local|]);
      }
    }
  }

  function IsLocal(self: string): Service -> bool {
    (s: Service) => s.nodeID == self
  }

  function IsReachable(self: string, peers: set<string>): Service -> bool {
    (s: Service) => s.nodeID != self && s.nodeID in peers
  }

  method Split(sorted: seq<Service>, self: string, peers: set<string>)
      returns (local: seq<Service>, remote: seq<Service>)
    ensures local == Filter(sorted, IsLocal(self))
    ensures remote == Filter(sorted, IsReachable(self, peers))
  {
    local, remote := [], [];
    for i := 0 to |sorted|
      invariant local == Filter(sorted[..i], IsLocal(self))
      invariant remote == Filter(sorted[..i], IsReachable(self, peers))
    {
      assert sorted[..i + 1][..i] == sorted[..i];
      if sorted[i].nodeID == self {
        local := local + [sorted[i]];
        continue;
      }
      if sorted[i].nodeID in peers {
        remote := remote + [sorted[i]];
      }
    }
    assert sorted[..|sorted|] == sorted;
  }

  lemma SplitFacts(sorted: seq<Service>, self: string, peers: set<string>)
    requires Sorted(ByNode, sorted)
    ensures var local, remote := Filter(sorted, IsLocal(self)), Filter(sorted, IsReachable(self, peers));
            && (forall s :: multiset(local + remote)[s] == if Routable(s, self, peers) then multiset(sorted)[s] else 0)
            && (forall i | 0 <= i < |local| :: local[i].nodeID == self)
            && (forall i | 0 <= i < |remote| :: remote[i].nodeID != self)
            && Sorted(ByNode, remote)
  {
    var local, remote := Filter(sorted, IsLocal(self)), Filter(sorted, IsReachable(self, peers));
    forall s ensures multiset(local + remote)[s] == if Routable(s, self, peers) then multiset(sorted)[s] else 0 {
      FilterCounts(sorted, IsLocal(self), s);
      FilterCounts(sorted, IsReachable(self, peers), s);
    }
    forall i | 0 <= i < |local| ensures local[i].nodeID == self { FilterKeeps(sorted, IsLocal(self), i); }
    forall i | 0 <= i < |remote| ensures remote[i].nodeID != self { FilterKeeps(sorted, IsReachable(self, peers), i); }
    FilterSorted(sorted, IsReachable(self, peers), ByNode);
  }

  /** With no loads, or fewer than two instances, node-id order already is load order. */
  lemma NodeOrderIsLoadOrder(loads: map<string, NodeLoad>, remote: seq<Service>)
    requires Sorted(ByNode, remote) && (loads == map[] || |remote| <= 1)
    ensures Sorted(ByLoad(loads), remote)
  {
    forall i, j | 0 <= i < j < |remote| ensures !ByLoad(loads)(remote[j], remote[i]) {
      assert !ByNode(remote[j], remote[i]);
    }
  }

  method Candidates(services: seq<Service>, self: string, connectedPeers: seq<string>, loads: map<string, NodeLoad>)
    returns (out: seq<Service>)
    ensures IsCandidates(services, self, Elems(connectedPeers), loads, out)
  {
    if |services| == 0 {
      return [];
    }
    var connected: set<string> := {};
    for i := 0 to |connectedPeers|
      invariant connected == Elems(connectedPeers[..i])
    {
      assert connectedPeers[..i + 1] == connectedPeers[..i] + [connectedPeers[i]];
      ElemsAppend(connectedPeers[..i], connectedPeers[i]);
      connected := connected + {connectedPeers[i]};
    }
    assert connectedPeers[..|connectedPeers|] == connectedPeers;
    ByNodeOrder();
    var sorted := Sort(services, ByNode);
    var local, remote := Split(sorted, self, connected);
    SplitFacts(sorted, self, connected);
    ghost var unordered := remote;
    if |loads| > 0 && |remote| > 1 {
      ByLoadOrder(loads);
      remote := Sort(remote, ByLoad(loads));
      PermutationFacts(unordered, remote);
      forall i | 0 <= i < |remote| ensures remote[i].nodeID != self {
        assert remote[i] in Elems(unordered);
      }
    } else {
      NodeOrderIsLoadOrder(loads, remote);
    }
    assert multiset(local + remote) == multiset(local + unordered);
    JoinedInOrder(self, loads, local, remote);
    out := local + remote;
  }

  /** ORDER. Every local instance goes before every remote one. Of two remote ones the earlier has the smaller error
      rate; or the same and fewer active streams; or both the same and an id that is not greater. A node without a known
      load counts as idle and without errors. */
  lemma CandidatesOrder(services: seq<Service>, self: string, peers: set<string>, loads: map<string, NodeLoad>,
                        out: seq<Service>, i: nat, j: nat)
    requires IsCandidates(services, self, peers, loads, out) && i < j < |out| && out[j].nodeID != self
    ensures out[i].nodeID == self ||
            var (a, b) := (out[i].nodeID, out[j].nodeID);
            var ea := if a in loads then loads[a].errorRate else 0.0;
            var eb := if b in loads then loads[b].errorRate else 0.0;
            var sa := if a in loads then loads[a].activeStreams else 0;
            var sb := if b in loads then loads[b].activeStreams else 0;
            ea < eb || (ea == eb && (sa < sb || (sa == sb && (Less(a, b) || a == b))))
  {
    assert !Priority(self, loads)(out[j], out[i]);
    LessTotal(out[i].nodeID, out[j].nodeID);
  }

  lemma LocalsFirst(services: seq<Service>, self: string, peers: set<string>, loads: map<string, NodeLoad>,
                    out: seq<Service>, i: nat, j: nat)
    requires IsCandidates(services, self, peers, loads, out) && i < |out| && j < |out|
    requires out[i].nodeID == self && out[j].nodeID != self
    ensures i < j
  {
    assert Priority(self, loads)(out[i], out[j]);
  }

  /** Exactly the instances at the node itself or at a connected peer, each as often as given. */
  lemma CandidatesExactly(services: seq<Service>, self: string, peers: set<string>, loads: map<string, NodeLoad>,
                          out: seq<Service>, s: Service)
    requires IsCandidates(services, self, peers, loads, out)
    ensures multiset(out)[s] == if s.nodeID == self || s.nodeID in peers then multiset(services)[s] else 0
    ensures s in out <==> s in services && (s.nodeID == self || s.nodeID in peers)
  {
    assert s in out <==> s in multiset(out);
    assert s in services <==> s in multiset(services);
  }

  // ---- Candidates over a lookup ----

  lemma LookupCandidatesElems(st: State, name: string, now: Time, found: seq<Service>, peers: set<string>,
                              loads: map<string, NodeLoad>, out: seq<Service>)
    requires IsFound(st, name, now, found) && IsCandidates(found, st.self, peers, loads, out)
    ensures Elems(out) == set s | s in Elems(found) && Routable(s, st.self, peers)
    ensures Distinct(out)
  {
    FoundDistinct(st, name, now, found);
    forall s ensures multiset(out)[s] <= 1 { DistinctCountsOnce(found, s); }
    CountsMakeDistinct(out);
    forall s ensures s in out <==> s in found && Routable(s, st.self, peers) {
      assert s in out <==> s in multiset(out);
      assert s in found <==> s in multiset(found);
    }
  }

  lemma DistinctNodesOrdered(st: State, now: Time, loads: map<string, NodeLoad>, a: Service, b: Service)
    requires Valid(st) && a in Live(st, now) && b in Live(st, now) && a.name == b.name && a != b
    ensures Precedes(st.self, loads, a, b) || Precedes(st.self, loads, b, a)
  {
    if a.nodeID == b.nodeID {
      DistinctPairs(st, now, a, b);
    }
    LessTotal(a.nodeID, b.nodeID);
  }

  /** Over the result of a lookup, candidates are exactly the live routable instances of the name, and
      strictly ordered: no two tie. */
  lemma LookupCandidatesStrict(st: State, name: string, now: Time, found: seq<Service>, peers: set<string>,
                               loads: map<string, NodeLoad>, out: seq<Service>)
    requires Valid(st) && IsFound(st, name, now, found) && IsCandidates(found, st.self, peers, loads, out)
    ensures StrictlySorted(Priority(st.self, loads), out)
    ensures Elems(out) == set s | s in Live(st, now) && s.name == name && Routable(s, st.self, peers)
  {
    LookupCandidatesElems(st, name, now, found, peers, loads, out);
    forall i, j | 0 <= i < |out| && 0 <= j < |out| && out[i] != out[j]
      ensures Priority(st.self, loads)(out[i], out[j]) || Priority(st.self, loads)(out[j], out[i])
    {
      assert out[i] in Elems(out) && out[j] in Elems(out);
      DistinctNodesOrdered(st, now, loads, out[i], out[j]);
    }
    SortedDistinctIsStrict(Priority(st.self, loads), out);
  }

  lemma FoundDistinct(st: State, name: string, now: Time, found: seq<Service>)
    requires IsFound(st, name, now, found)
    ensures Distinct(found)
  {
    ByNameThenNodeOrder();
  }

  lemma CountsMakeDistinct<T>(s: seq<T>)
    requires forall x :: multiset(s)[x] <= 1
    ensures Distinct(s)
  {
    forall i, j | 0 <= i < j < |s| ensures s[i] != s[j] {
      assert s == s[..j] + [s[j]] + s[j + 1..];
      assert multiset(s)[s[j]] == multiset(s[..j])[s[j]] + 1 + multiset(s[j + 1..])[s[j]];
      assert s[i] == s[..j][i] && s[i] in multiset(s[..j]);
    }
  }

  /** DETERMINISM. Whatever the map iteration order, the order of the peer list and the instability of sorting,
      candidates over a lookup are a function of the registry state, the peer set and the loads. */
  lemma CandidatesDetermined(st: State, name: string, now: Time, found1: seq<Service>, found2: seq<Service>,
                             peers1: seq<string>, peers2: seq<string>, loads: map<string, NodeLoad>,
                             out1: seq<Service>, out2: seq<Service>)
    requires Valid(st) && IsFound(st, name, now, found1) && IsFound(st, name, now, found2)
    requires Elems(peers1) == Elems(peers2)
    requires IsCandidates(found1, st.self, Elems(peers1), loads, out1)
    requires IsCandidates(found2, st.self, Elems(peers2), loads, out2)
    ensures out1 == out2
  {
    LookupCandidatesStrict(st, name, now, found1, Elems(peers1), loads, out1);
    LookupCandidatesStrict(st, name, now, found2, Elems(peers2), loads, out2);
    PriorityAsymmetric(st.self, loads);
    StrictlySortedUnique(Priority(st.self, loads), out1, out2);
  }
}
