/** Whole runs of one registry: what every reachable state satisfies, what listings mean, and
    when two emitted service ids can coincide. */
module RegistryRuns {
  import opened Text
  import opened Sorting
  import opened RegistryModel

  datatype Op =
    | DoRegister(name: string, host: string, port: nat, labels: map<string, string>, now: Time)
    | DoDeregister(name: string, now: Time)
    | DoMerge(msg: LocalState, now: Time)
    | DoRead(now: Time)   // List, FindByName and Prune all drop expired entries

  function Apply(st: State, op: Op): State {
    match op
    case DoRegister(name, host, port, labels, now) => Register(st, name, host, port, labels, now)
    case DoDeregister(name, _) => Deregister(st, name)
    case DoMerge(msg, now) => Merge(st, msg, now)
    case DoRead(now) => Pruned(st, now)
  }

  /** The announcement an operation produces: a service, a tombstone, or nothing. */
  function Emits(st: State, op: Op): seq<Service> {
    match op
    case DoRegister(name, host, port, labels, now) => [NewEntry(st, name, host, port, labels, now)]
    case DoDeregister(name, now) => if name in st.local then [Tombstone(st, name, now)] else []
    case DoMerge(_, _) => []
    case DoRead(_) => []
  }

  function Run(self: string, ops: seq<Op>): State {
    if ops == [] then New(self) else Apply(Run(self, ops[..|ops| - 1]), ops[|ops| - 1])
  }

  function Log(self: string, ops: seq<Op>): seq<Service> {
    if ops == [] then []
    else Log(self, ops[..|ops| - 1]) + Emits(Run(self, ops[..|ops| - 1]), ops[|ops| - 1])
  }

  // ---- Every reachable state is consistent ----

  lemma {:induction false} InsertAllValid(table: map<string, Service>, owner: string, services: seq<Service>,
                                          now: Time, self: string)
    requires WellKeyed(table) && owner != self && owner != ""
    requires forall k | k in table :: table[k].nodeID != self && table[k].nodeID != "" && table[k].ttlSec != 0
    ensures var t := InsertAll(table, owner, services, now).0;
            WellKeyed(t) && forall k | k in t :: t[k].nodeID != self && t[k].nodeID != "" && t[k].ttlSec != 0
  {
    if services != [] {
      InsertAllValid(table, owner, services[..|services| - 1], now, self);
    }
  }

  lemma ApplyKeepsValid(st: State, op: Op)
    requires Valid(st)
    ensures Valid(Apply(st, op)) && Apply(st, op).self == st.self
  {
    if op.DoMerge? && op.msg.nodeID != st.self && op.msg.nodeID != "" {
      InsertAllValid(st.remote, op.msg.nodeID, op.msg.services, op.now, st.self);
    }
  }

  /** In every run each remote key is the key of its entry and no remote entry carries the node's own id. */
  lemma {:induction false} AlwaysValid(self: string, ops: seq<Op>)
    ensures Valid(Run(self, ops)) && Run(self, ops).self == self
  {
    if ops != [] {
      AlwaysValid(self, ops[..|ops| - 1]);
      ApplyKeepsValid(Run(self, ops[..|ops| - 1]), ops[|ops| - 1]);
    }
  }

  // ---- Expiry ----

  /** The largest time to live, in seconds, that a 64-bit count of nanoseconds can hold. */
  const MAX_TTL_SEC := 9_223_372_036

  /** Up to that limit an entry expires exactly when its time to live has passed; zero and negative ones never do. */
  lemma ExpiryExactly(s: Service, now: Time)
    requires -MAX_TTL_SEC <= s.ttlSec <= MAX_TTL_SEC
    ensures Expired(s, now) <==> s.ttlSec > 0 && now - s.announced > s.ttlSec * 1_000_000_000
  {
    var n := s.ttlSec * SECOND;
    assert 0 <= n + TWO_63 < TWO_64;
    SmallModulo(n + TWO_63);
  }

  lemma SmallModulo(n: nat)
    requires n < TWO_64
    ensures n % TWO_64 == n
  {
  }

  lemma WrapAround(n: int, q: int)
    requires -TWO_63 <= n - q * TWO_64 < TWO_63
    ensures Wrap64(n) == n - q * TWO_64
  {
    var r := n - q * TWO_64 + TWO_63;
    assert n + TWO_63 == q * TWO_64 + r;
    QuotientRemainder(n + TWO_63, q, r);
  }

  lemma QuotientRemainder(a: int, q: int, r: int)
    requires a == q * TWO_64 + r && 0 <= r < TWO_64
    ensures a % TWO_64 == r
  {
  }

  lemma LifetimeBounds(s: Service)
    ensures -TWO_63 <= Lifetime(s) < TWO_63
  {
  }

  /** EXPIRY, EXACTLY. A positive time to live is honoured at every instant if and only if it fits. */
  lemma TtlHonouredExactly(s: Service)
    requires s.ttlSec > 0
    ensures (forall now :: Expired(s, now) <==> now - s.announced > s.ttlSec * 1_000_000_000) <==>
            s.ttlSec <= MAX_TTL_SEC
  {
    if s.ttlSec <= MAX_TTL_SEC {
      forall now ensures Expired(s, now) <==> now - s.announced > s.ttlSec * 1_000_000_000 { ExpiryExactly(s, now); }
    } else {
      LifetimeBounds(s);
      var ttl := s.ttlSec * SECOND;
      assert ttl > Lifetime(s);
      var now := s.announced + ttl;
      if Lifetime(s) > 0 {
        assert Expired(s, now) && !(now - s.announced > ttl);
      } else {
        assert !Expired(s, now + 1) && now + 1 - s.announced > ttl;
      }
    }
  }

  /** An entry never expires exactly when its wrapped lifetime is not positive, */
  lemma NeverExpiresExactly(s: Service)
    ensures (forall now :: !Expired(s, now)) <==> Lifetime(s) <= 0
  {
    if Lifetime(s) > 0 {
      assert Expired(s, s.announced + Lifetime(s) + 1);
    }
  }

  /** that is, when its nanoseconds modulo 2^64 are zero or in the upper half. */
  lemma LifetimeSign(s: Service)
    ensures var r := s.ttlSec * SECOND % TWO_64; Lifetime(s) <= 0 <==> r == 0 || r >= TWO_63
  {
    var n := s.ttlSec * SECOND;
    var q, r := n / TWO_64, n % TWO_64;
    assert n == q * TWO_64 + r;
    if r < TWO_63 {
      WrapAround(n, q);
    } else {
      WrapAround(n, q + 1);
    }
  }

  /** Both failures happen: one second above the range an entry never expires, and a time to live of about 584
      years is over in less than a second. */
  lemma OverlongTtls(s: Service)
    ensures s.ttlSec == MAX_TTL_SEC + 1 ==> forall now :: !Expired(s, now)
    ensures s.ttlSec == 18_446_744_074 ==> forall now :: Expired(s, now) <==> now - s.announced > 290_448_384
  {
    if s.ttlSec == MAX_TTL_SEC + 1 || s.ttlSec == 18_446_744_074 {
      WrapAround(s.ttlSec * SECOND, 1);
    }
  }

  // ---- Listings ----

  lemma DistinctPairs(st: State, now: Time, a: Service, b: Service)
    requires Valid(st) && a in Live(st, now) && b in Live(st, now)
    requires a.name == b.name && a.nodeID == b.nodeID
    ensures a == b
  {
  }

  /** A listing depends on the state and the instant alone, and so does a lookup by name. */
  lemma ListingUnique(st: State, now: Time, out1: seq<Service>, out2: seq<Service>)
    requires IsListing(st, now, out1) && IsListing(st, now, out2)
    ensures out1 == out2
  {
    ByNameThenNodeOrder();
    StrictlySortedUnique(ByNameThenNode, out1, out2);
  }

  lemma FoundUnique(st: State, name: string, now: Time, out1: seq<Service>, out2: seq<Service>)
    requires IsFound(st, name, now, out1) && IsFound(st, name, now, out2)
    ensures out1 == out2
  {
    ByNameThenNodeOrder();
    StrictlySortedUnique(ByNameThenNode, out1, out2);
  }

  /** A listing is ordered by name, and within a name by node id. */
  lemma ListingOrder(st: State, now: Time, out: seq<Service>, i: nat, j: nat)
    requires IsListing(st, now, out) && i < j < |out|
    ensures Less(out[i].name, out[j].name) || (out[i].name == out[j].name && Less(out[i].nodeID, out[j].nodeID))
  {
    assert ByNameThenNode(out[i], out[j]);
  }

  /** It holds the node's own services and the unexpired remote ones, and nothing else. */
  lemma ListingContents(st: State, now: Time, out: seq<Service>, s: Service)
    requires IsListing(st, now, out)
    ensures s in out <==> s in st.local.Values || exists k :: k in st.remote && st.remote[k] == s && !Expired(s, now)
  {
    assert s in out <==> s in Elems(out);
    if k :| k in st.remote && st.remote[k] == s && !Expired(s, now) {
      assert PruneTable(st.remote, now)[k] == s;
    }
  }

  /** A lookup is ordered by node id; a snapshot by name. */
  lemma FoundOrder(st: State, name: string, now: Time, out: seq<Service>, i: nat, j: nat)
    requires IsFound(st, name, now, out) && i < j < |out|
    ensures out[i].name == out[j].name == name && Less(out[i].nodeID, out[j].nodeID)
  {
    assert out[i] in Elems(out) && out[j] in Elems(out);
    assert ByNameThenNode(out[i], out[j]);
  }

  lemma SnapshotOrder(st: State, snap: LocalState, i: nat, j: nat)
    requires IsSnapshot(st, snap) && i < j < |snap.services|
    ensures Less(snap.services[i].name, snap.services[j].name)
  {
    assert ByName(snap.services[i], snap.services[j]);
  }

  /** Listing equals listing after pruning at the same instant. */
  lemma ListingIgnoresPruning(st: State, now: Time, out: seq<Service>)
    ensures IsListing(st, now, out) <==> IsListing(Pruned(st, now), now, out)
  {
    assert PruneTable(PruneTable(st.remote, now), now) == PruneTable(st.remote, now);
  }

  /** In a listing, an entry under the node's own id is exactly the entry of the local map. */
  lemma OwnEntriesAreLocal(st: State, now: Time, out: seq<Service>, name: string)
    requires Valid(st) && IsListing(st, now, out)
    ensures forall s | s in out && s.name == name && s.nodeID == st.self :: name in st.local && s == st.local[name]
    ensures name in st.local ==> st.local[name] in out
  {
    forall s | s in out && s.name == name && s.nodeID == st.self
      ensures name in st.local && s == st.local[name]
    {
      assert s in Elems(out);
    }
    if name in st.local {
      assert st.local[name] in Elems(out);
    }
  }

  // ---- Service ids ----

  function Count(log: seq<Service>, name: string): nat {
    if log == [] then 0
    else Count(log[..|log| - 1], name) + (if log[|log| - 1].name == name then 1 else 0)
  }

  /** The how-manieth announcement for its name `log[i]` is, counting from one. */
  function Rank(log: seq<Service>, i: nat): nat
    requires i < |log|
  {
    Count(log[..i + 1], log[i].name)
  }

  lemma {:induction false} CountGrows(log: seq<Service>, i: nat, j: nat, name: string)
    requires i <= j <= |log|
    ensures Count(log[..i], name) <= Count(log[..j], name) <= Count(log[..i], name) + j - i
    decreases j
  {
    if i < j {
      assert log[..j][..j - 1] == log[..j - 1];
      CountGrows(log, i, j - 1, name);
    }
  }

  lemma RankBounds(log: seq<Service>, i: nat)
    requires i < |log|
    ensures 1 <= Rank(log, i) <= Count(log, log[i].name)
  {
    assert log[..i + 1][..i] == log[..i];
    assert log[..|log|] == log;
    CountGrows(log, i + 1, |log|, log[i].name);
  }

  lemma RankDistinguishes(log: seq<Service>, i: nat, j: nat)
    requires i < j < |log| && log[i].name == log[j].name
    ensures Rank(log, i) < Rank(log, j)
  {
    assert log[..j + 1][..j] == log[..j];
    CountGrows(log, i + 1, j, log[i].name);
  }

  ghost predicate CountersLogged(version: map<string, nat>, log: seq<Service>) {
    forall x :: (if x in version then version[x] else 0) == Count(log, x) % TWO_64
  }

  ghost predicate EntryLogged(self: string, log: seq<Service>, i: nat)
    requires i < |log|
  {
    && log[i].nodeID == self
    && log[i].version == Rank(log, i) % TWO_64
    && log[i].serviceID == ServiceID(self, log[i].name, log[i].version)
  }

  /** Ties a log of announcements to the registry that produced it. */
  ghost predicate Logged(st: State, log: seq<Service>) {
    CountersLogged(st.version, log) && forall i | 0 <= i < |log| :: EntryLogged(st.self, log, i)
  }

  lemma SuccessorModulo(c: nat)
    ensures (c % TWO_64 + 1) % TWO_64 == (c + 1) % TWO_64
  {
  }

  lemma CountOne(log: seq<Service>, e: Service, x: string)
    ensures Count(log + [e], x) == Count(log, x) + if x == e.name then 1 else 0
  {
    assert (log + [e])[..|log|] == log;
  }

  lemma RankKept(log: seq<Service>, e: Service, i: nat)
    requires i < |log|
    ensures Rank(log + [e], i) == Rank(log, i)
  {
    assert (log + [e])[..i + 1] == log[..i + 1];
  }

  lemma RankOfLast(log: seq<Service>, e: Service)
    ensures Rank(log + [e], |log|) == Count(log, e.name) + 1
  {
    assert (log + [e])[..|log| + 1] == log + [e];
    CountOne(log, e, e.name);
  }

  lemma NextCounter(st: State, log: seq<Service>, x: string)
    requires CountersLogged(st.version, log)
    ensures NextVersion(st, x) == (Count(log, x) + 1) % TWO_64
  {
    SuccessorModulo(Count(log, x));
  }

  lemma CountersExtend(st: State, log: seq<Service>, e: Service)
    requires CountersLogged(st.version, log)
    ensures CountersLogged(st.version[e.name := NextVersion(st, e.name)], log + [e])
  {
    NextCounter(st, log, e.name);
    forall x { CountOne(log, e, x); }
  }

  lemma EntriesExtend(st: State, log: seq<Service>, e: Service, i: nat)
    requires Logged(st, log) && i <= |log|
    requires e.nodeID == st.self && e.version == NextVersion(st, e.name)
             && e.serviceID == ServiceID(st.self, e.name, e.version)
    ensures EntryLogged(st.self, log + [e], i)
  {
    if i < |log| {
      assert EntryLogged(st.self, log, i);
      RankKept(log, e, i);
    } else {
      NextCounter(st, log, e.name);
      RankOfLast(log, e);
    }
  }

  lemma LogExtend(st: State, log: seq<Service>, st': State, e: Service)
    requires Logged(st, log)
    requires st'.self == st.self && st'.version == st.version[e.name := NextVersion(st, e.name)]
    requires e.nodeID == st.self && e.version == NextVersion(st, e.name)
             && e.serviceID == ServiceID(st.self, e.name, e.version)
    ensures Logged(st', log + [e])
  {
    CountersExtend(st, log, e);
    forall i | 0 <= i < |log + [e]| ensures EntryLogged(st.self, log + [e], i) { EntriesExtend(st, log, e, i); }
  }

  lemma LogOne(st: State, log: seq<Service>, op: Op)
    requires Logged(st, log)
    ensures Logged(Apply(st, op), log + Emits(st, op))
  {
    if Emits(st, op) == [] {
      assert log + Emits(st, op) == log;
    } else {
      LogExtend(st, log, Apply(st, op), Emits(st, op)[0]);
    }
  }

  lemma {:induction false} RunIsLogged(self: string, ops: seq<Op>)
    ensures Logged(Run(self, ops), Log(self, ops)) && Run(self, ops).self == self
  {
    if ops != [] {
      var n := |ops| - 1;
      RunIsLogged(self, ops[..n]);
      LogOne(Run(self, ops[..n]), Log(self, ops[..n]), ops[n]);
    }
  }

  lemma ServiceIDInjective(self: string, x: string, v: nat, y: string, w: nat)
    requires ServiceID(self, x, v) == ServiceID(self, y, w)
    ensures x == y && v == w
  {
    SplitAtLast(self + "/" + x, Decimal(v), self + "/" + y, Decimal(w), '#');
    DecimalInjective(v, w);
    assert (self + "/" + x)[|self| + 1..] == x && (self + "/" + y)[|self| + 1..] == y;
  }

  /** Two announcements of one incarnation share a service id exactly when they are for the same name
      and their positions among that name's announcements agree modulo 2^64. */
  lemma IdsCoincideExactly(st: State, log: seq<Service>, i: nat, j: nat)
    requires Logged(st, log) && i < |log| && j < |log|
    ensures log[i].serviceID == log[j].serviceID
       <==> log[i].name == log[j].name && Rank(log, i) % TWO_64 == Rank(log, j) % TWO_64
  {
    assert EntryLogged(st.self, log, i) && EntryLogged(st.self, log, j);
    if log[i].serviceID == log[j].serviceID {
      ServiceIDInjective(st.self, log[i].name, log[i].version, log[j].name, log[j].version);
    }
  }

  /** Up to 2^64 announcements of a name, (name, version) identifies an announcement. */
  lemma VersionIdentifies(st: State, log: seq<Service>, i: nat, j: nat)
    requires Logged(st, log) && i < |log| && j < |log| && Count(log, log[i].name) <= TWO_64
    requires log[i].name == log[j].name && log[i].version == log[j].version
    ensures i == j
  {
    assert EntryLogged(st.self, log, i) && EntryLogged(st.self, log, j);
    RankBounds(log, i);
    RankBounds(log, j);
    if i < j { RankDistinguishes(log, i, j); }
    if j < i { RankDistinguishes(log, j, i); }
    SmallResidues(Rank(log, i), Rank(log, j));
  }

  lemma SmallResidues(a: nat, b: nat)
    requires 1 <= a <= TWO_64 && 1 <= b <= TWO_64 && a % TWO_64 == b % TWO_64
    ensures a == b
  {
  }

  /** Every id a registry emits in one incarnation, registrations and tombstones alike, is distinct from those emitted
      for other names, and from those for its own name while that was announced at most 2^64 times. */
  lemma IdsDistinct(self: string, ops: seq<Op>, i: nat, j: nat)
    requires i < j < |Log(self, ops)|
    requires Log(self, ops)[i].name == Log(self, ops)[j].name ==>
             Count(Log(self, ops), Log(self, ops)[i].name) <= TWO_64
    ensures Log(self, ops)[i].serviceID != Log(self, ops)[j].serviceID
  {
    var st, log := Run(self, ops), Log(self, ops);
    RunIsLogged(self, ops);
    assert EntryLogged(self, log, i) && EntryLogged(self, log, j);
    if log[i].serviceID == log[j].serviceID {
      ServiceIDInjective(self, log[i].name, log[i].version, log[j].name, log[j].version);
      VersionIdentifies(st, log, i, j);
    }
  }
}
