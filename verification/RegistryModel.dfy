/** The service registry as a value and its operations as functions.

    `State` holds what a node's registry holds: its own services, the per-owner slices it learned from
    others, and one version counter per local name. Time is passed in (nanoseconds; 0 is the zero time).
 */
module RegistryModel {
  import opened Text
  import opened Sorting

  const SECOND := 1_000_000_000
  const DEFAULT_TTL_SEC := 90
  const TWO_64 := 0x1_0000_0000_0000_0000
  const TWO_63 := 0x8000_0000_0000_0000

  type Time = int

  datatype Service = Service(
    serviceID: string, nodeID: string, name: string, host: string, port: nat,
    labels: map<string, string>, version: nat, ttlSec: int, announced: Time)

  /** What one node says about its own services; the payload of gossip. */
  datatype LocalState = LocalState(nodeID: string, services: seq<Service>)

  datatype State = State(
    self: string,
    local: map<string, Service>,
    remote: map<string, Service>,
    version: map<string, nat>)

  function New(self: string): State {
    State(self, map[], map[], map[])
  }

  // ---- Naming ----

  function RemoteKey(nodeID: string, name: string): string {
    nodeID + "/" + name
  }

  function ServiceID(nodeID: string, name: string, version: nat): string {
    nodeID + "/" + name + "#" + Decimal(version)
  }

  // ---- Time to live ----

  /** Two's-complement truncation to 64 bits. */
  function Wrap64(n: int): int {
    (n + TWO_63) % TWO_64 - TWO_63
  }

  function Lifetime(s: Service): int {
    Wrap64(s.ttlSec * SECOND)
  }

  predicate Expired(s: Service, now: Time) {
    Lifetime(s) > 0 && now > s.announced + Lifetime(s)
  }

  // ---- Own services ----

  /** The next counter value; an unsigned 64-bit increment. */
  function NextVersion(st: State, name: string): nat {
    ((if name in st.version then st.version[name] else 0) + 1) % TWO_64
  }

  function NewEntry(st: State, name: string, host: string, port: nat, labels: map<string, string>, now: Time): Service {
    var v := NextVersion(st, name);
    Service(ServiceID(st.self, name, v), st.self, name, host, port, labels, v, DEFAULT_TTL_SEC, now)
  }

  function Register(st: State, name: string, host: string, port: nat, labels: map<string, string>, now: Time): State {
    st.(local := st.local[name := NewEntry(st, name, host, port, labels, now)],
        version := st.version[name := NextVersion(st, name)])
  }

  function Tombstone(st: State, name: string, now: Time): Service {
    var v := NextVersion(st, name);
    Service(ServiceID(st.self, name, v), st.self, name, "", 0, map[], v, 0, now)
  }

  function Deregister(st: State, name: string): State {
    if name !in st.local then st
    else st.(local := st.local - {name}, version := st.version[name := NextVersion(st, name)])
  }

  predicate ByName(a: Service, b: Service) {
    Less(a.name, b.name)
  }

  /** The payload a node gossips: its own services, sorted by name. */
  ghost predicate IsSnapshot(st: State, s: LocalState) {
    && s.nodeID == st.self
    && StrictlySorted(ByName, s.services)
    && Elems(s.services) == st.local.Values
  }

  // ---- Merging another node's state ----

  predicate Newer(a: Service, b: Service) {
    if a.version != b.version then a.version > b.version else Less(b.nodeID, a.nodeID)
  }

  /** An announced entry as the receiver stores it. */
  function Stamp(s: Service, owner: string, now: Time): Service {
    s.(nodeID := owner, announced := if s.announced == 0 then now else s.announced)
  }

  /** One turn of the insert loop, over the table and the set of keys marked active. */
  function InsertOne(table: map<string, Service>, active: set<string>, owner: string, s: Service, now: Time)
    : (map<string, Service>, set<string>)
  {
    var key := RemoteKey(owner, s.name);
    if s.ttlSec == 0 then (table - {key}, active)
    else if key in table && !Newer(Stamp(s, owner, now), table[key]) then (table, active)
    else (table[key := Stamp(s, owner, now)], active + {key})
  }

  function InsertAll(table: map<string, Service>, owner: string, services: seq<Service>, now: Time)
    : (map<string, Service>, set<string>)
  {
    if services == [] then (table, {})
    else
      var last := |services| - 1;
      var (t, a) := InsertAll(table, owner, services[..last], now);
      InsertOne(t, a, owner, services[last], now)
  }

  /** The sweep loop: the owner's entries that were not marked active go. */
  function Sweep(table: map<string, Service>, owner: string, active: set<string>): map<string, Service> {
    map k | k in table && (table[k].nodeID != owner || k in active) :: table[k]
  }

  function MergeTable(table: map<string, Service>, owner: string, services: seq<Service>, now: Time)
    : map<string, Service>
  {
    var (t, a) := InsertAll(table, owner, services, now);
    Sweep(t, owner, a)
  }

  function Merge(st: State, msg: LocalState, now: Time): State {
    if msg.nodeID == "" || msg.nodeID == st.self then st
    else st.(remote := MergeTable(st.remote, msg.nodeID, msg.services, now))
  }

  // ---- Reading ----

  function PruneTable(table: map<string, Service>, now: Time): map<string, Service> {
    map k | k in table && !Expired(table[k], now) :: table[k]
  }

  function Pruned(st: State, now: Time): State {
    st.(remote := PruneTable(st.remote, now))
  }

  ghost function Live(st: State, now: Time): set<Service> {
    st.local.Values + PruneTable(st.remote, now).Values
  }

  predicate ByNameThenNode(a: Service, b: Service) {
    if a.name == b.name then Less(a.nodeID, b.nodeID) else Less(a.name, b.name)
  }

  /** `out` lists every live service exactly once, by name and then by node. */
  ghost predicate IsListing(st: State, now: Time, out: seq<Service>) {
    StrictlySorted(ByNameThenNode, out) && Elems(out) == Live(st, now)
  }

  /** `out` is the part of the listing that carries `name`. */
  ghost predicate IsFound(st: State, name: string, now: Time, out: seq<Service>) {
    && StrictlySorted(ByNameThenNode, out)
    && Elems(out) == set s | s in Live(st, now) && s.name == name
  }

  // ---- Consistency ----

  /** Every entry sits under the key of its own owner and name. */
  ghost predicate WellKeyed(table: map<string, Service>) {
    forall k | k in table :: k == RemoteKey(table[k].nodeID, table[k].name)
  }

  /** Holds in every reachable state (`AlwaysValid` in RegistryRuns). */
  ghost predicate Valid(st: State) {
    && (forall x | x in st.local :: st.local[x].name == x && st.local[x].nodeID == st.self)
    && WellKeyed(st.remote)
    && (forall k | k in st.remote ::
          st.remote[k].nodeID != st.self && st.remote[k].nodeID != "" && st.remote[k].ttlSec != 0)
  }

  // ---- Comparators ----

  lemma ByNameThenNodeOrder()
    ensures WeakOrder(ByNameThenNode)
    ensures Asymmetric(ByNameThenNode)
    ensures forall a, b :: ByNameThenNode(a, b) || ByNameThenNode(b, a) || (a.name == b.name && a.nodeID == b.nodeID)
  {
    LessIsStrictTotal();
  }

  lemma ByNameOrder()
    ensures WeakOrder(ByName)
    ensures Asymmetric(ByName)
    ensures forall a, b :: ByName(a, b) || ByName(b, a) || a.name == b.name
  {
    LessIsStrictTotal();
  }
}
