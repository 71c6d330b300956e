/** What merging, listing and running a registry guarantee, for every input. */
module RegistryLaws {
  import opened Text
  import opened RegistryModel
  import opened RegistryRuns

  // ---- Keys ----

  /** Two owners whose keys can never coincide. Ids without "/" are always separate. */
  predicate Separate(n: string, m: string) {
    !(n + "/" <= m) && !(m + "/" <= n)
  }

  lemma SlashFreeIsSeparate(n: string, m: string)
    requires '/' !in n && '/' !in m
    ensures Separate(n, m)
  {
    assert (n + "/")[|n|] == '/' && (m + "/")[|m|] == '/';
  }

  lemma SameOwnerKey(n: string, x: string, y: string)
    requires RemoteKey(n, x) == RemoteKey(n, y)
    ensures x == y
  {
    assert RemoteKey(n, x)[|n| + 1..] == x && RemoteKey(n, y)[|n| + 1..] == y;
  }

  lemma CollisionMeansNested(n: string, x: string, m: string, y: string)
    requires RemoteKey(n, x) == RemoteKey(m, y)
    ensures n == m || !Separate(n, m)
  {
    var k := RemoteKey(n, x);
    assert k[..|n|] == n && k[|n|] == '/' && k[..|m|] == m && k[|m|] == '/';
    if |n| < |m| {
      assert m[..|n|] == n && m[|n|] == '/';
      assert m[..|n| + 1] == n + "/";
    } else if |m| < |n| {
      assert n[..|m|] == m && n[|m|] == '/';
      assert n[..|m| + 1] == m + "/";
    }
  }

  // ---- The merge equation ----

  ghost predicate UniqueNames(services: seq<Service>) {
    forall i, j | 0 <= i < j < |services| :: services[i].name != services[j].name
  }

  /** Every owner in the table has keys apart from `owner`'s. */
  ghost predicate Apart(table: map<string, Service>, owner: string) {
    forall k | k in table :: table[k].nodeID == owner || Separate(owner, table[k].nodeID)
  }

  /** Alive, and new to the table or strictly newer than what it holds. */
  predicate Fresh(table: map<string, Service>, owner: string, s: Service) {
    var key := RemoteKey(owner, s.name);
    s.ttlSec != 0 && (key in table ==> table[key].version < s.version)
  }

  ghost function Others(table: map<string, Service>, owner: string): map<string, Service> {
    map k | k in table && table[k].nodeID != owner :: table[k]
  }

  ghost function Slice(table: map<string, Service>, owner: string): map<string, Service> {
    map k | k in table && table[k].nodeID == owner :: table[k]
  }

  ghost predicate AnnouncesKey(owner: string, services: seq<Service>, k: string) {
    exists i | 0 <= i < |services| :: k == RemoteKey(owner, services[i].name)
  }

  /** The fresh entries of a message, as the receiver stores them. */
  ghost function FreshSlice(table: map<string, Service>, owner: string, services: seq<Service>,
                            now: Time): map<string, Service> {
    if services == [] then map[]
    else
      var n := |services| - 1;
      var rest := FreshSlice(table, owner, services[..n], now);
      var s := services[n];
      if Fresh(table, owner, s) then rest[RemoteKey(owner, s.name) := Stamp(s, owner, now)] else rest
  }

  lemma AnnouncesLast(owner: string, services: seq<Service>, k: string)
    requires services != []
    ensures var n := |services| - 1;
            AnnouncesKey(owner, services, k) <==>
                AnnouncesKey(owner, services[..n], k) || k == RemoteKey(owner, services[n].name)
  {
    var n := |services| - 1;
    if AnnouncesKey(owner, services[..n], k) {
      var i :| 0 <= i < n && k == RemoteKey(owner, services[..n][i].name);
      assert services[i] == services[..n][i];
    }
    if AnnouncesKey(owner, services, k) {
      var i :| 0 <= i < |services| && k == RemoteKey(owner, services[i].name);
      assert i < n ==> services[..n][i] == services[i];
    }
  }

  /** With unique names, the last key is not among the earlier ones. */
  lemma LastKeyIsNew(owner: string, services: seq<Service>)
    requires services != [] && UniqueNames(services)
    ensures UniqueNames(services[..|services| - 1])
    ensures !AnnouncesKey(owner, services[..|services| - 1], RemoteKey(owner, services[|services| - 1].name))
  {
    var n := |services| - 1;
    forall i | 0 <= i < n ensures RemoteKey(owner, services[..n][i].name) != RemoteKey(owner, services[n].name) {
      if RemoteKey(owner, services[i].name) == RemoteKey(owner, services[n].name) {
        SameOwnerKey(owner, services[i].name, services[n].name);
      }
    }
  }

  lemma {:induction false} FreshSliceWithin(table: map<string, Service>, owner: string, services: seq<Service>,
                                            now: Time, k: string)
    requires k in FreshSlice(table, owner, services, now)
    ensures AnnouncesKey(owner, services, k)
    ensures var e := FreshSlice(table, owner, services, now)[k];
            e.nodeID == owner && k == RemoteKey(owner, e.name) && e.ttlSec != 0
  {
    var n := |services| - 1;
    AnnouncesLast(owner, services, k);
    if k != RemoteKey(owner, services[n].name) || !Fresh(table, owner, services[n]) {
      FreshSliceWithin(table, owner, services[..n], now, k);
    }
  }

  lemma {:induction false} FreshSliceHas(table: map<string, Service>, owner: string, services: seq<Service>,
                                         now: Time, i: nat)
    requires UniqueNames(services) && i < |services|
    ensures var key := RemoteKey(owner, services[i].name);
            var m := FreshSlice(table, owner, services, now);
            && (key in m <==> Fresh(table, owner, services[i]))
            && (key in m ==> m[key] == Stamp(services[i], owner, now))
  {
    var n := |services| - 1;
    var prefix, key := services[..n], RemoteKey(owner, services[i].name);
    LastKeyIsNew(owner, services);
    if i < n {
      assert prefix[i] == services[i];
      FreshSliceHas(table, owner, prefix, now, i);
      assert AnnouncesKey(owner, prefix, key);
    } else if key in FreshSlice(table, owner, prefix, now) {
      FreshSliceWithin(table, owner, prefix, now, key);
    }
  }

  /** A key of `owner` in the table belongs to `owner`. */
  lemma KeyOwner(table: map<string, Service>, owner: string, x: string)
    requires WellKeyed(table) && Apart(table, owner)
    ensures var key := RemoteKey(owner, x); key in table ==> table[key].nodeID == owner && table[key].name == x
  {
    var key := RemoteKey(owner, x);
    if key in table {
      CollisionMeansNested(owner, x, table[key].nodeID, table[key].name);
      SameOwnerKey(owner, x, table[key].name);
    }
  }

  /** One turn of the insert loop on a key the loop has not touched yet. */
  lemma InsertOneAt(table: map<string, Service>, owner: string, s: Service, now: Time, t: map<string, Service>,
                    a: set<string>)
    requires WellKeyed(table) && Apart(table, owner)
    requires var key := RemoteKey(owner, s.name);
             key !in a && (key in t <==> key in table) && (key in t ==> t[key] == table[key])
    ensures var (t', a') := InsertOne(t, a, owner, s, now);
            var key := RemoteKey(owner, s.name);
            && (key in a' <==> Fresh(table, owner, s))
            && (key in a' ==> key in t' && t'[key] == Stamp(s, owner, now))
            && (key !in a' && key in t' ==> key in table && t'[key] == table[key])
  {
    KeyOwner(table, owner, s.name);
    LessTotal(owner, owner);
  }

  /** What the insert loop leaves under one key. */
  ghost predicate InsertedAt(table: map<string, Service>, owner: string, t: map<string, Service>, a: set<string>,
                             news: map<string, Service>, announced: bool, k: string) {
    && (k in a <==> k in news)
    && (k in news ==> k in t && t[k] == news[k])
    && (k !in news && k in t ==> k in table && t[k] == table[k])
    && (!announced ==> k !in news && (k in t <==> k in table))
  }

  lemma {:induction false} InsertAllAt(table: map<string, Service>, owner: string, services: seq<Service>, now: Time,
                                       k: string)
    requires WellKeyed(table) && Apart(table, owner) && UniqueNames(services)
    ensures var (t, a) := InsertAll(table, owner, services, now);
            InsertedAt(table, owner, t, a, FreshSlice(table, owner, services, now), AnnouncesKey(owner, services, k), k)
  {
    if services != [] {
      var n := |services| - 1;
      var (t, a) := InsertAll(table, owner, services[..n], now);
      LastKeyIsNew(owner, services);
      AnnouncesLast(owner, services, k);
      InsertAllAt(table, owner, services[..n], now, k);
      if k == RemoteKey(owner, services[n].name) {
        InsertOneAt(table, owner, services[n], now, t, a);
      }
    }
  }

  /** THE MERGE EQUATION. For a message with unique names, merging owner n's state keeps every other
      owner's entries and leaves for n exactly the fresh entries: those with non-zero TTL that had no
      earlier entry or a strictly older one. Entries re-announced at an equal version are dropped. */
  lemma MergeEquation(table: map<string, Service>, owner: string, services: seq<Service>, now: Time)
    requires WellKeyed(table) && Apart(table, owner) && UniqueNames(services)
    ensures MergeTable(table, owner, services, now) == Others(table, owner) + FreshSlice(table, owner, services, now)
  {
    var left := MergeTable(table, owner, services, now);
    var right := Others(table, owner) + FreshSlice(table, owner, services, now);
    forall k ensures (k in left <==> k in right) && (k in left ==> left[k] == right[k]) {
      MergeAt(table, owner, services, now, k);
    }
  }

  lemma MergeAt(table: map<string, Service>, owner: string, services: seq<Service>, now: Time, k: string)
    requires WellKeyed(table) && Apart(table, owner) && UniqueNames(services)
    ensures var r := MergeTable(table, owner, services, now);
            var news := FreshSlice(table, owner, services, now);
            if k in news then k in r && r[k] == news[k]
            else if k in table && table[k].nodeID != owner then k in r && r[k] == table[k]
            else k !in r
  {
    InsertAllAt(table, owner, services, now, k);
    if k in FreshSlice(table, owner, services, now) {
      FreshSliceWithin(table, owner, services, now, k);
    }
    if AnnouncesKey(owner, services, k) {
      var i :| 0 <= i < |services| && k == RemoteKey(owner, services[i].name);
      KeyOwner(table, owner, services[i].name);
    }
  }

  /** A tombstone-only or empty message empties the owner's slice and touches nothing else. */
  lemma TombstonesEmptyTheSlice(table: map<string, Service>, owner: string, services: seq<Service>, now: Time)
    requires WellKeyed(table) && Apart(table, owner) && UniqueNames(services)
    requires forall i | 0 <= i < |services| :: services[i].ttlSec == 0
    ensures MergeTable(table, owner, services, now) == Others(table, owner)
  {
    MergeEquation(table, owner, services, now);
    forall k ensures k !in FreshSlice(table, owner, services, now) {
      if k in FreshSlice(table, owner, services, now) {
        FreshSliceWithin(table, owner, services, now, k);
        var i :| 0 <= i < |services| && k == RemoteKey(owner, services[i].name);
        FreshSliceHas(table, owner, services, now, i);
      }
    }
  }

  /** A node ignores states without an owner and its own. */
  lemma MergeIgnores(st: State, msg: LocalState, now: Time)
    ensures msg.nodeID == "" || msg.nodeID == st.self ==> Merge(st, msg, now) == st
  {
  }

  /** What a node holds under an announced name after a merge, field by field. */
  lemma MergeStores(st: State, msg: LocalState, now: Time, i: nat)
    requires Valid(st) && Apart(st.remote, msg.nodeID) && UniqueNames(msg.services) && i < |msg.services|
    requires msg.nodeID != "" && msg.nodeID != st.self
    ensures var r, s := Merge(st, msg, now), msg.services[i];
            var key := msg.nodeID + "/" + s.name;
            && r.self == st.self && r.local == st.local && r.version == st.version
            && (key in r.remote <==> s.ttlSec != 0 && (key in st.remote ==> st.remote[key].version < s.version))
            && (key in r.remote ==>
                  r.remote[key] == Service(s.serviceID, msg.nodeID, s.name, s.host, s.port, s.labels, s.version,
                                           s.ttlSec,
                                           if s.announced == 0 then now else s.announced))
  {
    var key := RemoteKey(msg.nodeID, msg.services[i].name);
    MergeAt(st.remote, msg.nodeID, msg.services, now, key);
    FreshSliceHas(st.remote, msg.nodeID, msg.services, now, i);
    KeyOwner(st.remote, msg.nodeID, msg.services[i].name);
  }

  /** Under any other key, exactly the entries of other owners stay, as they were. */
  lemma MergeKeepsRest(st: State, msg: LocalState, now: Time, k: string)
    requires Valid(st) && Apart(st.remote, msg.nodeID) && UniqueNames(msg.services)
    requires msg.nodeID != "" && msg.nodeID != st.self
    requires forall i | 0 <= i < |msg.services| :: k != msg.nodeID + "/" + msg.services[i].name
    ensures var r := Merge(st, msg, now).remote;
            && (k in r <==> k in st.remote && st.remote[k].nodeID != msg.nodeID)
            && (k in r ==> r[k] == st.remote[k])
  {
    assert !AnnouncesKey(msg.nodeID, msg.services, k);
    UnannouncedKeys(st.remote, msg.nodeID, msg.services, now, k);
  }

  // ---- Merging is an involution on repeated snapshots ----

  ghost predicate TombstoneFreeSnapshot(services: seq<Service>) {
    && UniqueNames(services)
    && forall i | 0 <= i < |services| :: services[i].ttlSec != 0 && services[i].announced != 0
  }

  lemma MergeKeepsShape(table: map<string, Service>, owner: string, services: seq<Service>, now: Time)
    requires WellKeyed(table) && Apart(table, owner) && UniqueNames(services)
    ensures var r := MergeTable(table, owner, services, now); WellKeyed(r) && Apart(r, owner)
  {
    MergeEquation(table, owner, services, now);
    forall k | k in FreshSlice(table, owner, services, now) {
      FreshSliceWithin(table, owner, services, now, k);
    }
  }

  /** One delivery of a snapshot, name by name. */
  lemma DeliveryAt(table: map<string, Service>, owner: string, services: seq<Service>, now: Time, i: nat)
    requires WellKeyed(table) && Apart(table, owner) && TombstoneFreeSnapshot(services) && i < |services|
    ensures var key := RemoteKey(owner, services[i].name);
            var r := MergeTable(table, owner, services, now);
            && (key in r <==> (key in table ==> table[key].version < services[i].version))
            && (key in r ==> r[key] == services[i].(nodeID := owner))
  {
    var key := RemoteKey(owner, services[i].name);
    MergeAt(table, owner, services, now, key);
    FreshSliceHas(table, owner, services, now, i);
    KeyOwner(table, owner, services[i].name);
  }

  /** A second delivery of the same snapshot keeps exactly the names the first one dropped. */
  lemma RedeliveryComplements(table: map<string, Service>, owner: string, services: seq<Service>, t1: Time, t2: Time,
                              i: nat)
    requires WellKeyed(table) && Apart(table, owner) && TombstoneFreeSnapshot(services) && i < |services|
    ensures var key := RemoteKey(owner, services[i].name);
            var once := MergeTable(table, owner, services, t1);
            var twice := MergeTable(once, owner, services, t2);
            key in twice <==> key !in once
  {
    MergeKeepsShape(table, owner, services, t1);
    DeliveryAt(table, owner, services, t1, i);
    DeliveryAt(MergeTable(table, owner, services, t1), owner, services, t2, i);
  }

  /** PERIOD TWO. Merging one tombstone-free snapshot three times equals merging it once. */
  lemma MergeThreeTimesIsOnce(table: map<string, Service>, owner: string, services: seq<Service>, t1: Time, t2: Time,
                              t3: Time)
    requires WellKeyed(table) && Apart(table, owner) && TombstoneFreeSnapshot(services)
    ensures var once := MergeTable(table, owner, services, t1);
            MergeTable(MergeTable(once, owner, services, t2), owner, services, t3) == once
  {
    var once := MergeTable(table, owner, services, t1);
    var twice := MergeTable(once, owner, services, t2);
    var thrice := MergeTable(twice, owner, services, t3);
    MergeKeepsShape(table, owner, services, t1);
    MergeKeepsShape(once, owner, services, t2);
    forall k ensures (k in thrice <==> k in once) && (k in once ==> thrice[k] == once[k]) {
      if AnnouncesKey(owner, services, k) {
        var i :| 0 <= i < |services| && k == RemoteKey(owner, services[i].name);
        RedeliveryComplements(table, owner, services, t1, t2, i);
        RedeliveryComplements(once, owner, services, t2, t3, i);
        DeliveryAt(table, owner, services, t1, i);
        DeliveryAt(twice, owner, services, t3, i);
      } else {
        UnannouncedKeys(table, owner, services, t1, k);
        UnannouncedKeys(once, owner, services, t2, k);
        UnannouncedKeys(twice, owner, services, t3, k);
      }
    }
  }

  /** SENT TWICE. A registration is pushed to every member two times. A receiver that gets both copies in a row ends
      without exactly those announced services that were new to it. */
  lemma SecondCopyForgets(table: map<string, Service>, owner: string, services: seq<Service>, t1: Time, t2: Time,
                          i: nat)
    requires WellKeyed(table) && Apart(table, owner) && TombstoneFreeSnapshot(services) && i < |services|
    ensures var key := RemoteKey(owner, services[i].name);
            var twice := MergeTable(MergeTable(table, owner, services, t1), owner, services, t2);
            key !in twice <==> (key in table ==> table[key].version < services[i].version)
  {
    DeliveryAt(table, owner, services, t1, i);
    RedeliveryComplements(table, owner, services, t1, t2, i);
  }

  /** Under a key the message does not name, only other owners' entries survive, unchanged. */
  lemma UnannouncedKeys(table: map<string, Service>, owner: string, services: seq<Service>, now: Time, k: string)
    requires WellKeyed(table) && Apart(table, owner) && UniqueNames(services) && !AnnouncesKey(owner, services, k)
    ensures var r := MergeTable(table, owner, services, now);
            (k in r <==> k in table && table[k].nodeID != owner) && (k in r ==> r[k] == table[k])
  {
    MergeAt(table, owner, services, now, k);
    if k in FreshSlice(table, owner, services, now) {
      FreshSliceWithin(table, owner, services, now, k);
    }
  }

  // ---- Non-interference between owners, exactly ----

  /** One turn of the insert loop, seen from an owner m that shares no key with `owner`. */
  lemma InsertOneLeavesEntry(t: map<string, Service>, a: set<string>, owner: string, s: Service, now: Time, m: string,
                             k: string)
    requires WellKeyed(t) && m != owner && Separate(owner, m)
    ensures var t' := InsertOne(t, a, owner, s, now).0;
            && (k in t' ==> k == RemoteKey(t'[k].nodeID, t'[k].name))
            && (k in t && t[k].nodeID == m <==> k in t' && t'[k].nodeID == m)
            && (k in t && t[k].nodeID == m ==> t'[k] == t[k])
  {
    if k in t {
      assert k == RemoteKey(t[k].nodeID, t[k].name);
      if k == RemoteKey(owner, s.name) {
        CollisionMeansNested(owner, s.name, t[k].nodeID, t[k].name);
      }
    }
  }

  lemma {:induction false} InsertAllLeavesSlice(table: map<string, Service>, owner: string, services: seq<Service>,
                                                now: Time, m: string)
    requires WellKeyed(table) && m != owner && Separate(owner, m)
    ensures var t := InsertAll(table, owner, services, now).0; WellKeyed(t) && Slice(t, m) == Slice(table, m)
  {
    if services != [] {
      var n := |services| - 1;
      InsertAllLeavesSlice(table, owner, services[..n], now, m);
      var (t, a) := InsertAll(table, owner, services[..n], now);
      var t' := InsertOne(t, a, owner, services[n], now).0;
      forall k { InsertOneLeavesEntry(t, a, owner, services[n], now, m, k); }
      assert Slice(t', m) == Slice(t, m);
    }
  }

  /** Merging a message of `owner` at node `self`, in some state a run reaches, changes what it holds for m. */
  ghost predicate CanDamage(self: string, owner: string, m: string) {
    exists ops, msg: LocalState, now :: msg.nodeID == owner && Damaged(Run(self, ops), msg, now, m)
  }

  ghost predicate Damaged(st: State, msg: LocalState, now: Time, m: string) {
    Slice(Merge(st, msg, now).remote, m) != Slice(st.remote, m)
  }

  /** Nested ids have names under which their keys coincide. */
  lemma NestedKeysMeet(owner: string, m: string) returns (x: string, y: string)
    requires !Separate(owner, m)
    ensures RemoteKey(owner, x) == RemoteKey(m, y)
  {
    x, y := "", "";
    if owner + "/" <= m {
      x := m[|owner| + 1..] + "/";
      assert m == owner + "/" + m[|owner| + 1..];
    } else {
      y := owner[|m| + 1..] + "/";
      assert owner == m + "/" + owner[|m| + 1..];
    }
  }

  /** A node that learned one entry of m. */
  lemma LearnOne(self: string, m: string, entry: Service)
    requires m != "" && m != self && entry.nodeID == m && entry.ttlSec != 0 && entry.announced != 0
    ensures Run(self, [DoMerge(LocalState(m, [entry]), 1)]).remote == map[RemoteKey(m, entry.name) := entry]
    ensures Run(self, [DoMerge(LocalState(m, [entry]), 1)]).self == self
  {
    var op := DoMerge(LocalState(m, [entry]), 1);
    assert [op][..0] == [] && [entry][..0] == [];
    assert InsertAll(map[], m, [entry], 1) == InsertOne(map[], {}, m, entry, 1);
  }

  lemma NestedOwnersInterfere(self: string, owner: string, m: string)
    requires owner != m && owner != "" && m != "" && owner != self && m != self && !Separate(owner, m)
    ensures CanDamage(self, owner, m)
  {
    var x, y := NestedKeysMeet(owner, m);
    var key, entry := RemoteKey(m, y), Service("", m, y, "", 0, map[], 1, 1, 1);
    var ops := [DoMerge(LocalState(m, [entry]), 1)];
    LearnOne(self, m, entry);
    var table, tomb := Run(self, ops).remote, Service("", owner, x, "", 0, map[], 1, 0, 1);
    assert [tomb][..0] == [];
    assert InsertAll(table, owner, [tomb], 2) == InsertOne(table, {}, owner, tomb, 2);
    assert key in Slice(table, m) && key !in Slice(MergeTable(table, owner, [tomb], 2), m);
    assert Damaged(Run(self, ops), LocalState(owner, [tomb]), 2, m);
  }

  lemma SeparateOwnersAreSafe(st: State, msg: LocalState, now: Time, m: string)
    requires Valid(st) && msg.nodeID != m && Separate(msg.nodeID, m)
    ensures !Damaged(st, msg, now, m)
  {
    InsertAllLeavesSlice(st.remote, msg.nodeID, msg.services, now, m);
    var t := InsertAll(st.remote, msg.nodeID, msg.services, now).0;
    assert Slice(MergeTable(st.remote, msg.nodeID, msg.services, now), m) == Slice(t, m);
  }

  /** Nothing is ever held for the empty id or for the node itself. */
  lemma NothingToDamage(st: State, msg: LocalState, now: Time, m: string)
    requires Valid(st) && (m == "" || m == st.self)
    ensures !Damaged(st, msg, now, m)
  {
    ApplyKeepsValid(st, DoMerge(msg, now));
    assert Slice(st.remote, m) == map[] && Slice(Merge(st, msg, now).remote, m) == map[];
  }

  /** NON-INTERFERENCE, EXACTLY. At a node in some reachable state, some message of owner n can change owner m's slice
      if and only if both ids are real, neither is the node's own, and one is a "/"-extension of the other. */
  lemma InterferenceExactly(self: string, owner: string, m: string)
    requires owner != m
    ensures CanDamage(self, owner, m) <==> owner != "" && m != "" && owner != self && m != self && !Separate(owner, m)
  {
    if owner != "" && m != "" && owner != self && m != self && !Separate(owner, m) {
      NestedOwnersInterfere(self, owner, m);
    } else {
      forall ops, msg: LocalState, now | msg.nodeID == owner ensures !Damaged(Run(self, ops), msg, now, m) {
        AlwaysValid(self, ops);
        if m == "" || m == self {
          NothingToDamage(Run(self, ops), msg, now, m);
        } else if Separate(owner, m) {
          SeparateOwnersAreSafe(Run(self, ops), msg, now, m);
        }
      }
    }
  }
}
