/** Looking a service up at peers over RPC when the own registry knows no live instance. */
module Resolver {
  import opened Text
  import opened Sorting
  import opened RegistryModel
  import opened RegistryLaws
  import opened RegistryRuns
  import opened Announcements
  import opened RegistryClass

  datatype Member = Member(nodeID: string, rpcAddr: string)

  // ---- The order in which peers are asked ----

  predicate Askable(m: Member, self: string) {
    m.nodeID != "" && m.nodeID != self
  }

  predicate AskedBefore(connected: set<string>, a: Member, b: Member) {
    if (a.nodeID in connected) != (b.nodeID in connected) then a.nodeID in connected else Less(a.nodeID, b.nodeID)
  }

  predicate ByID(a: Member, b: Member) {
    Less(a.nodeID, b.nodeID)
  }

  function AskOrder(connected: set<string>): (Member, Member) -> bool {
    (a, b) => AskedBefore(connected, a, b)
  }

  /** A permutation of the other members: connected ones first, each part by id. */
  ghost predicate IsPeerOrder(members: seq<Member>, self: string, connected: set<string>, out: seq<Member>) {
    && (forall m :: multiset(out)[m] == if Askable(m, self) then multiset(members)[m] else 0)
    && Sorted(AskOrder(connected), out)
  }

  function IsPreferred(self: string, connected: set<string>): Member -> bool {
    (m: Member) => Askable(m, self) && m.nodeID in connected
  }

  function IsRest(self: string, connected: set<string>): Member -> bool {
    (m: Member) => Askable(m, self) && m.nodeID !in connected
  }

  lemma JoinedPeerOrder(members: seq<Member>, self: string, connected: set<string>, preferred: seq<Member>,
                        rest: seq<Member>)
    requires multiset(preferred) == multiset(Filter(members, IsPreferred(self, connected))) && Sorted(ByID, preferred)
    requires multiset(rest) == multiset(Filter(members, IsRest(self, connected))) && Sorted(ByID, rest)
    ensures IsPeerOrder(members, self, connected, preferred + rest)
  {
    var fp, fr := Filter(members, IsPreferred(self, connected)), Filter(members, IsRest(self, connected));
    forall m ensures multiset(preferred + rest)[m] == if Askable(m, self) then multiset(members)[m] else 0 {
      FilterCounts(members, IsPreferred(self, connected), m);
      FilterCounts(members, IsRest(self, connected), m);
    }
    forall i | 0 <= i < |preferred| ensures preferred[i].nodeID in connected {
      assert preferred[i] in multiset(fp);
      FilterCounts(members, IsPreferred(self, connected), preferred[i]);
    }
    forall i | 0 <= i < |rest| ensures rest[i].nodeID !in connected {
      assert rest[i] in multiset(fr);
      FilterCounts(members, IsRest(self, connected), rest[i]);
    }
    var out := preferred + rest;
    forall i, j | 0 <= i < j < |out| ensures !AskedBefore(connected, out[j], out[i]) {
      if j < |preferred| {
        assert !ByID(preferred[j], preferred[i]);
      } else if i >= |preferred| {
        assert !ByID(rest[j - |preferred|], rest[i - |preferred|]);
      }
    }
  }

  /** What the order means: a connected peer is asked before one that is not, and otherwise the one with the id that is
      not greater; exactly the named members other than the node are asked, each as often as listed. */
  lemma PeerOrderMeaning(members: seq<Member>, self: string, connected: set<string>, out: seq<Member>, i: nat, j: nat)
    requires IsPeerOrder(members, self, connected, out) && i < j < |out|
    ensures var a, b := out[i].nodeID, out[j].nodeID;
            || (a in connected && b !in connected)
            || ((a in connected <==> b in connected) && (Less(a, b) || a == b))
  {
    assert !AskOrder(connected)(out[j], out[i]);
    LessTotal(out[i].nodeID, out[j].nodeID);
  }

  lemma PeersExactly(members: seq<Member>, self: string, connected: set<string>, out: seq<Member>, m: Member)
    requires IsPeerOrder(members, self, connected, out)
    ensures multiset(out)[m] == if m.nodeID != "" && m.nodeID != self then multiset(members)[m] else 0
  {
  }

  method PeerOrder(members: seq<Member>, self: string, meshPeers: seq<string>) returns (out: seq<Member>)
    ensures IsPeerOrder(members, self, Elems(meshPeers), out)
  {
    var connected := set x | x in meshPeers;
    var preferred: seq<Member>, rest: seq<Member> := [], [];
    for i := 0 to |members|
      invariant preferred == Filter(members[..i], IsPreferred(self, connected))
      invariant rest == Filter(members[..i], IsRest(self, connected))
    {
      assert members[..i + 1][..i] == members[..i];
      var m := members[i];
      if m.nodeID == "" || m.nodeID == self {
        continue;
      }
      if m.nodeID in connected {
        preferred := preferred + [m];
      } else {
        rest := rest + [m];
      }
    }
    assert members[..|members|] == members;
    LessIsStrictTotal();
    preferred := Sort(preferred, ByID);
    rest := Sort(rest, ByID);
    JoinedPeerOrder(members, self, connected, preferred, rest);
    out := preferred + rest;
  }

  // ---- Merging one answer ----

  /** The entry that announcement j of an answer becomes at the caller. */
  function EntryOf(a: Announcement, now: Time): Service {
    Stamp(FromAnnouncement(a, now), a.nodeID, now)
  }

  /** No owner announces a name twice; true of every answer a registry gives. */
  ghost predicate OnePerOwner(answer: seq<Announcement>) {
    forall i, j | 0 <= i < j < |answer| :: answer[i].nodeID != answer[j].nodeID || answer[i].name != answer[j].name
  }

  /** An instance of `name` the answer offers. */
  ghost predicate Offered(answer: seq<Announcement>, name: string, now: Time, s: Service) {
    s.name == name && s.ttlSec != 0 && exists i | 0 <= i < |answer| :: s == EntryOf(answer[i], now)
  }

  ghost function Owners(answer: seq<Announcement>): set<string> {
    set i | 0 <= i < |answer| && answer[i].nodeID != "" :: answer[i].nodeID
  }

  /** Node ids of which no two share a key. */
  ghost predicate IdsApart(ids: set<string>) {
    forall a, b | a in ids && b in ids :: a == b || Separate(a, b)
  }

  ghost predicate OwnersWithin(table: map<string, Service>, ids: set<string>) {
    forall k | k in table :: table[k].nodeID in ids
  }

  lemma {:induction false} GroupHas(owner: string, answer: seq<Announcement>, now: Time, i: nat)
    requires i < |GroupFor(owner, answer, now)|
    ensures exists j | 0 <= j < |answer| ::
              answer[j].nodeID == owner && GroupFor(owner, answer, now)[i] == FromAnnouncement(answer[j], now)
  {
    var n := |answer| - 1;
    var rest := GroupFor(owner, answer[..n], now);
    if i < |rest| {
      GroupHas(owner, answer[..n], now, i);
      var j :| 0 <= j < n && answer[..n][j].nodeID == owner && rest[i] == FromAnnouncement(answer[..n][j], now);
      assert answer[j] == answer[..n][j];
    } else {
      assert answer[n].nodeID == owner;
    }
  }

  lemma {:induction false} GroupHolds(owner: string, answer: seq<Announcement>, now: Time, j: nat)
    requires j < |answer| && answer[j].nodeID == owner
    ensures exists i | 0 <= i < |GroupFor(owner, answer, now)| ::
            GroupFor(owner, answer, now)[i] == FromAnnouncement(answer[j], now)
  {
    var n := |answer| - 1;
    var rest := GroupFor(owner, answer[..n], now);
    if j < n {
      GroupHolds(owner, answer[..n], now, j);
      var i :| 0 <= i < |rest| && rest[i] == FromAnnouncement(answer[..n][j], now);
      assert GroupFor(owner, answer, now)[i] == rest[i];
    } else {
      assert GroupFor(owner, answer, now)[|rest|] == FromAnnouncement(answer[j], now);
    }
  }

  lemma {:induction false} GroupUnique(owner: string, answer: seq<Announcement>, now: Time)
    requires OnePerOwner(answer)
    ensures UniqueNames(GroupFor(owner, answer, now))
  {
    if answer != [] {
      var n := |answer| - 1;
      GroupUnique(owner, answer[..n], now);
      var rest := GroupFor(owner, answer[..n], now);
      if answer[n].nodeID == owner {
        forall i | 0 <= i < |rest| ensures rest[i].name != answer[n].name {
          GroupHas(owner, answer[..n], now, i);
          var j :| 0 <= j < n && answer[..n][j].nodeID == owner && rest[i] == FromAnnouncement(answer[..n][j], now);
          assert answer[j] == answer[..n][j];
        }
      }
    }
  }

  /** Part way through an answer: the entries under `name` are exactly the offers of the owners already merged. */
  ghost predicate Merged(table: map<string, Service>, answer: seq<Announcement>, name: string, now: Time,
                         done: set<string>) {
    && (forall k | k in table && table[k].name == name ::
          table[k].nodeID in done && Offered(answer, name, now, table[k]))
    && (forall s | Offered(answer, name, now, s) && s.nodeID in done ::
          RemoteKey(s.nodeID, name) in table && table[RemoteKey(s.nodeID, name)] == s)
  }

  ghost predicate NoneNamed(table: map<string, Service>, name: string) {
    forall k | k in table :: table[k].name != name
  }

  /** What merging one owner's group leaves under the looked-up name. */
  lemma GroupMerge(table: map<string, Service>, answer: seq<Announcement>, name: string, now: Time, done: set<string>,
                   owner: string)
    requires WellKeyed(table) && Apart(table, owner) && OnePerOwner(answer)
    requires Merged(table, answer, name, now, done) && owner !in done
    ensures var r := MergeTable(table, owner, GroupFor(owner, answer, now), now);
            && WellKeyed(r)
            && (forall k | k in r :: r[k].nodeID == owner || (k in table && table[k].nodeID == r[k].nodeID))
            && Merged(r, answer, name, now, done + {owner})
  {
    var group := GroupFor(owner, answer, now);
    var r := MergeTable(table, owner, group, now);
    GroupUnique(owner, answer, now);
    MergeKeepsShape(table, owner, group, now);
    forall k | k in r ensures r[k].nodeID == owner
        || (k in table && table[k].nodeID == r[k].nodeID && table[k] == r[k]) {
      MergeAt(table, owner, group, now, k);
      if k in FreshSlice(table, owner, group, now) { FreshSliceWithin(table, owner, group, now, k); }
    }
    forall k | k in r && r[k].name == name ensures r[k].nodeID in done + {owner} && Offered(answer, name, now, r[k]) {
      EntriesAreOffers(table, answer, name, now, owner, k);
    }
    forall s | Offered(answer, name, now, s) && s.nodeID in done + {owner}
      ensures RemoteKey(s.nodeID, name) in r && r[RemoteKey(s.nodeID, name)] == s
    {
      OffersAreEntries(table, answer, name, now, done, owner, s);
    }
  }

  lemma EntriesAreOffers(table: map<string, Service>, answer: seq<Announcement>, name: string, now: Time,
                         owner: string, k: string)
    requires WellKeyed(table) && Apart(table, owner) && OnePerOwner(answer)
    requires var r := MergeTable(table, owner, GroupFor(owner, answer, now), now); k in r && r[k].name == name
    ensures var r := MergeTable(table, owner, GroupFor(owner, answer, now), now);
            (k in table && r[k] == table[k]) || (r[k].nodeID == owner && Offered(answer, name, now, r[k]))
  {
    var group := GroupFor(owner, answer, now);
    GroupUnique(owner, answer, now);
    MergeAt(table, owner, group, now, k);
    if k in FreshSlice(table, owner, group, now) {
      FreshSliceWithin(table, owner, group, now, k);
      var i :| 0 <= i < |group| && k == RemoteKey(owner, group[i].name);
      FreshSliceHas(table, owner, group, now, i);
      GroupHas(owner, answer, now, i);
      var j :| 0 <= j < |answer| && answer[j].nodeID == owner && group[i] == FromAnnouncement(answer[j], now);
      assert MergeTable(table, owner, group, now)[k] == EntryOf(answer[j], now);
    }
  }

  lemma OffersAreEntries(table: map<string, Service>, answer: seq<Announcement>, name: string, now: Time,
                         done: set<string>, owner: string, s: Service)
    requires WellKeyed(table) && Apart(table, owner) && OnePerOwner(answer)
    requires Merged(table, answer, name, now, done) && owner !in done
    requires Offered(answer, name, now, s) && s.nodeID in done + {owner}
    ensures var r := MergeTable(table, owner, GroupFor(owner, answer, now), now);
            RemoteKey(s.nodeID, name) in r && r[RemoteKey(s.nodeID, name)] == s
  {
    var group := GroupFor(owner, answer, now);
    var key := RemoteKey(s.nodeID, name);
    GroupUnique(owner, answer, now);
    MergeAt(table, owner, group, now, key);
    if s.nodeID == owner {
      var j :| 0 <= j < |answer| && s == EntryOf(answer[j], now);
      GroupHolds(owner, answer, now, j);
      var i :| 0 <= i < |group| && group[i] == FromAnnouncement(answer[j], now);
      FreshSliceHas(table, owner, group, now, i);
      KeyOwner(table, owner, name);
    } else {
      assert key in table && table[key] == s;
      if key in FreshSlice(table, owner, group, now) {
        FreshSliceWithin(table, owner, group, now, key);
        var i :| 0 <= i < |group| && key == RemoteKey(owner, group[i].name);
        KeyOwner(table, owner, group[i].name);
      }
    }
  }

  method GroupByNode(answer: seq<Announcement>, now: Time) returns (byNode: map<string, seq<Service>>)
    ensures byNode.Keys == Owners(answer)
    ensures forall o | o in byNode :: byNode[o] == GroupFor(o, answer, now)
  {
    byNode := map[];
    for i := 0 to |answer|
      invariant byNode.Keys == Owners(answer[..i])
      invariant forall o | o in byNode :: byNode[o] == GroupFor(o, answer[..i], now)
      invariant forall o | o !in byNode && o != "" :: GroupFor(o, answer[..i], now) == []
    {
      var a := answer[i];
      OwnersAppend(answer, i);
      assert answer[..i + 1][..i] == answer[..i];
      if a.nodeID == "" {
        continue;
      }
      var group := if a.nodeID in byNode then byNode[a.nodeID] else [];
      byNode := byNode[a.nodeID := group + [FromAnnouncement(a, now)]];
    }
    assert answer[..|answer|] == answer;
  }

  /** Merging the groups of an answer, owner by owner. */
  function MergeGroups(st: State, order: seq<string>, answer: seq<Announcement>, now: Time): State {
    if order == [] then st
    else
      var n := |order| - 1;
      Merge(MergeGroups(st, order[..n], answer, now), LocalState(order[n], GroupFor(order[n], answer, now)), now)
  }

  /** `r` is the registry after an answer was merged, in some order of its owners. */
  ghost predicate IsMerge(st: State, answer: seq<Announcement>, now: Time, r: State) {
    exists order :: Distinct(order) && Elems(order) == Owners(answer) && r == MergeGroups(st, order, answer, now)
  }

  /** Groups an answer by owner and merges the groups in arbitrary order. */
  method MergeAnnouncements(reg: Registry, answer: seq<Announcement>, now: Time)
    modifies reg
    ensures IsMerge(old(reg.Model()), answer, now, reg.Model())
  {
    var byNode := GroupByNode(answer, now);
    var todo := byNode.Keys;
    ghost var st, order := reg.Model(), [];
    while todo != {}
      invariant todo <= Owners(answer)
      invariant Distinct(order) && Elems(order) == Owners(answer) - todo
      invariant reg.Model() == MergeGroups(st, order, answer, now)
    {
      var owner :| owner in todo;
      var _ := reg.MergeRemoteState(Some(LocalState(owner, byNode[owner])), now);
      ElemsAppend(order, owner);
      assert (order + [owner])[..|order|] == order;
      todo, order := todo - {owner}, order + [owner];
    }
  }

  lemma {:induction false} MergeGroupsValid(st: State, order: seq<string>, answer: seq<Announcement>, now: Time)
    requires Valid(st)
    ensures var r := MergeGroups(st, order, answer, now);
            Valid(r) && r.self == st.self && r.local == st.local && r.version == st.version
  {
    if order != [] {
      var n := |order| - 1;
      MergeGroupsValid(st, order[..n], answer, now);
      ApplyKeepsValid(MergeGroups(st, order[..n], answer, now),
          DoMerge(LocalState(order[n], GroupFor(order[n], answer, now)), now));
    }
  }

  /** What the resolver may rely on about ids and answers: no two owners share a key, and no owner is
      announced twice under a name. */
  ghost predicate Shaped(st: State, answer: seq<Announcement>, ids: set<string>) {
    IdsApart(ids) && OwnersWithin(st.remote, ids) && Owners(answer) <= ids && OnePerOwner(answer)
  }

  lemma OwnersKept(table: map<string, Service>, ids: set<string>, r: map<string, Service>, owner: string)
    requires OwnersWithin(table, ids) && owner in ids
    requires forall k | k in r :: r[k].nodeID == owner || (k in table && table[k].nodeID == r[k].nodeID)
    ensures OwnersWithin(r, ids)
  {
  }

  lemma ApartWithin(table: map<string, Service>, ids: set<string>, owner: string)
    requires IdsApart(ids) && OwnersWithin(table, ids) && owner in ids
    ensures Apart(table, owner)
  {
  }

  /** One more group, seen from the looked-up name. */
  lemma GroupStep(cur: State, answer: seq<Announcement>, name: string, now: Time, done: set<string>, owner: string,
                  ids: set<string>)
    requires Valid(cur) && Shaped(cur, answer, ids) && owner in Owners(answer) && owner !in done
    requires Merged(cur.remote, answer, name, now, done - {cur.self})
    ensures var r := Merge(cur, LocalState(owner, GroupFor(owner, answer, now)), now);
            OwnersWithin(r.remote, ids) && Merged(r.remote, answer, name, now, done + {owner} - {cur.self})
  {
    if owner == cur.self {
      assert done + {owner} - {cur.self} == done - {cur.self};
    } else {
      ApartWithin(cur.remote, ids, owner);
      GroupMerge(cur.remote, answer, name, now, done - {cur.self}, owner);
      OwnersKept(cur.remote, ids, MergeTable(cur.remote, owner, GroupFor(owner, answer, now), now), owner);
      assert done + {owner} - {cur.self} == (done - {cur.self}) + {owner};
    }
  }

  lemma {:induction false} MergeGroupsMerged(st: State, order: seq<string>, answer: seq<Announcement>, name: string,
                                             now: Time, ids: set<string>)
    requires Valid(st) && Shaped(st, answer, ids) && NoneNamed(st.remote, name)
    requires Distinct(order) && Elems(order) <= Owners(answer)
    ensures var r := MergeGroups(st, order, answer, now);
            OwnersWithin(r.remote, ids) && Merged(r.remote, answer, name, now, Elems(order) - {st.self})
  {
    if order != [] {
      var n := |order| - 1;
      var front, owner := order[..n], order[n];
      ElemsAppend(front, owner);
      assert order == front + [owner];
      assert owner in Elems(order) && owner !in Elems(front);
      MergeGroupsMerged(st, front, answer, name, now, ids);
      MergeGroupsValid(st, front, answer, now);
      GroupStep(MergeGroups(st, front, answer, now), answer, name, now, Elems(front), owner, ids);
    }
  }

  /** Whatever order the groups are merged in, the entries under a name not known before become exactly what the
      answer offers from other nodes. */
  lemma MergeOffers(st: State, answer: seq<Announcement>, now: Time, r: State, name: string, ids: set<string>)
    requires Valid(st) && IsMerge(st, answer, now, r) && Shaped(st, answer, ids) && NoneNamed(st.remote, name)
    ensures OwnersWithin(r.remote, ids) && Merged(r.remote, answer, name, now, Owners(answer) - {st.self})
  {
    var order :| Distinct(order) && Elems(order) == Owners(answer) && r == MergeGroups(st, order, answer, now);
    MergeGroupsMerged(st, order, answer, name, now, ids);
  }

  lemma MergeKeepsOwn(st: State, answer: seq<Announcement>, now: Time, r: State)
    requires Valid(st) && IsMerge(st, answer, now, r)
    ensures Valid(r) && r.self == st.self && r.local == st.local && r.version == st.version
  {
    var order :| Distinct(order) && Elems(order) == Owners(answer) && r == MergeGroups(st, order, answer, now);
    MergeGroupsValid(st, order, answer, now);
  }

  lemma OwnersAppend(answer: seq<Announcement>, i: nat)
    requires i < |answer|
    ensures Owners(answer[..i + 1]) == Owners(answer[..i]) + if answer[i].nodeID != "" then {answer[i].nodeID} else {}
  {
    var a, b := answer[..i + 1], answer[..i];
    assert a == b + [answer[i]];
    forall o | o in Owners(b) ensures o in Owners(a) {
      var j :| 0 <= j < i && b[j].nodeID == o;
      assert a[j] == b[j];
    }
    forall o | o in Owners(a) ensures o in Owners(b) || o == answer[i].nodeID {
      var j :| 0 <= j < i + 1 && a[j].nodeID == o;
      if j < i { assert b[j] == a[j]; }
    }
    assert a[i] == answer[i];
  }

  // ---- The lookup ----

  /** What asking a peer yields, and the instants at which its answer is merged and looked up again. */
  datatype Reply = Reply(answer: Option<seq<Announcement>>, mergedAt: Time, foundAt: Time)

  /** The answer has an unexpired instance of `name` owned by another node. */
  ghost predicate Useful(answer: seq<Announcement>, name: string, self: string, mergedAt: Time, foundAt: Time) {
    exists i | 0 <= i < |answer| ::
      && answer[i].name == name && answer[i].nodeID != "" && answer[i].nodeID != self
      && answer[i].ttlSec != 0 && !Expired(EntryOf(answer[i], mergedAt), foundAt)
  }

  ghost predicate Helps(m: Member, r: Reply, name: string, self: string) {
    && m.rpcAddr != "" && Askable(m, self)
    && r.answer.Some? && Useful(r.answer.value, name, self, r.mergedAt, r.foundAt)
  }

  /** The unexpired instances of `name` that an answer offers from other nodes, as the caller stores them. */
  ghost function LiveOffers(answer: seq<Announcement>, name: string, self: string, mergedAt: Time,
                            foundAt: Time): set<Service> {
    set i | 0 <= i < |answer| && answer[i].name == name && answer[i].nodeID != "" && answer[i].nodeID != self
            && answer[i].ttlSec != 0 && !Expired(EntryOf(answer[i], mergedAt), foundAt) :: EntryOf(answer[i], mergedAt)
  }

  /** After an answer is merged, a lookup finds exactly its live offers. */
  lemma FoundAreOffers(st: State, answer: seq<Announcement>, name: string, mergedAt: Time, foundAt: Time,
                       found: seq<Service>)
    requires Valid(st) && name !in st.local
    requires Merged(st.remote, answer, name, mergedAt, Owners(answer) - {st.self})
    requires IsFound(st, name, foundAt, found)
    ensures Elems(found) == LiveOffers(answer, name, st.self, mergedAt, foundAt)
  {
    forall s | s in Elems(found) ensures s in LiveOffers(answer, name, st.self, mergedAt, foundAt) {
      var k :| k in st.remote && s == st.remote[k] && !Expired(s, foundAt);
      assert Offered(answer, name, mergedAt, s);
      var i :| 0 <= i < |answer| && s == EntryOf(answer[i], mergedAt);
      assert answer[i].nodeID == s.nodeID && answer[i].name == name;
    }
    forall s | s in LiveOffers(answer, name, st.self, mergedAt, foundAt) ensures s in Elems(found) {
      OfferIsLive(st, answer, name, mergedAt, foundAt, s);
    }
  }

  lemma OfferIsLive(st: State, answer: seq<Announcement>, name: string, mergedAt: Time, foundAt: Time, s: Service)
    requires Merged(st.remote, answer, name, mergedAt, Owners(answer) - {st.self})
    requires s in LiveOffers(answer, name, st.self, mergedAt, foundAt)
    ensures s in Live(st, foundAt) && s.name == name
  {
    var i :| 0 <= i < |answer| && s == EntryOf(answer[i], mergedAt) && answer[i].name == name && answer[i].nodeID != ""
             && answer[i].nodeID != st.self && answer[i].ttlSec != 0 && !Expired(s, foundAt);
    assert Offered(answer, name, mergedAt, s);
    assert s.nodeID in Owners(answer) - {st.self};
    assert PruneTable(st.remote, foundAt)[RemoteKey(s.nodeID, name)] == s;
  }

  /** So it finds something exactly when the answer is useful. */
  lemma FoundIffUseful(st: State, answer: seq<Announcement>, name: string, mergedAt: Time, foundAt: Time,
                       found: seq<Service>)
    requires Valid(st) && name !in st.local
    requires Merged(st.remote, answer, name, mergedAt, Owners(answer) - {st.self})
    requires IsFound(st, name, foundAt, found)
    ensures found != [] <==> Useful(answer, name, st.self, mergedAt, foundAt)
  {
    FoundAreOffers(st, answer, name, mergedAt, foundAt, found);
    if found != [] {
      assert found[0] in Elems(found);
    }
    if Useful(answer, name, st.self, mergedAt, foundAt) {
      var i :| 0 <= i < |answer| && answer[i].name == name && answer[i].nodeID != "" && answer[i].nodeID != st.self
               && answer[i].ttlSec != 0 && !Expired(EntryOf(answer[i], mergedAt), foundAt);
      assert EntryOf(answer[i], mergedAt) in Elems(found);
    }
  }

  /** A lookup that found nothing leaves no entry under the name. */
  lemma NothingFound(st: State, name: string, now: Time)
    requires Valid(st) && IsFound(st, name, now, [])
    ensures name !in st.local && NoneNamed(Pruned(st, now).remote, name)
  {
    var named := set s | s in Live(st, now) && s.name == name;
    assert named == Elems<Service>([]) == {};
    forall k | k in Pruned(st, now).remote ensures Pruned(st, now).remote[k].name != name {
      var s := Pruned(st, now).remote[k];
      assert s in Live(st, now) && s !in named;
    }
    forall x | x in st.local ensures x != name {
      assert st.local[x] in Live(st, now) && st.local[x] !in named;
    }
  }

  /** Merges one answer and looks the name up again, in the state `looked`. */
  method MergeAndFind(reg: Registry, answer: seq<Announcement>, mergedAt: Time, foundAt: Time, name: string)
    returns (found: seq<Service>, ghost looked: State)
    requires Valid(reg.Model())
    modifies reg
    ensures IsMerge(old(reg.Model()), answer, mergedAt, looked) && Valid(looked)
    ensures IsFound(looked, name, foundAt, found) && reg.Model() == Pruned(looked, foundAt)
  {
    ghost var st := reg.Model();
    MergeAnnouncements(reg, answer, mergedAt);
    looked := reg.Model();
    MergeKeepsOwn(st, answer, mergedAt, looked);
    found := reg.FindByName(name, foundAt);
  }

  /** A turn of the loop from a state without the name: what is found, and what is left when nothing is. */
  lemma TurnOutcome(st: State, answer: seq<Announcement>, name: string, mergedAt: Time, foundAt: Time, looked: State,
                    found: seq<Service>, ids: set<string>)
    requires Valid(st) && name !in st.local && NoneNamed(st.remote, name) && Shaped(st, answer, ids)
    requires IsMerge(st, answer, mergedAt, looked) && IsFound(looked, name, foundAt, found)
    ensures Elems(found) == LiveOffers(answer, name, st.self, mergedAt, foundAt)
    ensures found != [] <==> Useful(answer, name, st.self, mergedAt, foundAt)
    ensures OwnersWithin(Pruned(looked, foundAt).remote, ids)
    ensures found == [] ==> NoneNamed(Pruned(looked, foundAt).remote, name)
  {
    MergeKeepsOwn(st, answer, mergedAt, looked);
    MergeOffers(st, answer, mergedAt, looked, name, ids);
    FoundAreOffers(looked, answer, name, mergedAt, foundAt, found);
    FoundIffUseful(looked, answer, name, mergedAt, foundAt, found);
    if found == [] {
      NothingFound(looked, name, foundAt);
    }
  }

  /** Every answer has the shape registries give it, from owners among `ids`, none of which nest. */
  ghost predicate SoundAnswers(st: State, ask: (nat, Member) -> Reply, ids: set<string>) {
    && IdsApart(ids) && OwnersWithin(st.remote, ids)
    && forall i, m | ask(i, m).answer.Some? :: Owners(ask(i, m).answer.value) <= ids
        && OnePerOwner(ask(i, m).answer.value)
  }

  /** The peers before i do not help. */
  ghost predicate NoneHelped(order: seq<Member>, ask: (nat, Member) -> Reply, name: string, self: string, i: nat)
    requires i <= |order|
  {
    forall j | 0 <= j < i :: !Helps(order[j], ask(j, order[j]), name, self)
  }

  /** The lookup goes on from a registry without the name. */
  ghost predicate Pending(st: State, name: string, ids: set<string>) {
    name !in st.local && NoneNamed(st.remote, name) && OwnersWithin(st.remote, ids)
  }

  /** What the resolver returns when it had to ask: either the live offers of the first peer that helps, or nothing
      because none does. */
  ghost predicate FirstHelp(order: seq<Member>, ask: (nat, Member) -> Reply, name: string, self: string,
                            found: seq<Service>, stop: Option<nat>) {
    match stop
    case None => found == [] && NoneHelped(order, ask, name, self, |order|)
    case Some(k) =>
      && k < |order| && NoneHelped(order, ask, name, self, k) && found != []
      && var r := ask(k, order[k]);
         Helps(order[k], r, name, self) && Elems(found) == LiveOffers(r.answer.value, name, self, r.mergedAt, r.foundAt)
  }

  /** Asks the i-th peer, if it has an address, merges its answer and looks again. */
  method AskOne(reg: Registry, name: string, m: Member, r: Reply, ghost looked0: State, ghost at0: Time,
                ghost ids: set<string>)
    returns (found: seq<Service>, ghost looked: State, ghost at: Time)
    requires Valid(reg.Model()) && Valid(looked0) && IsFound(looked0, name, at0, [])
             && reg.Model() == Pruned(looked0, at0)
    modifies reg
    ensures Valid(looked) && looked.self == reg.self && looked.local == old(reg.local)
    ensures IsFound(looked, name, at, found) && reg.Model() == Pruned(looked, at)
    ensures IdsApart(ids) && Pending(old(reg.Model()), name, ids)
            && (r.answer.Some? ==> Owners(r.answer.value) <= ids && OnePerOwner(r.answer.value)) ==>
              && (found != [] <==> Helps(m, r, name, reg.self))
              && (found != [] ==> Elems(found) == LiveOffers(r.answer.value, name, reg.self, r.mergedAt, r.foundAt))
              && (found == [] ==> Pending(reg.Model(), name, ids))
  {
    ghost var st := reg.Model();
    found, looked, at := [], looked0, at0;
    if m.rpcAddr == "" || m.nodeID == "" || m.nodeID == reg.self {
      return;
    }
    if r.answer.None? || |r.answer.value| == 0 {
      return;
    }
    found, looked := MergeAndFind(reg, r.answer.value, r.mergedAt, r.foundAt, name);
    at := r.foundAt;
    MergeKeepsOwn(st, r.answer.value, r.mergedAt, looked);
    if IdsApart(ids) && Pending(st, name, ids) && Owners(r.answer.value) <= ids && OnePerOwner(r.answer.value) {
      TurnOutcome(st, r.answer.value, name, r.mergedAt, r.foundAt, looked, found, ids);
    }
  }

  /** STOPS AT THE FIRST HELPFUL PEER. The result is always a lookup in the registry as it then was (`looked`, at `at`).
      With a live instance at hand nobody is asked. Otherwise, for answers of the shape registries give, the
      resolver stops at the first peer, connected ones first and each part by id, whose answer has an unexpired
      instance owned by another node, and returns exactly those instances; if there is none it returns
      nothing. `ask(i, m)` is the reply of the i-th peer asked. */
  method FindByName(reg: Registry, name: string, members: seq<Member>, meshPeers: seq<string>,
                    ask: (nat, Member) -> Reply, startedAt: Time, ghost ids: set<string>)
    returns (found: seq<Service>, order: seq<Member>, stop: Option<nat>, ghost looked: State, ghost at: Time)
    requires Valid(reg.Model())
    modifies reg
    ensures IsPeerOrder(members, reg.self, Elems(meshPeers), order)
    ensures Valid(looked) && looked.self == reg.self && looked.local == old(reg.local)
    ensures IsFound(looked, name, at, found) && reg.Model() == Pruned(looked, at)
    ensures !IsFound(old(reg.Model()), name, startedAt, []) ==>
            stop == None && looked == old(reg.Model()) && at == startedAt
    ensures IsFound(old(reg.Model()), name, startedAt, []) && SoundAnswers(old(reg.Model()), ask, ids) ==>
              FirstHelp(order, ask, name, reg.self, found, stop)
  {
    order := PeerOrder(members, reg.self, meshPeers);
    looked, at, stop := reg.Model(), startedAt, None;
    ghost var sound := SoundAnswers(looked, ask, ids);
    found := reg.FindByName(name, startedAt);
    NamesOfFound(looked, name, startedAt, found);
    if found != [] {
      return;
    }
    NothingFound(looked, name, startedAt);
    ApplyKeepsValid(looked, DoRead(startedAt));
    for i := 0 to |order|
      invariant Valid(looked) && looked.self == reg.self && looked.local == old(reg.local)
      invariant found == [] && IsFound(looked, name, at, []) && reg.Model() == Pruned(looked, at) && Valid(reg.Model())
      invariant sound ==> Pending(reg.Model(), name, ids) && NoneHelped(order, ask, name, reg.self, i)
    {
      found, looked, at := AskOne(reg, name, order[i], ask(i, order[i]), looked, at, ids);
      ApplyKeepsValid(looked, DoRead(at));
      if found != [] {
        stop := Some(i);
        return;
      }
    }
  }

  lemma NamesOfFound(st: State, name: string, now: Time, found: seq<Service>)
    requires IsFound(st, name, now, found)
    ensures forall i | 0 <= i < |found| :: found[i].name == name
    ensures forall other | IsFound(st, name, now, other) :: other == found
  {
    forall i | 0 <= i < |found| ensures found[i].name == name {
      assert found[i] in Elems(found);
    }
    forall other | IsFound(st, name, now, other) ensures other == found {
      FoundUnique(st, name, now, other, found);
    }
  }

  /** Answers that registries give are of the shape the resolver relies on. */
  lemma AnswersAreOnePerOwner(st: State, name: string, now: Time, found: seq<Service>)
    requires Valid(st) && IsFound(st, name, now, found)
    ensures OnePerOwner(AnswerFor(found))
  {
    forall i, j | 0 <= i < j < |found| ensures found[i].nodeID != found[j].nodeID || found[i].name != found[j].name {
      assert ByNameThenNode(found[i], found[j]);
      LessTotal(found[i].nodeID, found[j].nodeID);
      LessTotal(found[i].name, found[j].name);
    }
  }

  /** The answering side: every live instance of the name, its own and the second-hand ones alike, without
      announce times, in an answer of that shape. */
  method ResolveService(reg: Registry, name: string, now: Time)
      returns (answer: seq<Announcement>, ghost found: seq<Service>)
    requires Valid(reg.Model())
    modifies reg`remote
    ensures IsFound(old(reg.Model()), name, now, found) && answer == AnswerFor(found) && OnePerOwner(answer)
    ensures |answer| == |found|
    ensures forall i | 0 <= i < |found| ::
              answer[i] == Announcement(found[i].serviceID, found[i].nodeID, found[i].name,
                                        [Endpoint(found[i].host, found[i].port)], found[i].labels, found[i].version,
                                        found[i].ttlSec, 0)
    ensures reg.Model() == Pruned(old(reg.Model()), now)
  {
    ghost var st := reg.Model();
    var instances := reg.FindByName(name, now);
    answer := [];
    for i := 0 to |instances|
      invariant answer == AnswerFor(instances[..i])
    {
      answer := answer + [ToAnnouncement(instances[i])];
    }
    assert instances[..|instances|] == instances;
    found := instances;
    AnswersAreOnePerOwner(st, name, now, found);
  }
}
