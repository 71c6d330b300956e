/** How long gossip keeps a service alive: without second-hand answers an entry carries the time of its registration
    everywhere, however often it is announced again. */
module GossipTimes {
  import opened Sorting
  import opened RegistryModel
  import opened RegistryRuns
  import opened Envelope
  import opened Announcements
  import opened GossipWorld

  // ---- A property of services, throughout a world ----

  ghost predicate TableHas(good: Service -> bool, table: map<string, Service>) {
    forall k | k in table :: good(table[k])
  }

  /** Everything alive in the state has the property; tombstones need not. */
  ghost predicate StateHas(good: Service -> bool, m: LocalState) {
    forall i | 0 <= i < |m.services| :: m.services[i].nodeID == m.nodeID
        && (m.services[i].ttlSec != 0 ==> good(m.services[i]))
  }

  ghost predicate NodeHas(good: Service -> bool, node: Node) {
    && TableHas(good, node.reg.local) && TableHas(good, node.reg.remote)
    && forall m | m in node.drafts :: StateHas(good, m)
  }

  ghost predicate SignedHas(good: Service -> bool, signed: set<Signature>) {
    forall sig | sig in signed && sig.payload.StatePayload? :: StateHas(good, sig.payload.state)
  }

  ghost predicate NodesHave(good: Service -> bool, nodes: map<string, Node>) {
    forall n | n in nodes :: NodeHas(good, nodes[n])
  }

  ghost predicate WorldHas(good: Service -> bool, w: World) {
    NodesHave(good, w.nodes) && SignedHas(good, w.signed)
  }

  lemma UpdateHas(good: Service -> bool, nodes: map<string, Node>, n: string, node: Node)
    requires NodesHave(good, nodes) && NodeHas(good, node)
    ensures NodesHave(good, nodes[n := node])
  {
  }

  /** Filling in an unset announce time does not destroy the property. */
  ghost predicate Stampable(good: Service -> bool) {
    forall s, now | good(s) :: good(Stamp(s, s.nodeID, now))
  }

  lemma {:induction false} InsertAllHas(good: Service -> bool, table: map<string, Service>, m: LocalState, now: Time,
                                        i: nat)
    requires Stampable(good) && TableHas(good, table) && StateHas(good, m) && i <= |m.services|
    ensures TableHas(good, InsertAll(table, m.nodeID, m.services[..i], now).0)
  {
    if i > 0 {
      assert m.services[..i][..i - 1] == m.services[..i - 1];
      InsertAllHas(good, table, m, now, i - 1);
    }
  }

  lemma MergeHas(good: Service -> bool, node: Node, m: LocalState, now: Time)
    requires Stampable(good) && NodeHas(good, node) && StateHas(good, m)
    ensures NodeHas(good, node.(reg := Merge(node.reg, m, now)))
  {
    InsertAllHas(good, node.reg.remote, m, now, |m.services|);
    assert m.services[..|m.services|] == m.services;
  }

  // ---- Steps ----

  /** A registration brings in a service that has the property. */
  ghost predicate RegistersOnly(good: Service -> bool, w: World, e: Event) {
    e.Own? && e.op.DoRegister? && Member(w, e.n) ==>
      good(NewEntry(w.nodes[e.n].reg, e.op.name, e.op.host, e.op.port, e.op.labels, e.op.now))
  }

  /** An event that merges no answer and registers only services with the property. */
  ghost predicate Keeps(good: Service -> bool, w: World, e: Event) {
    !e.Absorb? && RegistersOnly(good, w, e)
  }

  lemma OwnHas(good: Service -> bool, n: string, node: Node, op: Op)
    requires NodeHas(good, node) && node.reg.self == n && !op.DoMerge?
    requires op.DoRegister? ==> good(NewEntry(node.reg, op.name, op.host, op.port, op.labels, op.now))
    ensures NodeHas(good, OwnNode(n, node, op))
  {
  }

  lemma SnapshotHas(good: Service -> bool, node: Node, state: LocalState)
    requires NodeHas(good, node) && Valid(node.reg) && IsSnapshot(node.reg, state)
    ensures StateHas(good, state)
  {
    forall i | 0 <= i < |state.services| ensures state.services[i].nodeID == state.nodeID && good(state.services[i]) {
      assert state.services[i] in Elems(state.services);
    }
  }

  /** A delivered state was signed by its owner, so it has the property. */
  lemma DeliveredHas(good: Service -> bool, w: World, n: string, wire: Wire)
    requires Inv(w) && WorldHas(good, w) && n in w.nodes && Unforged(w, wire)
    requires UnwrapEnvelope(w.cluster, wire, w.nodes[n].pubkeys).Ok?
    ensures StateHas(good, UnwrapEnvelope(w.cluster, wire, w.nodes[n].pubkeys).value)
  {
    OpenedWasSigned(w.cluster, wire, w.nodes[n].pubkeys);
    var state := UnwrapEnvelope(w.cluster, wire, w.nodes[n].pubkeys).value;
    assert NodeInv(w.keys, w.issued, n, w.nodes[n]);
    assert w.nodes[n].pubkeys[state.nodeID] == w.keys[state.nodeID];
    assert wire.env.signature.value in w.signed;
  }

  /** A node after an event of its own. */
  function NextNode(w: World, e: Event): Node
    requires Member(w, e.n)
  {
    var node := w.nodes[e.n];
    match e
    case Own(n, op) => OwnNode(n, node, op)
    case Snapshot(_, state) => node.(drafts := node.drafts + {state})
    case Seal(_, _) => node
    case Learn(_, m) => if m in w.keys then node.(pubkeys := node.pubkeys[m := w.keys[m]]) else node
    case Deliver(_, wire, now) =>
      (match UnwrapEnvelope(w.cluster, wire, node.pubkeys)
       case Ok(state) => node.(reg := Merge(node.reg, state, now))
       case Err(_) => node)
    case Answer(_, _, now, _) => node.(reg := Pruned(node.reg, now))
    case Absorb(_, answer, owner, now) =>
      node.(reg := Merge(node.reg, LocalState(owner, GroupFor(owner, answer, now)), now))
    case Restart(n) => FreshNode(n, w.keys[n])
  }

  /** Only the event's own node and the signatures change. */
  lemma NextShape(w: World, e: Event)
    requires Member(w, e.n)
    ensures Next(w, e).nodes == w.nodes[e.n := NextNode(w, e)]
    ensures !e.Seal? ==> Next(w, e).signed == w.signed
  {
  }

  lemma DeliverHas(good: Service -> bool, w: World, n: string, wire: Wire, now: Time)
    requires Stampable(good) && Member(w, n) && NodeHas(good, w.nodes[n])
    requires var opening := UnwrapEnvelope(w.cluster, wire, w.nodes[n].pubkeys); opening.Ok? ==>
             StateHas(good, opening.value)
    ensures NodeHas(good, NextNode(w, Deliver(n, wire, now)))
  {
    var opening := UnwrapEnvelope(w.cluster, wire, w.nodes[n].pubkeys);
    if opening.Ok? {
      MergeHas(good, w.nodes[n], opening.value, now);
    }
  }

  /** The node's own part of a step, from what the invariant says about the node and the message. */
  lemma NextNodeHas(good: Service -> bool, w: World, e: Event)
    requires Stampable(good) && Enabled(w, e) && Keeps(good, w, e)
    requires NodeHas(good, w.nodes[e.n]) && w.nodes[e.n].reg.self == e.n && Valid(w.nodes[e.n].reg)
    requires e.Deliver? ==>
               var opening := UnwrapEnvelope(w.cluster, e.wire, w.nodes[e.n].pubkeys); opening.Ok? ==>
                   StateHas(good, opening.value)
    ensures NodeHas(good, NextNode(w, e))
  {
    match e
    case Own(n, op) => OwnHas(good, n, w.nodes[n], op);
    case Snapshot(n, state) => SnapshotHas(good, w.nodes[n], state);
    case Deliver(n, wire, now) => DeliverHas(good, w, n, wire, now);
    case _ =>
  }

  lemma OwnNodeHas(good: Service -> bool, w: World, e: Event)
    requires Inv(w) && WorldHas(good, w) && Stampable(good) && Enabled(w, e) && Keeps(good, w, e)
    ensures NodeHas(good, NextNode(w, e))
  {
    assert NodeInv(w.keys, w.issued, e.n, w.nodes[e.n]);
    if e.Deliver? && UnwrapEnvelope(w.cluster, e.wire, w.nodes[e.n].pubkeys).Ok? {
      DeliveredHas(good, w, e.n, e.wire);
    }
    NextNodeHas(good, w, e);
  }

  lemma SealHas(good: Service -> bool, w: World, n: string, state: LocalState)
    requires WorldHas(good, w) && Member(w, n) && state in w.nodes[n].drafts
    ensures SignedHas(good, Next(w, Seal(n, state)).signed)
  {
    assert NodeHas(good, w.nodes[n]) && StateHas(good, state);
    SealShape(w, n, state);
  }

  lemma StepHas(good: Service -> bool, w: World, e: Event, w': World)
    requires Inv(w) && WorldHas(good, w) && Stampable(good) && Leads(w, e, w') && Keeps(good, w, e)
    ensures WorldHas(good, w')
  {
    OwnNodeHas(good, w, e);
    UpdateHas(good, w.nodes, e.n, NextNode(w, e));
    NextShape(w, e);
    if e.Seal? {
      SealHas(good, w, e.n, e.state);
    }
  }

  /** What holds at the start and is kept by every step of a kind holds throughout a run of such steps. */
  lemma {:induction false} GuardedInduction(inv: World -> bool, kind: (World, Event) -> bool, cluster: string,
                                            keys: map<string, PublicKey>, events: seq<Event>, worlds: seq<World>,
                                                i: nat)
    requires IsRun(cluster, keys, events, worlds) && i <= |events|
    requires forall j: nat | j < |events| :: kind(worlds[j], events[j])
    requires inv(Init(cluster, keys))
    requires forall w, e, w' | Leads(w, e, w') && kind(w, e) && inv(w) :: inv(w')
    ensures inv(worlds[i])
  {
    if i > 0 {
      GuardedInduction(inv, kind, cluster, keys, events, worlds, i - 1);
      RunStep(cluster, keys, events, worlds, i - 1);
    }
  }

  ghost predicate GoodWorld(good: Service -> bool, w: World) {
    Inv(w) && WorldHas(good, w)
  }

  lemma InitGood(good: Service -> bool, cluster: string, keys: map<string, PublicKey>)
    ensures GoodWorld(good, Init(cluster, keys))
  {
    InitInv(cluster, keys);
  }

  lemma KeepsGood(good: Service -> bool, w: World, e: Event, w': World)
    requires Stampable(good) && Leads(w, e, w') && Keeps(good, w, e) && GoodWorld(good, w)
    ensures GoodWorld(good, w')
  {
    LeadsKeepInv(w, e, w');
    StepHas(good, w, e, w');
  }

  lemma RunHas(good: Service -> bool, cluster: string, keys: map<string, PublicKey>, events: seq<Event>,
               worlds: seq<World>, i: nat)
    requires IsRun(cluster, keys, events, worlds) && i <= |events| && Stampable(good)
    requires forall j: nat | j < |events| :: Keeps(good, worlds[j], events[j])
    ensures GoodWorld(good, worlds[i])
  {
    InitGood(good, cluster, keys);
    forall w, e, w' | Leads(w, e, w') && Keeps(good, w, e) && GoodWorld(good, w) ensures GoodWorld(good, w') {
      KeepsGood(good, w, e, w');
    }
    GuardedInduction(w => GoodWorld(good, w), (w, e) => Keeps(good, w, e), cluster, keys, events, worlds, i);
  }

  // ---- Announce times ----

  /** Event j registered s, at the time s carries unless that was the unset time. */
  ghost predicate DatedBy(events: seq<Event>, worlds: seq<World>, s: Service, j: nat) {
    && j < |events| && j < |worlds| && RegisteredAs(worlds[j], events[j], s)
    && (events[j].op.now != 0 ==> s.announced == events[j].op.now)
  }

  ghost predicate Dated(events: seq<Event>, worlds: seq<World>, s: Service) {
    exists j: nat :: DatedBy(events, worlds, s, j)
  }

  lemma DatedStampable(events: seq<Event>, worlds: seq<World>)
    ensures Stampable(s => Dated(events, worlds, s))
  {
    forall s, now | Dated(events, worlds, s) ensures Dated(events, worlds, Stamp(s, s.nodeID, now)) {
      var j: nat :| DatedBy(events, worlds, s, j);
      assert DatedBy(events, worlds, Stamp(s, s.nodeID, now), j);
    }
  }

  lemma RegistrationIsDated(cluster: string, keys: map<string, PublicKey>, events: seq<Event>, worlds: seq<World>,
                            j: nat)
    requires IsRun(cluster, keys, events, worlds) && j < |events|
    ensures RegistersOnly(s => Dated(events, worlds, s), worlds[j], events[j])
  {
    var w, e := worlds[j], events[j];
    if e.Own? && e.op.DoRegister? && Member(w, e.n) {
      RunsKeepInv(cluster, keys, events, worlds, j);
      assert NodeInv(w.keys, w.issued, e.n, w.nodes[e.n]);
      var s := NewEntry(w.nodes[e.n].reg, e.op.name, e.op.host, e.op.port, e.op.labels, e.op.now);
      assert DatedBy(events, worlds, s, j);
    }
  }

  /** TIMES ARE KEPT. In every run without second-hand answers, each remote entry carries the time of the
      registration it comes from, so it is live nowhere later than 90 seconds after that, however often it is
      announced again. */
  lemma EntriesKeepTheirTime(cluster: string, keys: map<string, PublicKey>, events: seq<Event>, worlds: seq<World>,
                             n: string, k: string)
      returns (j: nat)
    requires IsRun(cluster, keys, events, worlds) && forall i: nat | i < |events| :: !events[i].Absorb?
    requires n in worlds[|events|].nodes && k in worlds[|events|].nodes[n].reg.remote
    ensures var s := worlds[|events|].nodes[n].reg.remote[k];
            && DatedBy(events, worlds, s, j)
            && (events[j].op.now != 0 ==> forall now :: Expired(s, now) <==> now - events[j].op.now > 90 * SECOND)
  {
    DatedStampable(events, worlds);
    forall i: nat | i < |events| ensures Keeps(s => Dated(events, worlds, s), worlds[i], events[i]) {
      RegistrationIsDated(cluster, keys, events, worlds, i);
    }
    RunHas(s => Dated(events, worlds, s), cluster, keys, events, worlds, |events|);
    var s := worlds[|events|].nodes[n].reg.remote[k];
    assert NodeHas(s => Dated(events, worlds, s), worlds[|events|].nodes[n]);
    assert Dated(events, worlds, s);
    j :| DatedBy(events, worlds, s, j);
    assert s.ttlSec == DEFAULT_TTL_SEC;
    forall now ensures Expired(s, now) <==> now - s.announced > 90 * SECOND { ExpiryExactly(s, now); }
  }
}
