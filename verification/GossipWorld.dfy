/** N registries exchanging signed gossip and second-hand RPC answers.

    The network may lose, delay, duplicate, reorder and even invent messages; it only cannot make a
    signature under a member's key that the member never made. Each event happens at one node, with the
    values the environment chooses (results of sorting, the clock) carried by the event.
 */
module GossipWorld {
  import opened Text
  import opened Sorting
  import opened RegistryModel
  import opened RegistryRuns
  import opened Envelope
  import opened Announcements

  datatype Node = Node(
    reg: State,
    pubkeys: map<string, PublicKey>,
    drafts: set<LocalState>,     // payloads marshalled and about to be signed
    log: seq<Service>)           // announcements of this incarnation

  datatype World = World(
    cluster: string,
    keys: map<string, PublicKey>,          // each member's signing key
    nodes: map<string, Node>,
    signed: set<Signature>,                // every signature a member ever made
    answers: set<seq<Announcement>>,       // every RPC answer ever given
    issued: map<string, set<Service>>)     // cores of everything each member announced, over all incarnations

  datatype Event =
    | Own(n: string, op: Op)
    | Snapshot(n: string, state: LocalState)
    | Seal(n: string, state: LocalState)
    | Learn(n: string, m: string)
    | Deliver(n: string, wire: Wire, now: Time)
    | Answer(n: string, name: string, now: Time, found: seq<Service>)
    | Absorb(n: string, answer: seq<Announcement>, owner: string, now: Time)
    | Restart(n: string)

  function FreshNode(n: string, key: PublicKey): Node {
    Node(New(n), map[n := key], {}, [])
  }

  function Init(cluster: string, keys: map<string, PublicKey>): World {
    World(cluster, keys, map n | n in keys :: FreshNode(n, keys[n]), {}, {}, map n | n in keys :: {})
  }

  /** No signature under a member's key that the member did not make. */
  predicate Unforged(w: World, wire: Wire) {
    (wire.Sealed? && wire.env.signature.Some? && wire.env.signature.value.key in w.keys.Values)
    ==> wire.env.signature.value in w.signed
  }

  predicate Member(w: World, n: string) {
    n in w.nodes && n in w.keys && n in w.issued
  }

  ghost predicate Enabled(w: World, e: Event) {
    Member(w, e.n) &&
    match e
    case Own(_, op) => !op.DoMerge?
    case Snapshot(n, state) => IsSnapshot(w.nodes[n].reg, state)
    case Seal(n, state) => state in w.nodes[n].drafts
    case Learn(_, m) => m in w.keys
    case Deliver(_, wire, _) => Unforged(w, wire)
    case Answer(n, name, now, found) => IsFound(w.nodes[n].reg, name, now, found)
    case Absorb(_, answer, owner, _) => answer in w.answers && owner != ""
        && exists i | 0 <= i < |answer| :: answer[i].nodeID == owner
    case Restart(_) => true
  }

  /** A node after one of its own operations; a deregistration drafts its tombstone, alone. */
  function OwnNode(n: string, node: Node, op: Op): Node {
    var out := Emits(node.reg, op);
    var tomb := if op.DoDeregister? && out != [] then {LocalState(n, out)} else {};
    node.(reg := Apply(node.reg, op), drafts := node.drafts + tomb, log := node.log + out)
  }

  function OwnIssued(issued: map<string, set<Service>>, n: string, node: Node, op: Op): map<string, set<Service>>
    requires n in issued
  {
    issued[n := issued[n] + Cores(Emits(node.reg, op))]
  }

  function OwnStep(w: World, n: string, op: Op): World
    requires Member(w, n)
  {
    w.(nodes := w.nodes[n := OwnNode(n, w.nodes[n], op)], issued := OwnIssued(w.issued, n, w.nodes[n], op))
  }

  function Cores(log: seq<Service>): set<Service> {
    set s | s in log :: Core(s)
  }

  function Next(w: World, e: Event): World
    requires Member(w, e.n)
  {
    var node := w.nodes[e.n];
    match e
    case Own(n, op) => OwnStep(w, n, op)
    case Snapshot(n, state) => w.(nodes := w.nodes[n := node.(drafts := node.drafts + {state})])
    case Seal(n, state) =>
      (match SignEnvelope(w.cluster, StatePayload(state), Some(Signer(n, w.keys[n])))
       case Ok(wire) =>
         if wire.Sealed? && wire.env.signature.Some? then w.(signed := w.signed + {wire.env.signature.value}) else w
       case Err(_) => w)
    case Learn(n, m) => if m in w.keys then w.(nodes := w.nodes[n := node.(pubkeys := node.pubkeys[m := w.keys[m]])])
        else w
    case Deliver(n, wire, now) =>
      (match UnwrapEnvelope(w.cluster, wire, node.pubkeys)
       case Ok(state) => w.(nodes := w.nodes[n := node.(reg := Merge(node.reg, state, now))])
       case Err(_) => w)
    case Answer(n, _, now, found) =>
      w.(nodes := w.nodes[n := node.(reg := Pruned(node.reg, now))], answers := w.answers + {AnswerFor(found)})
    case Absorb(n, answer, owner, now) =>
      w.(nodes := w.nodes[n := node.(reg := Merge(node.reg, LocalState(owner, GroupFor(owner, answer, now)), now))])
    case Restart(n) =>
      w.(nodes := w.nodes[n := FreshNode(n, w.keys[n])])
  }

  // ---- The invariant ----

  predicate Backed(issued: map<string, set<Service>>, s: Service) {
    s.nodeID in issued && Core(s) in issued[s.nodeID]
  }

  ghost predicate StateBacked(issued: map<string, set<Service>>, m: LocalState) {
    && m.nodeID in issued
    && forall i | 0 <= i < |m.services| :: m.services[i].nodeID == m.nodeID && Backed(issued, m.services[i])
  }

  ghost predicate TableBacked(issued: map<string, set<Service>>, table: map<string, Service>) {
    forall k | k in table :: Backed(issued, table[k])
  }

  ghost predicate NodeInv(keys: map<string, PublicKey>, issued: map<string, set<Service>>, n: string, node: Node)
  {
    && n in issued
    && node.reg.self == n && Valid(node.reg) && Logged(node.reg, node.log)
    && TableBacked(issued, node.reg.local)
    && TableBacked(issued, node.reg.remote)
    && (forall m | m in node.drafts :: m.nodeID == n && StateBacked(issued, m))
    && (forall m | m in node.pubkeys :: m in keys && node.pubkeys[m] == keys[m])
  }

  ghost predicate NodesInv(keys: map<string, PublicKey>, issued: map<string, set<Service>>, nodes: map<string, Node>) {
    forall n | n in nodes :: NodeInv(keys, issued, n, nodes[n])
  }

  ghost predicate SignedInv(issued: map<string, set<Service>>, signed: set<Signature>) {
    forall sig | sig in signed :: sig.payload.StatePayload? && StateBacked(issued, sig.payload.state)
  }

  ghost predicate AnswersInv(issued: map<string, set<Service>>, answers: set<seq<Announcement>>) {
    forall a | a in answers :: AnswerBacked(issued, a)
  }

  ghost predicate AnswerBacked(issued: map<string, set<Service>>, a: seq<Announcement>) {
    forall i | 0 <= i < |a| :: Backed(issued, FromAnnouncement(a[i], 0))
  }

  ghost predicate Inv(w: World) {
    && w.nodes.Keys == w.keys.Keys == w.issued.Keys
    && NodesInv(w.keys, w.issued, w.nodes)
    && SignedInv(w.issued, w.signed)
    && AnswersInv(w.issued, w.answers)
  }

  // ---- Preservation ----

  lemma {:induction false} InsertAllBacked(issued: map<string, set<Service>>, table: map<string, Service>,
                                           m: LocalState, now: Time, i: nat)
    requires TableBacked(issued, table) && StateBacked(issued, m) && i <= |m.services|
    ensures TableBacked(issued, InsertAll(table, m.nodeID, m.services[..i], now).0)
  {
    if i > 0 {
      assert m.services[..i][..i - 1] == m.services[..i - 1];
      InsertAllBacked(issued, table, m, now, i - 1);
      assert Core(Stamp(m.services[i - 1], m.nodeID, now)) == Core(m.services[i - 1]);
    }
  }

  lemma MergeBacked(issued: map<string, set<Service>>, st: State, m: LocalState, now: Time)
    requires TableBacked(issued, st.remote) && StateBacked(issued, m)
    ensures TableBacked(issued, Merge(st, m, now).remote)
  {
    InsertAllBacked(issued, st.remote, m, now, |m.services|);
    assert m.services[..|m.services|] == m.services;
  }

  lemma {:induction false} GroupBacked(issued: map<string, set<Service>>, answer: seq<Announcement>, owner: string,
                                       now: Time)
    requires AnswerBacked(issued, answer)
    requires owner in issued
    ensures StateBacked(issued, LocalState(owner, GroupFor(owner, answer, now)))
  {
    if answer != [] {
      var n := |answer| - 1;
      assert AnswerBacked(issued, answer[..n]);
      GroupBacked(issued, answer[..n], owner, now);
      assert Core(FromAnnouncement(answer[n], now)) == Core(FromAnnouncement(answer[n], 0));
    }
  }

  /** Only the registry's table changes: the rest of a node's invariant carries over. */
  lemma ReplaceTable(keys: map<string, PublicKey>, issued: map<string, set<Service>>, n: string, node: Node, reg: State)
    requires NodeInv(keys, issued, n, node)
    requires reg == node.reg.(remote := reg.remote) && Valid(reg) && TableBacked(issued, reg.remote)
    ensures NodeInv(keys, issued, n, node.(reg := reg))
  {
  }

  lemma MergeKeepsNode(keys: map<string, PublicKey>, issued: map<string, set<Service>>, n: string, node: Node,
                       m: LocalState, now: Time)
    requires NodeInv(keys, issued, n, node) && StateBacked(issued, m)
    ensures NodeInv(keys, issued, n, node.(reg := Merge(node.reg, m, now)))
  {
    ApplyKeepsValid(node.reg, DoMerge(m, now));
    MergeBacked(issued, node.reg, m, now);
    ReplaceTable(keys, issued, n, node, Merge(node.reg, m, now));
  }

  lemma PruneBacked(issued: map<string, set<Service>>, table: map<string, Service>, now: Time)
    requires TableBacked(issued, table)
    ensures TableBacked(issued, PruneTable(table, now))
  {
  }

  lemma ReadKeepsNode(keys: map<string, PublicKey>, issued: map<string, set<Service>>, n: string, node: Node, now: Time)
    requires NodeInv(keys, issued, n, node)
    ensures NodeInv(keys, issued, n, node.(reg := Pruned(node.reg, now)))
  {
    ApplyKeepsValid(node.reg, DoRead(now));
    PruneBacked(issued, node.reg.remote, now);
    ReplaceTable(keys, issued, n, node, Pruned(node.reg, now));
  }

  ghost predicate IssuedGrows(issued: map<string, set<Service>>, issued': map<string, set<Service>>) {
    issued.Keys == issued'.Keys && forall n | n in issued :: issued[n] <= issued'[n]
  }

  lemma StateGrows(issued: map<string, set<Service>>, issued': map<string, set<Service>>, m: LocalState)
    requires IssuedGrows(issued, issued') && StateBacked(issued, m)
    ensures StateBacked(issued', m)
  {
    forall i | 0 <= i < |m.services| ensures m.services[i].nodeID == m.nodeID && Backed(issued', m.services[i]) {
      assert Backed(issued, m.services[i]);
    }
  }

  /** Nothing that was backed stops being backed when a node announces more. */
  lemma NetworkGrows(w: World, issued': map<string, set<Service>>)
    requires SignedInv(w.issued, w.signed) && AnswersInv(w.issued, w.answers) && IssuedGrows(w.issued, issued')
    ensures SignedInv(issued', w.signed) && AnswersInv(issued', w.answers)
  {
    forall sig | sig in w.signed ensures sig.payload.StatePayload? && StateBacked(issued', sig.payload.state) {
      StateGrows(w.issued, issued', sig.payload.state);
    }
    forall a | a in w.answers ensures AnswerBacked(issued', a) {
      assert AnswerBacked(w.issued, a);
    }
  }

  lemma NodeGrows(keys: map<string, PublicKey>, issued: map<string, set<Service>>, issued': map<string, set<Service>>,
                  m: string, node: Node)
    requires NodeInv(keys, issued, m, node)
    requires IssuedGrows(issued, issued') && issued'[m] == issued[m]
    ensures NodeInv(keys, issued', m, node)
  {
    forall d | d in node.drafts ensures d.nodeID == m && StateBacked(issued', d) {
      StateGrows(issued, issued', d);
    }
  }

  /** One node announces more; the others keep their invariant. */
  lemma NodesGrow(keys: map<string, PublicKey>, issued: map<string, set<Service>>, issued': map<string, set<Service>>,
                  nodes: map<string, Node>, n: string, node: Node)
    requires NodesInv(keys, issued, nodes) && NodeInv(keys, issued', n, node)
    requires IssuedGrows(issued, issued') && forall m | m in issued && m != n :: issued'[m] == issued[m]
    ensures NodesInv(keys, issued', nodes[n := node])
  {
    forall m | m in nodes && m != n ensures NodeInv(keys, issued', m, nodes[m]) {
      NodeGrows(keys, issued, issued', m, nodes[m]);
    }
  }

  /** An own operation leaves only backed entries in the registry and only backed drafts. */
  lemma OwnTables(issued: map<string, set<Service>>, n: string, node: Node, op: Op)
    requires n in issued && node.reg.self == n && !op.DoMerge?
    requires TableBacked(issued, node.reg.local) && TableBacked(issued, node.reg.remote)
    ensures var issued' := OwnIssued(issued, n, node, op);
            && TableBacked(issued', Apply(node.reg, op).local)
            && TableBacked(issued', Apply(node.reg, op).remote)
            && (forall s | s in Emits(node.reg, op) :: s.nodeID == n && Backed(issued', s))
  {
    var issued' := OwnIssued(issued, n, node, op);
    forall s | s in Emits(node.reg, op) ensures s.nodeID == n && Backed(issued', s) {
      assert Core(s) in Cores(Emits(node.reg, op));
    }
    if op.DoRegister? {
      assert Backed(issued', Emits(node.reg, op)[0]);
    }
  }

  lemma OwnKeepsNode(keys: map<string, PublicKey>, issued: map<string, set<Service>>, n: string, node: Node, op: Op)
    requires NodeInv(keys, issued, n, node) && !op.DoMerge?
    ensures NodeInv(keys, OwnIssued(issued, n, node, op), n, OwnNode(n, node, op))
  {
    var out, issued' := Emits(node.reg, op), OwnIssued(issued, n, node, op);
    ApplyKeepsValid(node.reg, op);
    LogOne(node.reg, node.log, op);
    OwnTables(issued, n, node, op);
    forall d | d in node.drafts ensures d.nodeID == n && StateBacked(issued', d) {
      StateGrows(issued, issued', d);
    }
  }

  lemma GrowKeepsInv(w: World, n: string, node: Node, issued': map<string, set<Service>>)
    requires Inv(w) && n in w.nodes && NodeInv(w.keys, issued', n, node)
    requires IssuedGrows(w.issued, issued') && forall m | m in w.issued && m != n :: issued'[m] == w.issued[m]
    ensures Inv(w.(nodes := w.nodes[n := node], issued := issued'))
  {
    NetworkGrows(w, issued');
    NodesGrow(w.keys, w.issued, issued', w.nodes, n, node);
  }

  lemma AnswerIsBacked(issued: map<string, set<Service>>, reg: State, name: string, now: Time, found: seq<Service>)
    requires TableBacked(issued, reg.local) && TableBacked(issued, reg.remote) && IsFound(reg, name, now, found)
    ensures AnswerBacked(issued, AnswerFor(found))
  {
    forall i | 0 <= i < |found| ensures Backed(issued, FromAnnouncement(AnswerFor(found)[i], 0)) {
      assert found[i] in Elems(found);
      AnswerKeepsCore(found[i], 0);
    }
  }

  lemma SnapshotBacked(issued: map<string, set<Service>>, reg: State, state: LocalState)
    requires reg.self in issued && Valid(reg) && TableBacked(issued, reg.local) && IsSnapshot(reg, state)
    ensures StateBacked(issued, state)
  {
    forall i | 0 <= i < |state.services|
      ensures state.services[i].nodeID == reg.self && Backed(issued, state.services[i])
    {
      assert state.services[i] in Elems(state.services);
    }
  }

  lemma SnapshotKeepsNode(keys: map<string, PublicKey>, issued: map<string, set<Service>>, n: string, node: Node,
                          state: LocalState)
    requires NodeInv(keys, issued, n, node) && IsSnapshot(node.reg, state)
    ensures NodeInv(keys, issued, n, node.(drafts := node.drafts + {state}))
  {
    SnapshotBacked(issued, node.reg, state);
  }

  lemma DeliverKeepsNode(w: World, n: string, wire: Wire, now: Time)
    requires Inv(w) && n in w.nodes && Unforged(w, wire)
    requires UnwrapEnvelope(w.cluster, wire, w.nodes[n].pubkeys).Ok?
    ensures var state := UnwrapEnvelope(w.cluster, wire, w.nodes[n].pubkeys).value;
            NodeInv(w.keys, w.issued, n, w.nodes[n].(reg := Merge(w.nodes[n].reg, state, now)))
  {
    OpenedWasSigned(w.cluster, wire, w.nodes[n].pubkeys);
    var state := UnwrapEnvelope(w.cluster, wire, w.nodes[n].pubkeys).value;
    var sig := wire.env.signature.value;
    assert NodeInv(w.keys, w.issued, n, w.nodes[n]);
    assert w.nodes[n].pubkeys[state.nodeID] == w.keys[state.nodeID];
    assert sig.key in w.keys.Values && sig in w.signed;
    MergeKeepsNode(w.keys, w.issued, n, w.nodes[n], state, now);
  }

  lemma AbsorbKeepsNode(w: World, n: string, answer: seq<Announcement>, owner: string, now: Time)
    requires Inv(w) && n in w.nodes && answer in w.answers
    requires exists i | 0 <= i < |answer| :: answer[i].nodeID == owner
    ensures NodeInv(w.keys, w.issued, n,
                    w.nodes[n].(reg := Merge(w.nodes[n].reg, LocalState(owner, GroupFor(owner, answer, now)), now)))
  {
    var i :| 0 <= i < |answer| && answer[i].nodeID == owner;
    assert Backed(w.issued, FromAnnouncement(answer[i], 0));
    GroupBacked(w.issued, answer, owner, now);
    MergeKeepsNode(w.keys, w.issued, n, w.nodes[n], LocalState(owner, GroupFor(owner, answer, now)), now);
  }

  lemma UpdateNodes(keys: map<string, PublicKey>, issued: map<string, set<Service>>, nodes: map<string, Node>,
                    n: string, node: Node)
    requires NodesInv(keys, issued, nodes) && NodeInv(keys, issued, n, node)
    ensures NodesInv(keys, issued, nodes[n := node])
  {
  }

  lemma UpdateKeepsInv(w: World, n: string, node: Node)
    requires Inv(w) && n in w.nodes && NodeInv(w.keys, w.issued, n, node)
    ensures Inv(w.(nodes := w.nodes[n := node]))
  {
    UpdateNodes(w.keys, w.issued, w.nodes, n, node);
  }

  lemma AddSigned(w: World, sig: Signature)
    requires Inv(w) && sig.payload.StatePayload? && StateBacked(w.issued, sig.payload.state)
    ensures Inv(w.(signed := w.signed + {sig}))
  {
  }

  lemma AddAnswer(w: World, a: seq<Announcement>)
    requires Inv(w) && AnswerBacked(w.issued, a)
    ensures Inv(w.(answers := w.answers + {a}))
  {
  }

  lemma DraftBacked(keys: map<string, PublicKey>, issued: map<string, set<Service>>, n: string, node: Node,
                    state: LocalState)
    requires NodeInv(keys, issued, n, node) && state in node.drafts
    ensures StateBacked(issued, state)
  {
  }

  lemma SealShape(w: World, n: string, state: LocalState)
    requires Member(w, n)
    ensures var w' := Next(w, Seal(n, state));
            w' == w || w' == w.(signed := w.signed + {Signature(w.keys[n], StatePayload(state))})
  {
  }

  lemma SealKeepsInv(w: World, n: string, state: LocalState)
    requires Inv(w) && Enabled(w, Seal(n, state))
    ensures Inv(Next(w, Seal(n, state)))
  {
    var sig := Signature(w.keys[n], StatePayload(state));
    DraftBacked(w.keys, w.issued, n, w.nodes[n], state);
    AddSigned(w, sig);
    SealShape(w, n, state);
  }

  lemma LearnKeepsNode(keys: map<string, PublicKey>, issued: map<string, set<Service>>, n: string, node: Node,
                       m: string)
    requires NodeInv(keys, issued, n, node) && m in keys
    ensures NodeInv(keys, issued, n, node.(pubkeys := node.pubkeys[m := keys[m]]))
  {
  }

  lemma RestartKeepsNode(keys: map<string, PublicKey>, issued: map<string, set<Service>>, n: string, node: Node)
    requires NodeInv(keys, issued, n, node) && n in keys
    ensures NodeInv(keys, issued, n, FreshNode(n, keys[n]))
  {
  }

  lemma OwnGrows(w: World, n: string, op: Op)
    requires Member(w, n)
    ensures var issued' := OwnIssued(w.issued, n, w.nodes[n], op);
            && Next(w, Own(n, op)) == w.(nodes := w.nodes[n := OwnNode(n, w.nodes[n], op)], issued := issued')
            && IssuedGrows(w.issued, issued') && forall m | m in w.issued && m != n :: issued'[m] == w.issued[m]
  {
  }

  lemma OwnKeepsInv(w: World, n: string, op: Op)
    requires Inv(w) && Enabled(w, Own(n, op))
    ensures Inv(Next(w, Own(n, op)))
  {
    OwnKeepsNode(w.keys, w.issued, n, w.nodes[n], op);
    OwnGrows(w, n, op);
    GrowKeepsInv(w, n, OwnNode(n, w.nodes[n], op), OwnIssued(w.issued, n, w.nodes[n], op));
  }

  lemma SnapshotKeepsInv(w: World, n: string, state: LocalState)
    requires Inv(w) && Enabled(w, Snapshot(n, state))
    ensures Inv(Next(w, Snapshot(n, state)))
  {
    SnapshotKeepsNode(w.keys, w.issued, n, w.nodes[n], state);
    UpdateKeepsInv(w, n, w.nodes[n].(drafts := w.nodes[n].drafts + {state}));
  }

  lemma LearnKeepsInv(w: World, n: string, m: string)
    requires Inv(w) && Enabled(w, Learn(n, m))
    ensures Inv(Next(w, Learn(n, m)))
  {
    LearnKeepsNode(w.keys, w.issued, n, w.nodes[n], m);
    UpdateKeepsInv(w, n, w.nodes[n].(pubkeys := w.nodes[n].pubkeys[m := w.keys[m]]));
  }

  lemma DeliverKeepsInv(w: World, n: string, wire: Wire, now: Time)
    requires Inv(w) && Enabled(w, Deliver(n, wire, now))
    ensures Inv(Next(w, Deliver(n, wire, now)))
  {
    var opening := UnwrapEnvelope(w.cluster, wire, w.nodes[n].pubkeys);
    if opening.Ok? {
      DeliverKeepsNode(w, n, wire, now);
      UpdateKeepsInv(w, n, w.nodes[n].(reg := Merge(w.nodes[n].reg, opening.value, now)));
    }
  }

  lemma AnswerKeepsInv(w: World, n: string, name: string, now: Time, found: seq<Service>)
    requires Inv(w) && Enabled(w, Answer(n, name, now, found))
    ensures Inv(Next(w, Answer(n, name, now, found)))
  {
    ReadKeepsNode(w.keys, w.issued, n, w.nodes[n], now);
    AnswerIsBacked(w.issued, w.nodes[n].reg, name, now, found);
    var w' := w.(nodes := w.nodes[n := w.nodes[n].(reg := Pruned(w.nodes[n].reg, now))]);
    UpdateKeepsInv(w, n, w.nodes[n].(reg := Pruned(w.nodes[n].reg, now)));
    AddAnswer(w', AnswerFor(found));
  }

  lemma AbsorbKeepsInv(w: World, n: string, answer: seq<Announcement>, owner: string, now: Time)
    requires Inv(w) && Enabled(w, Absorb(n, answer, owner, now))
    ensures Inv(Next(w, Absorb(n, answer, owner, now)))
  {
    AbsorbKeepsNode(w, n, answer, owner, now);
    UpdateKeepsInv(w, n, w.nodes[n].(reg :=
        Merge(w.nodes[n].reg, LocalState(owner, GroupFor(owner, answer, now)), now)));
  }

  lemma RestartShape(w: World, n: string)
    requires Member(w, n)
    ensures Next(w, Restart(n)) == w.(nodes := w.nodes[n := FreshNode(n, w.keys[n])])
  {
  }

  lemma RestartKeepsInv(w: World, n: string)
    requires Inv(w) && Enabled(w, Restart(n))
    ensures Inv(Next(w, Restart(n)))
  {
    RestartKeepsNode(w.keys, w.issued, n, w.nodes[n]);
    RestartShape(w, n);
    UpdateKeepsInv(w, n, FreshNode(n, w.keys[n]));
  }

  /** Every event keeps the invariant. */
  lemma NextKeepsInv(w: World, e: Event)
    requires Inv(w) && Enabled(w, e)
    ensures Inv(Next(w, e))
  {
    match e
    case Own(n, op) => OwnKeepsInv(w, n, op);
    case Snapshot(n, state) => SnapshotKeepsInv(w, n, state);
    case Seal(n, state) => SealKeepsInv(w, n, state);
    case Learn(n, m) => LearnKeepsInv(w, n, m);
    case Deliver(n, wire, now) => DeliverKeepsInv(w, n, wire, now);
    case Answer(n, name, now, found) => AnswerKeepsInv(w, n, name, now, found);
    case Absorb(n, answer, owner, now) => AbsorbKeepsInv(w, n, answer, owner, now);
    case Restart(n) => RestartKeepsInv(w, n);
  }

  // ---- Runs ----

  ghost predicate Leads(w: World, e: Event, w': World) {
    Enabled(w, e) && w' == Next(w, e)
  }

  ghost predicate StepAt(events: seq<Event>, worlds: seq<World>, i: nat) {
    i < |events| && i + 1 < |worlds| && Leads(worlds[i], events[i], worlds[i + 1])
  }

  ghost predicate IsRun(cluster: string, keys: map<string, PublicKey>, events: seq<Event>, worlds: seq<World>) {
    && |worlds| == |events| + 1
    && worlds[0] == Init(cluster, keys)
    && forall i: nat | i < |events| :: StepAt(events, worlds, i)
  }

  lemma RunStep(cluster: string, keys: map<string, PublicKey>, events: seq<Event>, worlds: seq<World>, i: nat)
    requires IsRun(cluster, keys, events, worlds) && i < |events|
    ensures Leads(worlds[i], events[i], worlds[i + 1]) && Member(worlds[i], events[i].n)
  {
    assert StepAt(events, worlds, i);
  }

  lemma InitInv(cluster: string, keys: map<string, PublicKey>)
    ensures Inv(Init(cluster, keys))
  {
  }

  lemma LeadsKeepInv(w: World, e: Event, w': World)
    requires Inv(w) && Leads(w, e, w')
    ensures Inv(w')
  {
    NextKeepsInv(w, e);
  }

  /** What holds at the start and is kept by every step holds throughout a run. */
  lemma {:induction false} RunInduction(inv: World -> bool, cluster: string, keys: map<string, PublicKey>,
                                        events: seq<Event>, worlds: seq<World>, i: nat)
    requires IsRun(cluster, keys, events, worlds) && i <= |events|
    requires inv(Init(cluster, keys))
    requires forall w, e, w' | Leads(w, e, w') && inv(w) :: inv(w')
    ensures inv(worlds[i])
  {
    if i > 0 {
      RunInduction(inv, cluster, keys, events, worlds, i - 1);
      RunStep(cluster, keys, events, worlds, i - 1);
    }
  }

  lemma RunsKeepInv(cluster: string, keys: map<string, PublicKey>, events: seq<Event>, worlds: seq<World>, i: nat)
    requires IsRun(cluster, keys, events, worlds) && i <= |events|
    ensures Inv(worlds[i])
  {
    InitInv(cluster, keys);
    forall w, e, w' | Leads(w, e, w') && Inv(w) ensures Inv(w') { LeadsKeepInv(w, e, w'); }
    RunInduction(w => Inv(w), cluster, keys, events, worlds, i);
  }

  // ---- Delivery ----

  function WireOf(w: World, n: string, state: LocalState): Wire
    requires n in w.keys
  {
    Sealed(GossipEnvelope(w.cluster, ServiceAnnounce, StatePayload(state),
        Some(Signature(w.keys[n], StatePayload(state)))))
  }

  lemma SealSigns(w: World, n: string, state: LocalState)
    requires Member(w, n) && w.cluster != "" && n != "" && state.nodeID == n
    ensures Next(w, Seal(n, state)) == w.(signed := w.signed + {Signature(w.keys[n], StatePayload(state))})
  {
    SealsExactly(w.cluster, StatePayload(state), Some(Signer(n, w.keys[n])));
  }

  lemma DraftIsOwn(w: World, n: string, state: LocalState)
    requires Inv(w) && Enabled(w, Seal(n, state))
    ensures state.nodeID == n
  {
    assert NodeInv(w.keys, w.issued, n, w.nodes[n]);
  }

  lemma KnownKeyIsTrue(w: World, m: string, n: string)
    requires Inv(w) && m in w.nodes && n in w.nodes[m].pubkeys
    ensures n in w.keys && w.nodes[m].pubkeys[n] == w.keys[n]
  {
    assert NodeInv(w.keys, w.issued, m, w.nodes[m]);
  }

  /** Sealing the state signs it; the message can then be delivered at m, and is merged there. */
  ghost predicate ArrivesAt(w: World, n: string, state: LocalState, m: string, now: Time)
    requires Member(w, n) && Member(w, m)
  {
    var w1 := w.(signed := w.signed + {Signature(w.keys[n], StatePayload(state))});
    var wire := WireOf(w, n, state);
    && Next(w, Seal(n, state)) == w1 && Unforged(w1, wire)
    && Next(w1, Deliver(m, wire, now)).nodes[m] == w.nodes[m].(reg := Merge(w.nodes[m].reg, state, now))
  }

  lemma SignedArrives(w: World, n: string, state: LocalState, m: string, now: Time)
    requires Member(w, n) && Member(w, m) && w.cluster != "" && n != "" && state.nodeID == n
    requires n in w.nodes[m].pubkeys && w.nodes[m].pubkeys[n] == w.keys[n]
    ensures ArrivesAt(w, n, state, m, now)
  {
    SealSigns(w, n, state);
    OpensExactly(w.cluster, WireOf(w, n, state), w.nodes[m].pubkeys, state);
    var w1 := w.(signed := w.signed + {Signature(w.keys[n], StatePayload(state))});
    DeliverOpened(w1, m, WireOf(w, n, state), state, now);
  }

  /** GOSSIP ARRIVES. What a member seals can be delivered at any member that knows its key, and is merged there into
      the registry as it then is. */
  lemma SealedIsDelivered(w: World, n: string, state: LocalState, m: string, now: Time)
    requires Inv(w) && Enabled(w, Seal(n, state)) && w.cluster != "" && n != ""
    requires Member(w, m) && n in w.nodes[m].pubkeys
    ensures ArrivesAt(w, n, state, m, now)
  {
    DraftIsOwn(w, n, state);
    KnownKeyIsTrue(w, m, n);
    SignedArrives(w, n, state, m, now);
  }

  /** What makes a message possible: a withdrawal and a snapshot are drafted, and a key that was learned is known. */
  lemma DraftsAndKeys(w: World, n: string, op: Op, state: LocalState, m: string)
    requires Member(w, n) && m in w.keys
    ensures op.DoDeregister? && op.name in w.nodes[n].reg.local ==>
              LocalState(n, [Tombstone(w.nodes[n].reg, op.name, op.now)]) in Next(w, Own(n, op)).nodes[n].drafts
    ensures state in Next(w, Snapshot(n, state)).nodes[n].drafts
    ensures var keys := Next(w, Learn(n, m)).nodes[n].pubkeys; m in keys && keys[m] == w.keys[m]
  {
  }

  lemma DeliverOpened(w: World, m: string, wire: Wire, state: LocalState, now: Time)
    requires Member(w, m) && UnwrapEnvelope(w.cluster, wire, w.nodes[m].pubkeys) == Ok(state)
    ensures Next(w, Deliver(m, wire, now)).nodes[m] == w.nodes[m].(reg := Merge(w.nodes[m].reg, state, now))
  {
  }

  // ---- Genuineness and agreement ----

  /** In world w, event e is the owner's registration of s: same id, host, port, labels and version. */
  ghost predicate RegisteredAs(w: World, e: Event, s: Service) {
    && e.Own? && e.op.DoRegister? && e.n == s.nodeID && Member(w, e.n) && w.nodes[e.n].reg.self == e.n
    && s.name == e.op.name && s.host == e.op.host && s.port == e.op.port && s.labels == e.op.labels
    && s.version == NextVersion(w.nodes[e.n].reg, e.op.name)
    && s.serviceID == ServiceID(e.n, s.name, s.version) && s.ttlSec == 90
  }

  /** Only an own operation issues anything, and it issues what it registers. */
  lemma IssuedNow(w: World, e: Event, owner: string, s: Service)
    requires Member(w, e.n) && w.nodes[e.n].reg.self == e.n
    requires owner in Next(w, e).issued && s in Next(w, e).issued[owner]
    requires !(owner in w.issued && s in w.issued[owner])
    ensures s.ttlSec != 0 ==> RegisteredAs(w, e, s) && s.nodeID == owner
  {
    assert e.Own? && e.n == owner;
    var x :| x in Emits(w.nodes[owner].reg, e.op) && s == Core(x);
  }

  /** Everything issued with a lifetime comes from a registration in the run. */
  lemma {:induction false} IssuedWasRegistered(cluster: string, keys: map<string, PublicKey>, events: seq<Event>,
                                               worlds: seq<World>,
                                               i: nat, owner: string, s: Service) returns (j: nat)
    requires IsRun(cluster, keys, events, worlds) && i <= |events|
    requires owner in worlds[i].issued && s in worlds[i].issued[owner] && s.ttlSec != 0
    ensures j < i && RegisteredAs(worlds[j], events[j], s) && s.nodeID == owner
  {
    assert i > 0;
    var w, e := worlds[i - 1], events[i - 1];
    if owner in w.issued && s in w.issued[owner] {
      j := IssuedWasRegistered(cluster, keys, events, worlds, i - 1, owner, s);
    } else {
      RunsKeepInv(cluster, keys, events, worlds, i - 1);
      RunStep(cluster, keys, events, worlds, i - 1);
      assert NodeInv(w.keys, w.issued, e.n, w.nodes[e.n]);
      IssuedNow(w, e, owner, s);
      j := i - 1;
    }
  }

  lemma HeldIsBacked(w: World, n: string, k: string)
    requires Inv(w) && n in w.nodes && k in w.nodes[n].reg.remote
    ensures var s := w.nodes[n].reg.remote[k];
            && Backed(w.issued, s) && s.nodeID in w.nodes && s.nodeID != n && s.ttlSec != 0
                && k == RemoteKey(s.nodeID, s.name)
  {
    assert NodeInv(w.keys, w.issued, n, w.nodes[n]);
  }

  /** GENUINENESS. In every run, with any loss, duplication, reordering, second-hand answers and restarts, each
      remote entry at any node equals, in everything but its announce time, a service its owner registered
      at some earlier event. */
  lemma RemoteEntriesAreGenuine(cluster: string, keys: map<string, PublicKey>, events: seq<Event>, worlds: seq<World>,
                                i: nat, n: string, k: string) returns (j: nat)
    requires IsRun(cluster, keys, events, worlds) && i <= |events|
    requires n in worlds[i].nodes && k in worlds[i].nodes[n].reg.remote
    ensures var s := worlds[i].nodes[n].reg.remote[k];
            && s.nodeID != n && s.nodeID in worlds[i].nodes && k == RemoteKey(s.nodeID, s.name)
            && j < i && RegisteredAs(worlds[j], events[j], s)
  {
    RunsKeepInv(cluster, keys, events, worlds, i);
    HeldIsBacked(worlds[i], n, k);
    var s := worlds[i].nodes[n].reg.remote[k];
    j := IssuedWasRegistered(cluster, keys, events, worlds, i, s.nodeID, Core(s));
  }

  ghost predicate NoRestart(events: seq<Event>, owner: string, i: nat, j: nat) {
    forall t | i <= t < j && t < |events| :: events[t] != Restart(owner)
  }

  lemma LogStep(w: World, e: Event, owner: string)
    requires Member(w, e.n) && owner in w.nodes && e != Restart(owner)
    ensures owner in Next(w, e).nodes && w.nodes[owner].log <= Next(w, e).nodes[owner].log
  {
  }

  /** Without a restart, a node's log of announcements only grows at its end. */
  lemma {:induction false} LogPrefix(cluster: string, keys: map<string, PublicKey>, events: seq<Event>,
                                     worlds: seq<World>,
                                     i: nat, j: nat, owner: string)
    requires IsRun(cluster, keys, events, worlds) && i <= j <= |events| && owner in worlds[i].nodes
             && NoRestart(events, owner, i, j)
    ensures owner in worlds[j].nodes && worlds[i].nodes[owner].log <= worlds[j].nodes[owner].log
    decreases j
  {
    if i < j {
      LogPrefix(cluster, keys, events, worlds, i, j - 1, owner);
      RunStep(cluster, keys, events, worlds, j - 1);
      LogStep(worlds[j - 1], events[j - 1], owner);
    }
  }

  lemma RegisteredIsLogged(w: World, e: Event, s: Service)
    requires RegisteredAs(w, e, s)
    ensures var log, log' := w.nodes[s.nodeID].log, Next(w, e).nodes[s.nodeID].log;
            |log'| == |log| + 1 && Core(log'[|log|]) == Core(s) && log' == log + [log'[|log|]]
  {
  }

  lemma RunsAreLogged(cluster: string, keys: map<string, PublicKey>, events: seq<Event>, worlds: seq<World>, i: nat,
                      n: string)
    requires IsRun(cluster, keys, events, worlds) && i <= |events| && n in worlds[i].nodes
    ensures Logged(worlds[i].nodes[n].reg, worlds[i].nodes[n].log)
  {
    RunsKeepInv(cluster, keys, events, worlds, i);
    assert NodeInv(worlds[i].keys, worlds[i].issued, n, worlds[i].nodes[n]);
  }

  lemma RunLogsRegistration(cluster: string, keys: map<string, PublicKey>, events: seq<Event>, worlds: seq<World>,
                            j: nat, s: Service)
    requires IsRun(cluster, keys, events, worlds) && j < |events| && RegisteredAs(worlds[j], events[j], s)
    ensures s.nodeID in worlds[j + 1].nodes
    ensures var log, log' := worlds[j].nodes[s.nodeID].log, worlds[j + 1].nodes[s.nodeID].log;
            |log'| == |log| + 1 && Core(log'[|log|]) == Core(s) && log' == log + [log'[|log|]]
  {
    RegisteredIsLogged(worlds[j], events[j], s);
    RunStep(cluster, keys, events, worlds, j);
  }

  /** What a node registered stays in its log until it restarts. */
  lemma StaysLogged(cluster: string, keys: map<string, PublicKey>, events: seq<Event>, worlds: seq<World>, i: nat,
                    j: nat, s: Service)
      returns (k: nat)
    requires IsRun(cluster, keys, events, worlds) && i < j <= |events| && RegisteredAs(worlds[i], events[i], s)
    requires NoRestart(events, s.nodeID, i, j)
    ensures s.nodeID in worlds[j].nodes && k < |worlds[j].nodes[s.nodeID].log|
    ensures Core(worlds[j].nodes[s.nodeID].log[k]) == Core(s)
  {
    RunLogsRegistration(cluster, keys, events, worlds, i, s);
    LogPrefix(cluster, keys, events, worlds, i + 1, j, s.nodeID);
    k := |worlds[i].nodes[s.nodeID].log|;
  }

  /** In a log that was extended by s2, an announcement with its name and version is that last one. */
  lemma LastIsOnly(reg: State, log: seq<Service>, log': seq<Service>, i: nat, s1: Service, s2: Service)
    requires Logged(reg, log') && |log'| == |log| + 1 && log' == log + [log'[|log|]] && i <= |log|
    requires Core(log'[i]) == Core(s1) && Core(log'[|log|]) == Core(s2)
    requires s1.name == s2.name && s1.version == s2.version && Count(log, s1.name) < TWO_64
    ensures i == |log|
  {
    CountOne(log, log'[|log|], s1.name);
    VersionIdentifies(reg, log', i, |log|);
  }

  /** Two registrations in one incarnation of their owner, within 2^64 announcements of the name, never share name and
      version. */
  lemma OneIncarnation(cluster: string, keys: map<string, PublicKey>, events: seq<Event>, worlds: seq<World>,
                       j1: nat, j2: nat, s1: Service, s2: Service)
    requires IsRun(cluster, keys, events, worlds) && j1 <= j2 < |events|
    requires RegisteredAs(worlds[j1], events[j1], s1) && RegisteredAs(worlds[j2], events[j2], s2)
    requires s1.nodeID == s2.nodeID && s1.name == s2.name && s1.version == s2.version
    requires NoRestart(events, s1.nodeID, j1, j2) && Count(worlds[j2].nodes[s1.nodeID].log, s1.name) < TWO_64
    ensures j1 == j2
  {
    if j1 < j2 {
      var n := s1.nodeID;
      var p1 := StaysLogged(cluster, keys, events, worlds, j1, j2, s1);
      RunLogsRegistration(cluster, keys, events, worlds, j2, s2);
      RunsAreLogged(cluster, keys, events, worlds, j2 + 1, n);
      LastIsOnly(worlds[j2 + 1].nodes[n].reg, worlds[j2].nodes[n].log, worlds[j2 + 1].nodes[n].log, p1, s1, s2);
    }
  }

  /** The owner announced the name fewer than 2^64 times in each incarnation up to world i. */
  ghost predicate FewAnnouncements(worlds: seq<World>, i: nat, owner: string, name: string) {
    forall j | 0 <= j <= i && j < |worlds|
        && owner in worlds[j].nodes :: Count(worlds[j].nodes[owner].log, name) < TWO_64
  }

  /** AGREEMENT. Two nodes that hold the same (owner, name, version) hold it from two registrations j1 and j2 of its
      owner, and agree on everything but the announce time unless the owner restarted between those two. */
  lemma SameVersionSameService(cluster: string, keys: map<string, PublicKey>, events: seq<Event>, worlds: seq<World>,
                               i: nat,
                               a: string, k1: string, b: string, k2: string) returns (j1: nat, j2: nat)
    requires IsRun(cluster, keys, events, worlds) && i <= |events|
    requires a in worlds[i].nodes && b in worlds[i].nodes
    requires k1 in worlds[i].nodes[a].reg.remote && k2 in worlds[i].nodes[b].reg.remote
    requires var s1, s2 := worlds[i].nodes[a].reg.remote[k1], worlds[i].nodes[b].reg.remote[k2];
             && s1.nodeID == s2.nodeID && s1.name == s2.name && s1.version == s2.version
             && FewAnnouncements(worlds, i, s1.nodeID, s1.name)
    ensures var s1, s2 := worlds[i].nodes[a].reg.remote[k1], worlds[i].nodes[b].reg.remote[k2];
            && j1 < i && j2 < i && RegisteredAs(worlds[j1], events[j1], s1) && RegisteredAs(worlds[j2], events[j2], s2)
            && (NoRestart(events, s1.nodeID, j1, j2) && NoRestart(events, s1.nodeID, j2, j1) ==>
                j1 == j2 && s1.host == s2.host && s1.port == s2.port && s1.labels == s2.labels
                && s1.serviceID == s2.serviceID && s1.ttlSec == s2.ttlSec)
  {
    var s1, s2 := worlds[i].nodes[a].reg.remote[k1], worlds[i].nodes[b].reg.remote[k2];
    j1 := RemoteEntriesAreGenuine(cluster, keys, events, worlds, i, a, k1);
    j2 := RemoteEntriesAreGenuine(cluster, keys, events, worlds, i, b, k2);
    if NoRestart(events, s1.nodeID, j1, j2) && NoRestart(events, s1.nodeID, j2, j1) {
      if j1 <= j2 {
        OneIncarnation(cluster, keys, events, worlds, j1, j2, s1, s2);
      } else {
        OneIncarnation(cluster, keys, events, worlds, j2, j1, s2, s1);
      }
    }
  }
}
