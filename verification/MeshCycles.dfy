/** Dial cycles, in every interleaving where a dialled peer is who it was dialled for. */
module MeshCycles {
  import opened Text
  import opened MeshModel

  /** The dialled node answers with its id, and inbound connections come from nodes running the same code. */
  predicate Honest(m: Mesh, e: Event)
    requires Enabled(m, e)
  {
    match e
    case Connected(n, t, id, _) => id == m.nodes[n].dials[t].peer
    case Accepted(n, id, _) => (id, n) in m.hellos
    case _ => true
  }

  datatype Cycle = ViaDial(t: nat) | ViaEnd(c: nat)

  predicate LiveEnd(e: End) {
    e.dialled && e.monitor != Finished
  }

  /** The dial cycles for a peer: attempts under way, and dialled connections whose callback is still due. */
  function Cycles(l: Links, peer: string): set<Cycle> {
    (set t | t in l.dials && l.dials[t].peer == peer :: ViaDial(t)) +
    (set c | c in l.ends && l.ends[c].peer == peer && LiveEnd(l.ends[c]) :: ViaEnd(c))
  }

  ghost predicate AtMostOne(cycles: set<Cycle>) {
    forall x, y | x in cycles && y in cycles :: x == y
  }

  ghost predicate CyclesAt(l: Links, p: string) {
    && AtMostOne(Cycles(l, p))
    && (p in l.marks <==> Cycles(l, p) != {} || p in l.stuck)
    && (p in l.stuck ==> Cycles(l, p) == {})
    && (p in l.marks ==> Less(l.self, p))
  }

  /** Connections a node dialled go to larger ids, accepted ones come from smaller ids. */
  ghost predicate Directed(l: Links) {
    forall c | c in l.ends :: if l.ends[c].dialled then Less(l.self, l.ends[c].peer) else Less(l.ends[c].peer, l.self)
  }

  ghost predicate Disciplined(l: Links) {
    && Tidy(l)
    && (forall p :: CyclesAt(l, p))
    && Directed(l)
  }

  lemma BeginCycles(l: Links, t: nat, peer: string, p: string)
    requires t !in l.dials && MayDial(l, peer) && CyclesAt(l, p)
    ensures CyclesAt(BeginDial(l, t, peer), p)
  {
    var l' := BeginDial(l, t, peer);
    LessTotal(l.self, peer);
    assert Cycles(l', p) == Cycles(l, p) + if p == peer then {ViaDial(t)} else {};
  }

  lemma PhaseCycles(l: Links, t: nat, phase: Phase, p: string)
    requires t in l.dials && CyclesAt(l, p)
    ensures CyclesAt(SetPhase(l, t, phase), p)
  {
    assert Cycles(SetPhase(l, t, phase), p) == Cycles(l, p);
  }

  lemma EndDialCycles(l: Links, t: nat, p: string)
    requires t in l.dials && CyclesAt(l, p)
    ensures CyclesAt(AbandonDial(l, t), p) && CyclesAt(ClearMark(l, t), p)
  {
    var rest := Cycles(l, p) - {ViaDial(t)};
    assert Cycles(AbandonDial(l, t), p) == rest && Cycles(ClearMark(l, t), p) == rest;
    if p == l.dials[t].peer {
      assert ViaDial(t) in Cycles(l, p);
    }
  }

  /** The dialler never meets a registered connection for the peer it dials: it never takes the replaced path. */
  lemma DialNeverReplaces(l: Links, t: nat)
    requires Disciplined(l) && t in l.dials
    ensures l.dials[t].peer !in l.peers
  {
    var p := l.dials[t].peer;
    assert CyclesAt(l, p) && ViaDial(t) in Cycles(l, p);
    LessTotal(l.self, p);
    assert forall c | c in l.ends && l.ends[c].peer == p && LiveEnd(l.ends[c]) :: ViaEnd(c) in Cycles(l, p);
  }

  lemma FinishSet(l: Links, t: nat, c: nat, p: string)
    requires t in l.dials && c !in l.ends && l.dials[t].peer !in l.peers
    ensures var peer := l.dials[t].peer;
            Cycles(FinishDial(l, t, peer, c), p) == Cycles(l, p) - {ViaDial(t)} + if p == peer then {ViaEnd(c)} else {}
  {
  }

  lemma FinishCycles(l: Links, t: nat, c: nat, p: string)
    requires t in l.dials && c !in l.ends && l.dials[t].peer !in l.peers && CyclesAt(l, p)
    ensures CyclesAt(FinishDial(l, t, l.dials[t].peer, c), p)
  {
    FinishSet(l, t, c, p);
    assert p == l.dials[t].peer <==> ViaDial(t) in Cycles(l, p);
  }

  lemma AcceptCycles(l: Links, id: string, c: nat, p: string)
    requires c !in l.ends && CyclesAt(l, p)
    ensures CyclesAt(AddPeer(l, id, c, false), p)
  {
    assert Cycles(AddPeer(l, id, c, false), p) == Cycles(l, p);
  }

  lemma CallbackCycles(l: Links, c: nat, p: string)
    requires Disciplined(l) && c in l.ends && l.ends[c].monitor == Evicted
    ensures CyclesAt(Callback(l, c), p)
  {
    var l' := Callback(l, c);
    assert CyclesAt(l, p);
    LessTotal(l.self, p);
    assert Cycles(l', p) == Cycles(l, p) - {ViaEnd(c)};
    if p == l.ends[c].peer && l.ends[c].dialled {
      assert ViaEnd(c) in Cycles(l, p);
    }
  }

  lemma QuietCycles(m: Mesh, e: Event, p: string)
    requires Enabled(m, e) && CyclesAt(m.nodes[e.n], p)
    requires e.Dropped? || e.MonitorEvict? || e.Shutdown?
    ensures CyclesAt(StepLinks(m.nodes[e.n], e), p)
  {
    assert Cycles(StepLinks(m.nodes[e.n], e), p) == Cycles(m.nodes[e.n], p);
  }

  lemma StepCycles(m: Mesh, e: Event, p: string)
    requires Enabled(m, e) && Honest(m, e) && Disciplined(m.nodes[e.n])
    ensures CyclesAt(StepLinks(m.nodes[e.n], e), p)
  {
    var l := m.nodes[e.n];
    assert CyclesAt(l, p);
    match e
    case Start(_, t, peer) => BeginCycles(l, t, peer, p);
    case Unresolved(_, t) => EndDialCycles(l, t, p);
    case Resolved(_, t) => PhaseCycles(l, t, Dialling, p);
    case DialError(_, t) => PhaseCycles(l, t, Failing, p);
    case Unmark(_, t) => EndDialCycles(l, t, p);
    case Connected(_, t, id, c) =>
      DialNeverReplaces(l, t);
      FinishCycles(l, t, c, p);
    case Accepted(_, id, c) => AcceptCycles(l, id, c, p);
    case MonitorCallback(_, c) => CallbackCycles(l, c, p);
    case _ => QuietCycles(m, e, p);
  }

  lemma StepDirected(m: Mesh, e: Event)
    requires Enabled(m, e) && Honest(m, e) && Directed(m.nodes[e.n])
    requires e.Connected? ==> Less(m.nodes[e.n].self, m.nodes[e.n].dials[e.t].peer)
    requires e.Accepted? ==> Less(e.id, m.nodes[e.n].self)
    ensures Directed(StepLinks(m.nodes[e.n], e))
  {
  }

  ghost predicate MeshInv(m: Mesh) {
    && (forall n | n in m.nodes :: m.nodes[n].self == n && Disciplined(m.nodes[n]))
    && (forall h | h in m.hellos :: Less(h.0, h.1))
  }

  lemma DialsGoUp(l: Links, t: nat)
    requires Disciplined(l) && t in l.dials
    ensures Less(l.self, l.dials[t].peer)
  {
    assert CyclesAt(l, l.dials[t].peer) && ViaDial(t) in Cycles(l, l.dials[t].peer);
  }

  lemma StepDisciplined(m: Mesh, e: Event)
    requires Enabled(m, e) && Honest(m, e) && MeshInv(m)
    ensures Disciplined(StepLinks(m.nodes[e.n], e)) && StepLinks(m.nodes[e.n], e).self == e.n
  {
    StepKeepsTidy(m, e);
    if e.Connected? { DialsGoUp(m.nodes[e.n], e.t); }
    StepDirected(m, e);
    forall p ensures CyclesAt(StepLinks(m.nodes[e.n], e), p) { StepCycles(m, e, p); }
  }

  lemma NextKeepsMeshInv(m: Mesh, e: Event)
    requires Enabled(m, e) && Honest(m, e) && MeshInv(m)
    ensures MeshInv(Next(m, e))
  {
    StepDisciplined(m, e);
    if e.Resolved? { DialsGoUp(m.nodes[e.n], e.t); }
  }

  lemma NewLinksDisciplined(n: string)
    ensures Disciplined(NewLinks(n))
  {
    forall p ensures CyclesAt(NewLinks(n), p) {
      assert Cycles(NewLinks(n), p) == {};
    }
  }

  ghost predicate IsHonestRun(ids: set<string>, events: seq<Event>, meshes: seq<Mesh>) {
    IsRun(ids, events, meshes) && forall i | 0 <= i < |events| :: Honest(meshes[i], events[i])
  }

  lemma {:induction false} HonestRunsKeepInv(ids: set<string>, events: seq<Event>, meshes: seq<Mesh>, i: nat)
    requires IsHonestRun(ids, events, meshes) && i <= |events|
    ensures MeshInv(meshes[i])
  {
    if i == 0 {
      forall n | n in ids { NewLinksDisciplined(n); }
    } else {
      HonestRunsKeepInv(ids, events, meshes, i - 1);
      NextKeepsMeshInv(meshes[i - 1], events[i - 1]);
    }
  }

  /** ONE CYCLE PER PEER. In every honest interleaving a node has at most one dial cycle per peer, every
      cycle is marked, marks exist only for larger ids, and a mark without a cycle is exactly one left behind
      by a failed resolution; so when every address resolves, marked means in a cycle. */
  lemma OneCyclePerPeer(ids: set<string>, events: seq<Event>, meshes: seq<Mesh>, i: nat, n: string, p: string)
    requires IsHonestRun(ids, events, meshes) && i <= |events| && n in meshes[i].nodes
    ensures var l := meshes[i].nodes[n];
            && (forall x, y | x in Cycles(l, p) && y in Cycles(l, p) :: x == y)
            && (Cycles(l, p) != {} ==> p in l.marks)
            && (p in l.marks ==> Less(n, p))
            && (p in l.marks <==> Cycles(l, p) != {} || p in l.stuck)
            && (p in l.stuck ==> Cycles(l, p) == {})
            && (forall t | t in l.dials :: l.dials[t].peer !in l.peers)
  {
    HonestRunsKeepInv(ids, events, meshes, i);
    var l := meshes[i].nodes[n];
    assert CyclesAt(l, p);
    forall t | t in l.dials { DialNeverReplaces(l, t); }
  }

  /** Event i gave up dialling p at node n because its address did not resolve. */
  ghost predicate FailedToResolve(events: seq<Event>, meshes: seq<Mesh>, i: nat, n: string, p: string) {
    && i < |events| && i < |meshes| && events[i].Unresolved? && events[i].n == n
    && n in meshes[i].nodes && events[i].t in meshes[i].nodes[n].dials
        && meshes[i].nodes[n].dials[events[i].t].peer == p
  }

  lemma StuckStep(m: Mesh, e: Event, n: string, p: string)
    requires Enabled(m, e) && n in m.nodes
    ensures n in Next(m, e).nodes
    ensures p in Next(m, e).nodes[n].stuck <==>
            p in m.nodes[n].stuck || (e.Unresolved? && e.n == n && m.nodes[n].dials[e.t].peer == p)
  {
  }

  /** A peer is stuck at a node if and only if one of the node's dials for it failed to resolve. */
  lemma {:induction false} StuckExactly(ids: set<string>, events: seq<Event>, meshes: seq<Mesh>, i: nat, n: string,
                                        p: string)
    requires IsRun(ids, events, meshes) && i <= |events| && n in meshes[i].nodes
    ensures p in meshes[i].nodes[n].stuck <==> exists j: nat :: j < i && FailedToResolve(events, meshes, j, n, p)
  {
    if i > 0 {
      assert n in meshes[i - 1].nodes;
      StuckExactly(ids, events, meshes, i - 1, n, p);
      StuckStep(meshes[i - 1], events[i - 1], n, p);
      if p in meshes[i].nodes[n].stuck && p !in meshes[i - 1].nodes[n].stuck {
        assert FailedToResolve(events, meshes, i - 1, n, p);
      }
    }
  }

  /** So in an honest interleaving, for a node and peer whose dials all resolved, marked means in a cycle. */
  lemma MarkedMeansInCycle(ids: set<string>, events: seq<Event>, meshes: seq<Mesh>, i: nat, n: string, p: string)
    requires IsHonestRun(ids, events, meshes) && i <= |events| && n in meshes[i].nodes
    requires forall j: nat | j < i :: !FailedToResolve(events, meshes, j, n, p)
    ensures p in meshes[i].nodes[n].marks <==> Cycles(meshes[i].nodes[n], p) != {}
  {
    StuckExactly(ids, events, meshes, i, n, p);
    OneCyclePerPeer(ids, events, meshes, i, n, p);
  }

  /** A peer whose address once failed to resolve keeps its mark for good and is never dialled again. */
  lemma {:induction false} StuckForever(ids: set<string>, events: seq<Event>, meshes: seq<Mesh>, i: nat, j: nat,
                                        n: string, p: string)
    requires IsHonestRun(ids, events, meshes) && i <= j <= |events|
    requires n in meshes[i].nodes && p in meshes[i].nodes[n].stuck
    ensures n in meshes[j].nodes && p in meshes[j].nodes[n].stuck
    ensures Cycles(meshes[j].nodes[n], p) == {} && !MayDial(meshes[j].nodes[n], p)
    decreases j
  {
    if i < j {
      StuckForever(ids, events, meshes, i, j - 1, n, p);
      StuckStep(meshes[j - 1], events[j - 1], n, p);
    }
    OneCyclePerPeer(ids, events, meshes, j, n, p);
  }

  /** It happens: for any node and any larger id, one dial whose address does not resolve strands the peer. */
  lemma ResolutionStrands(ids: set<string>, n: string, p: string)
    requires n in ids && Less(n, p)
    ensures exists events: seq<Event>, meshes: seq<Mesh> :: IsHonestRun(ids, events, meshes) && |events| == 2
              && n in meshes[2].nodes && p in meshes[2].nodes[n].stuck && p in meshes[2].nodes[n].marks
  {
    LessTotal(n, p);
    var m0 := Init(ids);
    var e1, e2 := Start(n, 0, p), Unresolved(n, 0);
    var m1 := Next(m0, e1);
    var m2 := Next(m1, e2);
    var events, meshes := [e1, e2], [m0, m1, m2];
    assert Enabled(meshes[0], events[0]) && Honest(meshes[0], events[0]) && meshes[1] == Next(meshes[0], events[0]);
    assert Enabled(meshes[1], events[1]) && Honest(meshes[1], events[1]) && meshes[2] == Next(meshes[1], events[1]);
    assert IsHonestRun(ids, events, meshes);
  }
}
