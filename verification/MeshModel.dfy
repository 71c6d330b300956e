/** Mesh links: the dial marks of the agent and the connection table of the transport.

    Dial attempts, inbound handshakes and connection monitors run in separate goroutines under two locks.
    Every critical section is one event here, so a run of events is one interleaving of them.
 */
module MeshModel {
  import opened Text

  datatype Phase =
    | Marked     // the mark is set, the address not yet resolved
    | Dialling   // dial and handshake are under way
    | Failing    // the dial failed, the mark not yet cleared

  datatype Dial = Dial(peer: string, phase: Phase)

  datatype Monitor =
    | Watching   // waiting for the connection to close
    | Evicted    // past the connection table, callback not yet made
    | Finished

  /** A connection that was registered with the transport. */
  datatype End = End(peer: string, dialled: bool, open: bool, monitor: Monitor)

  datatype Links = Links(
    self: string,
    marks: set<string>,        // agent: peers with a dial mark
    stuck: set<string>,        // peers whose address did not resolve; their mark stays
    dials: map<nat, Dial>,     // running dial attempts
    ends: map<nat, End>,       // every connection ever registered
    peers: map<string, nat>)   // transport: current connection per peer id

  function NewLinks(self: string): Links {
    Links(self, {}, {}, map[], map[], map[])
  }

  // ---- Critical sections ----

  /** The dial-direction rule and the mark check of a new dial. */
  predicate MayDial(l: Links, peer: string) {
    peer != l.self && !Less(peer, l.self) && peer !in l.marks
  }

  function BeginDial(l: Links, t: nat, peer: string): Links {
    l.(marks := l.marks + {peer}, dials := l.dials[t := Dial(peer, Marked)])
  }

  function SetPhase(l: Links, t: nat, phase: Phase): Links
    requires t in l.dials
  {
    l.(dials := l.dials[t := l.dials[t].(phase := phase)])
  }

  /** Resolution failed: the attempt ends and the mark is left behind. */
  function AbandonDial(l: Links, t: nat): Links
    requires t in l.dials
  {
    l.(dials := l.dials - {t}, stuck := l.stuck + {l.dials[t].peer})
  }

  function ClearMark(l: Links, t: nat): Links
    requires t in l.dials
  {
    l.(dials := l.dials - {t}, marks := l.marks - {l.dials[t].peer})
  }

  function CloseEnd(ends: map<nat, End>, c: nat): map<nat, End> {
    if c in ends then ends[c := ends[c].(open := false)] else ends
  }

  /** Registers a connection; a connection already there for the id is closed as replaced. */
  function AddPeer(l: Links, id: string, c: nat, dialled: bool): Links {
    var ends := if id in l.peers then CloseEnd(l.ends, l.peers[id]) else l.ends;
    l.(ends := ends[c := End(id, dialled, true, Watching)], peers := l.peers[id := c])
  }

  function FinishDial(l: Links, t: nat, id: string, c: nat): Links {
    AddPeer(l, id, c, true).(dials := l.dials - {t})
  }

  /** The connection closes, for whatever reason. */
  function DropEnd(l: Links, c: nat): Links {
    l.(ends := CloseEnd(l.ends, c))
  }

  /** The monitor's first half: leave the table, unless a newer connection took the place. */
  function Evict(l: Links, c: nat): Links
    requires c in l.ends
  {
    var id := l.ends[c].peer;
    l.(ends := l.ends[c := l.ends[c].(monitor := Evicted)],
       peers := if id in l.peers && l.peers[id] == c then l.peers - {id} else l.peers)
  }

  /** The monitor's second half: the disconnect callback clears the dial mark. */
  function Callback(l: Links, c: nat): Links
    requires c in l.ends
  {
    l.(ends := l.ends[c := l.ends[c].(monitor := Finished)], marks := l.marks - {l.ends[c].peer})
  }

  function CloseAll(l: Links): Links {
    l.(ends := map c | c in l.ends ::
         if l.ends[c].peer in l.peers && l.peers[l.ends[c].peer] == c then l.ends[c].(open := false) else l.ends[c],
       peers := map[])
  }

  // ---- The mesh ----

  datatype Mesh = Mesh(nodes: map<string, Links>, hellos: set<(string, string)>)

  datatype Event =
    | Start(n: string, t: nat, peer: string)
    | Unresolved(n: string, t: nat)
    | Resolved(n: string, t: nat)
    | DialError(n: string, t: nat)
    | Unmark(n: string, t: nat)
    | Connected(n: string, t: nat, id: string, c: nat)
    | Accepted(n: string, id: string, c: nat)
    | Dropped(n: string, c: nat)
    | MonitorEvict(n: string, c: nat)
    | MonitorCallback(n: string, c: nat)
    | Shutdown(n: string)

  predicate InPhase(l: Links, t: nat, phase: Phase) {
    t in l.dials && l.dials[t].phase == phase
  }

  predicate Enabled(m: Mesh, e: Event) {
    e.n in m.nodes &&
    var l := m.nodes[e.n];
    match e
    case Start(_, t, peer) => t !in l.dials && MayDial(l, peer)
    case Unresolved(_, t) => InPhase(l, t, Marked)
    case Resolved(_, t) => InPhase(l, t, Marked)
    case DialError(_, t) => InPhase(l, t, Dialling)
    case Unmark(_, t) => InPhase(l, t, Failing)
    case Connected(_, t, _, c) => InPhase(l, t, Dialling) && c !in l.ends
    case Accepted(_, _, c) => c !in l.ends
    case Dropped(_, c) => c in l.ends
    case MonitorEvict(_, c) => c in l.ends && !l.ends[c].open && l.ends[c].monitor == Watching
    case MonitorCallback(_, c) => c in l.ends && l.ends[c].monitor == Evicted
    case Shutdown(_) => true
  }

  function StepLinks(l: Links, e: Event): Links
    requires (e.Unresolved? || e.Resolved? || e.DialError? || e.Unmark?) ==> e.t in l.dials
    requires (e.MonitorEvict? || e.MonitorCallback?) ==> e.c in l.ends
  {
    match e
    case Start(_, t, peer) => BeginDial(l, t, peer)
    case Unresolved(_, t) => AbandonDial(l, t)
    case Resolved(_, t) => SetPhase(l, t, Dialling)
    case DialError(_, t) => SetPhase(l, t, Failing)
    case Unmark(_, t) => ClearMark(l, t)
    case Connected(_, t, id, c) => FinishDial(l, t, id, c)
    case Accepted(_, id, c) => AddPeer(l, id, c, false)
    case Dropped(_, c) => DropEnd(l, c)
    case MonitorEvict(_, c) => Evict(l, c)
    case MonitorCallback(_, c) => Callback(l, c)
    case Shutdown(_) => CloseAll(l)
  }

  /** Starting to dial is the only event that reaches out: it greets the node dialled for. */
  function Greets(l: Links, e: Event): set<(string, string)> {
    if e.Resolved? && e.t in l.dials then {(l.self, l.dials[e.t].peer)} else {}
  }

  function Next(m: Mesh, e: Event): Mesh
    requires Enabled(m, e)
  {
    Mesh(m.nodes[e.n := StepLinks(m.nodes[e.n], e)], m.hellos + Greets(m.nodes[e.n], e))
  }

  /** What each event does that a bystander can see. */
  lemma StepEffects(m: Mesh, e: Event)
    requires Enabled(m, e)
    ensures var l, l' := m.nodes[e.n], Next(m, e).nodes[e.n];
            && (e.Start? ==> l'.marks == l.marks + {e.peer} && e.t in l'.dials && l'.dials[e.t].peer == e.peer)
            && (e.Unresolved? ==> e.t !in l'.dials && l'.marks == l.marks)
            && (e.Resolved? ==>
                InPhase(l', e.t, Dialling) && (e.n == l.self ==> (e.n, l.dials[e.t].peer) in Next(m, e).hellos))
            && (e.DialError? ==> InPhase(l', e.t, Failing) && l'.marks == l.marks)
            && (e.Unmark? ==> e.t !in l'.dials && l'.marks == l.marks - {l.dials[e.t].peer})
            && (e.Connected? || e.Accepted? ==>
                  && e.id in l'.peers && l'.peers[e.id] == e.c
                  && e.c in l'.ends && l'.ends[e.c] == End(e.id, e.Connected?, true, Watching))
            && (e.Connected? ==> e.t !in l'.dials && l'.marks == l.marks)
            && (e.Dropped? ==> e.c in l'.ends && !l'.ends[e.c].open)
            && (e.MonitorEvict? ==>
                  && e.c in l'.ends && l'.ends[e.c].monitor == Evicted
                  && var id := l.ends[e.c].peer;
                     l'.peers == if id in l.peers && l.peers[id] == e.c then l.peers - {id} else l.peers)
            && (e.MonitorCallback? ==> l'.marks == l.marks - {l.ends[e.c].peer} && l'.ends[e.c].monitor == Finished)
  {
  }

  function Init(ids: set<string>): Mesh {
    Mesh(map n | n in ids :: NewLinks(n), {})
  }

  ghost predicate IsRun(ids: set<string>, events: seq<Event>, meshes: seq<Mesh>) {
    && |meshes| == |events| + 1
    && meshes[0] == Init(ids)
    && forall i | 0 <= i < |events| :: Enabled(meshes[i], events[i]) && meshes[i + 1] == Next(meshes[i], events[i])
  }

  // ---- No connection leaks, in any interleaving ----

  ghost predicate Tidy(l: Links) {
    && (forall id | id in l.peers ::
          l.peers[id] in l.ends && l.ends[l.peers[id]].peer == id && l.ends[l.peers[id]].monitor == Watching)
    && (forall c | c in l.ends && l.ends[c].open :: l.ends[c].peer in l.peers && l.peers[l.ends[c].peer] == c)
  }

  lemma AddPeerTidy(l: Links, id: string, c: nat, dialled: bool)
    requires Tidy(l) && c !in l.ends
    ensures Tidy(AddPeer(l, id, c, dialled))
  {
  }

  lemma EvictTidy(l: Links, c: nat)
    requires Tidy(l) && c in l.ends && !l.ends[c].open && l.ends[c].monitor == Watching
    ensures Tidy(Evict(l, c))
  {
  }

  lemma CallbackTidy(l: Links, c: nat)
    requires Tidy(l) && c in l.ends && l.ends[c].monitor == Evicted
    ensures Tidy(Callback(l, c))
  {
  }

  lemma CloseAllTidy(l: Links)
    requires Tidy(l)
    ensures Tidy(CloseAll(l))
  {
  }

  lemma StepKeepsTidy(m: Mesh, e: Event)
    requires Enabled(m, e) && Tidy(m.nodes[e.n])
    ensures Tidy(StepLinks(m.nodes[e.n], e))
  {
    var l := m.nodes[e.n];
    match e
    case Connected(_, _, id, c) => AddPeerTidy(l, id, c, true);
    case Accepted(_, id, c) => AddPeerTidy(l, id, c, false);
    case MonitorEvict(_, c) => EvictTidy(l, c);
    case MonitorCallback(_, c) => CallbackTidy(l, c);
    case Shutdown(_) => CloseAllTidy(l);
    case _ =>
  }

  lemma {:induction false} RunsStayTidy(ids: set<string>, events: seq<Event>, meshes: seq<Mesh>, i: nat, n: string)
    requires IsRun(ids, events, meshes) && i <= |events| && n in meshes[i].nodes
    ensures Tidy(meshes[i].nodes[n])
  {
    if i > 0 {
      assert n in meshes[i - 1].nodes;
      RunsStayTidy(ids, events, meshes, i - 1, n);
      if n == events[i - 1].n {
        StepKeepsTidy(meshes[i - 1], events[i - 1]);
      }
    }
  }

  /** No monitor still has to notice a closed connection. */
  ghost predicate Settled(l: Links) {
    forall c | c in l.ends && l.ends[c].monitor == Watching :: l.ends[c].open
  }

  /** NO LEAKS. In every interleaving each registered connection is closed or is the current one for its id;
      and once the pending monitors have run, the table holds exactly the open connections, one per id. */
  lemma NoConnectionLeaks(ids: set<string>, events: seq<Event>, meshes: seq<Mesh>, i: nat, n: string)
    requires IsRun(ids, events, meshes) && i <= |events| && n in meshes[i].nodes
    ensures var l := meshes[i].nodes[n];
            && (forall c | c in l.ends ::
                  !l.ends[c].open || (l.ends[c].peer in l.peers && l.peers[l.ends[c].peer] == c))
            && (Settled(l) ==>
                  forall c :: (c in l.ends && l.ends[c].open) <==> (c in l.peers.Values))
            && (forall c, d | c in l.ends && d in l.ends && l.ends[c].open && l.ends[d].open
                && l.ends[c].peer == l.ends[d].peer :: c == d)
  {
    RunsStayTidy(ids, events, meshes, i, n);
    var l := meshes[i].nodes[n];
    if Settled(l) {
      forall c ensures (c in l.ends && l.ends[c].open) <==> (c in l.peers.Values) {
        if c in l.peers.Values {
          var id :| id in l.peers && l.peers[id] == c;
        }
        if c in l.ends && l.ends[c].open {
          assert l.peers[l.ends[c].peer] == c;
        }
      }
    }
  }

  /** In every interleaving a shutdown closes every connection ever registered and empties the table. */
  lemma ShutdownClosesAll(ids: set<string>, events: seq<Event>, meshes: seq<Mesh>, i: nat)
    requires IsRun(ids, events, meshes) && i < |events| && events[i].Shutdown?
    ensures events[i].n in meshes[i].nodes && events[i].n in meshes[i + 1].nodes
    ensures var l, l' := meshes[i].nodes[events[i].n], meshes[i + 1].nodes[events[i].n];
            && l'.peers == map[] && l'.ends.Keys == l.ends.Keys && forall c | c in l'.ends :: !l'.ends[c].open
  {
    assert Enabled(meshes[i], events[i]);
    RunsStayTidy(ids, events, meshes, i, events[i].n);
  }

  /** A late monitor never evicts a newer connection, and closes none. */
  lemma LateMonitorIsHarmless(l: Links, c: nat, id: string)
    requires Tidy(l) && c in l.ends && !l.ends[c].open && l.ends[c].monitor == Watching
    requires id in l.peers && l.peers[id] != c
    ensures id in Evict(l, c).peers && Evict(l, c).peers[id] == l.peers[id]
    ensures forall d | d in l.ends && l.ends[d].open ::
              Evict(l, c).ends[d].open && Evict(l, c).peers[l.ends[d].peer] == d
  {
  }
}
