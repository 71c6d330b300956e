/** Runs that show what gossip does not promise: a restart ends agreement, and second-hand answers keep a
    withdrawn service alive. Clocks never run backwards in these runs. */
module GossipWitnesses {
  import opened Sorting
  import opened RegistryModel
  import opened RegistryRuns
  import opened Envelope
  import opened Announcements
  import opened GossipWorld

  // ---- Timed runs ----

  /** When an event happens; one that reads no clock happens at the current instant. */
  function TimeAt(e: Event, clock: Time): Time {
    match e
    case Own(_, op) => op.now
    case Deliver(_, _, now) => now
    case Answer(_, _, now, _) => now
    case Absorb(_, _, _, now) => now
    case _ => clock
  }

  /** The events happen one after another, up to `clock`. */
  predicate Timely(events: seq<Event>, clock: Time) {
    events == [] ||
    var n := |events| - 1;
    TimeAt(events[n], clock) <= clock && Timely(events[..n], TimeAt(events[n], clock))
  }

  lemma {:induction false} TimelyLater(events: seq<Event>, clock: Time, later: Time)
    requires Timely(events, clock) && clock <= later
    ensures Timely(events, later)
  {
    if events != [] {
      var n := |events| - 1;
      TimelyLater(events[..n], TimeAt(events[n], clock), TimeAt(events[n], later));
    }
  }

  ghost predicate Story(cluster: string, keys: map<string, PublicKey>, events: seq<Event>, worlds: seq<World>,
                        w: World, clock: Time) {
    IsRun(cluster, keys, events, worlds) && worlds[|events|] == w && Timely(events, clock)
  }

  ghost predicate Reaches(cluster: string, keys: map<string, PublicKey>, w: World, clock: Time) {
    exists events, worlds :: Story(cluster, keys, events, worlds, w, clock)
  }

  /** Event e leads from w to w' and changes no node but its own. */
  ghost predicate Step(w: World, e: Event, w': World) {
    && Leads(w, e, w')
    && w'.nodes.Keys == w.nodes.Keys && w'.keys == w.keys && w'.issued.Keys == w.issued.Keys
    && forall n | n in w.nodes && n != e.n :: w'.nodes[n] == w.nodes[n]
  }

  lemma ExtendRun(cluster: string, keys: map<string, PublicKey>, events: seq<Event>, worlds: seq<World>, e: Event,
                  w': World)
    requires IsRun(cluster, keys, events, worlds) && Leads(worlds[|events|], e, w')
    ensures IsRun(cluster, keys, events + [e], worlds + [w']) && (worlds + [w'])[|events + [e]|] == w'
  {
    var es, ws := events + [e], worlds + [w'];
    forall i: nat | i < |es| ensures StepAt(es, ws, i) {
      if i < |events| {
        assert StepAt(events, worlds, i);
        assert es[i] == events[i] && ws[i] == worlds[i] && ws[i + 1] == worlds[i + 1];
      }
    }
  }

  lemma ExtendStory(cluster: string, keys: map<string, PublicKey>, events: seq<Event>, worlds: seq<World>, w: World,
                    clock: Time,
                    e: Event, w': World, later: Time)
    requires Story(cluster, keys, events, worlds, w, clock) && Step(w, e, w')
    requires clock <= TimeAt(e, later) <= later
    ensures Story(cluster, keys, events + [e], worlds + [w'], w', later)
  {
    ExtendRun(cluster, keys, events, worlds, e, w');
    TimelyLater(events, clock, TimeAt(e, later));
    assert (events + [e])[..|events|] == events;
  }

  lemma ReachInit(cluster: string, keys: map<string, PublicKey>, clock: Time)
    ensures Reaches(cluster, keys, Init(cluster, keys), clock)
  {
    assert Story(cluster, keys, [], [Init(cluster, keys)], Init(cluster, keys), clock);
  }

  lemma ReachNext(cluster: string, keys: map<string, PublicKey>, w: World, clock: Time, e: Event, w': World,
                  later: Time)
    requires Reaches(cluster, keys, w, clock) && Step(w, e, w') && clock <= TimeAt(e, later) <= later
    ensures Reaches(cluster, keys, w', later)
  {
    var events, worlds :| Story(cluster, keys, events, worlds, w, clock);
    ExtendStory(cluster, keys, events, worlds, w, clock, e, w', later);
  }

  // ---- Single steps ----

  /** The first registration of service "" at a node, at time 1. */
  function FirstEntry(owner: string, host: string): Service {
    NewEntry(New(owner), "", host, 0, map[], 1)
  }

  lemma RegisterStep(w: World, owner: string, host: string) returns (e: Event, w': World)
    requires Member(w, owner) && w.nodes[owner].reg == New(owner)
    ensures e.n == owner && Step(w, e, w') && forall clock :: TimeAt(e, clock) == 1
    ensures w'.nodes[owner].reg.local == map["" := FirstEntry(owner, host)] && w'.nodes[owner].reg.remote == map[]
  {
    e := Own(owner, DoRegister("", host, 0, map[], 1));
    w' := Next(w, e);
  }

  /** A node that knows one live service answers with it. */
  lemma AnswerStep(w: World, n: string, s: Service, now: Time) returns (e: Event, w': World)
    requires Member(w, n) && Live(w.nodes[n].reg, now) == {s} && s.name == ""
    ensures e.n == n && Step(w, e, w') && forall clock :: TimeAt(e, clock) == now
    ensures AnswerFor([s]) in w'.answers && w'.nodes[n].reg == Pruned(w.nodes[n].reg, now)
  {
    assert Elems([s]) == {s};
    assert IsFound(w.nodes[n].reg, "", now, [s]);
    e := Answer(n, "", now, [s]);
    w' := Next(w, e);
  }

  lemma AnswerGroup(s: Service, now: Time)
    ensures |AnswerFor([s])| == 1 && AnswerFor([s])[0].nodeID == s.nodeID
    ensures GroupFor(s.nodeID, AnswerFor([s]), now) == [s.(announced := now)]
  {
    assert AnswerFor([s])[..0] == [];
  }

  lemma MergeIntoEmpty(st: State, s: Service, now: Time)
    requires st.remote == map[] && s.nodeID != "" && s.nodeID != st.self && s.ttlSec != 0 && s.announced != 0
    ensures Merge(st, LocalState(s.nodeID, [s]), now) == st.(remote := map[RemoteKey(s.nodeID, s.name) := s])
  {
    assert [s][..0] == [];
    assert InsertAll(map[], s.nodeID, [s], now) == InsertOne(map[], {}, s.nodeID, s, now);
  }

  /** A node that knows of nothing remote takes the service over, announced anew. */
  lemma AbsorbStep(w: World, to: string, s: Service, now: Time) returns (e: Event, w': World)
    requires Member(w, to) && AnswerFor([s]) in w.answers && now != 0
    requires s.nodeID != "" && s.nodeID != to && s.ttlSec != 0
    requires w.nodes[to].reg.self == to && w.nodes[to].reg.remote == map[]
    ensures e.n == to && Step(w, e, w') && forall clock :: TimeAt(e, clock) == now
    ensures w'.nodes[to].reg == w.nodes[to].reg.(remote := map[RemoteKey(s.nodeID, s.name) := s.(announced := now)])
  {
    AnswerGroup(s, now);
    MergeIntoEmpty(w.nodes[to].reg, s.(announced := now), now);
    e := Absorb(to, AnswerFor([s]), s.nodeID, now);
    w' := Next(w, e);
  }

  lemma RestartStep(w: World, owner: string) returns (e: Event, w': World)
    requires Member(w, owner)
    ensures e.n == owner && Step(w, e, w') && (forall clock :: TimeAt(e, clock) == clock)
            && w'.nodes[owner].reg == New(owner)
  {
    e := Restart(owner);
    w' := Next(w, e);
  }

  // ---- Agreement ends at a restart ----

  /** A fresh owner registers the service and a fresh node asks for it, all at time 1. */
  lemma Spread(cluster: string, keys: map<string, PublicKey>, w: World, owner: string, host: string, to: string)
      returns (w': World)
    requires Reaches(cluster, keys, w, 1) && Member(w, owner) && Member(w, to) && owner != "" && owner != to
    requires w.nodes[owner].reg == New(owner) && w.nodes[to].reg == New(to)
    ensures Reaches(cluster, keys, w', 1)
    ensures w'.nodes.Keys == w.nodes.Keys && w'.keys == w.keys && w'.issued.Keys == w.issued.Keys
    ensures w'.nodes[owner].reg.local == map["" := FirstEntry(owner, host)]
    ensures w'.nodes[to].reg == New(to).(remote := map[RemoteKey(owner, "") := FirstEntry(owner, host)])
    ensures forall n | n in w.nodes && n != owner && n != to :: w'.nodes[n] == w.nodes[n]
  {
    var s := FirstEntry(owner, host);
    var e1, w1 := RegisterStep(w, owner, host);
    ReachNext(cluster, keys, w, 1, e1, w1, 1);
    assert Live(w1.nodes[owner].reg, 1) == {s};
    var e2, w2 := AnswerStep(w1, owner, s, 1);
    ReachNext(cluster, keys, w1, 1, e2, w2, 1);
    var e3;
    e3, w' := AbsorbStep(w2, to, s, 1);
    ReachNext(cluster, keys, w2, 1, e3, w', 1);
  }

  /** Two nodes hold the same (owner, name, version) with different hosts. */
  ghost predicate Disagree(w: World, owner: string, a: string, b: string) {
    && a in w.nodes && b in w.nodes
    && exists k :: k in w.nodes[a].reg.remote && k in w.nodes[b].reg.remote &&
         var s1, s2 := w.nodes[a].reg.remote[k], w.nodes[b].reg.remote[k];
         s1.nodeID == s2.nodeID == owner && s1.name == s2.name && s1.version == s2.version && s1.host != s2.host
  }

  /** The condition on agreement is needed: in a mesh of three, one restart of the owner is enough for two nodes to hold
      the same (owner, name, version) with different hosts. */
  lemma RestartEndsAgreement(cluster: string, keys: map<string, PublicKey>, owner: string, a: string, b: string)
    requires owner in keys && a in keys && b in keys && owner != "" && owner != a && owner != b && a != b
    ensures exists w :: Reaches(cluster, keys, w, 1) && Disagree(w, owner, a, b)
  {
    var w0 := Init(cluster, keys);
    ReachInit(cluster, keys, 1);
    var w1 := Spread(cluster, keys, w0, owner, "h", a);
    var e, w2 := RestartStep(w1, owner);
    ReachNext(cluster, keys, w1, 1, e, w2, 1);
    var w := Spread(cluster, keys, w2, owner, "g", b);
    var k := RemoteKey(owner, "");
    assert w.nodes[a].reg.remote[k] == FirstEntry(owner, "h") && w.nodes[b].reg.remote[k] == FirstEntry(owner, "g");
    assert Disagree(w, owner, a, b);
  }

  // ---- A withdrawn service lives on ----

  /** At event i the owner withdrew its service, at time 1, and it did nothing since. */
  predicate SilentSince(events: seq<Event>, owner: string, i: nat) {
    i < |events| && events[i] == Own(owner, DoDeregister("", 1)) && forall j | i < j < |events| :: events[j].n != owner
  }

  ghost predicate Withdrawn(cluster: string, keys: map<string, PublicKey>, owner: string, w: World, clock: Time) {
    exists events, worlds, i: nat :: Story(cluster, keys, events, worlds, w, clock) && SilentSince(events, owner, i)
  }

  lemma WithdrawnNext(cluster: string, keys: map<string, PublicKey>, owner: string, w: World, clock: Time, e: Event,
                      w': World, later: Time)
    requires Withdrawn(cluster, keys, owner, w, clock) && Step(w, e, w') && e.n != owner
             && clock <= TimeAt(e, later) <= later
    ensures Withdrawn(cluster, keys, owner, w', later)
  {
    var events, worlds, i: nat :| Story(cluster, keys, events, worlds, w, clock) && SilentSince(events, owner, i);
    ExtendStory(cluster, keys, events, worlds, w, clock, e, w', later);
    assert SilentSince(events + [e], owner, i);
  }

  lemma WithdrawStep(cluster: string, keys: map<string, PublicKey>, owner: string, w: World) returns (w': World)
    requires Reaches(cluster, keys, w, 1) && Member(w, owner) && "" in w.nodes[owner].reg.local
    ensures Withdrawn(cluster, keys, owner, w', 1)
    ensures w'.nodes.Keys == w.nodes.Keys && w'.keys == w.keys && w'.issued.Keys == w.issued.Keys
    ensures "" !in w'.nodes[owner].reg.local && forall n | n in w.nodes && n != owner :: w'.nodes[n] == w.nodes[n]
  {
    var e := Own(owner, DoDeregister("", 1));
    w' := Next(w, e);
    var events, worlds :| Story(cluster, keys, events, worlds, w, 1);
    ExtendStory(cluster, keys, events, worlds, w, 1, e, w', 1);
    assert SilentSince(events + [e], owner, |events|);
  }

  /** Node a holds the owner's service as announced at t, and b knows of nothing. */
  ghost predicate Held(w: World, owner: string, a: string, b: string, t: Time) {
    && Member(w, a) && Member(w, b)
    && w.nodes[a].reg == New(a).(remote := map[RemoteKey(owner, "") := FirstEntry(owner, "h").(announced := t)])
    && w.nodes[b].reg == New(b)
  }

  lemma LiveFor90(owner: string, t: Time, now: Time)
    ensures Expired(FirstEntry(owner, "h").(announced := t), now) <==> now - t > 90 * SECOND
  {
    ExpiryExactly(FirstEntry(owner, "h").(announced := t), now);
  }

  lemma HeldIsLive(w: World, owner: string, a: string, b: string, t: Time, now: Time)
    requires Held(w, owner, a, b, t) && now - t <= 90 * SECOND
    ensures Live(w.nodes[a].reg, now) == {FirstEntry(owner, "h").(announced := t)}
    ensures Pruned(w.nodes[a].reg, now) == w.nodes[a].reg
  {
    LiveFor90(owner, t, now);
    var key, s, table := RemoteKey(owner, ""), FirstEntry(owner, "h").(announced := t), w.nodes[a].reg.remote;
    assert PruneTable(table, now) == table;
    assert table == map[key := s];
    assert table.Values == {s} by {
      assert key in table && table[key] == s;
    }
  }

  /** Once the entry has expired, reading drops it. */
  lemma ForgetStep(w: World, owner: string, a: string, t: Time, now: Time) returns (e: Event, w': World)
    requires Member(w, a) && now - t > 90 * SECOND
    requires w.nodes[a].reg == New(a).(remote := map[RemoteKey(owner, "") := FirstEntry(owner, "h").(announced := t)])
    ensures e.n == a && Step(w, e, w') && (forall clock :: TimeAt(e, clock) == now) && w'.nodes[a].reg == New(a)
  {
    LiveFor90(owner, t, now);
    e := Own(a, DoRead(now));
    w' := Next(w, e);
    assert PruneTable(w.nodes[a].reg.remote, now) == map[];
  }

  /** b asks a after 89 seconds, and a forgets the service two seconds later: the roles have changed. */
  lemma PassOn(cluster: string, keys: map<string, PublicKey>, w: World, owner: string, a: string, b: string, t: Time)
      returns (w': World)
    requires Withdrawn(cluster, keys, owner, w, t + 2 * SECOND) && Held(w, owner, a, b, t) && t > 0
    requires owner != "" && owner != a && owner != b && a != b
    ensures Withdrawn(cluster, keys, owner, w', t + 91 * SECOND) && Held(w', owner, b, a, t + 89 * SECOND)
  {
    var now, s := t + 89 * SECOND, FirstEntry(owner, "h").(announced := t);
    HeldIsLive(w, owner, a, b, t, now);
    var e1, w1 := AnswerStep(w, a, s, now);
    WithdrawnNext(cluster, keys, owner, w, t + 2 * SECOND, e1, w1, now);
    var e2, w2 := AbsorbStep(w1, b, s, now);
    WithdrawnNext(cluster, keys, owner, w1, now, e2, w2, now);
    var e3;
    e3, w' := ForgetStep(w2, owner, a, t, t + 91 * SECOND);
    WithdrawnNext(cluster, keys, owner, w2, now, e3, w', t + 91 * SECOND);
  }

  lemma FirstHeld(cluster: string, keys: map<string, PublicKey>, owner: string, a: string, b: string) returns (w: World)
    requires owner in keys && a in keys && b in keys && owner != "" && owner != a && owner != b && a != b
    ensures Withdrawn(cluster, keys, owner, w, 1 + 2 * SECOND) && Held(w, owner, a, b, 1)
  {
    ReachInit(cluster, keys, 1);
    var w1 := Spread(cluster, keys, Init(cluster, keys), owner, "h", a);
    w := WithdrawStep(cluster, keys, owner, w1);
    WithdrawnLater(cluster, keys, owner, w, 1, 1 + 2 * SECOND);
  }

  /** After any number of rounds one of the two nodes still holds the service. */
  lemma {:induction false} StillHeld(cluster: string, keys: map<string, PublicKey>, owner: string, a: string,
                                     b: string, rounds: nat)
      returns (w: World, holder: string, other: string)
    requires owner in keys && a in keys && b in keys && owner != "" && owner != a && owner != b && a != b
    ensures var t := 1 + rounds * 89 * SECOND;
            Withdrawn(cluster, keys, owner, w, t + 2 * SECOND) && Held(w, owner, holder, other, t)
    ensures holder != owner && other != owner && holder != other
  {
    if rounds == 0 {
      w := FirstHeld(cluster, keys, owner, a, b);
      holder, other := a, b;
    } else {
      var w1, a1, b1 := StillHeld(cluster, keys, owner, a, b, rounds - 1);
      w := PassOn(cluster, keys, w1, owner, a1, b1, 1 + (rounds - 1) * 89 * SECOND);
      holder, other := b1, a1;
    }
  }

  lemma WithdrawnLater(cluster: string, keys: map<string, PublicKey>, owner: string, w: World, clock: Time, later: Time)
    requires Withdrawn(cluster, keys, owner, w, clock) && clock <= later
    ensures Withdrawn(cluster, keys, owner, w, later)
  {
    var events, worlds, i: nat :| Story(cluster, keys, events, worlds, w, clock) && SilentSince(events, owner, i);
    TimelyLater(events, clock, later);
    assert Story(cluster, keys, events, worlds, w, later);
  }

  /** Some node lists the owner's service. */
  ghost predicate ListedSomewhere(w: World, owner: string, now: Time) {
    exists n, s :: n in w.nodes && n != owner && s in Live(w.nodes[n].reg, now) && s.nodeID == owner
  }

  /** OUTLIVED. Two nodes that ask each other keep a service listed for any length of time after its owner withdrew it:
      every second-hand answer starts its 90 seconds anew. */
  lemma ServiceOutlivesWithdrawal(cluster: string, keys: map<string, PublicKey>, owner: string, a: string, b: string,
                                  until: nat)
    requires owner in keys && a in keys && b in keys && owner != "" && owner != a && owner != b && a != b
    ensures exists w, clock ::
              clock >= until && Withdrawn(cluster, keys, owner, w, clock) && ListedSomewhere(w, owner, clock)
  {
    var w, holder, other := StillHeld(cluster, keys, owner, a, b, until);
    var t := 1 + until * 89 * SECOND;
    HeldIsLive(w, owner, holder, other, t, t + 2 * SECOND);
    assert FirstEntry(owner, "h").(announced := t) in Live(w.nodes[holder].reg, t + 2 * SECOND);
    assert ListedSomewhere(w, owner, t + 2 * SECOND);
  }
}
