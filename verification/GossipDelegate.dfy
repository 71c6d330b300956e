/** A node's gossip delegate and the agent operations that feed it: the broadcast queue, the key cache,
    the intake of messages, direct pushes to members, and (de)registration down to a graceful leave. */
module GossipDelegate {
  import opened Text
  import opened Sorting
  import opened RegistryModel
  import opened RegistryLaws
  import opened RegistryClass
  import opened Envelope

  datatype NodeMeta = NodeMeta(nodeID: string, pubKey: Option<PublicKey>)

  datatype Send = Send(to: string, wire: Wire)

  // ---- What goes out ----

  /** The sealed message, unless sealing fails. */
  function SealedOf(cluster: string, signer: Option<Signer>, payload: Payload): seq<Wire> {
    match SignEnvelope(cluster, payload, signer)
    case Ok(wire) => [wire]
    case Err(_) => []
  }

  /** One copy for every member but the node itself, in order. */
  function Addressed(members: seq<string>, me: string, wire: Wire): seq<Send> {
    if members == [] then []
    else
      var n := |members| - 1;
      Addressed(members[..n], me, wire) + if members[n] == me then [] else [Send(members[n], wire)]
  }

  function Pushed(cluster: string, signer: Option<Signer>, payload: Payload, members: seq<string>,
                  me: string): seq<Send> {
    var sealed := SealedOf(cluster, signer, payload);
    if sealed == [] then [] else Addressed(members, me, sealed[0])
  }

  /** Every other member is sent the message, and nobody else. */
  lemma {:induction false} AddressedExactly(members: seq<string>, me: string, wire: Wire, s: Send)
    ensures s in Addressed(members, me, wire) <==> s.wire == wire && s.to != me && s.to in members
  {
    if members != [] {
      var n := |members| - 1;
      AddressedExactly(members[..n], me, wire, s);
      assert members == members[..n] + [members[n]];
    }
  }

  lemma {:induction false} AddressedCounts(members: seq<string>, me: string, wire: Wire, to: string)
    ensures multiset(Addressed(members, me, wire))[Send(to, wire)] == if to == me then 0 else multiset(members)[to]
  {
    if members != [] {
      var n := |members| - 1;
      var front, m := members[..n], members[n];
      AddressedCounts(front, me, wire, to);
      assert members == front + [m];
      CountAppend(front, m, to);
      if m == me {
        assert Addressed(members, me, wire) == Addressed(front, me, wire);
      } else {
        assert Addressed(members, me, wire) == Addressed(front, me, wire) + [Send(m, wire)];
        CountAppend(Addressed(front, me, wire), Send(m, wire), Send(to, wire));
      }
    }
  }

  /** A signer can seal the states of its own node. */
  predicate CanSeal(cluster: string, signer: Option<Signer>, nodeID: string) {
    signer.Some? && cluster != "" && nodeID != "" && signer.value.nodeID == nodeID
  }

  /** PUSHED ONCE EACH. A member in good standing sends its state to every other member exactly once per push and to
      nobody else, in a message that opens to that state wherever its key is held; any other node sends nothing. */
  lemma PushReaches(cluster: string, signer: Option<Signer>, state: LocalState, members: seq<string>, me: string,
                    to: string)
    requires Distinct(members)
    ensures var sent := Pushed(cluster, signer, StatePayload(state), members, me);
            if !CanSeal(cluster, signer, state.nodeID) then sent == []
            else
              && (forall s | s in sent :: s.to != me && s.to in members)
              && exists wire ::
                   && multiset(sent)[Send(to, wire)] == (if to in members && to != me then 1 else 0)
                   && (forall s | s in sent :: s.wire == wire)
                   && forall pubkeys: map<string, PublicKey> | state.nodeID in pubkeys ::
                        pubkeys[state.nodeID] == signer.value.key ==>
                            UnwrapEnvelope(cluster, wire, pubkeys) == Ok(state)
  {
    var sent := Pushed(cluster, signer, StatePayload(state), members, me);
    SealsExactly(cluster, StatePayload(state), signer);
    if CanSeal(cluster, signer, state.nodeID) {
      var wire := SignEnvelope(cluster, StatePayload(state), signer).value;
      forall s ensures s in sent <==> s.wire == wire && s.to != me && s.to in members {
        AddressedExactly(members, me, wire, s);
      }
      AddressedCounts(members, me, wire, to);
      DistinctCountsOnce(members, to);
      assert to in members <==> to in multiset(members);
      forall pubkeys: map<string, PublicKey> | state.nodeID in pubkeys && pubkeys[state.nodeID] == signer.value.key
        ensures UnwrapEnvelope(cluster, wire, pubkeys) == Ok(state)
      {
        SealedOpensExactly(cluster, StatePayload(state), signer, cluster, pubkeys);
      }
    }
  }

  /** What is queued: one message that opens to the state wherever the signer's key is held, or nothing for a node that
      cannot seal. */
  lemma QueueHolds(cluster: string, signer: Option<Signer>, state: LocalState)
    ensures var queued := SealedOf(cluster, signer, StatePayload(state));
            if !CanSeal(cluster, signer, state.nodeID) then queued == []
            else |queued| == 1 && forall pubkeys: map<string, PublicKey> | state.nodeID in pubkeys ::
                   pubkeys[state.nodeID] == signer.value.key ==>
                       UnwrapEnvelope(cluster, queued[0], pubkeys) == Ok(state)
  {
    SealsExactly(cluster, StatePayload(state), signer);
    if CanSeal(cluster, signer, state.nodeID) {
      forall pubkeys: map<string, PublicKey> | state.nodeID in pubkeys && pubkeys[state.nodeID] == signer.value.key
        ensures UnwrapEnvelope(cluster, SealedOf(cluster, signer, StatePayload(state))[0], pubkeys) == Ok(state)
      {
        SealedOpensExactly(cluster, StatePayload(state), signer, cluster, pubkeys);
      }
    }
  }

  // ---- Batches ----

  function Batch(queue: seq<Wire>, limit: int): seq<Wire> {
    if limit <= 0 then [] else if |queue| <= limit then queue else queue[..limit]
  }

  /** Octets of a batch on the wire, with a fixed overhead per message. */
  function Octets(batch: seq<Wire>, size: Wire -> nat, overhead: nat): nat {
    if batch == [] then 0 else overhead + size(batch[0]) + Octets(batch[1..], size, overhead)
  }

  predicate Fits(batch: seq<Wire>, size: Wire -> nat, overhead: nat, limit: int) {
    batch == [] || Octets(batch, size, overhead) <= limit
  }

  lemma {:induction false} OctetsAtLeast(batch: seq<Wire>, size: Wire -> nat, overhead: nat)
    requires forall w | w in batch :: size(w) >= 2
    ensures Octets(batch, size, overhead) >= 2 * |batch|
  {
    if batch != [] {
      assert forall w | w in batch[1..] :: w in batch;
      OctetsAtLeast(batch[1..], size, overhead);
    }
  }

  /** The limit is meant in octets and used as a number of messages. Messages of two octets and more, as every sealed
      envelope is, stay within it exactly when the whole queue does. */
  lemma BatchFitsExactly(queue: seq<Wire>, size: Wire -> nat, overhead: nat, limit: int)
    requires forall w | w in queue :: size(w) >= 2
    ensures Fits(Batch(queue, limit), size, overhead, limit) <==> limit <= 0 || Octets(queue, size, overhead) <= limit
  {
    var batch := Batch(queue, limit);
    assert forall w | w in batch :: w in queue;
    OctetsAtLeast(batch, size, overhead);
    OctetsAtLeast(queue, size, overhead);
  }

  /** For every positive limit some queue makes a batch that exceeds it. */
  lemma BatchOverflows(w: Wire, size: Wire -> nat, overhead: nat, limit: nat)
    requires limit > 0 && size(w) >= 2
    ensures !Fits(Batch(seq(limit, _ => w), limit), size, overhead, limit)
  {
    OctetsAtLeast(seq(limit, _ => w), size, overhead);
  }

  class Delegate {
    const cluster: string
    const signer: Option<Signer>
    const reg: Registry
    var broadcasts: seq<Wire>
    var pubkeys: map<string, PublicKey>

    /** A delegate knows its own signing key from the start. */
    constructor (cluster: string, reg: Registry, signer: Option<Signer>)
      ensures this.cluster == cluster && this.reg == reg && this.signer == signer && broadcasts == []
      ensures pubkeys == if signer.Some? then map[signer.value.nodeID := signer.value.key] else map[]
    {
      this.cluster, this.reg, this.signer, broadcasts := cluster, reg, signer, [];
      pubkeys := if signer.Some? then map[signer.value.nodeID := signer.value.key] else map[];
    }

    /** Queues a signed snapshot of the node's own services; a snapshot that cannot be signed is dropped. */
    method QueueStateBroadcast() returns (ghost state: LocalState)
      requires Valid(reg.Model())
      modifies this`broadcasts
      ensures IsSnapshot(reg.Model(), state)
      ensures broadcasts == old(broadcasts) + SealedOf(cluster, signer, StatePayload(state))
      ensures |broadcasts| == |old(broadcasts)| + if CanSeal(cluster, signer, reg.self) then 1 else 0
    {
      var s := reg.LocalSnapshot();
      state := s;
      var sealing := SignEnvelope(cluster, StatePayload(s), signer);
      if sealing.Ok? {
        broadcasts := broadcasts + [sealing.value];
      }
    }

    /** Hands out queued messages, oldest first; `limit` counts messages, and none is lost or repeated. */
    method GetBroadcasts(limit: int) returns (out: seq<Wire>)
      modifies this`broadcasts
      ensures out == Batch(old(broadcasts), limit) && out + broadcasts == old(broadcasts)
      ensures |out| == if limit <= 0 then 0 else if |old(broadcasts)| <= limit then |old(broadcasts)| else limit
    {
      out := [];
      var left := limit;
      while |broadcasts| > 0 && left > 0
        invariant out + broadcasts == old(broadcasts)
        invariant |out| == (if limit > 0 then limit else 0) - (if left > 0 then left else 0)
      {
        out := out + [broadcasts[0]];
        broadcasts := broadcasts[1..];
        left := left - 1;
      }
    }

    method RememberPubKey(meta: NodeMeta)
      modifies this`pubkeys
      ensures pubkeys == if meta.nodeID == "" || meta.pubKey.None? then old(pubkeys)
                         else old(pubkeys)[meta.nodeID := meta.pubKey.value]
    {
      if meta.nodeID == "" || meta.pubKey.None? {
        return;
      }
      pubkeys := pubkeys[meta.nodeID := meta.pubKey.value];
    }

    /** A message changes the registry only after it opened under the key held for its owner. */
    method IngestState(wire: Wire, now: Time) returns (err: Option<GossipError>)
      modifies reg
      ensures var opening := UnwrapEnvelope(cluster, wire, pubkeys);
              && (opening.Ok? ==> err == None && reg.Model() == Merge(old(reg.Model()), opening.value, now))
              && (opening.Err? ==> err == Some(opening.error) && reg.Model() == old(reg.Model()))
    {
      var opening := UnwrapEnvelope(cluster, wire, pubkeys);
      match opening {
        case Err(e) => return Some(e);
        case Ok(state) =>
          var _ := reg.MergeRemoteState(Some(state), now);
          return None;
      }
    }

    /** Pushes a payload to all other members at once. */
    method PropagateState(payload: Payload, members: seq<string>, me: string) returns (sent: seq<Send>)
      ensures sent == Pushed(cluster, signer, payload, members, me)
    {
      sent := [];
      if payload.NoBytes? {
        return;
      }
      var sealing := SignEnvelope(cluster, payload, signer);
      if sealing.Err? {
        return;
      }
      for i := 0 to |members|
        invariant sent == Addressed(members[..i], me, sealing.value)
      {
        assert members[..i + 1][..i] == members[..i];
        if members[i] == me {
          continue;
        }
        sent := sent + [Send(members[i], sealing.value)];
      }
      assert members[..|members|] == members;
    }

    /** Queues the node's full snapshot and pushes the given state two times. */
    method PropagateRegistryState(state: LocalState, members: seq<string>, me: string)
        returns (sent: seq<Send>, ghost snap: LocalState)
      requires Valid(reg.Model())
      modifies this`broadcasts
      ensures IsSnapshot(reg.Model(), snap)
              && broadcasts == old(broadcasts) + SealedOf(cluster, signer, StatePayload(snap))
      ensures sent == PushedTwice(cluster, signer, state, members, me)
    {
      snap := QueueStateBroadcast();
      sent := PropagateState(StatePayload(state), members, me);
      var again := PropagateState(StatePayload(state), members, me);
      sent := sent + again;
    }
  }

  function PushedTwice(cluster: string, signer: Option<Signer>, state: LocalState, members: seq<string>,
                       me: string): seq<Send> {
    Pushed(cluster, signer, StatePayload(state), members, me)
        + Pushed(cluster, signer, StatePayload(state), members, me)
  }

  // ---- Registration and deregistration ----

  /** Installs a service; the full snapshot is queued once and pushed twice. */
  method RegisterService(d: Delegate, name: string, host: string, port: nat, labels: map<string, string>, now: Time,
                         members: seq<string>, me: string)
    returns (sent: seq<Send>, ghost snap: LocalState)
    requires Valid(d.reg.Model())
    modifies d`broadcasts, d.reg
    ensures d.reg.Model() == Register(old(d.reg.Model()), name, host, port, labels, now)
    ensures IsSnapshot(d.reg.Model(), snap)
    ensures d.broadcasts == old(d.broadcasts) + SealedOf(d.cluster, d.signer, StatePayload(snap))
    ensures sent == PushedTwice(d.cluster, d.signer, snap, members, me)
  {
    var _ := d.reg.RegisterLocal(name, host, port, labels, now);
    var state := d.reg.LocalSnapshot();
    sent, snap := d.PropagateRegistryState(state, members, me);
    SnapshotUnique(d.reg.Model(), snap, state);
  }

  lemma SnapshotUnique(st: State, a: LocalState, b: LocalState)
    requires IsSnapshot(st, a) && IsSnapshot(st, b)
    ensures a == b
  {
    ByNameOrder();
    StrictlySortedUnique(ByName, a.services, b.services);
  }

  /** Removes one service. The push holds its tombstone and nothing else, twice; the rest is queued as a snapshot. */
  method DeregisterService(d: Delegate, name: string, now: Time, members: seq<string>, me: string)
    returns (ok: bool, sent: seq<Send>, ghost snap: LocalState)
    requires Valid(d.reg.Model())
    modifies d`broadcasts, d.reg
    ensures d.reg.Model() == Deregister(old(d.reg.Model()), name) && IsSnapshot(d.reg.Model(), snap)
    ensures ok <==> name in old(d.reg.local)
    ensures d.broadcasts == old(d.broadcasts) + if ok then SealedOf(d.cluster, d.signer, StatePayload(snap)) else []
    ensures sent == if !ok then []
                    else PushedTwice(d.cluster, d.signer, Withdrawal(old(d.reg.Model()), name, now), members, me)
  {
    var tombstone := d.reg.DeregisterLocal(name, now);
    if tombstone.None? {
      var s := d.reg.LocalSnapshot();
      return false, [], s;
    }
    ok := true;
    sent, snap := d.PropagateRegistryState(LocalState(d.reg.self, [tombstone.value]), members, me);
  }

  /** The state that announces the end of one service. */
  function Withdrawal(st: State, name: string, now: Time): LocalState {
    LocalState(st.self, [Tombstone(st, name, now)])
  }

  /** The message of a withdrawal: one tombstone of the node, with the next version of the name. */
  lemma WithdrawalExactly(st: State, name: string, now: Time)
    ensures var msg := Withdrawal(st, name, now);
            && msg.nodeID == st.self && |msg.services| == 1
            && var t := msg.services[0];
               && t.nodeID == st.self && t.name == name && t.ttlSec == 0 && t.announced == now
               && t.version == ((if name in st.version then st.version[name] else 0) + 1) % 0x1_0000_0000_0000_0000
               && t.serviceID == ServiceID(st.self, name, t.version)
  {
  }

  /** Twice means once and once again. */
  lemma TwiceExactly(cluster: string, signer: Option<Signer>, state: LocalState, members: seq<string>, me: string,
                     s: Send)
    ensures multiset(PushedTwice(cluster, signer, state, members, me))[s] ==
            2 * multiset(Pushed(cluster, signer, StatePayload(state), members, me))[s]
  {
  }

  function DeregisterAll(st: State, names: seq<string>): State {
    if names == [] then st else Deregister(DeregisterAll(st, names[..|names| - 1]), names[|names| - 1])
  }

  /** Deregistering names touches only those names. */
  lemma {:induction false} DeregisterAllAt(st: State, names: seq<string>, x: string)
    ensures var r := DeregisterAll(st, names);
            && r.self == st.self && r.remote == st.remote
            && (x in r.local <==> x in st.local && x !in names) && (x in r.local ==> r.local[x] == st.local[x])
            && (x !in names ==>
                (x in r.version <==> x in st.version) && (x in st.version ==> r.version[x] == st.version[x]))
  {
    if names != [] {
      var n := |names| - 1;
      DeregisterAllAt(st, names[..n], x);
      assert names == names[..n] + [names[n]];
    }
  }

  lemma DeregisterAllValid(st: State, names: seq<string>)
    requires Valid(st)
    ensures Valid(DeregisterAll(st, names))
  {
    DeregisterAllAt(st, names, "");
    var r := DeregisterAll(st, names);
    forall x | x in r.local ensures r.local[x].name == x && r.local[x].nodeID == r.self {
      DeregisterAllAt(st, names, x);
    }
  }

  /** Withdrawing a name is not affected by earlier withdrawals of others. */
  lemma NextIsUntouched(st: State, names: seq<string>, i: nat, now: Time)
    requires i < |names| && names[i] !in names[..i]
    ensures names[i] in DeregisterAll(st, names[..i]).local <==> names[i] in st.local
    ensures Withdrawal(DeregisterAll(st, names[..i]), names[i], now) == Withdrawal(st, names[i], now)
  {
    DeregisterAllAt(st, names[..i], names[i]);
  }

  /** What a leave queues: the snapshots it took, in order. */
  function LeaveQueue(cluster: string, signer: Option<Signer>, snaps: seq<LocalState>): seq<Wire> {
    if snaps == [] then []
    else LeaveQueue(cluster, signer, snaps[..|snaps| - 1]) + SealedOf(cluster, signer, StatePayload(snaps[|snaps| - 1]))
  }

  lemma StrictIsNew(names: seq<string>, i: nat)
    requires StrictlySorted(Less, names) && i < |names|
    ensures names[i] !in names[..i]
  {
    LessIsStrictTotal();
  }

  /** The first k withdrawals of a leave from st: each pushed its own tombstone twice, and took the snapshot of what
      was left. */
  ghost predicate Left(cluster: string, signer: Option<Signer>, st: State, names: seq<string>, k: nat,
                       clock: nat -> Time, members: seq<string>, me: string,
                       pushes: seq<seq<Send>>, snaps: seq<LocalState>) {
    && |pushes| == |snaps| == k <= |names|
    && (forall i | 0 <= i < k ::
        pushes[i] == PushedTwice(cluster, signer, Withdrawal(st, names[i], clock(i)), members, me))
    && (forall i | 0 <= i < k :: IsSnapshot(DeregisterAll(st, names[..i + 1]), snaps[i]))
  }

  lemma LeftOne(cluster: string, signer: Option<Signer>, st: State, names: seq<string>, k: nat,
                clock: nat -> Time, members: seq<string>, me: string,
                pushes: seq<seq<Send>>, snaps: seq<LocalState>, more: seq<Send>, snap: LocalState)
    requires Left(cluster, signer, st, names, k, clock, members, me, pushes, snaps) && k < |names|
    requires more == PushedTwice(cluster, signer, Withdrawal(st, names[k], clock(k)), members, me)
    requires IsSnapshot(DeregisterAll(st, names[..k + 1]), snap)
    ensures Left(cluster, signer, st, names, k + 1, clock, members, me, pushes + [more], snaps + [snap])
  {
    var ps, ss := pushes + [more], snaps + [snap];
    assert ps[k] == more && ss[k] == snap;
    forall i | 0 <= i < k ensures ps[i] == pushes[i] && ss[i] == snaps[i] {
    }
  }

  /** One withdrawal of a leave. */
  method LeaveStep(d: Delegate, ghost st: State, names: seq<string>, i: nat, now: Time, members: seq<string>,
                   me: string)
    returns (more: seq<Send>, ghost snap: LocalState)
    requires Valid(st) && StrictlySorted(Less, names) && Elems(names) == st.local.Keys && i < |names|
    requires d.reg.Model() == DeregisterAll(st, names[..i])
    modifies d`broadcasts, d.reg
    ensures d.reg.Model() == DeregisterAll(st, names[..i + 1]) && IsSnapshot(DeregisterAll(st, names[..i + 1]), snap)
    ensures more == PushedTwice(d.cluster, d.signer, Withdrawal(st, names[i], now), members, me)
    ensures d.broadcasts == old(d.broadcasts) + SealedOf(d.cluster, d.signer, StatePayload(snap))
  {
    LeaveReady(st, names, i, now);
    var ok;
    ok, more, snap := DeregisterService(d, names[i], now, members, me);
  }

  /** A graceful leave withdraws the services one by one, in order of name. Each tombstone carries the version after
      the service's own, and each withdrawal queues the snapshot of what was left. */
  method DeregisterAllLocal(d: Delegate, clock: nat -> Time, members: seq<string>, me: string)
    returns (names: seq<string>, pushes: seq<seq<Send>>, ghost snaps: seq<LocalState>)
    requires Valid(d.reg.Model())
    modifies d`broadcasts, d.reg
    ensures StrictlySorted(Less, names) && Elems(names) == old(d.reg.local).Keys
    ensures d.reg.Model() == DeregisterAll(old(d.reg.Model()), names) && d.reg.local == map[]
    ensures Left(d.cluster, d.signer, old(d.reg.Model()), names, |names|, clock, members, me, pushes, snaps)
    ensures d.broadcasts == old(d.broadcasts) + LeaveQueue(d.cluster, d.signer, snaps)
  {
    names := d.reg.LocalNames();
    pushes, snaps := [], [];
    ghost var st, base := d.reg.Model(), d.broadcasts;
    assert names[..0] == [];
    for i := 0 to |names|
      invariant d.reg.Model() == DeregisterAll(st, names[..i])
      invariant Left(d.cluster, d.signer, st, names, i, clock, members, me, pushes, snaps)
      invariant d.broadcasts == base + LeaveQueue(d.cluster, d.signer, snaps)
    {
      var more, snap := LeaveStep(d, st, names, i, clock(i), members, me);
      LeaveQueueOne(d.cluster, d.signer, base, snaps, snap);
      LeftOne(d.cluster, d.signer, st, names, i, clock, members, me, pushes, snaps, more, snap);
      pushes, snaps := pushes + [more], snaps + [snap];
    }
    assert names[..|names|] == names;
    NothingLeft(st, names);
  }

  lemma LeaveQueueOne(cluster: string, signer: Option<Signer>, base: seq<Wire>, snaps: seq<LocalState>,
                      snap: LocalState)
    ensures base + LeaveQueue(cluster, signer, snaps + [snap]) ==
            (base + LeaveQueue(cluster, signer, snaps)) + SealedOf(cluster, signer, StatePayload(snap))
  {
    assert (snaps + [snap])[..|snaps|] == snaps;
  }

  lemma NothingLeft(st: State, names: seq<string>)
    requires Elems(names) == st.local.Keys
    ensures DeregisterAll(st, names).local == map[]
  {
    forall x ensures x !in DeregisterAll(st, names).local {
      DeregisterAllAt(st, names, x);
      assert x in names <==> x in Elems(names);
    }
  }

  lemma LeaveReady(st: State, names: seq<string>, i: nat, now: Time)
    requires Valid(st) && StrictlySorted(Less, names) && Elems(names) == st.local.Keys && i < |names|
    ensures var cur := DeregisterAll(st, names[..i]);
            && Valid(cur) && names[i] in cur.local && Deregister(cur, names[i]) == DeregisterAll(st, names[..i + 1])
            && Withdrawal(cur, names[i], now) == Withdrawal(st, names[i], now)
  {
    assert names[..i + 1][..i] == names[..i];
    assert names[i] in Elems(names);
    StrictIsNew(names, i);
    NextIsUntouched(st, names, i, now);
    DeregisterAllValid(st, names[..i]);
  }

  // ---- What a withdrawal does elsewhere ----

  /** WITHDRAWAL. The tombstone that a node pushes for any one service, delivered anywhere, removes every entry of that
      node there and nothing else: a leaving node is forgotten by whoever gets one message, and a node that
      withdraws one of several services is forgotten altogether until a snapshot of it arrives. */
  lemma WithdrawalForgetsOwner(st: State, owner: State, name: string, sentAt: Time, now: Time)
    requires Valid(st) && Apart(st.remote, owner.self) && owner.self != "" && owner.self != st.self
    ensures Merge(st, Withdrawal(owner, name, sentAt), now) == st.(remote := Others(st.remote, owner.self))
  {
    TombstonesEmptyTheSlice(st.remote, owner.self, Withdrawal(owner, name, sentAt).services, now);
  }

  /** The first snapshot after a withdrawal brings back every service it lists, whatever was known before. */
  lemma SnapshotRestores(st: State, owner: State, name: string, sentAt: Time, snap: LocalState, t1: Time, t2: Time,
                         i: nat)
    requires Valid(st) && Apart(st.remote, owner.self) && owner.self != "" && owner.self != st.self
    requires snap.nodeID == owner.self && TombstoneFreeSnapshot(snap.services) && i < |snap.services|
    ensures var key := RemoteKey(owner.self, snap.services[i].name);
            var r := Merge(Merge(st, Withdrawal(owner, name, sentAt), t1), snap, t2).remote;
            key in r && r[key] == snap.services[i].(nodeID := owner.self)
  {
    WithdrawalForgetsOwner(st, owner, name, sentAt, t1);
    var rest := Others(st.remote, owner.self);
    KeyOwner(rest, owner.self, snap.services[i].name);
    DeliveryAt(rest, owner.self, snap.services, t2, i);
  }
}
