/** Signed gossip envelopes. Signatures and encodings are abstract: a signature names the key and the
    payload it was made for, and verification compares both. */
module Envelope {
  import opened Text
  import opened RegistryModel

  datatype PublicKey = PublicKey(id: nat)

  datatype Payload = NoBytes | NotState(raw: nat) | StatePayload(state: LocalState)

  datatype Signature = Signature(key: PublicKey, payload: Payload)

  datatype Kind = ServiceAnnounce | OtherKind(code: nat)

  datatype GossipEnvelope = GossipEnvelope(cluster: string, kind: Kind, payload: Payload, signature: Option<Signature>)

  /** A message as received: nothing, text starting with "{", bytes that are no envelope, or an envelope. */
  datatype Wire = NoMessage | LegacyJson | Unparsable | Sealed(env: GossipEnvelope)

  datatype Signer = Signer(nodeID: string, key: PublicKey)

  datatype GossipError =
    | NoSigner | NoCluster | EmptyPayload | BadPayload | MissingNodeID | NodeMismatch
    | EmptyMessage | UnsignedLegacy | BadEnvelope | ClusterMismatch | WrongKind | MissingSignature
    | UnknownKey | BadSignature

  datatype Result<+T> = Ok(value: T) | Err(error: GossipError)

  function SignEnvelope(cluster: string, payload: Payload, signer: Option<Signer>): Result<Wire> {
    if signer.None? then Err(NoSigner)
    else if cluster == "" then Err(NoCluster)
    else if payload.NoBytes? then Err(EmptyPayload)
    else if payload.NotState? then Err(BadPayload)
    else if payload.state.nodeID == "" then Err(MissingNodeID)
    else if payload.state.nodeID != signer.value.nodeID then Err(NodeMismatch)
    else Ok(Sealed(GossipEnvelope(cluster, ServiceAnnounce, payload, Some(Signature(signer.value.key, payload)))))
  }

  predicate Verifies(key: PublicKey, payload: Payload, sig: Signature) {
    sig.key == key && sig.payload == payload
  }

  function UnwrapEnvelope(cluster: string, wire: Wire, pubkeys: map<string, PublicKey>): Result<LocalState> {
    match wire
    case NoMessage => Err(EmptyMessage)
    case LegacyJson => Err(UnsignedLegacy)
    case Unparsable => Err(BadEnvelope)
    case Sealed(env) =>
      if env.cluster != cluster then Err(ClusterMismatch)
      else if env.kind != ServiceAnnounce then Err(WrongKind)
      else if env.payload.NoBytes? then Err(EmptyPayload)
      else if env.signature.None? then Err(MissingSignature)
      else if env.payload.NotState? then Err(BadPayload)
      else
        var state := env.payload.state;
        if state.nodeID == "" then Err(MissingNodeID)
        else if state.nodeID !in pubkeys then Err(UnknownKey)
        else if !Verifies(pubkeys[state.nodeID], env.payload, env.signature.value) then Err(BadSignature)
        else Ok(state)
  }

  /** A payload is sealed exactly when there is a signer, the cluster has a name, and the payload is a state of the
      signer, which has a name too; and then the envelope carries it with the signer's signature over it. */
  lemma SealsExactly(cluster: string, payload: Payload, signer: Option<Signer>)
    ensures SignEnvelope(cluster, payload, signer).Ok? <==>
            && signer.Some? && cluster != "" && payload.StatePayload?
            && payload.state.nodeID != "" && payload.state.nodeID == signer.value.nodeID
    ensures SignEnvelope(cluster, payload, signer).Ok? ==>
              SignEnvelope(cluster, payload, signer).value ==
              Sealed(GossipEnvelope(cluster, ServiceAnnounce, payload, Some(Signature(signer.value.key, payload))))
  {
  }

  /** A message opens exactly when it is an announcement envelope of the cluster with a named node's state, signed over
      just that state under the key held for the node. */
  lemma OpensExactly(cluster: string, wire: Wire, pubkeys: map<string, PublicKey>, state: LocalState)
    ensures UnwrapEnvelope(cluster, wire, pubkeys) == Ok(state) <==>
            && wire.Sealed? && wire.env.cluster == cluster && wire.env.kind == ServiceAnnounce
            && wire.env.payload == StatePayload(state) && state.nodeID != "" && state.nodeID in pubkeys
            && wire.env.signature == Some(Signature(pubkeys[state.nodeID], StatePayload(state)))
  {
  }

  /** What one node seals another opens to the same state, exactly when both are in one cluster and the
      receiver holds the sender's key. */
  lemma SealedOpensExactly(cluster: string, payload: Payload, signer: Option<Signer>, cluster': string,
                           pubkeys: map<string, PublicKey>)
    requires SignEnvelope(cluster, payload, signer).Ok?
    ensures var res := UnwrapEnvelope(cluster', SignEnvelope(cluster, payload, signer).value, pubkeys);
            && (res.Ok? <==>
                cluster' == cluster && signer.value.nodeID in pubkeys
                && pubkeys[signer.value.nodeID] == signer.value.key)
            && (res.Ok? ==> StatePayload(res.value) == payload)
  {
  }

  /** A state is accepted only with a signature over it under the key held for its owner. */
  lemma OpenedWasSigned(cluster: string, wire: Wire, pubkeys: map<string, PublicKey>)
    requires UnwrapEnvelope(cluster, wire, pubkeys).Ok?
    ensures var state := UnwrapEnvelope(cluster, wire, pubkeys).value;
            && state.nodeID != "" && state.nodeID in pubkeys
            && wire.Sealed? && wire.env.signature == Some(Signature(pubkeys[state.nodeID], StatePayload(state)))
  {
  }
}
