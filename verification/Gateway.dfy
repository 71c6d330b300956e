/** A client request at its entry node: policy, lookup, candidate ordering, failover, and the relay handler
    of the peer on the second hop. Effects on the outside are recorded in order. */
module Gateway {
  import opened Text
  import opened Sorting
  import opened RegistryModel
  import opened RegistryRuns
  import opened RegistryClass
  import opened Router
  import opened Policies
  import opened Failover
  import Resolver

  // ---- Service names ----

  const SUFFIX := ".ztm"

  function ServiceNameFromHost(host: string): string {
    if HasSuffix(host, SUFFIX) then host[..|host| - |SUFFIX|] else host
  }

  function TargetName(req: Request): string {
    if req.service == "" then ServiceNameFromHost(req.host) else req.service
  }

  /** A service is reachable under its own name and under its name in the mesh domain. */
  lemma HostNamesService(name: string)
    ensures ServiceNameFromHost(name + ".ztm") == name
    ensures (forall x :: name != x + ".ztm") ==> ServiceNameFromHost(name) == name
  {
    var host := name + SUFFIX;
    assert host[|host| - |SUFFIX|..] == SUFFIX && host[..|host| - |SUFFIX|] == name;
    if HasSuffix(name, SUFFIX) {
      assert name == name[..|name| - |SUFFIX|] + ".ztm";
    }
  }

  /** The name in the request goes before the host. */
  lemma TargetNameExactly(req: Request)
    ensures req.service != "" ==> TargetName(req) == req.service
    ensures req.service == "" ==> forall x | req.host == x + ".ztm" :: TargetName(req) == x
    ensures req.service == "" && (forall x :: req.host != x + ".ztm") ==> TargetName(req) == req.host
  {
    forall x | req.host == x + ".ztm" ensures ServiceNameFromHost(req.host) == x { HostNamesService(x); }
    HostNamesService(req.host);
  }

  // ---- The second hop ----

  /** A node as a relay request finds it: its own services and the rules in force. */
  datatype View = View(self: string, local: map<string, Service>, rules: Rules)

  /** The answer to a relay request, and the backend dial it made, if any. A relay never opens another hop. */
  function HandleRelay(v: View, req: Request, dialOk: bool): (Response, seq<Effect>) {
    var name := TargetName(req);
    if name == "" then (Refused(ServiceRequired), [])
    else if !Allowed(v.rules, name) then (Refused(AclDenied), [])
    else if name !in v.local then (Refused(ServiceNotFound), [])
    else
      var dial := [Dial(v.self, v.local[name].host, v.local[name].port, dialOk)];
      if dialOk then (OkAt(v.self), dial) else (Refused(BackendUnreachable), dial)
  }

  /** What a relay request is answered, and why. */
  lemma RelayExactly(v: View, req: Request, dialOk: bool)
    ensures var (response, effects), name := HandleRelay(v, req, dialOk), TargetName(req);
            var served := name != "" && Allowed(v.rules, name) && name in v.local;
            && (response.OkAt? <==> served && dialOk) && (response.OkAt? ==> response.node == v.self)
            && (response == Refused(ServiceRequired) <==> name == "")
            && (response == Refused(AclDenied) <==> name != "" && !Allowed(v.rules, name))
            && (response == Refused(ServiceNotFound) <==> name != "" && Allowed(v.rules, name) && name !in v.local)
            && (response == Refused(BackendUnreachable) <==> served && !dialOk)
            && effects == if served then [Dial(v.self, v.local[name].host, v.local[name].port, dialOk)] else []
  {
  }

  /** The relay handler on the node's own objects; the entry resolved is the local map's own. */
  method HandleStream(reg: Registry, policy: Policy, req: Request, now: Time, dialOk: bool)
    returns (response: Response, effects: seq<Effect>)
    requires Valid(reg.Model())
    modifies reg`remote
    ensures (response, effects) == HandleRelay(View(reg.self, reg.local, policy.Model()), req, dialOk)
    ensures reg.local == old(reg.local)
    ensures var name := TargetName(req);
            var served := name != "" && Allowed(policy.Model(), name) && name in reg.local;
            && (response == OkAt(reg.self) <==> served && dialOk)
            && (response == Refused(ServiceRequired) <==> name == "")
            && (response == Refused(AclDenied) <==> name != "" && !Allowed(policy.Model(), name))
            && (response == Refused(ServiceNotFound) <==>
                  name != "" && Allowed(policy.Model(), name) && name !in reg.local)
            && (response == Refused(BackendUnreachable) <==> served && !dialOk)
            && effects == if served then [Dial(reg.self, reg.local[name].host, reg.local[name].port, dialOk)] else []
  {
    var service := req.service;
    if service == "" {
      service := ServiceNameFromHost(req.host);
    }
    if service == "" {
      return Refused(ServiceRequired), [];
    }
    var allowed := policy.Allow(service);
    if !allowed {
      return Refused(AclDenied), [];
    }
    var host, port, ok := ResolveLocal(reg, service, now);
    if !ok {
      return Refused(ServiceNotFound), [];
    }
    effects := [Dial(reg.self, host, port, dialOk)];
    if !dialOk {
      return Refused(BackendUnreachable), effects;
    }
    return OkAt(reg.self), effects;
  }

  // ---- Failover ----

  /** The far end of a mesh link at the moment it is asked, whether its backend dial succeeds, and whether its
      answer makes it back. */
  datatype Link = Link(view: View, dialOk: bool, acked: bool)

  /** What the environment decides for each attempt: local dials, links, and writes to the client.
      The write of the final failure response is number `|candidates|`. */
  datatype Env = Env(dials: nat -> bool, links: nat -> Option<Link>, writes: nat -> bool)

  predicate PeerOpens(env: Env, i: nat, req: Request) {
    var link := env.links(i);
    link.Some? && HandleRelay(link.value.view, req, link.value.dialOk).0.OkAt? && link.value.acked
  }

  predicate Opens(self: string, cands: seq<Service>, env: Env, req: Request, i: nat)
    requires i < |cands|
  {
    if cands[i].nodeID == self then env.dials(i) else PeerOpens(env, i, req)
  }

  /** What attempt i does before any response is written. */
  function Attempt(self: string, c: Service, env: Env, req: Request, i: nat): seq<Effect> {
    if c.nodeID == self then [Dial(self, c.host, c.port, env.dials(i))]
    else
      match env.links(i)
      case None => []
      case Some(link) => [Hop(self, c.nodeID, req)] + HandleRelay(link.view, req, link.dialOk).1
  }

  /** One turn of the failover loop, with its response when the attempt opened. */
  function Turn(self: string, cands: seq<Service>, env: Env, req: Request, i: nat): seq<Effect>
    requires i < |cands|
  {
    Attempt(self, cands[i], env, req, i) +
    if Opens(self, cands, env, req, i) then [Reply(OkAt(cands[i].nodeID), env.writes(i))] else []
  }

  /** A local candidate whose response cannot be written is passed over; a remote one ends the request. */
  predicate Stops(self: string, cands: seq<Service>, env: Env, req: Request, i: nat)
    requires i < |cands|
  {
    Opens(self, cands, env, req, i) && (env.writes(i) || cands[i].nodeID != self)
  }

  function TurnAt(self: string, cands: seq<Service>, env: Env, req: Request): nat -> seq<Effect> {
    (i: nat) => if i < |cands| then Turn(self, cands, env, req, i) else []
  }

  function StopsAt(self: string, cands: seq<Service>, env: Env, req: Request): nat -> bool {
    (i: nat) => i < |cands| && Stops(self, cands, env, req, i)
  }

  function GiveUp(env: Env, n: nat): seq<Effect> {
    [Reply(Refused(RouteFailed), env.writes(n))]
  }

  /** Trying the candidates in order. */
  function Try(self: string, cands: seq<Service>, env: Env, req: Request): seq<Effect> {
    Loop(TurnAt(self, cands, env, req), StopsAt(self, cands, env, req), GiveUp(env, |cands|), 0, |cands|)
  }

  /** What it takes for a candidate to open: its backend answers the node's dial, or it is linked, holds the service,
      allows it, reaches its backend, and its answer arrives. */
  ghost predicate Able(self: string, c: Service, env: Env, name: string, k: nat) {
    if c.nodeID == self then env.dials(k)
    else
      && env.links(k).Some? && env.links(k).value.acked && env.links(k).value.dialOk
      && name in env.links(k).value.view.local && Allowed(env.links(k).value.view.rules, name)
  }

  /** A candidate opens exactly when it is able to. */
  lemma OpensExactly(self: string, cands: seq<Service>, env: Env, req: Request, k: nat)
    requires k < |cands| && TargetName(req) != ""
    ensures Opens(self, cands, env, req, k) <==> Able(self, cands[k], env, TargetName(req), k)
  {
    if cands[k].nodeID != self && env.links(k).Some? {
      RelayExactly(env.links(k).value.view, req, env.links(k).value.dialOk);
    }
  }

  lemma AttemptIsSilent(self: string, c: Service, env: Env, req: Request, i: nat)
    ensures Replies(Attempt(self, c, env, req, i)) == []
  {
    if c.nodeID != self && env.links(i).Some? {
      JoinReplies([Hop(self, c.nodeID, req)], HandleRelay(env.links(i).value.view, req, env.links(i).value.dialOk).1);
    }
  }

  /** Which candidates open. */
  function Opening(self: string, cands: seq<Service>, env: Env, req: Request): nat -> bool {
    (i: nat) => i < |cands| && Opens(self, cands, env, req, i)
  }

  lemma TurnReplies(self: string, cands: seq<Service>, env: Env, req: Request, i: nat)
    requires i < |cands|
    ensures Replies(Turn(self, cands, env, req, i)) ==
            if Opens(self, cands, env, req, i) then [Reply(OkAt(cands[i].nodeID), env.writes(i))] else []
  {
    var reply := if Opens(self, cands, env, req, i) then [Reply(OkAt(cands[i].nodeID), env.writes(i))] else [];
    AttemptIsSilent(self, cands[i], env, req, i);
    OneReply(Reply(OkAt(cands[i].nodeID), env.writes(i)));
    JoinReplies(Attempt(self, cands[i], env, req, i), reply);
  }

  lemma TurnAnswers(self: string, cands: seq<Service>, env: Env, req: Request, j: nat)
    requires j < |cands|
    ensures AnswersByTurn(TurnAt(self, cands, env, req), StopsAt(self, cands, env, req), self, cands,
                          Opening(self, cands, env, req), env.writes, j)
  {
    TurnReplies(self, cands, env, req, j);
  }

  /** The responses of a request depend only on which candidates open and which writes succeed. */
  lemma RepliesAreAnswers(self: string, cands: seq<Service>, env: Env, req: Request)
    ensures Replies(Try(self, cands, env, req)) == Answers(self, cands, Opening(self, cands, env, req), env.writes, 0)
  {
    var turn, stops, open :=
        TurnAt(self, cands, env, req), StopsAt(self, cands, env, req), Opening(self, cands, env, req);
    forall j: nat | j < |cands| ensures AnswersByTurn(turn, stops, self, cands, open, env.writes, j) {
      TurnAnswers(self, cands, env, req, j);
    }
    LoopAnswers(turn, stops, self, cands, open, env.writes, 0);
  }

  // ---- The whole request ----

  /** The request passed on to peers carries the resolved service name and the client's identity. */
  function RelayRequest(req: Request, client: string): Request {
    req.(service := TargetName(req), client := client)
  }

  function Serve(self: string, rules: Rules, req: Request, client: string, cands: seq<Service>, env: Env): seq<Effect> {
    var name := TargetName(req);
    if name == "" then [Reply(Refused(ServiceRequired), env.writes(0))]
    else if !Allowed(rules, name) then [Reply(Refused(AclDenied), env.writes(0))]
    else if cands == [] then [Reply(Refused(ServiceNotFound), env.writes(0))]
    else Try(self, cands, env, RelayRequest(req, client))
  }

  /** The request is refused before any candidate is tried. */
  predicate Refusal(rules: Rules, req: Request, cands: seq<Service>, reason: Reason) {
    match reason
    case ServiceRequired => TargetName(req) == ""
    case AclDenied => TargetName(req) != "" && !Allowed(rules, TargetName(req))
    case ServiceNotFound => TargetName(req) != "" && Allowed(rules, TargetName(req)) && cands == []
    case _ => false
  }

  /** Refusals, each with its reason. */
  lemma ServeRefuses(self: string, rules: Rules, req: Request, client: string, cands: seq<Service>, env: Env)
    ensures var name, effects := TargetName(req), Serve(self, rules, req, client, cands, env);
            && (name == "" ==> effects == [Reply(Refused(ServiceRequired), env.writes(0))])
            && (name != "" && !Allowed(rules, name) ==> effects == [Reply(Refused(AclDenied), env.writes(0))])
            && (name != "" && Allowed(rules, name) && cands == [] ==>
                  effects == [Reply(Refused(ServiceNotFound), env.writes(0))])
  {
  }

  predicate Tried(rules: Rules, req: Request, cands: seq<Service>) {
    TargetName(req) != "" && Allowed(rules, TargetName(req)) && cands != []
  }

  /** A refused request gets one response; any other one gets those of the failover. */
  lemma ServeReplies(self: string, rules: Rules, req: Request, client: string, cands: seq<Service>, env: Env)
    ensures var replies := Replies(Serve(self, rules, req, client, cands, env));
            if Tried(rules, req, cands)
            then replies == Answers(self, cands, Opening(self, cands, env, RelayRequest(req, client)), env.writes, 0)
            else exists reason ::
                   Refusal(rules, req, cands, reason) && replies == [Reply(Refused(reason), env.writes(0))]
  {
    if Tried(rules, req, cands) {
      RepliesAreAnswers(self, cands, env, RelayRequest(req, client));
    } else {
      var reason := if TargetName(req) == "" then ServiceRequired
                    else if !Allowed(rules, TargetName(req)) then AclDenied
                    else ServiceNotFound;
      assert Refusal(rules, req, cands, reason);
      OneReply(Reply(Refused(reason), env.writes(0)));
    }
  }

  /** AT MOST ONE ANSWER. For every request and every outcome of dials, links and writes, at most one response reaches
      the client. */
  lemma AtMostOneLands(self: string, rules: Rules, req: Request, client: string, cands: seq<Service>, env: Env)
    ensures LandsOnce(Replies(Serve(self, rules, req, client, cands, env)))
  {
    ServeReplies(self, rules, req, client, cands, env);
    AnswersLandOnce(self, cands, Opening(self, cands, env, RelayRequest(req, client)), env.writes, 0);
  }

  /** The one response a request deserves when writes succeed. */
  ghost predicate Deserved(self: string, rules: Rules, req: Request, client: string, cands: seq<Service>, env: Env,
                           response: Response) {
    var open := Opening(self, cands, env, RelayRequest(req, client));
    match response
    case OkAt(node) => Tried(rules, req, cands) && exists k: nat ::
                                                     k < |cands| && FirstOpen(open, 0, k) && node == cands[k].nodeID
    case Refused(reason) =>
      Refusal(rules, req, cands, reason)
          || (reason == RouteFailed && Tried(rules, req, cands) && NoneOpens(open, 0, |cands|))
  }

  /** FIRST OPEN WINS. When writes succeed exactly one response is sent: the reason of a refusal, the first candidate in
      order that opens, or ROUTE_FAILED when none of a non-empty list does. */
  lemma FirstOpenAnswers(self: string, rules: Rules, req: Request, client: string, cands: seq<Service>, env: Env)
    requires forall j: nat :: env.writes(j)
    ensures exists response :: Deserved(self, rules, req, client, cands, env, response)
              && Replies(Serve(self, rules, req, client, cands, env)) == [Reply(response, true)]
  {
    var open := Opening(self, cands, env, RelayRequest(req, client));
    ServeReplies(self, rules, req, client, cands, env);
    if !Tried(rules, req, cands) {
      var reason :| Refusal(rules, req, cands, reason)
                    && Replies(Serve(self, rules, req, client, cands, env)) == [Reply(Refused(reason), env.writes(0))];
      assert Deserved(self, rules, req, client, cands, env, Refused(reason));
    } else {
      FirstOpenOrNone(open, 0, |cands|);
      if NoneOpens(open, 0, |cands|) {
        NoAnswer(self, cands, open, env.writes, 0);
        assert Deserved(self, rules, req, client, cands, env, Refused(RouteFailed));
      } else {
        var k: nat :| k < |cands| && FirstOpen(open, 0, k);
        FirstAnswer(self, cands, open, env.writes, 0, k);
        assert Deserved(self, rules, req, client, cands, env, OkAt(cands[k].nodeID));
      }
    }
  }

  /** SERVED WHEN POSSIBLE. An allowed request with a candidate that is able to serve it is answered OK. */
  lemma ServedIfAnyoneCan(self: string, rules: Rules, req: Request, client: string, cands: seq<Service>, env: Env,
                          k: nat)
    requires forall j: nat :: env.writes(j)
    requires TargetName(req) != "" && Allowed(rules, TargetName(req))
    requires k < |cands| && Able(self, cands[k], env, TargetName(req), k)
    ensures exists node :: Replies(Serve(self, rules, req, client, cands, env)) == [Reply(OkAt(node), true)]
  {
    FirstOpenAnswers(self, rules, req, client, cands, env);
    RelayKeepsName(req, client);
    OpensExactly(self, cands, env, RelayRequest(req, client), k);
    assert Opening(self, cands, env, RelayRequest(req, client))(k);
  }

  lemma NoFailureInRefusal(reason: Reason, landed: bool)
    requires reason != RouteFailed
    ensures !FailureSent([Reply(Refused(reason), landed)])
  {
  }

  /** With failing writes too: ROUTE_FAILED is attempted exactly when there are candidates for an allowed request and
      all of them are passed over. */
  lemma RouteFailedExactly(self: string, rules: Rules, req: Request, client: string, cands: seq<Service>, env: Env)
    ensures FailureSent(Replies(Serve(self, rules, req, client, cands, env))) <==>
            Tried(rules, req, cands)
                && AllPassedOver(self, cands, Opening(self, cands, env, RelayRequest(req, client)), env.writes, 0)
  {
    ServeReplies(self, rules, req, client, cands, env);
    FailureExactly(self, cands, Opening(self, cands, env, RelayRequest(req, client)), env.writes, 0);
    if !Tried(rules, req, cands) {
      var reason :| Refusal(rules, req, cands, reason)
                    && Replies(Serve(self, rules, req, client, cands, env)) == [Reply(Refused(reason), env.writes(0))];
      NoFailureInRefusal(reason, env.writes(0));
    }
  }

  // ---- The client-facing handler ----

  /** The other nodes among the instances, in order of first appearance. */
  function OtherIDs(services: seq<Service>, self: string): seq<string> {
    if services == [] then []
    else
      var n := |services| - 1;
      var rest, id := OtherIDs(services[..n], self), services[n].nodeID;
      if id == self || id == "" || id in rest then rest else rest + [id]
  }

  lemma {:induction false} OtherIDsExactly(services: seq<Service>, self: string)
    ensures Distinct(OtherIDs(services, self))
    ensures Elems(OtherIDs(services, self)) == (set s | s in Elems(services) :: s.nodeID) - {self, ""}
  {
    if services != [] {
      var n := |services| - 1;
      OtherIDsExactly(services[..n], self);
      assert services == services[..n] + [services[n]];
      ElemsAppend(services[..n], services[n]);
      ElemsAppend(OtherIDs(services[..n], self), services[n].nodeID);
    }
  }

  method OtherNodes(services: seq<Service>, self: string) returns (ids: seq<string>)
    ensures ids == OtherIDs(services, self)
  {
    ids := [];
    var seen: set<string> := {};
    for i := 0 to |services|
      invariant ids == OtherIDs(services[..i], self) && seen == Elems(ids)
    {
      assert services[..i + 1][..i] == services[..i];
      var id := services[i].nodeID;
      if id == self || id == "" {
        continue;
      }
      if id in seen {
        continue;
      }
      ElemsAppend(ids, id);
      seen, ids := seen + {id}, ids + [id];
    }
    assert services[..|services|] == services;
  }

  /** The loads that order the candidates: asked for only when another node serves the name. */
  function LoadsFor(found: seq<Service>, self: string, loadsOf: seq<string> -> map<string, NodeLoad>)
    : map<string, NodeLoad>
  {
    var ids := OtherIDs(found, self);
    if ids == [] then map[] else loadsOf(ids)
  }

  /** The loads of exactly the other nodes found are asked for, once each, and of none when there are none. */
  lemma LoadsForExactly(found: seq<Service>, self: string, loadsOf: seq<string> -> map<string, NodeLoad>)
    ensures exists ids: seq<string> ::
              && Distinct(ids) && Elems(ids) == (set s | s in Elems(found) :: s.nodeID) - {self, ""}
              && LoadsFor(found, self, loadsOf) == if ids == [] then map[] else loadsOf(ids)
  {
    OtherIDsExactly(found, self);
  }

  /** Where services are looked up: at peers too when the registry knows none, or in the registry alone. */
  datatype Finder =
    | PeerFinder(members: seq<Resolver.Member>, connected: seq<string>, ask: (nat, Resolver.Member) -> Resolver.Reply)
    | RegistryFinder

  /** When the registry st knows no live instance and answers have the shape registries give, the peers were asked in
      order and `found` is what the first helpful one offers. */
  ghost predicate PeersAsked(st: State, finder: Finder, name: string, now: Time, ids: set<string>,
                             found: seq<Service>) {
    finder.PeerFinder? && IsFound(st, name, now, []) && Resolver.SoundAnswers(st, finder.ask, ids) ==>
      exists order, stop :: Resolver.IsPeerOrder(finder.members, st.self, Elems(finder.connected), order)
                            && Resolver.FirstHelp(order, finder.ask, name, st.self, found, stop)
  }

  /** The result is a lookup in the registry as it then was (`looked`, at `at`); the node's own services are as
      before. */
  method FindServices(reg: Registry, finder: Finder, name: string, now: Time, ghost ids: set<string>)
    returns (found: seq<Service>, ghost looked: State, ghost at: Time)
    requires Valid(reg.Model())
    modifies reg
    ensures Valid(looked) && looked.self == reg.self && looked.local == old(reg.local)
    ensures IsFound(looked, name, at, found) && reg.Model() == Pruned(looked, at)
    ensures finder.RegistryFinder? || !IsFound(old(reg.Model()), name, now, []) ==>
            looked == old(reg.Model()) && at == now
    ensures PeersAsked(old(reg.Model()), finder, name, now, ids, found)
  {
    match finder {
      case PeerFinder(members, connected, ask) =>
        var order, stop;
        found, order, stop, looked, at := Resolver.FindByName(reg, name, members, connected, ask, now, ids);
      case RegistryFinder =>
        looked, at := reg.Model(), now;
        found := reg.FindByName(name, now);
    }
  }

  /** What a handled request did: a refusal, or failover over the candidates of a lookup made in state st at instant
      `at`. */
  ghost predicate Handled(st: State, at: Time, rules: Rules, req: Request, client: string, meshPeers: seq<string>,
                          loadsOf: seq<string> -> map<string, NodeLoad>, env: Env,
                          found: seq<Service>, cands: seq<Service>, effects: seq<Effect>) {
    && effects == Serve(st.self, rules, req, client, cands, env)
    && if TargetName(req) != "" && Allowed(rules, TargetName(req))
       then IsFound(st, TargetName(req), at, found)
            && IsCandidates(found, st.self, Elems(meshPeers), LoadsFor(found, st.self, loadsOf), cands)
       else found == [] && cands == []
  }

  /** The client-facing handler: policy, lookup, loads, ordering, then the failover loop. `meshPeers` is the peer list
      read for the ordering; the finder has its own, read later. */
  method HandleClient(reg: Registry, policy: Policy, req: Request, client: string, finder: Finder,
                      meshPeers: seq<string>,
                      loadsOf: seq<string> -> map<string, NodeLoad>, now: Time, env: Env, ghost ids: set<string>)
    returns (found: seq<Service>, cands: seq<Service>, effects: seq<Effect>, ghost looked: State, ghost at: Time)
    requires Valid(reg.Model())
    modifies reg
    ensures Valid(looked) && looked.self == reg.self && looked.local == old(reg.local)
    ensures finder.RegistryFinder? || !IsFound(old(reg.Model()), TargetName(req), now, []) ==>
            looked == old(reg.Model()) && at == now
    ensures Handled(looked, at, policy.Model(), req, client, meshPeers, loadsOf, env, found, cands, effects)
    ensures TargetName(req) != "" && Allowed(policy.Model(), TargetName(req)) ==>
              PeersAsked(old(reg.Model()), finder, TargetName(req), now, ids, found)
  {
    found, cands := [], [];
    looked, at := reg.Model(), now;
    var service := req.service;
    if service == "" {
      service := ServiceNameFromHost(req.host);
    }
    if service == "" {
      effects := [Reply(Refused(ServiceRequired), env.writes(0))];
      return;
    }
    var allowed := policy.Allow(service);
    if !allowed {
      effects := [Reply(Refused(AclDenied), env.writes(0))];
      return;
    }
    found, looked, at := FindServices(reg, finder, service, now, ids);
    var others := OtherNodes(found, reg.self);
    var loads := map[];
    if |others| > 0 {
      loads := loadsOf(others);
    }
    cands := Candidates(found, reg.self, meshPeers, loads);
    if |cands| == 0 {
      effects := [Reply(Refused(ServiceNotFound), env.writes(0))];
      return;
    }
    effects := FailOver(reg.self, cands, env, Request(service, req.host, req.port, client));
  }

  /** Dials the local backend and answers the client; false sends the loop on to the next candidate. */
  method TryRelayLocal(self: string, target: Service, dialOk: bool, writeOk: bool)
      returns (done: bool, effects: seq<Effect>)
    ensures done <==> dialOk && writeOk
    ensures effects == [Dial(self, target.host, target.port, dialOk)] +
                       if dialOk then [Reply(OkAt(self), writeOk)] else []
  {
    effects := [Dial(self, target.host, target.port, dialOk)];
    if !dialOk {
      return false, effects;
    }
    effects := effects + [Reply(OkAt(self), writeOk)];
    return writeOk, effects;
  }

  /** Asks a peer to relay; opened only when the peer answered OK and the answer arrived. */
  method OpenRelay(self: string, target: Service, link: Option<Link>, req: Request)
      returns (ready: bool, effects: seq<Effect>)
    ensures ready <==> link.Some? && HandleRelay(link.value.view, req, link.value.dialOk).0.OkAt? && link.value.acked
    ensures effects == if link.None? then []
            else [Hop(self, target.nodeID, req)] + HandleRelay(link.value.view, req, link.value.dialOk).1
  {
    if link.None? {
      return false, [];
    }
    var (response, remote) := HandleRelay(link.value.view, req, link.value.dialOk);
    effects := [Hop(self, target.nodeID, req)] + remote;
    ready := link.value.acked && response.OkAt?;
  }

  /** One pass through the body of the failover loop. */
  method TryOne(self: string, cands: seq<Service>, env: Env, req: Request, i: nat)
      returns (done: bool, effects: seq<Effect>)
    requires i < |cands|
    ensures done <==> Stops(self, cands, env, req, i)
    ensures effects == Turn(self, cands, env, req, i)
  {
    var target := cands[i];
    if target.nodeID == self {
      done, effects := TryRelayLocal(self, target, env.dials(i), env.writes(i));
      return;
    }
    done, effects := OpenRelay(self, target, env.links(i), req);
    if !done {
      return;
    }
    effects := effects + [Reply(OkAt(target.nodeID), env.writes(i))];
  }

  /** The failover loop. */
  method FailOver(self: string, cands: seq<Service>, env: Env, req: Request) returns (effects: seq<Effect>)
    ensures effects == Try(self, cands, env, req)
  {
    effects := [];
    ghost var turn, stops := TurnAt(self, cands, env, req), StopsAt(self, cands, env, req);
    for i := 0 to |cands|
      invariant Leads(effects, turn, stops, GiveUp(env, |cands|), i, |cands|)
    {
      LeadsOn(effects, turn, stops, GiveUp(env, |cands|), i, |cands|);
      var done, more := TryOne(self, cands, env, req, i);
      effects := effects + more;
      if done {
        return;
      }
    }
    effects := effects + [Reply(Refused(RouteFailed), env.writes(|cands|))];
  }

  // ---- What an OK answer means ----

  /** Every candidate is a live instance of the name in the entry node's registry. */
  ghost predicate FromLookup(st: State, name: string, now: Time, cands: seq<Service>) {
    forall i | 0 <= i < |cands| :: cands[i] in Live(st, now) && cands[i].name == name
  }

  /** The far end of a link is the node the link is registered for. */
  ghost predicate TrueLinks(cands: seq<Service>, env: Env) {
    forall i | 0 <= i < |cands| && env.links(i).Some? :: env.links(i).value.view.self == cands[i].nodeID
  }

  /** Every effect of a request but the final failure belongs to a turn, all of whose effects are there too. */
  lemma EffectOfTurn(self: string, cands: seq<Service>, env: Env, req: Request, e: Effect) returns (k: nat)
    requires e in Try(self, cands, env, req) && e !in GiveUp(env, |cands|)
    ensures k < |cands| && e in Turn(self, cands, env, req, k)
    ensures Within(Turn(self, cands, env, req, k), Try(self, cands, env, req))
  {
    var turn, stops, last := TurnAt(self, cands, env, req), StopsAt(self, cands, env, req), GiveUp(env, |cands|);
    EffectHasTurn(turn, stops, last, 0, |cands|, e);
    k :| k < |cands| && e in turn(k) && Within(turn(k), Loop(turn, stops, last, 0, |cands|));
  }

  lemma OkOfTurn(self: string, cands: seq<Service>, env: Env, req: Request, k: nat, r: string, landed: bool)
    requires k < |cands| && Reply(OkAt(r), landed) in Turn(self, cands, env, req, k)
    ensures cands[k].nodeID == r && Opens(self, cands, env, req, k)
    ensures Within(Attempt(self, cands[k], env, req, k), Turn(self, cands, env, req, k))
  {
    NoReplyInAttempt(self, cands[k], env, req, k, Reply(OkAt(r), landed));
  }

  /** An OK in the effects comes from an attempt that opened, whose own effects are there too. */
  lemma OkComesFromAttempt(self: string, cands: seq<Service>, env: Env, req: Request, r: string, landed: bool)
      returns (k: nat)
    requires Reply(OkAt(r), landed) in Try(self, cands, env, req)
    ensures k < |cands| && cands[k].nodeID == r && Opens(self, cands, env, req, k)
    ensures Within(Attempt(self, cands[k], env, req, k), Try(self, cands, env, req))
  {
    k := EffectOfTurn(self, cands, env, req, Reply(OkAt(r), landed));
    OkOfTurn(self, cands, env, req, k, r, landed);
  }

  lemma NoReplyInAttempt(self: string, c: Service, env: Env, req: Request, i: nat, e: Effect)
    requires e.Reply?
    ensures e !in Attempt(self, c, env, req, i)
  {
  }

  /** The node has the service in its own map, its rules allow it, and it reached the backend of that entry. */
  ghost predicate OwnerServes(v: View, name: string, effects: seq<Effect>) {
    && name in v.local && Allowed(v.rules, name)
    && Dial(v.self, v.local[name].host, v.local[name].port, true) in effects
  }

  /** Node r answers for the service: it is the entry node, or it was asked over one hop; it has the service in its
      own local map, its rules allow it, and the backend reached was that entry's. */
  ghost predicate Earned(v: View, name: string, cands: seq<Service>, env: Env, effects: seq<Effect>, r: string) {
    && name != "" && Allowed(v.rules, name)
    && if r == v.self then OwnerServes(v, name, effects)
       else
         && (exists q :: Hop(v.self, r, q) in effects)
         && exists k: nat :: k < |cands| && ServedBy(env.links(k), r, name, effects)
  }

  ghost predicate ServedBy(link: Option<Link>, r: string, name: string, effects: seq<Effect>) {
    link.Some? && link.value.view.self == r && OwnerServes(link.value.view, name, effects)
  }

  lemma OwnInstanceIsLocal(st: State, now: Time, s: Service)
    requires Valid(st) && s in Live(st, now) && s.nodeID == st.self
    ensures s.name in st.local && s == st.local[s.name]
  {
  }

  /** A local attempt that opened reached the node's own entry. */
  lemma LocalServes(st: State, rules: Rules, now: Time, cands: seq<Service>, env: Env, req: Request, k: nat,
                    effects: seq<Effect>)
    requires Valid(st) && FromLookup(st, TargetName(req), now, cands) && Allowed(rules, TargetName(req))
    requires k < |cands| && cands[k].nodeID == st.self && Opens(st.self, cands, env, req, k)
    requires Within(Attempt(st.self, cands[k], env, req, k), effects)
    ensures OwnerServes(View(st.self, st.local, rules), TargetName(req), effects)
  {
    OwnInstanceIsLocal(st, now, cands[k]);
    var own := Attempt(st.self, cands[k], env, req, k);
    assert own[0] in own;
  }

  /** A relay that opened crossed one hop and reached the far end's own entry. */
  lemma PeerServes(self: string, cands: seq<Service>, env: Env, req: Request, k: nat, effects: seq<Effect>)
    requires TrueLinks(cands, env)
    requires k < |cands| && cands[k].nodeID != self && Opens(self, cands, env, req, k)
    requires Within(Attempt(self, cands[k], env, req, k), effects)
    ensures Hop(self, cands[k].nodeID, req) in effects
            && ServedBy(env.links(k), cands[k].nodeID, TargetName(req), effects)
  {
    var own := Attempt(self, cands[k], env, req, k);
    assert own[0] in own && own[1] in own;
  }

  lemma OkEarned(st: State, rules: Rules, now: Time, cands: seq<Service>, env: Env, req: Request, r: string,
                 landed: bool)
    requires Valid(st) && FromLookup(st, TargetName(req), now, cands) && TrueLinks(cands, env)
    requires TargetName(req) != "" && Allowed(rules, TargetName(req))
    requires Reply(OkAt(r), landed) in Try(st.self, cands, env, req)
    ensures Earned(View(st.self, st.local, rules), TargetName(req), cands, env, Try(st.self, cands, env, req), r)
  {
    var effects := Try(st.self, cands, env, req);
    var k := OkComesFromAttempt(st.self, cands, env, req, r, landed);
    if r == st.self {
      LocalServes(st, rules, now, cands, env, req, k, effects);
    } else {
      PeerServes(st.self, cands, env, req, k, effects);
    }
  }

  lemma RelayKeepsName(req: Request, client: string)
    ensures TargetName(req) != "" ==> TargetName(RelayRequest(req, client)) == TargetName(req)
  {
  }

  /** The candidates of a handled request are live instances of the name. */
  lemma HandledFromLookup(st: State, at: Time, rules: Rules, req: Request, client: string, meshPeers: seq<string>,
                          loadsOf: seq<string> -> map<string, NodeLoad>, env: Env,
                          found: seq<Service>, cands: seq<Service>, effects: seq<Effect>)
    requires Valid(st) && Handled(st, at, rules, req, client, meshPeers, loadsOf, env, found, cands, effects)
    ensures FromLookup(st, TargetName(req), at, cands)
    ensures cands != [] ==> TargetName(req) != "" && Allowed(rules, TargetName(req))
                            && effects == Try(st.self, cands, env, RelayRequest(req, client))
    ensures cands == [] ==> exists reason :: effects == [Reply(Refused(reason), env.writes(0))]
  {
    if TargetName(req) != "" && Allowed(rules, TargetName(req)) {
      CandidatesFromLookup(st, TargetName(req), at, found, Elems(meshPeers), LoadsFor(found, st.self, loadsOf), cands);
    }
  }

  /** AN OK IS EARNED. If a handled request is answered OK by node r, the entry node's policy allowed the service, and
      r itself had the service in its own local map, r's policy allowed it too, and the backend dialled was
      the host and port of r's local entry, never a cached remote copy. A remote r was asked over one hop. */
  lemma OkMeansServedByOwner(st: State, at: Time, rules: Rules, req: Request, client: string, meshPeers: seq<string>,
                             loadsOf: seq<string> -> map<string, NodeLoad>, env: Env,
                             found: seq<Service>, cands: seq<Service>, effects: seq<Effect>, r: string, landed: bool)
    requires Valid(st) && Handled(st, at, rules, req, client, meshPeers, loadsOf, env, found, cands, effects)
    requires TrueLinks(cands, env) && Reply(OkAt(r), landed) in effects
    ensures Earned(View(st.self, st.local, rules), TargetName(req), cands, env, effects, r)
  {
    HandledFromLookup(st, at, rules, req, client, meshPeers, loadsOf, env, found, cands, effects);
    RelayKeepsName(req, client);
    OkEarned(st, rules, at, cands, env, RelayRequest(req, client), r, landed);
  }

  // ---- One hop ----

  /** The dial goes to the backend of the dialling node's own entry. */
  ghost predicate OwnEntry(v: View, name: string, e: Effect) {
    e.Dial? && e.node == v.self && name in v.local && e.host == v.local[name].host && e.port == v.local[name].port
  }

  /** A hop leaves the entry node for another one; a dial goes to an own entry, of the entry node or of a link's far
      end. */
  ghost predicate OneHop(self: View, cands: seq<Service>, env: Env, name: string, sent: Request, e: Effect) {
    && (e.Hop? ==> e.src == self.self && e.dst != self.self && e.request == sent)
    && (e.Dial? ==>
          || OwnEntry(self, name, e)
          || exists k: nat :: k < |cands| && env.links(k).Some? && OwnEntry(env.links(k).value.view, name, e))
  }

  lemma TurnOneHop(st: State, rules: Rules, now: Time, cands: seq<Service>, env: Env, req: Request, i: nat, e: Effect)
    requires Valid(st) && FromLookup(st, TargetName(req), now, cands)
    requires i < |cands| && e in Turn(st.self, cands, env, req, i)
    ensures OneHop(View(st.self, st.local, rules), cands, env, TargetName(req), req, e)
  {
    if !e.Reply? {
      assert e in Attempt(st.self, cands[i], env, req, i);
      if cands[i].nodeID == st.self {
        OwnInstanceIsLocal(st, now, cands[i]);
        assert OwnEntry(View(st.self, st.local, rules), TargetName(req), e);
      } else {
        assert e.Hop? || OwnEntry(env.links(i).value.view, TargetName(req), e);
      }
    }
  }

  /** ONE HOP. Every mesh hop of a handled request starts at its entry node and ends elsewhere, so relays cannot chain
      or loop; it carries the resolved name, the host and port asked for and the client's identity; and every backend
      dialled is the dialling node's own entry for the service. */
  lemma HopsStartAtEntry(st: State, at: Time, rules: Rules, req: Request, client: string, meshPeers: seq<string>,
                         loadsOf: seq<string> -> map<string, NodeLoad>, env: Env,
                         found: seq<Service>, cands: seq<Service>, effects: seq<Effect>, e: Effect)
    requires Valid(st) && Handled(st, at, rules, req, client, meshPeers, loadsOf, env, found, cands, effects)
             && e in effects
    ensures var name := TargetName(req);
            OneHop(View(st.self, st.local, rules), cands, env, name, Request(name, req.host, req.port, client), e)
  {
    HandledFromLookup(st, at, rules, req, client, meshPeers, loadsOf, env, found, cands, effects);
    RelayKeepsName(req, client);
    if cands != [] && !e.Reply? {
      var k := EffectOfTurn(st.self, cands, env, RelayRequest(req, client), e);
      TurnOneHop(st, rules, at, cands, env, RelayRequest(req, client), k, e);
    }
  }

  /** The candidates computed from a lookup are instances of it. */
  lemma CandidatesFromLookup(st: State, name: string, now: Time, found: seq<Service>, peers: set<string>,
                             loads: map<string, NodeLoad>, cands: seq<Service>)
    requires IsFound(st, name, now, found) && IsCandidates(found, st.self, peers, loads, cands)
    ensures FromLookup(st, name, now, cands)
  {
    forall i | 0 <= i < |cands| ensures cands[i] in Live(st, now) && cands[i].name == name {
      assert cands[i] in multiset(cands);
      assert cands[i] in multiset(found);
      assert cands[i] in Elems(found);
    }
  }

  /** DETERMINED. What a handled request did depends only on the registry as it was looked up, the set of connected
      peers, the loads reported, the rules and the outcomes: not on map order, peer order or sorting. */
  lemma HandledDetermined(st: State, at: Time, rules: Rules, req: Request, client: string, peers1: seq<string>,
                          peers2: seq<string>,
                          loadsOf: seq<string> -> map<string, NodeLoad>, env: Env,
                          found1: seq<Service>, cands1: seq<Service>, effects1: seq<Effect>,
                          found2: seq<Service>, cands2: seq<Service>, effects2: seq<Effect>)
    requires Valid(st) && Elems(peers1) == Elems(peers2)
    requires Handled(st, at, rules, req, client, peers1, loadsOf, env, found1, cands1, effects1)
    requires Handled(st, at, rules, req, client, peers2, loadsOf, env, found2, cands2, effects2)
    ensures found1 == found2 && cands1 == cands2 && effects1 == effects2
  {
    if TargetName(req) != "" && Allowed(rules, TargetName(req)) {
      FoundUnique(st, TargetName(req), at, found1, found2);
      CandidatesDetermined(st, TargetName(req), at, found1, found2, peers1, peers2,
          LoadsFor(found1, st.self, loadsOf), cands1, cands2);
    }
  }
}
