/** The registry as the node runs it: maps updated in place, loops over them in arbitrary order.
    Every method is proved against the functions of RegistryModel. */
module RegistryClass {
  import opened Text
  import opened Sorting
  import opened RegistryModel
  import opened RegistryRuns

  function Named(name: string): Service -> bool {
    (s: Service) => s.name == name
  }

  /** The unexpired entries among those a loop over the table has already visited. */
  ghost function Visited(table: map<string, Service>, todo: set<string>, now: Time): set<Service> {
    set k | k in table && k !in todo && !Expired(table[k], now) :: table[k]
  }

  lemma VisitOne(table: map<string, Service>, todo: set<string>, key: string, now: Time)
    requires WellKeyed(table) && key in table && key in todo
    ensures table[key] !in Visited(table, todo, now)
    ensures Visited(table, todo - {key}, now) ==
            Visited(table, todo, now) + (if Expired(table[key], now) then {} else {table[key]})
  {
  }

  /** The table while a loop deletes expired entries: unvisited ones are all still there. */
  ghost function Remaining(table: map<string, Service>, todo: set<string>, now: Time): map<string, Service> {
    map k | k in table && (k in todo || !Expired(table[k], now)) :: table[k]
  }

  lemma RemainOne(table: map<string, Service>, todo: set<string>, key: string, now: Time)
    requires key in table && key in todo
    ensures var r := Remaining(table, todo, now);
            && key in r && r[key] == table[key]
            && Remaining(table, todo - {key}, now) == if Expired(table[key], now) then r - {key} else r
  {
  }

  class Registry {
    const self: string
    var local: map<string, Service>
    var remote: map<string, Service>
    var version: map<string, nat>

    ghost function Model(): State
      reads this
    {
      State(self, local, remote, version)
    }

    constructor (nodeID: string)
      ensures Model() == New(nodeID)
    {
      self := nodeID;
      local, remote, version := map[], map[], map[];
    }

    method RegisterLocal(name: string, host: string, port: nat, labels: map<string, string>, now: Time)
        returns (svc: Service)
      modifies this
      ensures Model() == Register(old(Model()), name, host, port, labels, now)
      ensures svc == NewEntry(old(Model()), name, host, port, labels, now)
      ensures svc.name == name && svc.host == host && svc.port == port && svc.labels == labels && svc.announced == now
      ensures svc.nodeID == self && svc.ttlSec == 90
      ensures svc.version == ((if name in old(version) then old(version)[name] else 0) + 1) % 0x1_0000_0000_0000_0000
      ensures svc.serviceID == self + "/" + name + "#" + Decimal(svc.version)
      ensures local == old(local)[name := svc] && version == old(version)[name := svc.version] && remote == old(remote)
    {
      var v := ((if name in version then version[name] else 0) + 1) % TWO_64;
      version := version[name := v];
      svc := Service(ServiceID(self, name, v), self, name, host, port, labels, v, DEFAULT_TTL_SEC, now);
      local := local[name := svc];
    }

    method DeregisterLocal(name: string, now: Time) returns (tombstone: Option<Service>)
      modifies this
      ensures Model() == Deregister(old(Model()), name)
      ensures tombstone == if name in old(local) then Some(Tombstone(old(Model()), name, now)) else None
      ensures tombstone.Some? <==> name in old(local)
      ensures tombstone.None? ==> local == old(local) && version == old(version)
      ensures tombstone.Some? ==>
                var t := tombstone.value;
                && t.nodeID == self && t.name == name && t.ttlSec == 0 && t.announced == now
                && t.version == ((if name in old(version) then old(version)[name] else 0) + 1) % 0x1_0000_0000_0000_0000
                && t.serviceID == self + "/" + name + "#" + Decimal(t.version)
                && local == old(local) - {name} && version == old(version)[name := t.version]
      ensures remote == old(remote)
    {
      if name !in local {
        return None;
      }
      local := local - {name};
      var v := ((if name in version then version[name] else 0) + 1) % TWO_64;
      version := version[name := v];
      tombstone := Some(Service(ServiceID(self, name, v), self, name, "", 0, map[], v, 0, now));
    }

    method CollectLocal() returns (services: seq<Service>)
      requires Valid(Model())
      ensures Distinct(services) && Elems(services) == local.Values
    {
      services := [];
      var todo := local.Keys;
      while todo != {}
        invariant todo <= local.Keys
        invariant Distinct(services)
        invariant Elems(services) == set x | x in local && x !in todo :: local[x]
      {
        var x :| x in todo;
        assert local[x] !in Elems(services);
        ElemsAppend(services, local[x]);
        services, todo := services + [local[x]], todo - {x};
      }
    }

    method LocalNames() returns (names: seq<string>)
      ensures StrictlySorted(Less, names) && Elems(names) == local.Keys
    {
      var todo, unsorted := local.Keys, [];
      while todo != {}
        invariant todo <= local.Keys
        invariant Distinct(unsorted) && Elems(unsorted) == local.Keys - todo
      {
        var x :| x in todo;
        ElemsAppend(unsorted, x);
        unsorted, todo := unsorted + [x], todo - {x};
      }
      LessIsStrictTotal();
      names := Sort(unsorted, Less);
      PermutationFacts(unsorted, names);
      SortedDistinctIsStrict(Less, names);
    }

    method LocalSnapshot() returns (s: LocalState)
      requires Valid(Model())
      ensures IsSnapshot(Model(), s)
    {
      var services := CollectLocal();
      ByNameOrder();
      var sorted := Sort(services, ByName);
      PermutationFacts(services, sorted);
      forall i | 0 <= i < |sorted| ensures sorted[i] in local.Values {
        assert sorted[i] in Elems(sorted);
      }
      SortedDistinctIsStrict(ByName, sorted);
      s := LocalState(self, sorted);
    }

    method MergeRemoteState(data: Option<LocalState>, now: Time) returns (ok: bool)
      modifies this
      ensures ok <==> data.Some?
      ensures Model() == if ok then Merge(old(Model()), data.value, now) else old(Model())
    {
      if data.None? {
        return false;
      }
      ok := true;
      var owner, services := data.value.nodeID, data.value.services;
      if owner == "" || owner == self {
        return;
      }
      var active := {};
      for i := 0 to |services|
        invariant local == old(local) && version == old(version)
        invariant (remote, active) == InsertAll(old(remote), owner, services[..i], now)
      {
        assert services[..i + 1][..i] == services[..i];
        var svc := services[i];
        var key := RemoteKey(owner, svc.name);
        if svc.ttlSec == 0 {
          remote := remote - {key};
          continue;
        }
        svc := Stamp(svc, owner, now);
        if key in remote && !Newer(svc, remote[key]) {
          continue;
        }
        remote := remote[key := svc];
        active := active + {key};
      }
      assert services[..|services|] == services;
      DropInactive(owner, active);
    }

    method DropInactive(owner: string, active: set<string>)
      modifies this`remote
      ensures remote == Sweep(old(remote), owner, active)
    {
      var todo := remote.Keys;
      while todo != {}
        invariant todo <= old(remote).Keys
        invariant remote == map k | k in old(remote)
                  && (k in todo || old(remote)[k].nodeID != owner || k in active) :: old(remote)[k]
      {
        var key :| key in todo;
        todo := todo - {key};
        if remote[key].nodeID != owner {
          continue;
        }
        if key !in active {
          remote := remote - {key};
        }
      }
    }

    method Prune(now: Time) returns (removed: nat)
      modifies this`remote
      ensures Model() == Pruned(old(Model()), now)
      ensures removed == |old(remote)| - |remote|
      ensures forall k :: k in remote <==> k in old(remote) && !Expired(old(remote)[k], now)
      ensures forall k | k in remote :: remote[k] == old(remote)[k]
    {
      var todo := remote.Keys;
      removed := 0;
      while todo != {}
        invariant todo <= old(remote).Keys
        invariant remote == Remaining(old(remote), todo, now)
        invariant removed == |old(remote).Keys| - |remote.Keys|
      {
        var key :| key in todo;
        RemainOne(old(remote), todo, key, now);
        todo := todo - {key};
        if Expired(remote[key], now) {
          assert (remote - {key}).Keys == remote.Keys - {key};
          remote := remote - {key};
          removed := removed + 1;
        }
      }
    }

    method CollectRemote(now: Time, own: seq<Service>) returns (out: seq<Service>)
      requires Valid(Model()) && Distinct(own) && Elems(own) == local.Values
      modifies this`remote
      ensures Model() == Pruned(old(Model()), now)
      ensures Distinct(out) && Elems(out) == Live(old(Model()), now)
    {
      out := own;
      var todo := remote.Keys;
      while todo != {}
        invariant todo <= old(remote).Keys
        invariant remote == Remaining(old(remote), todo, now)
        invariant Distinct(out)
        invariant Elems(out) == local.Values + Visited(old(remote), todo, now)
      {
        var key :| key in todo;
        VisitOne(old(remote), todo, key, now);
        RemainOne(old(remote), todo, key, now);
        todo := todo - {key};
        if Expired(remote[key], now) {
          remote := remote - {key};
          continue;
        }
        assert remote[key] !in local.Values;
        ElemsAppend(out, remote[key]);
        out := out + [remote[key]];
      }
    }

    method List(now: Time) returns (out: seq<Service>)
      requires Valid(Model())
      modifies this`remote
      ensures IsListing(old(Model()), now, out)
      ensures Model() == Pruned(old(Model()), now)
    {
      var services := CollectLocal();
      ghost var st := Model();
      services := CollectRemote(now, services);
      ByNameThenNodeOrder();
      out := Sort(services, ByNameThenNode);
      PermutationFacts(services, out);
      forall i, j | 0 <= i < |out| && 0 <= j < |out| && out[i] != out[j]
        ensures ByNameThenNode(out[i], out[j]) || ByNameThenNode(out[j], out[i])
      {
        assert out[i] in Elems(out) && out[j] in Elems(out);
        if out[i].name == out[j].name && out[i].nodeID == out[j].nodeID {
          DistinctPairs(st, now, out[i], out[j]);
        }
      }
      SortedDistinctIsStrict(ByNameThenNode, out);
    }

    method FindByName(name: string, now: Time) returns (out: seq<Service>)
      requires Valid(Model())
      modifies this`remote
      ensures IsFound(old(Model()), name, now, out)
      ensures Model() == Pruned(old(Model()), now)
    {
      var all := List(now);
      out := [];
      for i := 0 to |all|
        invariant Model() == Pruned(old(Model()), now)
        invariant out == Filter(all[..i], Named(name))
      {
        assert all[..i + 1][..i] == all[..i];
        if all[i].name == name {
          out := out + [all[i]];
        }
      }
      assert all[..|all|] == all;
      FilterElems(all, Named(name));
      FilterStrict(all, Named(name), ByNameThenNode);
    }
  }

  /** A search of a listing for the node's own entry under a name: what a hit and what a complete miss mean. */
  lemma OwnHit(st: State, now: Time, all: seq<Service>, i: nat)
    requires Valid(st) && IsListing(st, now, all) && i < |all| && all[i].nodeID == st.self
    ensures all[i].name in st.local && all[i] == st.local[all[i].name]
  {
    OwnEntriesAreLocal(st, now, all, all[i].name);
  }

  lemma OwnMiss(st: State, now: Time, all: seq<Service>, name: string)
    requires Valid(st) && IsListing(st, now, all)
    requires forall j | 0 <= j < |all| :: !(all[j].name == name && all[j].nodeID == st.self)
    ensures name !in st.local
  {
    OwnEntriesAreLocal(st, now, all, name);
  }

  /** The node's own instance of a service: found exactly when the local map has it, with its host and port. */
  method ResolveLocal(reg: Registry, name: string, now: Time) returns (host: string, port: nat, ok: bool)
    requires Valid(reg.Model())
    modifies reg`remote
    ensures reg.Model() == Pruned(old(reg.Model()), now)
    ensures ok <==> name in reg.local
    ensures ok ==> host == reg.local[name].host && port == reg.local[name].port
  {
    ghost var st := reg.Model();
    var all := reg.List(now);
    for i := 0 to |all|
      invariant forall j | 0 <= j < i :: !(all[j].name == name && all[j].nodeID == st.self)
    {
      if all[i].name == name && all[i].nodeID == reg.self {
        OwnHit(st, now, all, i);
        return all[i].host, all[i].port, true;
      }
    }
    OwnMiss(st, now, all, name);
    return "", 0, false;
  }
}
