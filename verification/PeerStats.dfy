/** The peer-stats cache: loads reported by peers, reused while younger than a TTL, under concurrent calls. */
module PeerStats {
  import opened Text
  import opened RegistryModel
  import opened Router

  datatype Cached = Cached(load: NodeLoad, fetchedAt: Time)

  function EffectiveTTL(ttl: int): (t: int)
    ensures t > 0
  {
    if ttl <= 0 then 3 * SECOND else ttl
  }

  predicate Wanted(self: string, id: string) {
    id != "" && id != self
  }

  predicate Usable(cache: map<string, Cached>, ttl: int, now: Time, id: string) {
    id in cache && now - cache[id].fetchedAt < ttl
  }

  /** The loads the first loop takes from the cache. */
  function Hits(cache: map<string, Cached>, self: string, ttl: int, now: Time, ids: seq<string>)
    : map<string, NodeLoad>
  {
    if ids == [] then map[]
    else
      var id := ids[|ids| - 1];
      var rest := Hits(cache, self, ttl, now, ids[..|ids| - 1]);
      if Wanted(self, id) && Usable(cache, ttl, now, id) then rest[id := cache[id].load] else rest
  }

  /** The ids it leaves to be fetched, in order. */
  function Misses(cache: map<string, Cached>, self: string, ttl: int, now: Time, ids: seq<string>): seq<string> {
    if ids == [] then []
    else
      var id := ids[|ids| - 1];
      var rest := Misses(cache, self, ttl, now, ids[..|ids| - 1]);
      if Wanted(self, id) && !Usable(cache, ttl, now, id) then rest + [id] else rest
  }

  lemma {:induction false} HitsAt(cache: map<string, Cached>, self: string, ttl: int, now: Time, ids: seq<string>,
                                  id: string)
    ensures var h := Hits(cache, self, ttl, now, ids);
            && (id in h <==> id in ids && Wanted(self, id) && Usable(cache, ttl, now, id))
            && (id in h ==> h[id] == cache[id].load)
  {
    if ids != [] {
      HitsAt(cache, self, ttl, now, ids[..|ids| - 1], id);
      assert ids == ids[..|ids| - 1] + [ids[|ids| - 1]];
    }
  }

  lemma {:induction false} MissesAt(cache: map<string, Cached>, self: string, ttl: int, now: Time, ids: seq<string>,
                                    id: string)
    ensures id in Misses(cache, self, ttl, now, ids) <==> id in ids && Wanted(self, id) && !Usable(cache, ttl, now, id)
  {
    if ids != [] {
      MissesAt(cache, self, ttl, now, ids[..|ids| - 1], id);
      assert ids == ids[..|ids| - 1] + [ids[|ids| - 1]];
    }
  }

  // ---- The cache object ----

  class PeerStatsCache {
    const self: string
    const ttl: int
    var cache: map<string, Cached>

    constructor (nodeID: string, ttl: int)
      ensures self == nodeID && this.ttl == ttl && cache == map[]
    {
      self, this.ttl, cache := nodeID, ttl, map[];
    }

    /** The part under the read lock. */
    method ReadCache(nodeIDs: seq<string>, now: Time) returns (out: map<string, NodeLoad>, missing: seq<string>)
      ensures out == Hits(cache, self, EffectiveTTL(ttl), now, nodeIDs)
      ensures missing == Misses(cache, self, EffectiveTTL(ttl), now, nodeIDs)
    {
      var life := EffectiveTTL(ttl);
      out, missing := map[], [];
      for i := 0 to |nodeIDs|
        invariant out == Hits(cache, self, life, now, nodeIDs[..i])
        invariant missing == Misses(cache, self, life, now, nodeIDs[..i])
      {
        assert nodeIDs[..i + 1][..i] == nodeIDs[..i];
        var id := nodeIDs[i];
        if id == "" || id == self {
          continue;
        }
        if id in cache && now - cache[id].fetchedAt < life {
          out := out[id := cache[id].load];
        } else {
          missing := missing + [id];
        }
      }
      assert nodeIDs[..|nodeIDs|] == nodeIDs;
    }

    /** A whole call without interference; `fetch(i, id)` is what the i-th peer asked, `id`, reports, if anything. */
    method Loads(nodeIDs: seq<string>, now: Time, fetch: (nat, string) -> Option<NodeLoad>)
        returns (out: map<string, NodeLoad>)
      modifies this
      ensures var missing := Misses(old(cache), self, EffectiveTTL(ttl), now, nodeIDs);
              && out == Hits(old(cache), self, EffectiveTTL(ttl), now, nodeIDs) + FetchAll(missing, fetch)
              && cache == old(cache) + Stored(FetchAll(missing, fetch), now)
    {
      var missing;
      out, missing := ReadCache(nodeIDs, now);
      ghost var hits := out;
      for i := 0 to |missing|
        invariant out == hits + FetchAll(missing[..i], fetch)
        invariant cache == old(cache) + Stored(FetchAll(missing[..i], fetch), now)
      {
        assert missing[..i + 1][..i] == missing[..i];
        var load := fetch(i, missing[i]);
        if load.None? {
          continue;
        }
        OneMore(hits, old(cache), FetchAll(missing[..i], fetch), missing[i], load.value, now);
        out := out[missing[i] := load.value];
        cache := cache[missing[i] := Cached(load.value, now)];
      }
      assert missing[..|missing|] == missing;
    }
  }

  /** The loads that the fetching loop obtains; a later reply for the same id replaces an earlier one. */
  function FetchAll(missing: seq<string>, fetch: (nat, string) -> Option<NodeLoad>): map<string, NodeLoad> {
    if missing == [] then map[]
    else
      var n := |missing| - 1;
      var rest, id := FetchAll(missing[..n], fetch), missing[n];
      if fetch(n, id).Some? then rest[id := fetch(n, id).value] else rest
  }

  function Stored(loads: map<string, NodeLoad>, now: Time): map<string, Cached> {
    map id | id in loads :: Cached(loads[id], now)
  }

  lemma OneMore(hits: map<string, NodeLoad>, cache: map<string, Cached>, got: map<string, NodeLoad>, id: string,
                load: NodeLoad, now: Time)
    ensures (hits + got)[id := load] == hits + got[id := load]
    ensures (cache + Stored(got, now))[id := Cached(load, now)] == cache + Stored(got[id := load], now)
  {
  }

  /** The k-th peer asked is the last one under `id` that reported a load. */
  ghost predicate LastReport(missing: seq<string>, fetch: (nat, string) -> Option<NodeLoad>, id: string, k: nat) {
    && k < |missing| && missing[k] == id && fetch(k, id).Some?
    && forall j | k < j < |missing| && missing[j] == id :: fetch(j, id).None?
  }

  lemma {:induction false} FetchAllAt(missing: seq<string>, fetch: (nat, string) -> Option<NodeLoad>, id: string)
    ensures var m := FetchAll(missing, fetch);
            && (id in m ==> exists k: nat :: LastReport(missing, fetch, id, k) && m[id] == fetch(k, id).value)
            && (id !in m ==> forall k: nat :: !LastReport(missing, fetch, id, k))
  {
    if missing != [] {
      var n := |missing| - 1;
      var front := missing[..n];
      FetchAllAt(front, fetch, id);
      if missing[n] == id && fetch(n, id).Some? {
        assert LastReport(missing, fetch, id, n);
      } else {
        assert forall k: nat :: LastReport(front, fetch, id, k) <==> LastReport(missing, fetch, id, k) by {
          forall k: nat ensures LastReport(front, fetch, id, k) <==> LastReport(missing, fetch, id, k) {
            SameReports(missing, fetch, id, k);
          }
        }
      }
    }
  }

  lemma SameReports(missing: seq<string>, fetch: (nat, string) -> Option<NodeLoad>, id: string, k: nat)
    requires missing != [] && !(missing[|missing| - 1] == id && fetch(|missing| - 1, id).Some?)
    ensures LastReport(missing[..|missing| - 1], fetch, id, k) <==> LastReport(missing, fetch, id, k)
  {
    var n := |missing| - 1;
    var front := missing[..n];
    if LastReport(missing, fetch, id, k) {
      assert k < n && forall j | k < j < n && front[j] == id :: missing[j] == id;
    }
    if LastReport(front, fetch, id, k) {
      forall j | k < j < |missing| && missing[j] == id ensures fetch(j, id).None? {
        assert j < n ==> front[j] == id;
      }
    }
  }

  /** Which peers are asked: the requested ones but the empty id and the node itself, unless a load younger than the TTL
      (3 seconds if none is set) is cached. */
  lemma AskedExactly(cache: map<string, Cached>, self: string, ttl: int, now: Time, ids: seq<string>, id: string)
    ensures var life := if ttl > 0 then ttl else 3_000_000_000;
            var young := id in cache && now - cache[id].fetchedAt < life;
            id in Misses(cache, self, EffectiveTTL(ttl), now, ids) <==> id in ids && id != "" && id != self && !young
  {
    MissesAt(cache, self, EffectiveTTL(ttl), now, ids, id);
  }

  /** What an undisturbed call answers for an id: the cached load while it is young, else what the peer last reported
      during the call. */
  lemma LoadsAt(cache: map<string, Cached>, self: string, ttl: int, now: Time, ids: seq<string>,
                fetch: (nat, string) -> Option<NodeLoad>, id: string)
    ensures var life := if ttl > 0 then ttl else 3_000_000_000;
            var young := id in cache && now - cache[id].fetchedAt < life;
            var missing := Misses(cache, self, EffectiveTTL(ttl), now, ids);
            var out := Hits(cache, self, EffectiveTTL(ttl), now, ids) + FetchAll(missing, fetch);
            && (id in out ==> id in ids && id != "" && id != self)
            && (id in ids && id != "" && id != self && young ==> id in out && out[id] == cache[id].load)
            && (!young ==>
                  && (id in out ==> exists k: nat :: LastReport(missing, fetch, id, k) && out[id] == fetch(k, id).value)
                  && (id !in out ==> forall k: nat :: !LastReport(missing, fetch, id, k)))
  {
    var missing := Misses(cache, self, EffectiveTTL(ttl), now, ids);
    HitsAt(cache, self, EffectiveTTL(ttl), now, ids, id);
    MissesAt(cache, self, EffectiveTTL(ttl), now, ids, id);
    FetchAllAt(missing, fetch, id);
    if id in FetchAll(missing, fetch) {
      var k: nat :| LastReport(missing, fetch, id, k);
      assert missing[k] in missing;
    }
  }

  /** What the cache holds after such a call: every load just fetched, dated by the start of the call, and otherwise
      what it held. */
  lemma CacheAfter(cache: map<string, Cached>, missing: seq<string>, fetch: (nat, string) -> Option<NodeLoad>,
                   now: Time,
                   id: string)
    ensures var cache' := cache + Stored(FetchAll(missing, fetch), now);
            if exists k: nat :: LastReport(missing, fetch, id, k)
            then id in cache' && exists k: nat ::
                                   LastReport(missing, fetch, id, k) && cache'[id] == Cached(fetch(k, id).value, now)
            else (id in cache' <==> id in cache) && (id in cache ==> cache'[id] == cache[id])
  {
    FetchAllAt(missing, fetch, id);
  }

  // ---- Concurrent calls ----

  datatype Report = Report(peer: string, load: NodeLoad, at: Time)

  /** A call of Loads: its start, what it was asked, its result so far, the ids still to fetch, and a fetched
      load not yet stored in the cache. */
  datatype Call = Call(start: Time, asked: seq<string>, looked: bool, out: map<string, NodeLoad>, missing: seq<string>,
                       unstored: Option<(string, NodeLoad)>)

  datatype System = System(
    self: string, ttl: int, clock: Time,
    cache: map<string, Cached>,
    calls: map<nat, Call>,
    reports: set<Report>)     // every load any peer ever reported

  datatype Event =
    | Tick(now: Time)
    | Begin(k: nat, asked: seq<string>)
    | Look(k: nat)
    | Fetched(k: nat, load: NodeLoad)
    | FetchFailed(k: nat)
    | Store(k: nat)

  function Init(self: string, ttl: int, clock: Time): System {
    System(self, EffectiveTTL(ttl), clock, map[], map[], {})
  }

  predicate Enabled(s: System, e: Event) {
    match e
    case Tick(now) => now >= s.clock
    case Begin(k, _) => k !in s.calls
    case Look(k) => k in s.calls && !s.calls[k].looked
    case Fetched(k, _) => k in s.calls && s.calls[k].missing != [] && s.calls[k].unstored.None?
    case FetchFailed(k) => k in s.calls && s.calls[k].missing != [] && s.calls[k].unstored.None?
    case Store(k) => k in s.calls && s.calls[k].unstored.Some?
  }

  function Next(s: System, e: Event): System
    requires Enabled(s, e)
  {
    match e
    case Tick(now) => s.(clock := now)
    case Begin(k, asked) => s.(calls := s.calls[k := Call(s.clock, asked, false, map[], [], None)])
    case Look(k) =>
      var c := s.calls[k];
      s.(calls := s.calls[k := c.(looked := true,
           out := Hits(s.cache, s.self, s.ttl, c.start, c.asked),
           missing := Misses(s.cache, s.self, s.ttl, c.start, c.asked))])
    case Fetched(k, load) =>
      var c := s.calls[k];
      var id := c.missing[0];
      s.(calls := s.calls[k := c.(out := c.out[id := load], missing := c.missing[1..], unstored := Some((id, load)))],
         reports := s.reports + {Report(id, load, s.clock)})
    case FetchFailed(k) => s.(calls := s.calls[k := s.calls[k].(missing := s.calls[k].missing[1..])])
    case Store(k) =>
      var c := s.calls[k];
      s.(cache := s.cache[c.unstored.value.0 := Cached(c.unstored.value.1, c.start)],
         calls := s.calls[k := c.(unstored := None)])
  }

  /** The peer really reported this load, at `since` or later. */
  ghost predicate Reported(reports: set<Report>, id: string, load: NodeLoad, since: Time) {
    exists at :: at >= since && Report(id, load, at) in reports
  }

  ghost predicate CallInv(s: System, c: Call) {
    && c.start <= s.clock
    && (forall id | id in c.out ::
          id in c.asked && Wanted(s.self, id) && Reported(s.reports, id, c.out[id], c.start - s.ttl + 1))
    && (forall id | id in c.missing :: id in c.asked && Wanted(s.self, id))
    && (c.unstored.Some? ==> Reported(s.reports, c.unstored.value.0, c.unstored.value.1, c.start))
  }

  ghost predicate Inv(s: System) {
    && s.ttl > 0
    && (forall id | id in s.cache :: Reported(s.reports, id, s.cache[id].load, s.cache[id].fetchedAt))
    && (forall k | k in s.calls :: CallInv(s, s.calls[k]))
  }

  lemma LookKeepsInv(s: System, k: nat)
    requires Inv(s) && Enabled(s, Look(k))
    ensures Inv(Next(s, Look(k)))
  {
    var c, c' := s.calls[k], Next(s, Look(k)).calls[k];
    forall id | id in c'.out
      ensures id in c.asked && Wanted(s.self, id) && Reported(s.reports, id, c'.out[id], c.start - s.ttl + 1)
    {
      HitsAt(s.cache, s.self, s.ttl, c.start, c.asked, id);
      var at :| at >= s.cache[id].fetchedAt && Report(id, s.cache[id].load, at) in s.reports;
    }
    forall id | id in c'.missing ensures id in c.asked && Wanted(s.self, id) {
      MissesAt(s.cache, s.self, s.ttl, c.start, c.asked, id);
    }
  }

  lemma FetchKeepsInv(s: System, k: nat, load: NodeLoad)
    requires Inv(s) && Enabled(s, Fetched(k, load))
    ensures Inv(Next(s, Fetched(k, load)))
  {
    var c, s' := s.calls[k], Next(s, Fetched(k, load));
    var id := c.missing[0];
    assert id in c.missing;
    assert Report(id, load, s.clock) in s'.reports;
    ReportsGrow(s, s'.reports);
    var c' := s'.calls[k];
    forall x | x in c'.out ensures x in c'.asked && Wanted(s.self, x)
        && Reported(s'.reports, x, c'.out[x], c.start - s.ttl + 1) {
      if x != id { assert Reported(s.reports, x, c.out[x], c.start - s.ttl + 1); }
    }
  }

  lemma ReportsGrow(s: System, reports: set<Report>)
    requires Inv(s) && s.reports <= reports
    ensures Inv(s.(reports := reports))
  {
    forall id, load, since | Reported(s.reports, id, load, since) ensures Reported(reports, id, load, since) {
      var at :| at >= since && Report(id, load, at) in s.reports;
    }
  }

  lemma NextKeepsInv(s: System, e: Event)
    requires Inv(s) && Enabled(s, e)
    ensures Inv(Next(s, e))
  {
    match e
    case Look(k) => LookKeepsInv(s, k);
    case Fetched(k, load) => FetchKeepsInv(s, k, load);
    case FetchFailed(k) =>
      assert forall id | id in s.calls[k].missing[1..] :: id in s.calls[k].missing;
    case _ =>
  }

  ghost predicate IsRun(s0: System, events: seq<Event>, states: seq<System>) {
    && |states| == |events| + 1 && states[0] == s0
    && forall i | 0 <= i < |events| :: Enabled(states[i], events[i]) && states[i + 1] == Next(states[i], events[i])
  }

  lemma {:induction false} RunsKeepInv(s0: System, events: seq<Event>, states: seq<System>, i: nat)
    requires Inv(s0) && IsRun(s0, events, states) && i <= |events|
    ensures Inv(states[i])
  {
    if i > 0 {
      RunsKeepInv(s0, events, states, i - 1);
      NextKeepsInv(states[i - 1], events[i - 1]);
    }
  }

  /** FRESHNESS. In every interleaving of calls under a monotone clock, at every point of every call, each load
      in its result was really reported by that peer later than the call's start minus the TTL, and the
      result's keys are requested ids other than the empty id and the node itself. */
  lemma LoadsAreFresh(self: string, ttl: int, clock: Time, events: seq<Event>, states: seq<System>, i: nat, k: nat,
                      id: string)
    requires IsRun(Init(self, ttl, clock), events, states) && i <= |events|
    requires k in states[i].calls && id in states[i].calls[k].out
    ensures var c := states[i].calls[k];
            && id in c.asked && id != "" && id != states[i].self
            && exists at :: at > c.start - states[i].ttl && Report(id, c.out[id], at) in states[i].reports
  {
    RunsKeepInv(Init(self, ttl, clock), events, states, i);
    var c := states[i].calls[k];
    assert CallInv(states[i], c);
    var at :| at >= c.start - states[i].ttl + 1 && Report(id, c.out[id], at) in states[i].reports;
  }
}
