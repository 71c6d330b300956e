/** One-time join tokens: a map in memory mirrored to one file, across failed writes, crashes and restarts. */
module JoinTokens {
  import opened Text
  import opened Sorting

  const HOUR := 3_600_000_000_000

  datatype Entry = Entry(role: string, createdAt: int, expiresAt: int, used: bool)

  type Table = map<string, Entry>

  datatype Disk = Missing | Unreadable | Holds(data: Table)

  /** How a write of the file ends. Only `Landed` reports success. A crash in the middle of an operation is
      that operation with a failed write, followed by a crash. */
  datatype Write = Landed | KeptOld | LandedUnreported | Torn

  function Written(disk: Disk, data: Table, w: Write): Disk {
    match w
    case Landed => Holds(data)
    case KeptOld => disk
    case LandedUnreported => Holds(data)
    case Torn => Unreadable
  }

  // ---- Operations ----

  function NewToken(role: string, ttl: int, now: int): Entry {
    Entry(if role == "" then "node" else role, now, now + (if ttl <= 0 then HOUR else ttl), false)
  }

  function Create(mem: Table, token: string, role: string, ttl: int, now: int): Table {
    mem[token := NewToken(role, ttl, now)]
  }

  /** A token can be spent: known, unused and not past its expiry. */
  predicate Spendable(mem: Table, token: string, now: int) {
    token != "" && token in mem && !mem[token].used && now <= mem[token].expiresAt
  }

  function Spend(mem: Table, token: string): Table
    requires token in mem
  {
    mem[token := mem[token].(used := true)]
  }

  // ---- The store object ----

  class Store {
    var data: Table
    var disk: Disk

    constructor (file: Disk)
      ensures disk == file
      ensures data == if file.Holds? then file.data else map[]
    {
      disk := file;
      data := if file.Holds? then file.data else map[];
    }

    method Save(w: Write) returns (ok: bool)
      modifies this`disk
      ensures disk == Written(old(disk), data, w)
      ensures ok <==> w == Landed
    {
      match w {
        case Landed => disk := Holds(data);
        case KeptOld =>
        case LandedUnreported => disk := Holds(data);
        case Torn => disk := Unreadable;
      }
      ok := w == Landed;
    }

    method Issue(token: string, role: string, ttl: int, now: int, w: Write) returns (issued: Option<string>)
      modifies this
      ensures data == Create(old(data), token, role, ttl, now)
      ensures data == old(data)[token := Entry(if role == "" then "node" else role, now,
                                               now + (if ttl > 0 then ttl else 3_600_000_000_000), false)]
      ensures disk == Written(old(disk), data, w)
      ensures issued == if w == Landed then Some(token) else None
    {
      var r := if role == "" then "node" else role;
      var life := if ttl <= 0 then HOUR else ttl;
      data := data[token := Entry(r, now, now + life, false)];
      var ok := Save(w);
      issued := if ok then Some(token) else None;
    }

    method Consume(token: string, now: int, w: Write) returns (ok: bool)
      modifies this
      ensures ok <==> Spendable(old(data), token, now) && w == Landed
      ensures data == if Spendable(old(data), token, now) then Spend(old(data), token) else old(data)
      ensures disk == if Spendable(old(data), token, now) then Written(old(disk), data, w) else old(disk)
      ensures ok <==> token != "" && token in old(data) && !old(data)[token].used && now <= old(data)[token].expiresAt
                      && w == Landed
      ensures ok ==> data == old(data)[token := old(data)[token].(used := true)] && disk == Holds(data)
    {
      if token == "" {
        return false;
      }
      if token !in data {
        return false;
      }
      var e := data[token];
      if e.used {
        return false;
      }
      if now > e.expiresAt {
        return false;
      }
      data := data[token := e.(used := true)];
      ok := Save(w);
    }
  }

  /** Opens the store in a directory: the file's tokens, or none when there is no file. Without a directory, or with a
      file that cannot be read, opening fails. */
  method OpenStore(dataDir: string, file: Disk) returns (store: Option<Store>)
    ensures store.Some? <==> dataDir != "" && !file.Unreadable?
    ensures store.Some? ==> fresh(store.value) && store.value.disk == file
                            && store.value.data == if file.Holds? then file.data else map[]
  {
    if dataDir == "" {
      return None;
    }
    if file.Unreadable? {
      return None;
    }
    var s := new Store(file);
    return Some(s);
  }

  // ---- Runs of one store ----

  /** The outcome of everything JoinCluster checks after the token. */
  datatype Checks = Checks(taken: bool, certExists: bool, certIssued: bool, caRead: bool, secretLength: nat)

  predicate Pass(c: Checks) {
    !c.taken && !c.certExists && c.certIssued && c.caRead && c.secretLength == 32
  }

  /** The token is spent before the remaining checks, so a refused join can cost a token but never the reverse. */
  method JoinCluster(store: Store, nodeID: string, token: string, now: int, w: Write, checks: Checks)
      returns (joined: bool)
    modifies store
    ensures joined ==>
            nodeID != "" && Spendable(old(store.data), token, now) && store.data == Spend(old(store.data), token)
            && store.disk == Holds(store.data)
    ensures joined <==> nodeID != "" && Spendable(old(store.data), token, now) && w == Landed && Pass(checks)
    ensures joined ==>
            token in old(store.data) && !old(store.data)[token].used && now <= old(store.data)[token].expiresAt
    ensures joined ==>
            !checks.taken && !checks.certExists && checks.certIssued && checks.caRead && checks.secretLength == 32
    ensures nodeID != "" && Spendable(old(store.data), token, now) ==>
              store.data == Spend(old(store.data), token) && store.disk == Written(old(store.disk), store.data, w)
    ensures nodeID == "" || !Spendable(old(store.data), token, now) ==>
            store.data == old(store.data) && store.disk == old(store.disk)
  {
    if nodeID == "" || token == "" {
      return false;
    }
    var ok := store.Consume(token, now, w);
    if !ok {
      return false;
    }
    if checks.taken || checks.certExists {
      return false;
    }
    if !checks.certIssued || !checks.caRead {
      return false;
    }
    return checks.secretLength == 32;
  }

  datatype System = System(
    up: bool, mem: Table, disk: Disk,
    minted: set<string>,       // tokens ever created, reported or not
    issued: set<string>,       // tokens whose creation was reported
    consumed: seq<string>,     // successful consumes, in order
    joins: nat)                // successful JoinCluster replies

  datatype Event =
    | Mint(token: string, role: string, ttl: int, now: int, w: Write)
    | Join(nodeID: string, token: string, now: int, w: Write, checks: Checks)
    | Crash
    | Open

  function Init(): System {
    System(false, map[], Missing, {}, {}, [], 0)
  }

  predicate Enabled(s: System, e: Event) {
    match e
    case Mint(token, _, _, _, _) => s.up && token !in s.minted && token != ""
    case Join(_, _, _, _, _) => s.up
    case Crash => true
    case Open => !s.up
  }

  function Next(s: System, e: Event): System {
    match e
    case Mint(token, role, ttl, now, w) =>
      var mem := Create(s.mem, token, role, ttl, now);
      s.(mem := mem, disk := Written(s.disk, mem, w), minted := s.minted + {token},
         issued := s.issued + if w == Landed then {token} else {})
    case Join(nodeID, token, now, w, checks) =>
      if nodeID == "" || !Spendable(s.mem, token, now) then s
      else
        var mem := Spend(s.mem, token);
        var s' := s.(mem := mem, disk := Written(s.disk, mem, w));
        if w != Landed then s'
        else s'.(consumed := s.consumed + [token], joins := s.joins + if Pass(checks) then 1 else 0)
    case Crash => s.(up := false, mem := map[])
    case Open =>
      match s.disk
      case Missing => s.(up := true, mem := map[])
      case Unreadable => s
      case Holds(data) => s.(up := true, mem := data)
  }

  function Run(events: seq<Event>): System {
    if events == [] then Init() else Next(Run(events[..|events| - 1]), events[|events| - 1])
  }

  ghost predicate Possible(events: seq<Event>) {
    forall i | 0 <= i < |events| :: Enabled(Run(events[..i]), events[i])
  }

  /** A table that can no longer give out the tokens in `spent`, and knows no token outside `minted`. */
  ghost predicate Closed(t: Table, spent: seq<string>, minted: set<string>) {
    && (forall x | x in spent :: x in t && t[x].used)
    && (forall x | x in t :: x in minted)
  }

  ghost predicate Inv(s: System) {
    && (s.up ==> Closed(s.mem, s.consumed, s.minted))
    && (s.disk.Holds? ==> Closed(s.disk.data, s.consumed, s.minted))
    && (s.up ==> s.issued <= s.mem.Keys)
    && (s.disk.Holds? ==> s.issued <= s.disk.data.Keys)
    && (s.disk.Missing? ==> s.consumed == [] && s.issued == {})
    && Distinct(s.consumed)
    && (forall x | x in s.consumed :: x in s.minted)
    && s.joins <= |s.consumed|
  }

  lemma MintKeepsInv(s: System, e: Event)
    requires Inv(s) && Enabled(s, e) && e.Mint?
    ensures Inv(Next(s, e))
  {
    assert Closed(Next(s, e).mem, s.consumed, s.minted + {e.token});
    assert s.disk.Holds? ==> Closed(s.disk.data, s.consumed, s.minted + {e.token});
  }

  lemma JoinKeepsInv(s: System, e: Event)
    requires Inv(s) && Enabled(s, e) && e.Join?
    ensures Inv(Next(s, e))
  {
    if e.nodeID != "" && Spendable(s.mem, e.token, e.now) {
      var mem := Spend(s.mem, e.token);
      assert e.token !in s.consumed;
      ElemsAppend(s.consumed, e.token);
      forall x ensures x in s.consumed + [e.token] <==> x in s.consumed || x == e.token {
        assert x in Elems(s.consumed + [e.token]) <==> x in s.consumed + [e.token];
      }
      assert Closed(mem, s.consumed + [e.token], s.minted);
      assert Closed(mem, s.consumed, s.minted);
    }
  }

  lemma NextKeepsInv(s: System, e: Event)
    requires Inv(s) && Enabled(s, e)
    ensures Inv(Next(s, e))
  {
    match e
    case Mint(_, _, _, _, _) => MintKeepsInv(s, e);
    case Join(_, _, _, _, _) => JoinKeepsInv(s, e);
    case Crash =>
    case Open =>
  }

  lemma {:induction false} RunsKeepInv(events: seq<Event>)
    requires Possible(events)
    ensures Inv(Run(events))
  {
    if events != [] {
      var n := |events| - 1;
      assert forall i | 0 <= i < n :: events[..n][..i] == events[..i];
      RunsKeepInv(events[..n]);
      NextKeepsInv(Run(events[..n]), events[n]);
    }
  }

  /** ONE TIME ONLY. Across any creates, consumes, failed saves, crashes and reloads of a store with fresh
      tokens, each token is consumed successfully at most once and was created before, so successful joins
      never outnumber tokens created. */
  lemma {:induction false} TokensAreOneTime(events: seq<Event>)
    requires Possible(events)
    ensures var s := Run(events);
            && Distinct(s.consumed)
            && (forall x | x in s.consumed :: x in s.minted)
            && s.joins <= |s.consumed| <= |s.minted|
  {
    RunsKeepInv(events);
    DistinctFits(Run(events).consumed, Run(events).minted);
  }

  /** A token whose creation was reported is never forgotten: a store that is up knows it, and so does
      every later store that manages to open the file. */
  lemma {:induction false} IssuedTokensSurvive(events: seq<Event>, token: string)
    requires Possible(events) && token in Run(events).issued
    ensures var s := Run(events);
            && (s.up ==> token in s.mem)
            && (s.disk.Unreadable? || (s.disk.Holds? && token in s.disk.data))
  {
    RunsKeepInv(events);
  }

  lemma {:induction false} DistinctFits(s: seq<string>, all: set<string>)
    requires Distinct(s) && forall x | x in s :: x in all
    ensures |s| <= |all|
  {
    if s != [] {
      var n := |s| - 1;
      forall x | x in s[..n] ensures x in all - {s[n]} {
        var i :| 0 <= i < n && s[..n][i] == x;
      }
      DistinctFits(s[..n], all - {s[n]});
    }
  }

  // ---- Lifetimes ----

  /** Event i created the token x. */
  ghost predicate Creates(events: seq<Event>, i: nat, x: string) {
    i < |events| && events[i].Mint? && events[i].token == x
  }

  /** How long a token is good for: the time asked for, or an hour. */
  function LifeOf(e: Event): int
    requires e.Mint?
  {
    if e.ttl > 0 then e.ttl else 3_600_000_000_000
  }

  /** A node tried to join with the token x. */
  ghost predicate Attempted(events: seq<Event>, x: string) {
    exists i: nat :: i < |events| && events[i].Join? && events[i].token == x && events[i].nodeID != ""
  }

  /** Every entry has the expiry of its creation, and is used only after an attempt. */
  ghost predicate Traced(events: seq<Event>, t: Table) {
    forall x | x in t ::
      && (exists i: nat :: Creates(events, i, x) && t[x].expiresAt == events[i].now + LifeOf(events[i]))
      && (t[x].used ==> Attempted(events, x))
  }

  lemma TracedLater(events: seq<Event>, e: Event, t: Table)
    requires Traced(events, t)
    ensures Traced(events + [e], t)
  {
    var all := events + [e];
    forall x | x in t
      ensures exists i: nat :: Creates(all, i, x) && t[x].expiresAt == all[i].now + LifeOf(all[i])
      ensures t[x].used ==> Attempted(all, x)
    {
      var i: nat :| Creates(events, i, x) && t[x].expiresAt == events[i].now + LifeOf(events[i]);
      assert all[i] == events[i];
      assert Creates(all, i, x);
      if t[x].used {
        var j: nat :| j < |events| && events[j].Join? && events[j].token == x && events[j].nodeID != "";
        assert all[j] == events[j];
      }
    }
  }

  lemma TracedMint(events: seq<Event>, e: Event, t: Table)
    requires Traced(events, t) && e.Mint?
    ensures Traced(events + [e], Create(t, e.token, e.role, e.ttl, e.now))
  {
    TracedLater(events, e, t);
    assert Creates(events + [e], |events|, e.token);
  }

  lemma TracedSpend(events: seq<Event>, e: Event, t: Table)
    requires Traced(events, t) && e.Join? && e.nodeID != "" && e.token in t
    ensures Traced(events + [e], Spend(t, e.token))
  {
    TracedLater(events, e, t);
    assert (events + [e])[|events|] == e;
  }

  ghost predicate SystemTraced(events: seq<Event>, mem: Table, disk: Disk) {
    Traced(events, mem) && (disk.Holds? ==> Traced(events, disk.data))
  }

  lemma SystemTracedLater(events: seq<Event>, e: Event, mem: Table, disk: Disk)
    requires SystemTraced(events, mem, disk)
    ensures SystemTraced(events + [e], mem, disk)
  {
    TracedLater(events, e, mem);
    if disk.Holds? {
      TracedLater(events, e, disk.data);
    }
  }

  lemma WriteTraced(events: seq<Event>, before: Table, mem: Table, disk: Disk, w: Write)
    requires SystemTraced(events, before, disk) && Traced(events, mem)
    ensures SystemTraced(events, mem, Written(disk, mem, w))
  {
  }

  lemma TracedStep(front: seq<Event>, s: System, e: Event)
    requires SystemTraced(front, s.mem, s.disk)
    ensures SystemTraced(front + [e], Next(s, e).mem, Next(s, e).disk)
  {
    SystemTracedLater(front, e, s.mem, s.disk);
    match e
    case Mint(token, role, ttl, now, w) =>
      TracedMint(front, e, s.mem);
      WriteTraced(front + [e], s.mem, Create(s.mem, token, role, ttl, now), s.disk, w);
    case Join(nodeID, token, now, w, _) =>
      if nodeID != "" && Spendable(s.mem, token, now) {
        TracedSpend(front, e, s.mem);
        WriteTraced(front + [e], s.mem, Spend(s.mem, token), s.disk, w);
      }
    case Crash =>
    case Open =>
  }

  lemma RunLast(events: seq<Event>, e: Event)
    ensures Run(events + [e]) == Next(Run(events), e)
  {
    assert (events + [e])[..|events|] == events;
  }

  lemma {:induction false} RunsAreTraced(events: seq<Event>)
    ensures SystemTraced(events, Run(events).mem, Run(events).disk)
  {
    if events != [] {
      var n := |events| - 1;
      RunsAreTraced(events[..n]);
      assert events == events[..n] + [events[n]];
      TracedStep(events[..n], Run(events[..n]), events[n]);
    }
  }

  /** Only a join with a spendable token consumes anything, and it consumes that token. */
  lemma NextConsumed(s: System, e: Event)
    requires Next(s, e).consumed != s.consumed
    ensures e.Join? && e.token in s.mem && e.now <= s.mem[e.token].expiresAt
    ensures Next(s, e).consumed == s.consumed + [e.token]
  {
  }

  /** Every created token is on record, and every one whose creation was reported as well. */
  lemma {:induction false} CreatedIsMinted(events: seq<Event>, i: nat, x: string)
    requires Creates(events, i, x)
    ensures x in Run(events).minted && (events[i].w == Landed ==> x in Run(events).issued)
  {
    var n := |events| - 1;
    if i < n {
      CreatedIsMinted(events[..n], i, x);
    }
  }

  /** Tokens are fresh: a token is created once. */
  lemma CreatedOnce(events: seq<Event>, i: nat, j: nat, x: string)
    requires Possible(events) && Creates(events, i, x) && Creates(events, j, x)
    ensures i == j
  {
    if i < j {
      CreatedIsMinted(events[..j], i, x);
    } else if j < i {
      CreatedIsMinted(events[..i], j, x);
    }
  }

  /** IN TIME. A token that is consumed was created before, and at most the requested time before, or an hour if none
      was requested. */
  lemma {:induction false} ConsumedInTime(events: seq<Event>, e: Event)
    requires Possible(events) && Run(events + [e]).consumed != Run(events).consumed
    ensures e.Join? && Run(events + [e]).consumed == Run(events).consumed + [e.token]
    ensures exists i: nat :: Creates(events, i, e.token)
    ensures forall i: nat | Creates(events, i, e.token) ::
              e.now - events[i].now <= if events[i].ttl > 0 then events[i].ttl else 3_600_000_000_000
  {
    RunLast(events, e);
    NextConsumed(Run(events), e);
    RunsAreTraced(events);
    var t := Run(events).mem;
    var j: nat :| Creates(events, j, e.token) && t[e.token].expiresAt == events[j].now + LifeOf(events[j]);
    forall i: nat | Creates(events, i, e.token)
      ensures e.now - events[i].now <= if events[i].ttl > 0 then events[i].ttl else 3_600_000_000_000
    {
      CreatedOnce(events, i, j, e.token);
    }
  }

  lemma {:induction false} GoodTokenIsSpendable(events: seq<Event>, i: nat, x: string, now: int)
    requires Possible(events) && Run(events).up && Creates(events, i, x) && events[i].w == Landed
             && !Attempted(events, x)
    requires now - events[i].now <= LifeOf(events[i])
    ensures Spendable(Run(events).mem, x, now)
  {
    assert Enabled(Run(events[..i]), events[i]);
    CreatedIsMinted(events, i, x);
    IssuedTokensSurvive(events, x);
    RunsAreTraced(events);
    var t := Run(events).mem;
    var j: nat :| Creates(events, j, x) && t[x].expiresAt == events[j].now + LifeOf(events[j]);
    CreatedOnce(events, i, j, x);
  }

  /** AND ONLY THEN REFUSED. A token whose creation was reported, that nobody tried yet and that is within its time, is
      consumed at a store that is up whenever its write lands; the node joins exactly when the other checks pass. */
  lemma {:induction false} InTimeIsConsumed(events: seq<Event>, i: nat, e: Event)
    requires Possible(events) && Run(events).up && e.Join? && e.nodeID != "" && e.w == Landed
    requires Creates(events, i, e.token) && events[i].w == Landed && !Attempted(events, e.token)
    requires e.now - events[i].now <= if events[i].ttl > 0 then events[i].ttl else 3_600_000_000_000
    ensures var s, s', c := Run(events), Run(events + [e]), e.checks;
            && s'.consumed == s.consumed + [e.token]
            && s'.joins == s.joins + if !c.taken && !c.certExists && c.certIssued && c.caRead && c.secretLength == 32
                                     then 1 else 0
  {
    RunLast(events, e);
    GoodTokenIsSpendable(events, i, e.token, e.now);
  }
}
