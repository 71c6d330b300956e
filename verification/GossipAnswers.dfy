/** What gossip runs guarantee to the resolver: the answers that nodes give, and the tables they are merged into. */
module GossipAnswers {
  import opened RegistryModel
  import opened RegistryLaws
  import opened Envelope
  import opened Announcements
  import opened GossipWorld
  import Resolver

  ghost predicate AnswersShaped(answers: set<seq<Announcement>>) {
    forall a | a in answers :: Resolver.OnePerOwner(a)
  }

  lemma AnswersNext(w: World, e: Event)
    requires Member(w, e.n)
    ensures Next(w, e).answers == w.answers + (if e.Answer? then {AnswerFor(e.found)} else {})
            && Next(w, e).keys == w.keys
  {
  }

  lemma LeadsKeepShape(w: World, e: Event, w': World)
    requires AnswersShaped(w.answers) && Leads(w, e, w') && Valid(w.nodes[e.n].reg)
    ensures AnswersShaped(w'.answers) && w'.keys == w.keys
  {
    AnswersNext(w, e);
    if e.Answer? {
      Resolver.AnswersAreOnePerOwner(w.nodes[e.n].reg, e.name, e.now, e.found);
    }
  }

  lemma NodeValid(w: World, n: string)
    requires Inv(w) && n in w.nodes
    ensures Valid(w.nodes[n].reg)
  {
    assert NodeInv(w.keys, w.issued, n, w.nodes[n]);
  }

  ghost predicate Sound(keys: map<string, PublicKey>, w: World) {
    Inv(w) && AnswersShaped(w.answers) && w.keys == keys
  }

  lemma RunsAreSound(cluster: string, keys: map<string, PublicKey>, events: seq<Event>, worlds: seq<World>, i: nat)
    requires IsRun(cluster, keys, events, worlds) && i <= |events|
    ensures Sound(keys, worlds[i])
  {
    InitInv(cluster, keys);
    forall w, e, w' | Leads(w, e, w') && Sound(keys, w) ensures Sound(keys, w') {
      LeadsKeepInv(w, e, w');
      NodeValid(w, e.n);
      LeadsKeepShape(w, e, w');
    }
    RunInduction(w => Sound(keys, w), cluster, keys, events, worlds, i);
  }

  lemma AnswerOwners(w: World, a: seq<Announcement>)
    requires Inv(w) && a in w.answers
    ensures Resolver.Owners(a) <= w.keys.Keys
  {
    forall o | o in Resolver.Owners(a) ensures o in w.keys {
      var i :| 0 <= i < |a| && a[i].nodeID == o;
      assert Backed(w.issued, FromAnnouncement(a[i], 0));
    }
  }

  lemma TableOwners(w: World, n: string)
    requires Inv(w) && n in w.nodes
    ensures Resolver.OwnersWithin(w.nodes[n].reg.remote, w.keys.Keys)
  {
    assert NodeInv(w.keys, w.issued, n, w.nodes[n]);
    forall k | k in w.nodes[n].reg.remote ensures w.nodes[n].reg.remote[k].nodeID in w.keys {
      assert Backed(w.issued, w.nodes[n].reg.remote[k]);
    }
  }

  lemma SlashFreeApart(ids: set<string>)
    requires forall id | id in ids :: '/' !in id
    ensures Resolver.IdsApart(ids)
  {
    forall a, b | a in ids && b in ids ensures Separate(a, b) { SlashFreeIsSeparate(a, b); }
  }

  /** ANSWERS ARE SOUND. In every run over members whose ids have no "/", whatever answers given so far a node gets
      when it asks, they and its table are of the shape the resolver relies on. */
  lemma WorldAnswersAreSound(cluster: string, keys: map<string, PublicKey>, events: seq<Event>, worlds: seq<World>,
                             i: nat,
                             n: string, ask: (nat, Resolver.Member) -> Resolver.Reply)
    requires IsRun(cluster, keys, events, worlds) && i <= |events| && n in worlds[i].nodes
    requires forall id | id in keys :: '/' !in id
    requires forall j, m | ask(j, m).answer.Some? :: ask(j, m).answer.value in worlds[i].answers
    ensures Resolver.SoundAnswers(worlds[i].nodes[n].reg, ask, keys.Keys)
  {
    RunsAreSound(cluster, keys, events, worlds, i);
    SlashFreeApart(keys.Keys);
    TableOwners(worlds[i], n);
    forall j, m | ask(j, m).answer.Some?
      ensures Resolver.Owners(ask(j, m).answer.value) <= keys.Keys && Resolver.OnePerOwner(ask(j, m).answer.value)
    {
      AnswerOwners(worlds[i], ask(j, m).answer.value);
    }
  }
}
