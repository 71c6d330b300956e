/** One node's agent and transport as objects updated in place; each method is one critical section
    and is proved against the functions of MeshModel. */
module MeshNode {
  import opened Text
  import opened MeshModel

  /** The connections while a loop closes the current ones: those of the ids in `todo` are still untouched. */
  ghost function Closing(l: Links, todo: set<string>): map<nat, End> {
    map c | c in l.ends :: var e := l.ends[c];
      if e.peer in l.peers && e.peer !in todo && l.peers[e.peer] == c then e.(open := false) else e
  }

  lemma CloseOne(l: Links, todo: set<string>, id: string)
    requires Tidy(l) && id in todo && id in l.peers
    ensures var c := l.peers[id];
            c in Closing(l, todo)
                && Closing(l, todo - {id}) == Closing(l, todo)[c := Closing(l, todo)[c].(open := false)]
  {
  }

  class Node {
    const self: string
    var marks: set<string>
    ghost var stuck: set<string>
    var dials: map<nat, Dial>
    var ends: map<nat, End>
    var peers: map<string, nat>

    ghost function Model(): Links
      reads this
    {
      Links(self, marks, stuck, dials, ends, peers)
    }

    constructor (nodeID: string)
      ensures Model() == NewLinks(nodeID)
    {
      self := nodeID;
      marks, stuck, dials, ends, peers := {}, {}, map[], map[], map[];
    }

    /** The head of connectMeshPeer, up to and including the mark. */
    method TryMark(t: nat, peer: string, meshAddr: string) returns (started: bool)
      requires t !in dials
      modifies this
      ensures started <==> meshAddr != "" && MayDial(old(Model()), peer)
      ensures started <==> meshAddr != "" && peer !in old(marks) && Less(self, peer)
      ensures marks == (if started then old(marks) + {peer} else old(marks)) && ends == old(ends) && peers == old(peers)
      ensures Model() == if started then BeginDial(old(Model()), t, peer) else old(Model())
    {
      LessTotal(self, peer);
      if peer == self || meshAddr == "" {
        return false;
      }
      if Less(peer, self) {
        return false;
      }
      if peer in marks {
        return false;
      }
      marks := marks + {peer};
      dials := dials[t := Dial(peer, Marked)];
      return true;
    }

    /** The rest of connectMeshPeer after the dial's outcome is known. */
    method DialFailed(t: nat)
      requires t in dials
      modifies this
      ensures Model() == ClearMark(old(Model()), t)
      ensures marks == old(marks) - {old(dials)[t].peer} && dials == old(dials) - {t}
    {
      marks := marks - {dials[t].peer};
      dials := dials - {t};
    }

    method Register(id: string, c: nat, dialled: bool)
      modifies this
      ensures Model() == AddPeer(old(Model()), id, c, dialled)
      ensures peers == old(peers)[id := c] && marks == old(marks) && dials == old(dials)
      ensures c in ends && ends[c] == End(id, dialled, true, Watching)
      ensures forall d | d in old(ends) && d != c ::
                d in ends && ends[d] == if id in old(peers) && old(peers)[id] == d then old(ends)[d].(open := false)
                                        else old(ends)[d]
    {
      if id in peers {
        var prev := peers[id];
        if prev in ends {
          ends := ends[prev := ends[prev].(open := false)];
        }
      }
      ends := ends[c := End(id, dialled, true, Watching)];
      peers := peers[id := c];
    }

    method MonitorEvict(c: nat)
      requires c in ends
      modifies this
      ensures Model() == Evict(old(Model()), c)
      ensures var id := old(ends)[c].peer;
              peers == if id in old(peers) && old(peers)[id] == c then old(peers) - {id} else old(peers)
      ensures ends == old(ends)[c := old(ends)[c].(monitor := Evicted)] && marks == old(marks) && dials == old(dials)
    {
      var id := ends[c].peer;
      if id in peers && peers[id] == c {
        peers := peers - {id};
      }
      ends := ends[c := ends[c].(monitor := Evicted)];
    }

    method OnDisconnect(c: nat)
      requires c in ends
      modifies this
      ensures Model() == Callback(old(Model()), c)
      ensures marks == old(marks) - {old(ends)[c].peer} && peers == old(peers) && dials == old(dials)
      ensures ends == old(ends)[c := old(ends)[c].(monitor := Finished)]
    {
      marks := marks - {ends[c].peer};
      ends := ends[c := ends[c].(monitor := Finished)];
    }

    /** Closes every current connection; connections already replaced are not touched. */
    method Close()
      requires Tidy(Model())
      modifies this`ends, this`peers
      ensures Model() == CloseAll(old(Model())) && peers == map[]
      ensures forall c | c in old(ends) ::
                c in ends && ends[c] == if c in old(peers).Values then old(ends)[c].(open := false) else old(ends)[c]
    {
      var todo := peers.Keys;
      while todo != {}
        invariant todo <= old(peers).Keys
        invariant peers == map id | id in todo :: old(peers)[id]
        invariant ends == Closing(old(Model()), todo)
      {
        var id :| id in todo;
        CloseOne(old(Model()), todo, id);
        var c := peers[id];
        ends := ends[c := ends[c].(open := false)];
        peers := peers - {id};
        todo := todo - {id};
      }
    }
  }
}
