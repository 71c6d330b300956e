/** Service announcements of the ResolveService call: how a node answers, and how the caller reads the answer. */
module Announcements {
  import opened RegistryModel

  datatype Endpoint = Endpoint(host: string, port: nat)

  datatype Announcement = Announcement(
    serviceID: string, nodeID: string, name: string, endpoints: seq<Endpoint>,
    labels: map<string, string>, version: nat, ttlSec: int, announcedAtUnix: int)

  /** The answering side sends no announce time. */
  function ToAnnouncement(s: Service): Announcement {
    Announcement(s.serviceID, s.nodeID, s.name, [Endpoint(s.host, s.port)], s.labels, s.version, s.ttlSec, 0)
  }

  function AnswerFor(found: seq<Service>): seq<Announcement> {
    seq(|found|, i requires 0 <= i < |found| => ToAnnouncement(found[i]))
  }

  function FromAnnouncement(a: Announcement, now: Time): Service {
    var ep := if a.endpoints == [] then Endpoint("", 0) else a.endpoints[0];
    Service(a.serviceID, a.nodeID, a.name, ep.host, ep.port, a.labels, a.version, a.ttlSec,
            if a.announcedAtUnix > 0 then a.announcedAtUnix * SECOND else now)
  }

  /** The announcements of one owner, in order, as services. */
  function GroupFor(owner: string, answer: seq<Announcement>, now: Time): seq<Service> {
    if answer == [] then []
    else
      var n := |answer| - 1;
      var rest := GroupFor(owner, answer[..n], now);
      if answer[n].nodeID == owner then rest + [FromAnnouncement(answer[n], now)] else rest
  }

  /** A service without its announce time. */
  function Core(s: Service): Service {
    s.(announced := 0)
  }

  /** How an announcement is read: the first endpoint counts, none means no host; a set time is in seconds. */
  lemma AnnouncementRead(a: Announcement, now: Time)
    ensures var s := FromAnnouncement(a, now);
            && s.serviceID == a.serviceID && s.nodeID == a.nodeID && s.name == a.name && s.labels == a.labels
            && s.version == a.version && s.ttlSec == a.ttlSec
            && (a.endpoints != [] ==> s.host == a.endpoints[0].host && s.port == a.endpoints[0].port)
            && (a.endpoints == [] ==> s.host == "" && s.port == 0)
            && s.announced == if a.announcedAtUnix > 0 then a.announcedAtUnix * 1_000_000_000 else now
  {
  }

  /** Asking over RPC loses nothing but the announce time. */
  lemma AnswerKeepsCore(s: Service, now: Time)
    ensures FromAnnouncement(ToAnnouncement(s), now) == s.(announced := now)
  {
  }
}
