/** The SOCKS5 server side of RFC 1928: greeting (section 3) and CONNECT request (sections 4 and 5). */
module Socks5 {
  import opened Text
  import opened Bytes

  datatype Address = IPv4(ip: seq<byte>) | Domain(name: seq<byte>) | IPv6(ip: seq<byte>)

  predicate WellFormed(a: Address) {
    match a
    case IPv4(ip) => |ip| == 4
    case Domain(name) => |name| <= 255
    case IPv6(ip) => |ip| == 16
  }

  datatype SocksError = ShortInput | BadVersion | BadCommand | BadAddressType | WriteFailed

  datatype Result<+T> = Ok(value: T, rest: seq<byte>) | Err(error: SocksError)

  datatype Target = Target(address: Address, port: nat)

  // ---- Encoding, as a client writes it ----

  function Greeting(methods: seq<byte>): seq<byte>
    requires |methods| <= 255
  {
    [5, |methods| as byte] + methods
  }

  function EncodePort(port: nat): seq<byte>
    requires port < 0x1_0000
  {
    [(port / 256) as byte, (port % 256) as byte]
  }

  function EncodeAddress(a: Address): seq<byte>
    requires WellFormed(a)
  {
    match a
    case IPv4(ip) => [1] + ip
    case Domain(name) => [3, |name| as byte] + name
    case IPv6(ip) => [4] + ip
  }

  /** A CONNECT request; the reserved octet is ignored by the server. */
  function Request(reserved: byte, t: Target): seq<byte>
    requires WellFormed(t.address) && t.port < 0x1_0000
  {
    [5, 1, reserved] + EncodeAddress(t.address) + EncodePort(t.port)
  }

  // ---- Parsing, over the whole input ----

  function Take(s: seq<byte>, n: nat): Result<seq<byte>> {
    if |s| < n then Err(ShortInput) else Ok(s[..n], s[n..])
  }

  function ParseGreeting(s: seq<byte>): Result<()> {
    match Take(s, 2)
    case Err(e) => Err(e)
    case Ok(head, s1) =>
      if head[0] != 5 then Err(BadVersion)
      else
        match Take(s1, head[1] as nat)
        case Err(e) => Err(e)
        case Ok(_, s2) => Ok((), s2)
  }

  function ParseAddress(kind: byte, s: seq<byte>): Result<Address> {
    if kind == 1 then
      match Take(s, 4) case Err(e) => Err(e) case Ok(ip, s1) => Ok(IPv4(ip), s1)
    else if kind == 3 then
      match Take(s, 1)
      case Err(e) => Err(e)
      case Ok(len, s1) => match Take(s1, len[0] as nat) case Err(e) => Err(e) case Ok(name, s2) => Ok(Domain(name), s2)
    else if kind == 4 then
      match Take(s, 16) case Err(e) => Err(e) case Ok(ip, s1) => Ok(IPv6(ip), s1)
    else Err(BadAddressType)
  }

  function ParseConnect(s: seq<byte>): Result<Target> {
    match Take(s, 4)
    case Err(e) => Err(e)
    case Ok(head, s1) =>
      if head[0] != 5 || head[1] != 1 then Err(BadCommand)
      else
        match ParseAddress(head[3], s1)
        case Err(e) => Err(e)
        case Ok(address, s2) =>
          match Take(s2, 2)
          case Err(e) => Err(e)
          case Ok(p, s3) => Ok(Target(address, p[0] as nat * 256 + p[1] as nat), s3)
  }

  // ---- Parsing inverts encoding, and accepts nothing else ----

  lemma TakeFront(a: seq<byte>, b: seq<byte>)
    ensures Take(a + b, |a|) == Ok(a, b)
  {
    assert (a + b)[..|a|] == a && (a + b)[|a|..] == b;
  }

  /** A greeting with any methods is accepted and leaves exactly what follows it. */
  lemma GreetingRoundTrip(methods: seq<byte>, rest: seq<byte>)
    requires |methods| <= 255
    ensures ParseGreeting(Greeting(methods) + rest) == Ok((), rest)
  {
    var head := [5, |methods| as byte];
    assert Greeting(methods) + rest == head + (methods + rest);
    TakeFront(head, methods + rest);
    TakeFront(methods, rest);
  }

  /** Whatever is accepted is a greeting: no other input parses. */
  lemma AcceptedIsGreeting(s: seq<byte>)
    requires ParseGreeting(s).Ok?
    ensures exists methods: seq<byte> :: |methods| <= 255 && s == Greeting(methods) + ParseGreeting(s).rest
  {
    var methods := s[2..][..s[1] as nat];
    assert s == Greeting(methods) + ParseGreeting(s).rest;
  }

  lemma AddressRoundTrip(a: Address, rest: seq<byte>)
    requires WellFormed(a)
    ensures ParseAddress(EncodeAddress(a)[0], EncodeAddress(a)[1..] + rest) == Ok(a, rest)
  {
    match a
    case IPv4(ip) => TakeFront(ip, rest);
    case Domain(name) =>
      assert EncodeAddress(a)[1..] + rest == [|name| as byte] + (name + rest);
      TakeFront([|name| as byte], name + rest);
      TakeFront(name, rest);
    case IPv6(ip) => TakeFront(ip, rest);
  }

  lemma PortRoundTrip(port: nat, rest: seq<byte>)
    requires port < 0x1_0000
    ensures var p := EncodePort(port);
            |p| == 2 && p[0] as nat * 256 + p[1] as nat == port && Take(p + rest, 2) == Ok(p, rest)
  {
    TakeFront(EncodePort(port), rest);
  }

  /** The same octets, cut after the fixed four that the server reads first. */
  lemma Regroup(front: seq<byte>, body: seq<byte>, port: seq<byte>, rest: seq<byte>)
    requires body != []
    ensures front + body + port + rest == (front + [body[0]]) + (body[1..] + (port + rest))
  {
  }

  lemma HeadFirst(reserved: byte, t: Target, rest: seq<byte>)
    requires WellFormed(t.address) && t.port < 0x1_0000
    ensures var body, port := EncodeAddress(t.address), EncodePort(t.port);
            Take(Request(reserved, t) + rest, 4) == Ok([5, 1, reserved, body[0]], body[1..] + (port + rest))
  {
    var body, port := EncodeAddress(t.address), EncodePort(t.port);
    var head, tail := [5, 1, reserved, body[0]], body[1..] + (port + rest);
    Regroup([5, 1, reserved], body, port, rest);
    assert [5, 1, reserved] + [body[0]] == head;
    TakeFront(head, tail);
  }

  /** ROUND TRIP. For every address kind, host bytes and port, parsing an encoded request followed by any rest
      returns the same host bytes and port and leaves exactly the rest. */
  lemma ConnectRoundTrip(reserved: byte, t: Target, rest: seq<byte>)
    requires WellFormed(t.address) && t.port < 0x1_0000
    ensures ParseConnect(Request(reserved, t) + rest) == Ok(t, rest)
  {
    HeadFirst(reserved, t, rest);
    AddressRoundTrip(t.address, EncodePort(t.port) + rest);
    PortRoundTrip(t.port, rest);
  }

  /** Why an input is refused. */
  lemma RefusalsExactly(s: seq<byte>)
    ensures ParseGreeting(s) == Err(BadVersion) <==> |s| >= 2 && s[0] != 5
    ensures ParseConnect(s) == Err(BadCommand) <==> |s| >= 4 && (s[0] != 5 || s[1] != 1)
    ensures ParseConnect(s) == Err(BadAddressType) <==>
            |s| >= 4 && s[0] == 5 && s[1] == 1 && s[3] != 1 && s[3] != 3 && s[3] != 4
    ensures ParseGreeting(s).Ok? || ParseGreeting(s) == Err(BadVersion) || ParseGreeting(s) == Err(ShortInput)
  {
  }

  lemma AddressAccepted(kind: byte, s: seq<byte>)
    requires ParseAddress(kind, s).Ok?
    ensures var r := ParseAddress(kind, s);
            WellFormed(r.value) && [kind] + s == EncodeAddress(r.value) + r.rest
  {
  }

  lemma PortAccepted(hi: byte, lo: byte)
    ensures var port := hi as nat * 256 + lo as nat; port < 0x1_0000 && EncodePort(port) == [hi, lo]
  {
  }

  /** What an accepted input consists of. */
  lemma AcceptedParts(s: seq<byte>)
    requires ParseConnect(s).Ok?
    ensures |s| >= 4 && s[0] == 5 && s[1] == 1 && ParseAddress(s[3], s[4..]).Ok?
    ensures var r, a := ParseConnect(s), ParseAddress(s[3], s[4..]);
            && |a.rest| >= 2 && r.rest == a.rest[2..]
            && r.value == Target(a.value, a.rest[0] as nat * 256 + a.rest[1] as nat)
  {
  }

  /** Whatever is accepted is an encoded request: no other input parses. */
  lemma AcceptedIsRequest(s: seq<byte>)
    requires ParseConnect(s).Ok?
    ensures var r := ParseConnect(s);
            && WellFormed(r.value.address) && r.value.port < 0x1_0000
            && s == Request(s[2], r.value) + r.rest
  {
    AcceptedParts(s);
    var r, a := ParseConnect(s), ParseAddress(s[3], s[4..]);
    AddressAccepted(s[3], s[4..]);
    PortAccepted(a.rest[0], a.rest[1]);
    var port := EncodePort(r.value.port);
    RegroupAccepted(s, EncodeAddress(a.value), port, a.rest);
  }

  lemma RegroupAccepted(s: seq<byte>, body: seq<byte>, port: seq<byte>, rest: seq<byte>)
    requires |s| >= 4 && s[0] == 5 && s[1] == 1 && [s[3]] + s[4..] == body + rest
    requires |rest| >= 2 && port == [rest[0], rest[1]]
    ensures s == [5, 1, s[2]] + body + port + rest[2..]
  {
    assert s == [5, 1, s[2]] + ([s[3]] + s[4..]);
    assert rest == port + rest[2..];
    assert [5, 1, s[2]] + (body + (port + rest[2..])) == [5, 1, s[2]] + body + port + rest[2..];
  }

  // ---- The server, reading from a stream that arrives in chunks ----

  function Flatten(chunks: seq<seq<byte>>): seq<byte> {
    if chunks == [] then [] else chunks[0] + Flatten(chunks[1..])
  }

  function Least(a: nat, b: nat): nat {
    if a < b then a else b
  }

  class Conn {
    var chunks: seq<seq<byte>>   // what the client sends, as the network cuts it
    var sent: seq<byte>          // what the server wrote

    constructor (chunks: seq<seq<byte>>)
      ensures this.chunks == chunks && sent == []
    {
      this.chunks, sent := chunks, [];
    }

    /** Reads until exactly n octets have arrived; at the end of the stream it fails. */
    method ReadFull(n: nat) returns (data: seq<byte>, ok: bool)
      modifies this`chunks
      ensures ok <==> Take(Flatten(old(chunks)), n).Ok?
      ensures ok ==> Take(Flatten(old(chunks)), n) == Ok(data, Flatten(chunks))
    {
      data := [];
      while |data| < n && chunks != []
        invariant |data| <= n
        invariant data + Flatten(chunks) == Flatten(old(chunks))
        decreases |chunks|, n - |data|
      {
        var c := chunks[0];
        var want := n - |data|;
        if |c| <= want {
          data, chunks := data + c, chunks[1..];
        } else {
          assert c == c[..want] + c[want..];
          data, chunks := data + c[..want], [c[want..]] + chunks[1..];
        }
      }
      ok := |data| == n;
      if ok {
        TakeFront(data, Flatten(chunks));
      }
    }

    /** Accepts a greeting and chooses no authentication; `written` is how many octets of the choice get out. */
    method Handshake(written: nat) returns (err: Option<SocksError>)
      modifies this
      ensures var r := ParseGreeting(Flatten(old(chunks)));
              if r.Err? then err == Some(r.error) && sent == old(sent)
              else Flatten(chunks) == r.rest && sent == old(sent) + [5, 0][..Least(written, 2)]
                   && err == if written < 2 then Some(WriteFailed) else None
    {
      var head, ok := ReadFull(2);
      if !ok {
        return Some(ShortInput);
      }
      if head[0] != 5 {
        return Some(BadVersion);
      }
      var _, ok2 := ReadFull(head[1] as nat);
      if !ok2 {
        return Some(ShortInput);
      }
      sent := sent + [5, 0][..Least(written, 2)];
      return if written < 2 then Some(WriteFailed) else None;
    }

    method ReadAddress(kind: byte) returns (address: Address, err: Option<SocksError>)
      modifies this`chunks
      ensures var r := ParseAddress(kind, Flatten(old(chunks)));
              if r.Ok? then err == None && address == r.value && Flatten(chunks) == r.rest else err == Some(r.error)
    {
      address := Domain([]);
      if kind == 1 {
        var ip, ok := ReadFull(4);
        return IPv4(ip), if ok then None else Some(ShortInput);
      } else if kind == 3 {
        var len, ok := ReadFull(1);
        if !ok {
          return address, Some(ShortInput);
        }
        var name, ok2 := ReadFull(len[0] as nat);
        return Domain(name), if ok2 then None else Some(ShortInput);
      } else if kind == 4 {
        var ip, ok := ReadFull(16);
        return IPv6(ip), if ok then None else Some(ShortInput);
      } else {
        return address, Some(BadAddressType);
      }
    }

    /** However the stream is cut into chunks, the result is the parse of its concatenation. */
    method ReadConnect() returns (target: Target, err: Option<SocksError>)
      modifies this`chunks
      ensures var r := ParseConnect(Flatten(old(chunks)));
              if r.Ok? then err == None && target == r.value && Flatten(chunks) == r.rest else err == Some(r.error)
    {
      target := Target(Domain([]), 0);
      var head, ok := ReadFull(4);
      if !ok {
        return target, Some(ShortInput);
      }
      if head[0] != 5 || head[1] != 1 {
        return target, Some(BadCommand);
      }
      var address, e := ReadAddress(head[3]);
      if e.Some? {
        return target, e;
      }
      var p, ok2 := ReadFull(2);
      if !ok2 {
        return target, Some(ShortInput);
      }
      return Target(address, p[0] as nat * 256 + p[1] as nat), None;
    }
  }
}
