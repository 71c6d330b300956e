/** Virtual addresses of the TUN client: each service name hashes to an address in 100.127.0.0/16, and a pair
    of tables remembers the names that were asked for. */
module VirtualIPs {
  import opened Text

  type Octet = bv8

  /** A service name as the octets of its text. */
  type Name = seq<Octet>

  datatype Address = Address(a: Octet, b: Octet, c: Octet, d: Octet)

  // ---- Hashing ----

  function Fold(step: (bv32, Octet) -> bv32, start: bv32, s: Name): bv32 {
    if s == [] then start else step(Fold(step, start, s[..|s| - 1]), s[|s| - 1])
  }

  lemma FoldOne(step: (bv32, Octet) -> bv32, start: bv32, s: Name, x: Octet)
    ensures Fold(step, start, s + [x]) == step(Fold(step, start, s), x)
  {
    assert (s + [x])[..|s|] == s;
  }

  const OFFSET: bv32 := 2166136261
  const PRIME: bv32 := 16777619

  function Mix(h: bv32, x: Octet): bv32 {
    (h ^ (x as bv32)) * PRIME
  }

  function Fnv1a(s: Name): bv32 {
    Fold(Mix, OFFSET, s)
  }

  method Fnv1a32(s: Name) returns (h: bv32)
    ensures h == Fnv1a(s)
  {
    h := OFFSET;
    for i := 0 to |s|
      invariant h == Fold(Mix, OFFSET, s[..i])
    {
      assert s[..i + 1] == s[..i] + [s[i]];
      FoldOne(Mix, OFFSET, s[..i], s[i]);
      h := Mix(h, s[i]);
    }
    assert s[..|s|] == s;
  }

  function AddressOfHash(h: bv32): Address {
    Address(100, 127, ((h >> 8) & 0xff) as bv8, ((h & 0xff) | 2) as bv8)
  }

  function VirtualIP(name: Name): Address {
    AddressOfHash(Fnv1a(name))
  }

  // ---- Keys ----

  function Dotted(a: nat, b: nat, c: nat, d: nat): string {
    Decimal(a) + "." + Decimal(b) + "." + Decimal(c) + "." + Decimal(d)
  }

  function Key(ip: Address): string {
    Dotted(ip.a as nat, ip.b as nat, ip.c as nat, ip.d as nat)
  }

  lemma DottedInjective(a: nat, b: nat, c: nat, d: nat, a': nat, b': nat, c': nat, d': nat)
    requires Dotted(a, b, c, d) == Dotted(a', b', c', d')
    ensures a == a' && b == b' && c == c' && d == d'
  {
    var ab, ab' := Decimal(a) + "." + Decimal(b), Decimal(a') + "." + Decimal(b');
    SplitAtLast(ab + "." + Decimal(c), Decimal(d), ab' + "." + Decimal(c'), Decimal(d'), '.');
    SplitAtLast(ab, Decimal(c), ab', Decimal(c'), '.');
    SplitAtLast(Decimal(a), Decimal(b), Decimal(a'), Decimal(b'), '.');
    DecimalInjective(a, a');
    DecimalInjective(b, b');
    DecimalInjective(c, c');
    DecimalInjective(d, d');
  }

  /** Dotted text identifies the address. */
  lemma KeyInjective(p: Address, q: Address)
    requires Key(p) == Key(q)
    ensures p == q
  {
    DottedInjective(p.a as nat, p.b as nat, p.c as nat, p.d as nat, q.a as nat, q.b as nat, q.c as nat, q.d as nat);
    assert (p.a as nat) as bv8 == p.a && (p.b as nat) as bv8 == p.b && (p.c as nat) as bv8 == p.c
        && (p.d as nat) as bv8 == p.d;
  }

  // ---- Tables ----

  datatype Tables = Tables(toIP: map<Name, string>, toName: map<string, Name>)

  function Register(t: Tables, name: Name, ip: Address): Tables {
    Tables(t.toIP[name := Key(ip)], t.toName[Key(ip) := name])
  }

  function Lookup(t: Tables, ip: Address): Option<Name> {
    if Key(ip) in t.toName then Some(t.toName[Key(ip)]) else None
  }

  lemma LookupAfter(t: Tables, name: Name, ip: Address, other: Address)
    ensures Lookup(Register(t, name, ip), ip) == Some(name)
    ensures other != ip ==> Lookup(Register(t, name, ip), other) == Lookup(t, other)
  {
    if Key(other) == Key(ip) {
      KeyInjective(other, ip);
    }
  }

  class VirtualServices {
    var toIP: map<Name, string>
    var toName: map<string, Name>

    ghost function Model(): Tables
      reads this
    {
      Tables(toIP, toName)
    }

    constructor ()
      ensures Model() == Tables(map[], map[])
    {
      toIP, toName := map[], map[];
    }

    /** One question to the DNS responder: hash the name, remember it, answer with its address. */
    method Ask(name: Name) returns (ip: Address)
      modifies this
      ensures ip == VirtualIP(name)
      ensures Model() == Register(old(Model()), name, VirtualIP(name))
    {
      var h := Fnv1a32(name);
      ip := AddressOfHash(h);
      var key := Key(ip);
      toIP := toIP[name := key];
      toName := toName[key := name];
    }

    method Resolve(ip: Address) returns (name: Option<Name>)
      ensures name == Lookup(Model(), ip)
    {
      if Key(ip) in toName {
        return Some(toName[Key(ip)]);
      }
      return None;
    }
  }

  // ---- Whole runs ----

  /** The tables after a run of questions, with the addresses that `at` hands out. */
  function AskedWith(at: Name -> Address, names: seq<Name>): Tables {
    if names == [] then Tables(map[], map[])
    else var n := |names| - 1; Register(AskedWith(at, names[..n]), names[n], at(names[n]))
  }

  function Asked(names: seq<Name>): Tables {
    AskedWith(VirtualIP, names)
  }

  /** k is the last question whose name has the address. */
  ghost predicate LastAt(at: Name -> Address, names: seq<Name>, ip: Address, k: nat) {
    k < |names| && at(names[k]) == ip && forall j | k < j < |names| :: at(names[j]) != ip
  }

  /** LAST ONE WINS. An address resolves to the name last asked for that has it. */
  lemma {:induction false} ResolvesToLast(at: Name -> Address, names: seq<Name>, ip: Address, k: nat)
    requires LastAt(at, names, ip, k)
    ensures Lookup(AskedWith(at, names), ip) == Some(names[k])
  {
    var n := |names| - 1;
    if k < n {
      ResolvesToLast(at, names[..n], ip, k);
    }
    LookupAfter(AskedWith(at, names[..n]), names[n], at(names[n]), ip);
  }

  /** An address nobody asked for resolves to nothing. */
  lemma {:induction false} UnaskedResolvesToNothing(at: Name -> Address, names: seq<Name>, ip: Address)
    requires forall j | 0 <= j < |names| :: at(names[j]) != ip
    ensures Lookup(AskedWith(at, names), ip) == None
  {
    if names != [] {
      var n := |names| - 1;
      UnaskedResolvesToNothing(at, names[..n], ip);
      LookupAfter(AskedWith(at, names[..n]), names[n], at(names[n]), ip);
    }
  }

  lemma {:induction false} SomeLast(at: Name -> Address, names: seq<Name>, i: nat)
    requires i < |names|
    ensures exists k: nat :: i <= k && LastAt(at, names, at(names[i]), k)
    decreases |names| - i
  {
    var ip := at(names[i]);
    if j: nat :| i < j < |names| && at(names[j]) == ip {
      SomeLast(at, names, j);
      var k: nat :| j <= k && LastAt(at, names, ip, k);
      assert i <= k && LastAt(at, names, ip, k);
    } else {
      assert LastAt(at, names, ip, i);
    }
  }

  /** LOOKUP, EXACTLY. An address resolves to the name last asked for that has it, and to nothing if and only if no name
      asked for has it. */
  lemma {:induction false} LookupExactly(at: Name -> Address, names: seq<Name>, ip: Address)
    ensures forall k: nat | LastAt(at, names, ip, k) :: Lookup(AskedWith(at, names), ip) == Some(names[k])
    ensures Lookup(AskedWith(at, names), ip) == None <==> forall j | 0 <= j < |names| :: at(names[j]) != ip
  {
    forall k: nat | LastAt(at, names, ip, k) ensures Lookup(AskedWith(at, names), ip) == Some(names[k]) {
      ResolvesToLast(at, names, ip, k);
    }
    if i: nat :| i < |names| && at(names[i]) == ip {
      SomeLast(at, names, i);
    } else {
      UnaskedResolvesToNothing(at, names, ip);
    }
  }

  /** No other name with the same address was asked for after the last question for this one. */
  ghost predicate Undisturbed(at: Name -> Address, names: seq<Name>, name: Name) {
    exists i: nat :: i < |names| && names[i] == name && forall j | i < j < |names| :: at(names[j]) != at(name)
  }

  /** The last question with a name's address is for that name exactly when the name is undisturbed. */
  lemma LastDecides(at: Name -> Address, names: seq<Name>, name: Name, k: nat)
    requires LastAt(at, names, at(name), k)
    ensures names[k] == name <==> Undisturbed(at, names, name)
  {
    if names[k] == name {
      assert k < |names| && names[k] == name;
    }
    if Undisturbed(at, names, name) {
      var l: nat :| l < |names| && names[l] == name && forall j | l < j < |names| :: at(names[j]) != at(name);
      assert !(l < k) && !(k < l);
    }
  }

  lemma RoundTripWith(at: Name -> Address, names: seq<Name>, name: Name)
    requires name in names
    ensures Lookup(AskedWith(at, names), at(name)) == Some(name) <==> Undisturbed(at, names, name)
  {
    var i: nat :| i < |names| && names[i] == name;
    SomeLast(at, names, i);
    var k: nat :| LastAt(at, names, at(name), k);
    ResolvesToLast(at, names, at(name), k);
    LastDecides(at, names, name, k);
  }

  /** ROUND TRIP, EXACTLY. The address handed out for a name leads back to it if and only if no other name with the
      same address was asked for since. */
  lemma {:induction false} RoundTripExactly(names: seq<Name>, name: Name)
    requires name in names
    ensures Lookup(Asked(names), VirtualIP(name)) == Some(name) <==> Undisturbed(VirtualIP, names, name)
  {
    RoundTripWith(VirtualIP, names, name);
  }

  // ---- The tables agree one way only ----

  lemma {:induction false} ForwardIsHash(at: Name -> Address, names: seq<Name>)
    ensures forall x | x in AskedWith(at, names).toIP :: AskedWith(at, names).toIP[x] == Key(at(x))
  {
    if names != [] {
      ForwardIsHash(at, names[..|names| - 1]);
    }
  }

  /** The reverse table never names a service the forward table maps elsewhere. */
  lemma {:induction false} ReverseAgrees(at: Name -> Address, names: seq<Name>, key: string)
    requires key in AskedWith(at, names).toName
    ensures var t := AskedWith(at, names); t.toName[key] in t.toIP && t.toIP[t.toName[key]] == key
  {
    var n := |names| - 1;
    ForwardIsHash(at, names[..n]);
    if key != Key(at(names[n])) {
      ReverseAgrees(at, names[..n], key);
    }
  }

  /** "ci.ztm" and "wk.ztm". */
  const CI: Name := [0x63, 0x69, 0x2e, 0x7a, 0x74, 0x6d]
  const WK: Name := [0x77, 0x6b, 0x2e, 0x7a, 0x74, 0x6d]

  lemma HashOfSix(a: Octet, b: Octet, c: Octet, d: Octet, e: Octet, f: Octet)
    ensures Fnv1a([a, b, c, d, e, f]) == Mix(Mix(Mix(Mix(Mix(Mix(OFFSET, a), b), c), d), e), f)
  {
    assert [] + [a] == [a] && [a] + [b] == [a, b] && [a, b] + [c] == [a, b, c] && [a, b, c] + [d] == [a, b, c, d];
    assert [a, b, c, d] + [e] == [a, b, c, d, e] && [a, b, c, d, e] + [f] == [a, b, c, d, e, f];
    var start := OFFSET;
    FoldOne(Mix, start, [], a);
    FoldOne(Mix, start, [a], b);
    FoldOne(Mix, start, [a, b], c);
    FoldOne(Mix, start, [a, b, c], d);
    FoldOne(Mix, start, [a, b, c, d], e);
    FoldOne(Mix, start, [a, b, c, d, e], f);
  }

  /** Two names that share an address: asking for the second takes the first one's traffic. */
  lemma NamesCollide()
    ensures CI != WK && VirtualIP(CI) == VirtualIP(WK) == Address(100, 127, 129, 106)
    ensures Lookup(Asked([CI, WK]), VirtualIP(CI)) == Some(WK)
  {
    HashOfSix(0x63, 0x69, 0x2e, 0x7a, 0x74, 0x6d);
    HashOfSix(0x77, 0x6b, 0x2e, 0x7a, 0x74, 0x6d);
    assert VirtualIP(CI) == Address(100, 127, 129, 106) && VirtualIP(WK) == Address(100, 127, 129, 106);
    assert CI[0] != WK[0];
    assert LastAt(VirtualIP, [CI, WK], VirtualIP(CI), 1);
    ResolvesToLast(VirtualIP, [CI, WK], VirtualIP(CI), 1);
  }

  lemma AppendDigit(m: nat, d: nat, n: nat)
    requires m > 0 && d < 10 && n == 10 * m + d
    ensures Decimal(n) == Decimal(m) + [DIGITS[d]]
  {
    assert n / 10 == m && n % 10 == d;
  }

  /** The text of an address: its numbers in order, with dots between. */
  lemma DottedText()
    ensures Dotted(100, 127, 129, 106) == "100.127.129.106"
  {
    AppendDigit(1, 0, 10);
    AppendDigit(10, 0, 100);
    AppendDigit(1, 2, 12);
    AppendDigit(12, 7, 127);
    AppendDigit(12, 9, 129);
    AppendDigit(10, 6, 106);
    assert Decimal(1) == "1";
    assert Decimal(100) == "100" && Decimal(127) == "127" && Decimal(129) == "129" && Decimal(106) == "106";
  }

  /** The third octet is the second-lowest of the hash, the fourth the lowest with its second bit set. */
  lemma AddressBits(name: Name)
    ensures (VirtualIP(name).c as bv32) << 8 == Fnv1a(name) & 0xff00
    ensures (VirtualIP(name).d as bv32) & 0xfd == Fnv1a(name) & 0xfd
  {
    BitsOfHash(Fnv1a(name));
  }

  lemma BitsOfHash(h: bv32)
    ensures (AddressOfHash(h).c as bv32) << 8 == h & 0xff00
    ensures (AddressOfHash(h).d as bv32) & 0xfd == h & 0xfd
  {
  }

  /** Every virtual address is in 100.127.0.0/16 with the second-lowest bit set, so it is never x.0 or x.1. */
  lemma AddressRange(name: Name)
    ensures var ip := VirtualIP(name); ip.a == 100 && ip.b == 127 && ip.d & 2 == 2 && ip.d != 0 && ip.d != 1
  {
    var h := Fnv1a(name);
    assert (((h & 0xff) | 2) as bv8) & 2 == 2;
  }
}
