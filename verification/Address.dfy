/** The address objects' printers and the splitter at the head of `Lookup`, proved against AddressText. */
module Address {
  import opened Common
  import opened AddressText
  import P = AddressProofs

  /** What the loop has printed after `i` groups. */
  ghost function PartText(gs: seq<nat>, i: nat): string
    requires i <= |gs|
  {
    var z := FirstZero(gs);
    var e := RunEnd(gs, z);
    if i <= z then Join(gs[..i], 16, ':')
    else if i <= e then Join(gs[..z], 16, ':')
    else Join(gs[..z], 16, ':') + "::" + Join(gs[e..i], 16, ':')
  }

  /** The loop has printed the "::" after `i` groups. */
  ghost predicate UsedZeros(gs: seq<nat>, i: nat) { FirstZero(gs) < |gs| && RunEnd(gs, FirstZero(gs)) < i }

  lemma JoinMore(gs: seq<nat>, g: nat, base: nat, sep: char)
    requires 2 <= base <= 16
    ensures Join(gs + [g], base, sep) == Join(gs, base, sep) + (if gs == [] then "" else [sep]) + Print(g, base)
  {
    hide Print;
    assert (gs + [g])[..|gs|] == gs;
  }

  /** One turn of the loop. */
  lemma PartStep(gs: seq<nat>, i: nat)
    requires i < |gs|
    ensures var used := UsedZeros(gs, i);
      if gs[i] == 0 && !used then PartText(gs, i + 1) == PartText(gs, i) && !UsedZeros(gs, i + 1)
      else
        var opens := i > 0 && gs[i - 1] == 0 && !used;
        PartText(gs, i + 1) == PartText(gs, i) + (if opens then ":" else "") + (if i > 0 then ":" else "") +
          Print(gs[i], 16)
        && UsedZeros(gs, i + 1) == (used || opens)
  {
    hide Join, Print, FirstZero, RunEnd, PartText, UsedZeros;
    var z := FirstZero(gs);
    var e := RunEnd(gs, z);
    if i < z { BeforeZeros(gs, i); }
    else if i < e { WithinZeros(gs, i); }
    else if i == e { AtZerosEnd(gs, e); }
    else { AfterZeros(gs, i); }
  }

  lemma BeforeZeros(gs: seq<nat>, i: nat)
    requires i < FirstZero(gs)
    ensures !UsedZeros(gs, i) && !UsedZeros(gs, i + 1)
    ensures PartText(gs, i + 1) == PartText(gs, i) + (if i > 0 then ":" else "") + Print(gs[i], 16)
  {
    hide Join, Print, FirstZero, RunEnd;
    JoinMore(gs[..i], gs[i], 16, ':');
    assert gs[..i + 1] == gs[..i] + [gs[i]];
  }

  lemma WithinZeros(gs: seq<nat>, i: nat)
    requires FirstZero(gs) <= i < RunEnd(gs, FirstZero(gs))
    ensures !UsedZeros(gs, i) && !UsedZeros(gs, i + 1) && PartText(gs, i + 1) == PartText(gs, i)
  {
    hide Join, Print, FirstZero, RunEnd;
  }

  /** One more group behind the "::", and the first one there. */
  lemma OneMoreGroup(a: string, gs: seq<nat>, e: nat, i: nat)
    requires e < i < |gs|
    ensures a + Join(gs[e..i + 1], 16, ':') == a + Join(gs[e..i], 16, ':') + ":" + Print(gs[i], 16)
  {
    hide Join, Print;
    var b, p := Join(gs[e..i], 16, ':'), Print(gs[i], 16);
    assert gs[e..i + 1] == gs[e..i] + [gs[i]];
    JoinMore(gs[e..i], gs[i], 16, ':');
    assert a + (b + ":" + p) == a + b + ":" + p;
  }

  lemma FirstGroup(gs: seq<nat>, e: nat)
    requires e < |gs|
    ensures Join(gs[e..e + 1], 16, ':') == Print(gs[e], 16)
  {
    hide Print;
    assert |gs[e..e + 1]| == 1;
  }

  lemma PartUpToEnd(gs: seq<nat>)
    requires var e := RunEnd(gs, FirstZero(gs)); FirstZero(gs) < e <= |gs|
    ensures PartText(gs, RunEnd(gs, FirstZero(gs))) == Join(gs[..FirstZero(gs)], 16, ':')
  {
    hide Join, FirstZero, RunEnd;
  }

  lemma PartBehind(gs: seq<nat>, i: nat)
    requires var e := RunEnd(gs, FirstZero(gs)); FirstZero(gs) < e < i <= |gs|
    ensures var (z, e) := (FirstZero(gs), RunEnd(gs, FirstZero(gs)));
      PartText(gs, i) == Join(gs[..z], 16, ':') + "::" + Join(gs[e..i], 16, ':')
  {
    hide Join, FirstZero, RunEnd;
  }

  lemma AtZerosEnd(gs: seq<nat>, e: nat)
    requires FirstZero(gs) < e < |gs| && e == RunEnd(gs, FirstZero(gs))
    ensures !UsedZeros(gs, e) && UsedZeros(gs, e + 1)
    ensures PartText(gs, e + 1) == PartText(gs, e) + "::" + Print(gs[e], 16)
  {
    hide *;
    PartUpToEnd(gs);
    PartBehind(gs, e + 1);
    FirstGroup(gs, e);
    UsedAtEnd(gs, e);
  }

  lemma UsedAtEnd(gs: seq<nat>, e: nat)
    requires FirstZero(gs) < e < |gs| && e == RunEnd(gs, FirstZero(gs))
    ensures !UsedZeros(gs, e) && UsedZeros(gs, e + 1)
  {
    hide FirstZero, RunEnd;
  }

  lemma AfterZeros(gs: seq<nat>, i: nat)
    requires var e := RunEnd(gs, FirstZero(gs)); FirstZero(gs) < e < i < |gs|
    ensures UsedZeros(gs, i) && UsedZeros(gs, i + 1)
    ensures PartText(gs, i + 1) == PartText(gs, i) + ":" + Print(gs[i], 16)
  {
    hide Join, Print, FirstZero, RunEnd;
    var z := FirstZero(gs);
    OneMoreGroup(Join(gs[..z], 16, ':') + "::", gs, RunEnd(gs, z), i);
  }

  lemma NothingJoined(gs: seq<nat>)
    requires gs == []
    ensures Join(gs, 16, ':') == ""
  {}

  /** The bytes of the groups, the more significant one of each first. */
  function GroupBytes(gs: seq<nat>): (r: seq<nat>)
    ensures |r| == 2 * |gs|
  {
    seq(2 * |gs|, i requires 0 <= i < 2 * |gs| => if i % 2 == 0 then gs[i / 2] / 256 else gs[i / 2] % 256)
  }

  class IPv6Address {
    const s6: array<byte>
    var port: uint16

    constructor (address: array<byte>, port: uint16)
      requires address.Length == 16
      ensures Valid() && s6[..] == address[..] && this.port == port && fresh(s6)
    {
      var copy := new byte[16](i requires 0 <= i < 16 reads address => address[i]);
      s6 := copy;
      this.port := port;
      new;
      assert forall i | 0 <= i < 16 :: s6[i] == address[i];
    }

    predicate Valid() { s6.Length == 16 }

    /** Group `i`, out of network byte order. */
    function Group(i: nat): (g: nat)
      requires Valid() && i < GROUPS
      reads s6
      ensures g < 0x1_0000
    {
      s6[2 * i] as int * 256 + s6[2 * i + 1] as int
    }

    ghost function Groups(): (gs: seq<nat>)
      requires Valid()
      reads s6
      ensures P.ValidGroups(gs) && forall i | 0 <= i < GROUPS :: gs[i] == Group(i)
    {
      seq(GROUPS, i requires 0 <= i < GROUPS reads s6 => Group(i))
    }

    /** In network byte order the groups are the sixteen bytes. */
    lemma GroupsAreTheBytes()
      requires Valid()
      ensures GroupBytes(Groups()) == s6[..]
    {
      var bytes, gs := GroupBytes(Groups()), Groups();
      forall i | 0 <= i < 16 ensures bytes[i] == s6[i] as int { assert gs[i / 2] == Group(i / 2); }
    }

    method Insert(os: string) returns (r: string)
      requires Valid()
      ensures r == os + ("[" + V6Text(Groups()) + "]:" + Print(port, 10))
    {
      hide Join, Print, FirstZero, RunEnd;
      ghost var gs := Groups();
      r := os + "[";
      var usedZeros := false;
      ghost var head := r;
      assert PartText(gs, 0) == "" by { NothingJoined(gs[..0]); }
      for i := 0 to GROUPS
        invariant r == head + PartText(gs, i)
        invariant usedZeros == UsedZeros(gs, i)
      {
        PartStep(gs, i);
        if Group(i) == 0 && !usedZeros {
          continue;
        }
        if i > 0 && Group(i - 1) == 0 && !usedZeros {
          r := r + ":";
          usedZeros := true;
        }
        if i > 0 {
          r := r + ":";
        }
        r := r + Print(Group(i), 16);
      }
      if !usedZeros && Group(7) == 0 {
        r := r + "::";
      }
      assert r == head + V6Text(gs) by { WholeText(gs); }
      r := r + "]:" + Print(port, 10);
      assert r == os + ("[" + V6Text(gs) + "]:" + Print(port, 10));
    }
  }

  lemma WholeText(gs: seq<nat>)
    requires |gs| == GROUPS
    ensures V6Text(gs) == PartText(gs, GROUPS) + (if !UsedZeros(gs, GROUPS) && gs[7] == 0 then "::" else "")
  {
    hide FirstZero, RunEnd;
    var e := RunEnd(gs, FirstZero(gs));
    assert gs[..GROUPS] == gs;
    if e < GROUPS { assert gs[e..GROUPS] == gs[e..]; } else { NothingJoined(gs[e..]); }
  }

  lemma NoneJoined()
    ensures Join([], 10, '.') == ""
  {}

  class IPv4Address {
    var addr: uint32
    var port: uint16

    constructor (addr: uint32, port: uint16)
      ensures this.addr == addr && this.port == port
    {
      this.addr := addr;
      this.port := port;
    }

    method Insert(os: string) returns (r: string)
      ensures r == os + (V4Text(addr) + ":" + Print(port, 10))
    {
      hide Print, Join;
      r := os + Print(addr / 0x100_0000 % 256, 10) + ".";
      r := r + Print(addr / 0x1_0000 % 256, 10) + ".";
      r := r + Print(addr / 0x100 % 256, 10) + ".";
      r := r + Print(addr % 256, 10);
      QuadText(Quads(addr));
      assert r == os + V4Text(addr);
      r := r + ":" + Print(port, 10);
    }
  }

  lemma QuadText(q: seq<nat>)
    requires |q| == 4
    ensures Join(q, 10, '.') == Print(q[0], 10) + "." + Print(q[1], 10) + "." + Print(q[2], 10) + "." + Print(q[3], 10)
  {
    hide Print, Join;
    JoinMore([], q[0], 10, '.');
    JoinMore([q[0]], q[1], 10, '.');
    JoinMore([q[0], q[1]], q[2], 10, '.');
    JoinMore([q[0], q[1], q[2]], q[3], 10, '.');
    NoneJoined();
    assert [] + [q[0]] == [q[0]] && [q[0]] + [q[1]] == [q[0], q[1]] && [q[0], q[1]] + [q[2]] == [q[0], q[1], q[2]];
    assert [q[0], q[1], q[2]] + [q[3]] == q;
  }

  /** The head of `Lookup`: what it passes to `getaddrinfo`. A null `service` is None; a pointer into the text is the
      text from there to its terminator. */
  method SplitHost(host: string) returns (query: Query)
    ensures query == QueryFor(host)
  {
    var node := "";
    var service: Option<nat> := None;
    if host != "" && host[0] == '[' {
      var endipv6 := Find(host, ']', 1);
      if endipv6 < |host| {
        if endipv6 + 1 < |host| && host[endipv6 + 1] == ':' {
          service := Some(endipv6 + 2);
        }
        node := host[1..endipv6];
      }
    }
    if node == "" {
      var colon := Find(host, ':', 0);
      service := if colon < |host| then Some(colon) else None;
      if service.Some? {
        if Find(host, ':', colon + 1) == |host| {
          node := host[..colon];
          service := Some(colon + 1);
        }
      }
    }
    if node == "" {
      node := host;
    }
    query := Query(CString(node), if service.Some? then Some(CString(host[service.value..])) else None);
  }
}
