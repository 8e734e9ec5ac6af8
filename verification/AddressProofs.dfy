/** Printed addresses are read back whole, and the splitter takes printed addresses apart again. */
module AddressProofs {
  import opened Common
  import opened AddressText

  // ---------------------------------------------------------------- numbers

  lemma DigitReads(d: nat)
    requires d < 16
    ensures Digit(DigitChar(d)) == Some(d)
  {}

  lemma {:induction false} PrintReads(n: nat, base: nat)
    requires 2 <= base <= 16
    ensures Read(Print(n, base), base) == Some(n)
  {
    if n < base {
      DigitReads(n);
    } else {
      hide *;
      PrintReads(n / base, base);
      OneDigitMore(n, base);
    }
  }

  lemma OneDigitMore(n: nat, base: nat)
    requires 2 <= base <= 16 && base <= n && Read(Print(n / base, base), base) == Some(n / base)
    ensures Read(Print(n, base), base) == Some(n)
  {
    hide *;
    PrintMore(n, base);
    DigitReads(n % base);
    ReadMore(Print(n / base, base), DigitChar(n % base), base);
    DivMod(n, base);
  }

  lemma PrintMore(n: nat, base: nat)
    requires 2 <= base <= 16 && base <= n
    ensures n % base < 16 && Print(n, base) == Print(n / base, base) + [DigitChar(n % base)]
  {}

  lemma ReadMore(high: string, c: char, base: nat)
    requires high != "" && Read(high, base).Some? && Digit(c).Some? && Digit(c).value < base
    ensures Read(high + [c], base) == Some(base * Read(high, base).value + Digit(c).value)
  {
    hide Digit;
    var s := high + [c];
    assert s[..|s| - 1] == high;
  }

  lemma DivMod(n: nat, base: nat)
    requires 0 < base
    ensures n == base * (n / base) + n % base
  {}

  lemma GroupIsShort(n: nat)
    requires n < 0x1_0000
    ensures |Print(n, 16)| <= 4
  {
    assert |Print(n / 16 / 16 / 16, 16)| == 1;
    assert |Print(n / 16 / 16, 16)| <= 2;
  }

  lemma QuadIsShort(n: nat)
    requires n < 256
    ensures |Print(n, 10)| <= 3
  {
    assert |Print(n / 10 / 10, 10)| == 1;
    assert |Print(n / 10, 10)| <= 2;
  }

  // ---------------------------------------------------------------- lists of numbers

  lemma {:induction false} NoSeparator(b: string, sep: char)
    requires sep !in b
    ensures Pieces(b, sep) == [b]
  {
    if b != "" {
      NoSeparator(b[..|b| - 1], sep);
      assert b[..|b| - 1] + [b[|b| - 1]] == b;
    }
  }

  lemma PiecesMore(s: string, c: char, sep: char)
    ensures var before := Pieces(s, sep);
      Pieces(s + [c], sep) == if c == sep then before + [""] else before[..|before| - 1] + [before[|before| - 1] + [c]]
  {
    assert (s + [c])[..|s|] == s;
  }

  lemma {:induction false} LastPiece(a: string, sep: char, b: string)
    requires sep !in b
    ensures Pieces(a + [sep] + b, sep) == Pieces(a, sep) + [b]
  {
    hide Pieces;
    if b == "" {
      PiecesMore(a, sep, sep);
      assert a + [sep] + b == a + [sep];
    } else {
      var init, c := b[..|b| - 1], b[|b| - 1];
      LastPiece(a, sep, init);
      PiecesMore(a + [sep] + init, c, sep);
      assert a + [sep] + init + [c] == a + [sep] + b;
      assert init + [c] == b;
      assert (Pieces(a, sep) + [init])[..|Pieces(a, sep)|] == Pieces(a, sep);
    }
  }

  /** The numbers joined are the numbers read, if none is too wide. */
  lemma {:induction false} JoinReads(gs: seq<nat>, base: nat, sep: char, width: nat)
    requires 2 <= base <= 16 && sep !in DIGITS && gs != []
    requires forall g | g in gs :: |Print(g, base)| <= width
    ensures ReadAll(Pieces(Join(gs, base, sep), sep), base, width) == Some(gs)
    decreases |gs|
  {
    hide Print, Read, Pieces;
    var last := gs[|gs| - 1];
    PrintReads(last, base);
    if |gs| == 1 {
      NoSeparator(Print(last, base), sep);
      assert [Print(last, base)][..0] == [] && gs == [] + [last];
    } else {
      var init := gs[..|gs| - 1];
      JoinReads(init, base, sep, width);
      LastPiece(Join(init, base, sep), sep, Print(last, base));
      var before := Pieces(Join(init, base, sep), sep);
      assert (before + [Print(last, base)])[..|before|] == before;
      assert init + [last] == gs;
    }
  }

  /** What a joined list looks like: digits with single separators between them. */
  ghost predicate Tidy(s: string, sep: char) {
    && (forall c | c in s :: c in DIGITS || c == sep)
    && (s != "" ==> s[0] != sep && s[|s| - 1] != sep)
    && forall i | 0 <= i < |s| - 1 :: s[i] != sep || s[i + 1] != sep
  }

  lemma {:induction false} JoinIsTidy(gs: seq<nat>, base: nat, sep: char)
    requires 2 <= base <= 16 && sep !in DIGITS
    ensures Tidy(Join(gs, base, sep), sep) && (gs != [] ==> Join(gs, base, sep) != "")
    decreases |gs|
  {
    hide Print;
    if |gs| > 1 {
      JoinIsTidy(gs[..|gs| - 1], base, sep);
    }
  }

  // ---------------------------------------------------------------- IPv6

  lemma {:induction false} DoubleAfter(s: string, rest: string)
    requires Tidy(s, ':')
    ensures Double(s + "::" + rest) == |s|
  {
    var t := s + "::" + rest;
    if s != "" {
      assert t[1..] == s[1..] + "::" + rest;
      DoubleLater(s, rest);
    }
  }

  /** The same from any place inside. */
  lemma {:induction false} DoubleLater(s: string, rest: string)
    requires s != "" && s[|s| - 1] != ':' && forall i | 0 <= i < |s| - 1 :: s[i] != ':' || s[i + 1] != ':'
    ensures Double(s + "::" + rest) == |s|
  {
    var t := s + "::" + rest;
    assert t[1..] == s[1..] + "::" + rest;
    if |s| > 1 {
      DoubleLater(s[1..], rest);
    } else {
      assert t[1..] == "::" + rest;
    }
  }

  lemma {:induction false} NoDouble(s: string)
    requires forall i | 0 <= i < |s| - 1 :: s[i] != ':' || s[i + 1] != ':'
    ensures Double(s) == |s|
  {
    if s != "" { NoDouble(s[1..]); }
  }

  lemma GroupsRead(gs: seq<nat>)
    requires forall g | g in gs :: g < 0x1_0000
    ensures ReadGroups(Join(gs, 16, ':')) == Some(gs)
  {
    if gs != [] {
      forall g | g in gs ensures |Print(g, 16)| <= 4 { GroupIsShort(g); }
      JoinReads(gs, 16, ':', 4);
      JoinIsTidy(gs, 16, ':');
    }
  }

  predicate ValidGroups(gs: seq<nat>) { |gs| == GROUPS && forall g | g in gs :: g < 0x1_0000 }

  /** The text of every address expands to its eight groups, wherever its zeros are. */
  lemma V6IsLossless(gs: seq<nat>)
    requires ValidGroups(gs)
    ensures Expand(V6Text(gs)) == Some(gs)
  {
    hide Join, ReadGroups, Double, FirstZero, RunEnd;
    var z := FirstZero(gs);
    if z == |gs| {
      JoinIsTidy(gs, 16, ':');
      NoDouble(Join(gs, 16, ':'));
      GroupsRead(gs);
    } else {
      var e := RunEnd(gs, z);
      var left, right := gs[..z], gs[e..];
      var a, b := Join(left, 16, ':'), Join(right, 16, ':');
      JoinIsTidy(left, 16, ':');
      DoubleAfter(a, b);
      assert (forall g | g in left :: g in gs) && (forall g | g in right :: g in gs);
      assert V6Text(gs)[..|a|] == a && V6Text(gs)[|a| + 2..] == b;
      GroupsRead(left);
      GroupsRead(right);
      assert left + Zeros(e - z) + right == gs;
    }
  }

  lemma V6TextChars(gs: seq<nat>)
    requires ValidGroups(gs)
    ensures V6Text(gs) != "" && forall c | c in V6Text(gs) :: c in DIGITS || c == ':'
  {
    hide Join;
    var z := FirstZero(gs);
    JoinIsTidy(gs, 16, ':');
    JoinIsTidy(gs[..z], 16, ':');
    JoinIsTidy(gs[RunEnd(gs, z)..], 16, ':');
  }

  // ---------------------------------------------------------------- IPv4

  lemma V4IsLossless(addr: uint32)
    ensures ReadV4(V4Text(addr)) == Some(addr)
  {
    hide Join, Pieces, ReadAll, Print;
    var q := Quads(addr);
    forall g | g in q ensures |Print(g, 10)| <= 3 { QuadIsShort(g); }
    JoinReads(q, 10, '.', 3);
    QuadsBack(addr);
  }

  lemma QuadsBack(addr: uint32)
    ensures var q := Quads(addr); addr == q[0] * 0x100_0000 + q[1] * 0x1_0000 + q[2] * 0x100 + q[3]
  {
    assert addr == addr / 0x100 * 0x100 + addr % 0x100;
    assert addr / 0x100 == addr / 0x1_0000 * 0x100 + addr / 0x100 % 0x100;
    assert addr / 0x1_0000 == addr / 0x100_0000 * 0x100 + addr / 0x1_0000 % 0x100;
  }

  // ---------------------------------------------------------------- the splitter

  lemma {:induction false} FindIs(s: string, c: char, from: nat, k: nat)
    requires from <= k <= |s| && (forall i | from <= i < k :: s[i] != c) && (k < |s| ==> s[k] == c)
    ensures Find(s, c, from) == k
  {}

  /** No NUL inside: the C string is the string. */
  lemma WholeCString(s: string)
    requires '\0' !in s
    ensures CString(s) == s
  {
    FindIs(s, '\0', 0, |s|);
  }

  /** An address in brackets and the service behind it, whatever they are. */
  lemma BracketedSplits(t: string, p: string)
    requires t != "" && ']' !in t
    ensures QueryFor("[" + t + "]:" + p) == Query(CString(t), Some(CString(p)))
  {
    hide Find, CString;
    var host := "[" + t + "]:" + p;
    FindIs(host, ']', 1, 1 + |t|);
    assert host[1..1 + |t|] == t && host[|t| + 3..] == p;
  }

  /** Host and service with one colon between them. */
  lemma PlainSplits(h: string, p: string)
    requires h != "" && h[0] != '[' && ':' !in h && ':' !in p
    ensures QueryFor(h + ":" + p) == Query(CString(h), Some(CString(p)))
  {
    hide Find, CString;
    var host := h + ":" + p;
    FindIs(host, ':', 0, |h|);
    FindIs(host, ':', |h| + 1, |host|);
    assert host[..|h|] == h && host[|h| + 1..] == p;
  }

  /** What is printed for an IPv6 address and port is split into exactly the address text and the port text, and
      these are read back as the address and the port. */
  lemma V6SplitsBack(gs: seq<nat>, port: uint16)
    requires ValidGroups(gs)
    ensures QueryFor("[" + V6Text(gs) + "]:" + Print(port, 10)) == Query(V6Text(gs), Some(Print(port, 10)))
    ensures Expand(V6Text(gs)) == Some(gs) && Read(Print(port, 10), 10) == Some(port)
  {
    hide V6Text, Print, QueryFor;
    V6TextChars(gs);
    BracketedSplits(V6Text(gs), Print(port, 10));
    WholeCString(V6Text(gs));
    WholeCString(Print(port, 10));
    V6IsLossless(gs);
    PrintReads(port, 10);
  }

  lemma V4SplitsBack(addr: uint32, port: uint16)
    ensures QueryFor(V4Text(addr) + ":" + Print(port, 10)) == Query(V4Text(addr), Some(Print(port, 10)))
    ensures ReadV4(V4Text(addr)) == Some(addr) && Read(Print(port, 10), 10) == Some(port)
  {
    hide Join, Print, QueryFor;
    JoinIsTidy(Quads(addr), 10, '.');
    assert V4Text(addr)[0] in V4Text(addr);
    PlainSplits(V4Text(addr), Print(port, 10));
    WholeCString(V4Text(addr));
    WholeCString(Print(port, 10));
    V4IsLossless(addr);
    PrintReads(port, 10);
  }

  /** The service that reaches `getaddrinfo` begins with a colon exactly when the text outside brackets has two. */
  lemma ServiceKeepsColonIff(host: string)
    requires !Bracketed(host)
    ensures var service := QueryFor(host).service;
      (service.Some? && service.value != "" && service.value[0] == ':') <==>
      exists i, j :: 0 <= i < j < |host| && host[i] == ':' && host[j] == ':'
  {
    var colon := Find(host, ':', 0);
    if colon < |host| {
      var second := Find(host, ':', colon + 1);
      if second < |host| {
        assert host[colon] == ':' && host[second] == ':';
        assert Find(host[colon..], '\0', 0) > 0;
      } else {
        var service := CString(host[colon + 1..]);
        assert forall i | 0 <= i < |service| :: service[i] == host[colon + 1 + i];
      }
    }
  }

  /** So the text of an IPv6 address without its brackets is always handed over with such a service. */
  lemma BareV6KeepsColon(gs: seq<nat>)
    requires ValidGroups(gs)
    ensures var service := QueryFor(V6Text(gs)).service; service.Some? && service.value != "" && service.value[0] == ':'
  {
    hide Join, QueryFor;
    V6TextChars(gs);
    var t, z := V6Text(gs), FirstZero(gs);
    assert t[0] in t;
    ServiceKeepsColonIff(t);
    if z < |gs| {
      var a := Join(gs[..z], 16, ':');
      assert t[|a|] == ':' && t[|a| + 1] == ':';
    } else {
      TwoColons(gs);
    }
  }

  lemma TwoColons(gs: seq<nat>)
    requires |gs| == GROUPS
    ensures exists i, j ::
      0 <= i < j < |Join(gs, 16, ':')| && Join(gs, 16, ':')[i] == ':' && Join(gs, 16, ':')[j] == ':'
  {
    hide Print;
    var one, two := Join(gs[..6], 16, ':'), Join(gs[..7], 16, ':');
    assert gs[..7][..6] == gs[..6] && gs[..8][..7] == gs[..7] && gs[..8] == gs;
    assert two == one + ":" + Print(gs[6], 16);
    assert Join(gs, 16, ':') == two + ":" + Print(gs[7], 16);
    assert Join(gs, 16, ':')[|one|] == ':' && Join(gs, 16, ':')[|two|] == ':';
  }

  /** A service with no host is looked up with the whole text as its host. */
  lemma NoHostNamesItself(p: string)
    requires ':' !in p
    ensures QueryFor(":" + p) == Query(CString(":" + p), Some(CString(p)))
  {
    hide Find, CString;
    var host := ":" + p;
    FindIs(host, ':', 0, 0);
    FindIs(host, ':', 1, |host|);
    assert host[1..] == p;
  }
}
