/** Every host text that the splitter may be given, case by case; and what printed numbers and zero runs look like. */
module AddressCases {
  import opened Common
  import opened AddressText
  import opened AddressProofs

  // ---------------------------------------------------------------- the splitter

  /** Where a NUL cuts a text short. */
  lemma CStringIs(s: string, t: string)
    requires '\0' !in s
    ensures CString(s) == s && CString(s + "\0" + t) == s
  {
    hide Find;
    WholeCString(s);
    var whole := s + "\0" + t;
    FindIs(whole, '\0', 0, |s|);
    assert whole[..|s|] == s;
  }

  /** In brackets with no colon right behind: the node is what they enclose, and there is no service. */
  lemma BracketedAlone(t: string, rest: string)
    requires t != "" && ']' !in t && (rest == "" || rest[0] != ':')
    ensures QueryFor("[" + t + "]" + rest) == Query(CString(t), None)
  {
    hide Find, CString;
    var host := "[" + t + "]" + rest;
    FindIs(host, ']', 1, 1 + |t|);
    assert host[1..1 + |t|] == t;
    assert rest != "" ==> host[|t| + 2] == rest[0];
  }

  /** Which texts count as bracketed: an opening bracket, something, and a closing one. */
  lemma BracketedIff(host: string)
    ensures Bracketed(host) <==>
      exists k | 1 < k < |host| :: host[0] == '[' && host[k] == ']' && forall i | 1 <= i < k :: host[i] != ']'
  {
    if Bracketed(host) {
      var k := Find(host, ']', 1);
      assert host[k] == ']';
    } else if k :| 1 < k < |host| && host[0] == '[' && host[k] == ']' && forall i | 1 <= i < k :: host[i] != ']' {
      FindIs(host, ']', 1, k);
      assert false;
    }
  }

  /** Without brackets and without a colon the whole text is the node, and there is no service. */
  lemma NoColon(host: string)
    requires !Bracketed(host) && ':' !in host
    ensures QueryFor(host) == Query(CString(host), None)
  {
    FindIs(host, ':', 0, |host|);
  }

  /** One colon separates node and service. */
  lemma OneColon(h: string, p: string)
    requires h != "" && ':' !in h && ':' !in p && !Bracketed(h + ":" + p)
    ensures QueryFor(h + ":" + p) == Query(CString(h), Some(CString(p)))
  {
    hide Find, CString;
    var host := h + ":" + p;
    FindIs(host, ':', 0, |h|);
    FindIs(host, ':', |h| + 1, |host|);
    assert host[..|h|] == h && host[|h| + 1..] == p;
  }

  /** With more colons the whole text is the node, and the service begins with the first colon. */
  lemma MoreColons(h: string, p: string)
    requires ':' !in h && ':' in p && !Bracketed(h + ":" + p)
    ensures QueryFor(h + ":" + p) == Query(CString(h + ":" + p), Some(CString(":" + p)))
  {
    hide Find, CString;
    var host := h + ":" + p;
    FindIs(host, ':', 0, |h|);
    var k :| 0 <= k < |p| && p[k] == ':';
    assert host[|h| + 1 + k] == ':';
    assert host[|h|..] == ":" + p;
  }

  /** The cases leave no text out. */
  lemma NoOtherHost(host: string)
    ensures
      || (exists t, rest :: t != "" && ']' !in t && host == "[" + t + "]" + rest)
      || (!Bracketed(host) && ':' !in host)
      || (!Bracketed(host) && exists h, p :: ':' !in h && host == h + ":" + p)
  {
    if Bracketed(host) {
      var k := Find(host, ']', 1);
      var t, rest := host[1..k], host[k + 1..];
      assert t != "" && ']' !in t && host == "[" + t + "]" + rest;
    } else if ':' in host {
      var k := Find(host, ':', 0);
      var h, p := host[..k], host[k + 1..];
      assert ':' !in h && host == h + ":" + p;
    }
  }

  // ---------------------------------------------------------------- numbers and zero runs

  lemma DigitIsPlain(d: nat)
    requires d < 16
    ensures var c := DigitChar(d); ('0' <= c <= '9' || 'a' <= c <= 'f') && (c == '0' <==> d == 0)
  {}

  lemma PrintsDigit(n: nat, base: nat)
    requires 2 <= base <= 16 && n < base
    ensures Print(n, base) == [DigitChar(n)]
  {}

  /** Numbers are printed in lower case, without leading zeros. */
  lemma {:induction false} PrintIsPlain(n: nat, base: nat)
    requires 2 <= base <= 16
    ensures forall c | c in Print(n, base) :: '0' <= c <= '9' || 'a' <= c <= 'f'
    ensures Print(n, base)[0] == '0' <==> n == 0
  {
    hide *;
    if n < base {
      PrintsDigit(n, base);
      DigitIsPlain(n);
    } else {
      PrintIsPlain(n / base, base);
      PrintMore(n, base);
      DigitIsPlain(n % base);
      assert n / base > 0;
    }
  }

  /** The "::" of a printed IPv6 address stands for the first run of zero groups, and for all of that run: no zero
      group comes before it, and the group behind it is not zero. Without "::" no group is zero. */
  lemma DoubleIsFirstRun(gs: seq<nat>)
    requires ValidGroups(gs)
    ensures var (s, k) := (V6Text(gs), Double(V6Text(gs)));
      if k + 2 > |s| then 0 !in gs
      else
        var (left, right) := (ReadGroups(s[..k]), ReadGroups(s[k + 2..]));
        && left.Some? && right.Some? && 0 !in left.value && (right.value != [] ==> right.value[0] != 0)
        && |left.value| + |right.value| < GROUPS
        && left.value <= gs && right.value == gs[GROUPS - |right.value|..]
        && forall i | |left.value| <= i < GROUPS - |right.value| :: gs[i] == 0
  {
    hide Join, ReadGroups, Double, FirstZero, RunEnd;
    var z := FirstZero(gs);
    if z == |gs| {
      JoinIsTidy(gs, 16, ':');
      NoDouble(Join(gs, 16, ':'));
    } else {
      var e := RunEnd(gs, z);
      var left, right := gs[..z], gs[e..];
      var a, b := Join(left, 16, ':'), Join(right, 16, ':');
      JoinIsTidy(left, 16, ':');
      DoubleAfter(a, b);
      assert (forall g | g in left :: g in gs) && (forall g | g in right :: g in gs);
      assert V6Text(gs)[..|a|] == a && V6Text(gs)[|a| + 2..] == b;
      GroupsRead(left);
      GroupsRead(right);
    }
  }

  lemma Loopback()
    ensures V4Text(0x7F00_0001) == "127.0.0.1"
  {
    hide *;
    LoopbackQuads();
    DottedQuad([127, 0, 0, 1]);
    SmallPrints();
    V4TextIs(0x7F00_0001);
    Dotted("127", "0", "1");
  }

  lemma LoopbackQuads()
    ensures Quads(0x7F00_0001) == [127, 0, 0, 1]
  {}

  lemma Dotted(a: string, b: string, c: string)
    requires a == "127" && b == "0" && c == "1"
    ensures a + "." + b + "." + b + "." + c == "127.0.0.1"
  {}

  lemma V4TextIs(addr: uint32)
    ensures V4Text(addr) == Join(Quads(addr), 10, '.')
  {
    hide Join, Quads;
  }

  lemma SmallPrints()
    ensures Print(127, 10) == "127" && Print(0, 10) == "0" && Print(1, 10) == "1"
  {
    assert Print(12, 10) == "12";
  }

  /** Four numbers with dots between them, the most significant first. */
  lemma DottedQuad(q: seq<nat>)
    requires |q| == 4
    ensures Join(q, 10, '.') == Print(q[0], 10) + "." + Print(q[1], 10) + "." + Print(q[2], 10) + "." + Print(q[3], 10)
  {
    hide Print;
    assert q[..3][..2] == q[..2] && q[..2][..1] == q[..1] && |q[..1]| == 1;
    assert Join(q[..1], 10, '.') == Print(q[0], 10);
    assert Join(q[..2], 10, '.') == Print(q[0], 10) + "." + Print(q[1], 10);
    assert Join(q[..3], 10, '.') == Join(q[..2], 10, '.') + "." + Print(q[2], 10);
  }
}
