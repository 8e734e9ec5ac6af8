/** Socket addresses as text: the printers, a reader for what they print after section 2.2 of RFC 4291, and the
    host:service splitter. Groups and ports are in host byte order. */
module AddressText {
  import opened Common

  const GROUPS: nat := 8

  // ---------------------------------------------------------------- numbers

  const DIGITS := "0123456789abcdef"

  function DigitChar(d: nat): (c: char)
    requires d < 16
    ensures c in DIGITS
  {
    DIGITS[d]
  }

  /** `n` in base `base`, without leading zeros. */
  function Print(n: nat, base: nat): (s: string)
    requires 2 <= base <= 16
    ensures s != "" && forall c | c in s :: c in DIGITS
  {
    if n < base then [DigitChar(n)] else Print(n / base, base) + [DigitChar(n % base)]
  }

  function Digit(c: char): (d: Option<nat>)
    ensures d.Some? ==> d.value < 16
  {
    if '0' <= c <= '9' then Some(c as nat - '0' as nat)
    else if 'a' <= c <= 'f' then Some(c as nat - 'a' as nat + 10)
    else if 'A' <= c <= 'F' then Some(c as nat - 'A' as nat + 10)
    else None
  }

  /** The value of a string of digits below `base`; None if it is empty or has another character. */
  function Read(s: string, base: nat): Option<nat> {
    if s == "" then None
    else
      match Digit(s[|s| - 1])
      case None => None
      case Some(d) =>
        if d >= base then None
        else if |s| == 1 then Some(d)
        else match Read(s[..|s| - 1], base) case None => None case Some(high) => Some(base * high + d)
  }

  // ---------------------------------------------------------------- lists of numbers

  /** The numbers, printed and joined by `sep`. */
  function Join(gs: seq<nat>, base: nat, sep: char): string
    requires 2 <= base <= 16
  {
    if gs == [] then ""
    else if |gs| == 1 then Print(gs[0], base)
    else Join(gs[..|gs| - 1], base, sep) + [sep] + Print(gs[|gs| - 1], base)
  }

  /** The pieces of `s` between the separators; there is one more piece than separators. */
  function Pieces(s: string, sep: char): (r: seq<string>)
    ensures r != []
  {
    if s == "" then [""]
    else
      var last, before := s[|s| - 1], Pieces(s[..|s| - 1], sep);
      if last == sep then before + [""] else before[..|before| - 1] + [before[|before| - 1] + [last]]
  }

  /** All the pieces as numbers of at most `width` digits. */
  function ReadAll(pieces: seq<string>, base: nat, width: nat): Option<seq<nat>> {
    if pieces == [] then Some([])
    else
      var last := pieces[|pieces| - 1];
      match ReadAll(pieces[..|pieces| - 1], base, width)
      case None => None
      case Some(before) =>
        if |last| > width then None
        else match Read(last, base) case None => None case Some(n) => Some(before + [n])
  }

  // ---------------------------------------------------------------- IPv6

  /** Hexadecimal groups between colons; none at all is the empty text. */
  function ReadGroups(s: string): Option<seq<nat>> {
    if s == "" then Some([]) else ReadAll(Pieces(s, ':'), 16, 4)
  }

  function Zeros(n: nat): (r: seq<nat>)
    ensures |r| == n && forall i | 0 <= i < n :: r[i] == 0
  {
    seq(n, _ => 0)
  }

  /** Where "::" first occurs, or the length. */
  function Double(s: string): (k: nat)
    ensures k <= |s|
  {
    if s == "" then 0 else if |s| >= 2 && s[0] == ':' && s[1] == ':' then 0 else 1 + Double(s[1..])
  }

  /** Section 2.2 of RFC 4291, forms 1 and 2: eight groups, or fewer with one "::" for one or more groups of zeros. */
  function Expand(s: string): Option<seq<nat>> {
    var k := Double(s);
    if k + 2 > |s| then
      match ReadGroups(s)
      case Some(gs) => if |gs| == GROUPS then Some(gs) else None
      case None => None
    else
      match (ReadGroups(s[..k]), ReadGroups(s[k + 2..]))
      case (Some(left), Some(right)) =>
        if |left| + |right| < GROUPS then Some(left + Zeros(GROUPS - |left| - |right|) + right) else None
      case _ => None
  }

  /** The position of the first zero group, or the number of groups. */
  function FirstZero(gs: seq<nat>): (z: nat)
    ensures z <= |gs| && (forall i | 0 <= i < z :: gs[i] != 0) && (z < |gs| ==> gs[z] == 0)
  {
    if gs == [] || gs[0] == 0 then 0 else 1 + FirstZero(gs[1..])
  }

  /** The end of the run of zero groups that begins at `z`. */
  function RunEnd(gs: seq<nat>, z: nat): (e: nat)
    requires z <= |gs|
    ensures z <= e <= |gs| && (forall i | z <= i < e :: gs[i] == 0) && (e < |gs| ==> gs[e] != 0)
    decreases |gs| - z
  {
    if z == |gs| || gs[z] != 0 then z else RunEnd(gs, z + 1)
  }

  /** The text of eight groups: the first run of zeros, however short, is written "::". */
  function V6Text(gs: seq<nat>): string {
    var z := FirstZero(gs);
    if z == |gs| then Join(gs, 16, ':')
    else Join(gs[..z], 16, ':') + "::" + Join(gs[RunEnd(gs, z)..], 16, ':')
  }

  // ---------------------------------------------------------------- IPv4

  /** The four bytes, the most significant first. */
  function Quads(addr: uint32): (r: seq<nat>)
    ensures |r| == 4 && forall i | 0 <= i < 4 :: r[i] < 256
  {
    [addr / 0x100_0000 % 256, addr / 0x1_0000 % 256, addr / 0x100 % 256, addr % 256]
  }

  function V4Text(addr: uint32): string { Join(Quads(addr), 10, '.') }

  function ReadV4(s: string): Option<nat> {
    match ReadAll(Pieces(s, '.'), 10, 3)
    case Some(q) =>
      if |q| == 4 && q[0] < 256 && q[1] < 256 && q[2] < 256 && q[3] < 256
      then Some(q[0] * 0x100_0000 + q[1] * 0x1_0000 + q[2] * 0x100 + q[3])
      else None
    case None => None
  }

  // ---------------------------------------------------------------- splitting host and service

  /** Where `c` first occurs in `s` from `from` on, or the length: `memchr`. */
  function Find(s: string, c: char, from: nat): (k: nat)
    requires from <= |s|
    ensures from <= k <= |s| && (forall i | from <= i < k :: s[i] != c) && (k < |s| ==> s[k] == c)
    decreases |s| - from
  {
    if from == |s| || s[from] == c then from else Find(s, c, from + 1)
  }

  /** A C string ends at its first NUL. */
  function CString(s: string): string { s[..Find(s, '\0', 0)] }

  /** What `getaddrinfo` is given. */
  datatype Query = Query(node: string, service: Option<string>)

  predicate Bracketed(host: string) { host != "" && host[0] == '[' && 1 < Find(host, ']', 1) < |host| }

  /** How `Lookup` reads a host text. In brackets, the node is what they enclose, and a service follows the colon right
      behind them. Otherwise a single colon separates node and service; with more colons the node is the whole text,
      and yet the service is everything from the first colon on. An empty node stands for the whole text. */
  function QueryFor(host: string): Query {
    var close, colon := if host == "" then 0 else Find(host, ']', 1), Find(host, ':', 0);
    if Bracketed(host) then
      Query(CString(host[1..close]),
            if close + 1 < |host| && host[close + 1] == ':' then Some(CString(host[close + 2..])) else None)
    else if colon == |host| then Query(CString(host), None)
    else if Find(host, ':', colon + 1) < |host| then Query(CString(host), Some(CString(host[colon..])))
    else Query(CString(if colon == 0 then host else host[..colon]), Some(CString(host[colon + 1..])))
  }
}
