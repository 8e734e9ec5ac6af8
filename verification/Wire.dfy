/** The wire format under the generated messages: base 128 varints, tags, and length-delimited and fixed-width
    records, after the Protocol Buffers Encoding specification, sections "Base 128 Varints", "Message Structure"
    and "Length-Delimited Records". A read returns what it read and the bytes that follow. */
module Wire {
  import opened Common

  const TWO_32: int := 0x1_0000_0000
  const TWO_64: int := 0x1_0000_0000_0000_0000
  const VARINT_BYTES: nat := 10
  const TAG_BYTES: nat := 5

  type Bytes = seq<byte>
  type uint64 = n: int | 0 <= n < TWO_64

  /** Field numbers have 29 bits, and 0 is none. */
  type FieldNumber = n: int | 1 <= n < 0x2000_0000 witness 1

  datatype Payload = Varint(value: uint64) | Fixed64(bytes: Bytes) | Length(data: Bytes) | Fixed32(bytes: Bytes)

  /** One record: what a known field, or an unknown one that is kept, looks like on the wire. */
  datatype Field = Field(number: FieldNumber, payload: Payload)

  /** A fixed-width payload has its width, and a length is a varint's worth. */
  predicate ValidField(f: Field) {
    match f.payload
    case Varint(_) => true
    case Fixed64(bytes) => |bytes| == 8
    case Length(data) => |data| < TWO_64
    case Fixed32(bytes) => |bytes| == 4
  }

  function WireCode(p: Payload): (code: nat)
    ensures code < 8
  {
    match p
    case Varint(_) => 0
    case Fixed64(_) => 1
    case Length(_) => 2
    case Fixed32(_) => 5
  }

  function Tag(f: Field): (tag: nat)
    ensures 8 <= tag < TWO_32 && tag / 8 == f.number && tag % 8 == WireCode(f.payload)
  {
    f.number * 8 + WireCode(f.payload)
  }

  // ---------------------------------------------------------------- writing

  function WriteVarint(n: nat): (b: Bytes)
    ensures |b| == VarintSize(n)
  {
    if n < 128 then [n] else [128 + n % 128] + WriteVarint(n / 128)
  }

  function VarintSize(n: nat): (size: nat)
    ensures 1 <= size
  {
    if n < 128 then 1 else 1 + VarintSize(n / 128)
  }

  function WritePayload(p: Payload): Bytes {
    match p
    case Varint(value) => WriteVarint(value)
    case Fixed64(bytes) => bytes
    case Length(data) => WriteVarint(|data|) + data
    case Fixed32(bytes) => bytes
  }

  function WriteField(f: Field): (b: Bytes)
    ensures 0 < |b|
  {
    WriteVarint(Tag(f)) + WritePayload(f.payload)
  }

  function WriteFields(fs: seq<Field>): Bytes {
    if fs == [] then [] else WriteField(fs[0]) + WriteFields(fs[1..])
  }

  function FieldSize(f: Field): nat {
    VarintSize(Tag(f)) +
    match f.payload
    case Varint(value) => VarintSize(value)
    case Length(data) => VarintSize(|data|) + |data|
    case Fixed64(bytes) => |bytes|
    case Fixed32(bytes) => |bytes|
  }

  // ---------------------------------------------------------------- reading

  /** A varint of at most `budget` bytes, as an unbounded number. */
  function ReadVarint(b: Bytes, budget: nat): (r: Option<(nat, Bytes)>)
    ensures r.Some? ==> |r.value.1| < |b|
  {
    if b == [] || budget == 0 then None
    else if b[0] < 128 then Some((b[0], b[1..]))
    else
      match ReadVarint(b[1..], budget - 1)
      case None => None
      case Some((high, rest)) => Some((b[0] - 128 + 128 * high, rest))
  }

  function ReadTag(b: Bytes): (r: Option<(nat, Bytes)>)
    ensures r.Some? ==> r.value.0 < TWO_32 && |r.value.1| < |b|
  {
    match ReadVarint(b, TAG_BYTES)
    case None => None
    case Some((n, rest)) => Some((n % TWO_32, rest))
  }

  function ReadVarint64(b: Bytes): (r: Option<(uint64, Bytes)>)
    ensures r.Some? ==> |r.value.1| < |b|
  {
    match ReadVarint(b, VARINT_BYTES)
    case None => None
    case Some((n, rest)) => Some((n % TWO_64, rest))
  }

  function ReadVarint32(b: Bytes): (r: Option<(nat, Bytes)>)
    ensures r.Some? ==> r.value.0 < TWO_32 && |r.value.1| < |b|
  {
    match ReadVarint(b, VARINT_BYTES)
    case None => None
    case Some((n, rest)) => Some((n % TWO_32, rest))
  }

  function Split(b: Bytes, n: nat): (r: Option<(Bytes, Bytes)>)
    ensures r.Some? ==> |r.value.0| == n && |r.value.1| <= |b|
  {
    if n <= |b| then Some((b[..n], b[n..])) else None
  }

  function ReadLength(b: Bytes): (r: Option<(Bytes, Bytes)>)
    ensures r.Some? ==> |r.value.0| < TWO_64 && |r.value.1| < |b|
  {
    match ReadVarint64(b)
    case None => None
    case Some((n, rest)) => Split(rest, n)
  }

  /** The value after a tag with wire code `code`; groups and the unassigned codes are refused. */
  function ReadPayload(code: nat, b: Bytes): (r: Option<(Payload, Bytes)>)
    ensures r.Some? ==> |r.value.1| <= |b| && WireCode(r.value.0) == code
  {
    if code == 0 then
      match ReadVarint64(b)
      case None => None
      case Some((n, rest)) => Some((Varint(n), rest))
    else if code == 1 then
      match Split(b, 8)
      case None => None
      case Some((bytes, rest)) => Some((Fixed64(bytes), rest))
    else if code == 2 then
      match ReadLength(b)
      case None => None
      case Some((data, rest)) => Some((Length(data), rest))
    else if code == 5 then
      match Split(b, 4)
      case None => None
      case Some((bytes, rest)) => Some((Fixed32(bytes), rest))
    else None
  }

  function ReadField(b: Bytes): (r: Option<(Field, Bytes)>)
    ensures r.Some? ==> |r.value.1| < |b| && ValidField(r.value.0)
  {
    match ReadTag(b)
    case None => None
    case Some((tag, rest)) =>
      if tag / 8 == 0 then None
      else
        match ReadPayload(tag % 8, rest)
        case None => None
        case Some((payload, rest)) => Some((Field(tag / 8, payload), rest))
  }

  function ReadFields(b: Bytes): Option<seq<Field>>
    decreases |b|
  {
    if b == [] then Some([])
    else
      match ReadField(b)
      case None => None
      case Some((f, rest)) =>
        match ReadFields(rest)
        case None => None
        case Some(fs) => Some([f] + fs)
  }

  // ---------------------------------------------------------------- round trips

  lemma {:induction false} VarintRoundTrip(n: nat, budget: nat, rest: Bytes)
    requires VarintSize(n) <= budget
    ensures ReadVarint(WriteVarint(n) + rest, budget) == Some((n, rest))
  {
    var b := WriteVarint(n) + rest;
    if n < 128 {
      assert b[1..] == rest;
    } else {
      VarintRoundTrip(n / 128, budget - 1, rest);
      assert b[1..] == WriteVarint(n / 128) + rest;
    }
  }

  /** 128 to the power `k`. */
  function Power128(k: nat): (p: nat)
    ensures 0 < p
  {
    if k == 0 then 1 else 128 * Power128(k - 1)
  }

  /** The size counts the groups of seven bits. */
  lemma {:induction false} VarintSizeIs(n: nat, k: nat)
    requires 0 < k
    ensures VarintSize(n) <= k <==> n < Power128(k)
  {
    if n < 128 {
      PowerGrows(k);
    } else if k > 1 {
      VarintSizeIs(n / 128, k - 1);
      assert n / 128 < Power128(k - 1) <==> n < 128 * Power128(k - 1);
    }
  }

  lemma {:induction false} PowerGrows(k: nat)
    requires 0 < k
    ensures 128 <= Power128(k)
  {
    if k > 1 { PowerGrows(k - 1); }
  }

  lemma Power128Values()
    ensures Power128(5) == 0x8_0000_0000 && Power128(9) == 0x8000_0000_0000_0000 && TWO_64 <= Power128(10)
  {
    assert Power128(2) == 128 * Power128(1);
    assert Power128(4) == 128 * Power128(3);
    assert Power128(6) == 128 * Power128(5);
    assert Power128(8) == 128 * Power128(7);
    assert Power128(10) == 128 * Power128(9);
  }

  lemma TagRoundTrip(f: Field, rest: Bytes)
    ensures ReadTag(WriteVarint(Tag(f)) + rest) == Some((Tag(f), rest))
  {
    Power128Values();
    VarintSizeIs(Tag(f), TAG_BYTES);
    VarintRoundTrip(Tag(f), TAG_BYTES, rest);
  }

  lemma Varint64RoundTrip(n: uint64, rest: Bytes)
    ensures ReadVarint64(WriteVarint(n) + rest) == Some((n, rest))
  {
    hide ReadVarint, WriteVarint, VarintSize;
    FitsTen(n);
    VarintRoundTrip(n, VARINT_BYTES, rest);
  }

  lemma FitsTen(n: uint64)
    ensures VarintSize(n) <= VARINT_BYTES
  {
    hide VarintSize;
    Power128Values();
    VarintSizeIs(n, VARINT_BYTES);
  }

  lemma PayloadRoundTrip(f: Field, rest: Bytes)
    requires ValidField(f)
    ensures ReadPayload(WireCode(f.payload), WritePayload(f.payload) + rest) == Some((f.payload, rest))
  {
    var b := WritePayload(f.payload) + rest;
    match f.payload
    case Varint(value) => Varint64RoundTrip(value, rest);
    case Fixed64(bytes) => assert b[..8] == bytes && b[8..] == rest;
    case Fixed32(bytes) => assert b[..4] == bytes && b[4..] == rest;
    case Length(data) =>
      Varint64RoundTrip(|data|, data + rest);
      assert b == WriteVarint(|data|) + (data + rest);
      assert (data + rest)[..|data|] == data && (data + rest)[|data|..] == rest;
  }

  lemma FieldRoundTrip(f: Field, rest: Bytes)
    requires ValidField(f)
    ensures ReadField(WriteField(f) + rest) == Some((f, rest))
  {
    TagRoundTrip(f, WritePayload(f.payload) + rest);
    PayloadRoundTrip(f, rest);
    assert WriteField(f) + rest == WriteVarint(Tag(f)) + (WritePayload(f.payload) + rest);
  }

  /** Whatever was written is read back, and reading goes on with what follows. */
  lemma {:induction false} FieldsRoundTrip(fs: seq<Field>, rest: Bytes)
    requires forall f | f in fs :: ValidField(f)
    ensures ReadFields(WriteFields(fs) + rest) ==
      match ReadFields(rest) case None => None case Some(more) => Some(fs + more)
  {
    hide ReadField, WriteField, ValidField;
    if fs == [] {
      assert WriteFields(fs) + rest == rest;
      if ReadFields(rest).Some? { assert fs + ReadFields(rest).value == ReadFields(rest).value; }
    } else {
      var tail := WriteFields(fs[1..]) + rest;
      FieldRoundTrip(fs[0], tail);
      FieldsRoundTrip(fs[1..], rest);
      assert WriteFields(fs) + rest == WriteField(fs[0]) + tail;
      ReadFieldsStep(WriteField(fs[0]) + tail, fs[0], tail);
      if ReadFields(rest).Some? { assert [fs[0]] + (fs[1..] + ReadFields(rest).value) == fs + ReadFields(rest).value; }
    }
  }

  lemma ReadFieldsStep(b: Bytes, f: Field, rest: Bytes)
    requires ReadField(b) == Some((f, rest))
    ensures ReadFields(b) == match ReadFields(rest) case None => None case Some(fs) => Some([f] + fs)
  {
    hide ReadField;
  }

  // ---------------------------------------------------------------- concatenation

  lemma {:induction false} VarintThenMore(a: Bytes, budget: nat, b: Bytes)
    requires ReadVarint(a, budget).Some?
    ensures var (n, rest) := ReadVarint(a, budget).value; ReadVarint(a + b, budget) == Some((n, rest + b))
  {
    assert (a + b)[1..] == a[1..] + b;
    if a[0] >= 128 { VarintThenMore(a[1..], budget - 1, b); }
  }

  lemma FieldThenMore(a: Bytes, b: Bytes)
    requires ReadField(a).Some?
    ensures var (f, rest) := ReadField(a).value; ReadField(a + b) == Some((f, rest + b))
  {
    VarintThenMore(a, TAG_BYTES, b);
    var (tag, rest) := ReadTag(a).value;
    PayloadThenMore(tag % 8, rest, b);
  }

  lemma SplitThenMore(a: Bytes, n: nat, b: Bytes)
    requires n <= |a|
    ensures Split(a + b, n) == Some((a[..n], a[n..] + b))
  {
    assert (a + b)[..n] == a[..n] && (a + b)[n..] == a[n..] + b;
  }

  lemma PayloadThenMore(code: nat, a: Bytes, b: Bytes)
    requires ReadPayload(code, a).Some?
    ensures var (p, rest) := ReadPayload(code, a).value; ReadPayload(code, a + b) == Some((p, rest + b))
  {
    if code == 0 || code == 2 { VarintThenMore(a, VARINT_BYTES, b); }
    if code == 1 { SplitThenMore(a, 8, b); }
    if code == 5 { SplitThenMore(a, 4, b); }
    if code == 2 { SplitThenMore(ReadVarint64(a).value.1, ReadVarint64(a).value.0, b); }
  }

  /** Any byte string that reads as records reads as the same records when more follows. */
  lemma {:induction false} FieldsThenMore(a: Bytes, b: Bytes)
    requires ReadFields(a).Some?
    ensures ReadFields(a + b) ==
      match ReadFields(b) case None => None case Some(more) => Some(ReadFields(a).value + more)
    decreases |a|
  {
    hide ReadField;
    if a == [] {
      assert a + b == b;
      if ReadFields(b).Some? { assert [] + ReadFields(b).value == ReadFields(b).value; }
    } else {
      FieldThenMore(a, b);
      var (f, rest) := ReadField(a).value;
      FieldsThenMore(rest, b);
      ReadFieldsStep(a, f, rest);
      ReadFieldsStep(a + b, f, rest + b);
      if ReadFields(b).Some? {
        assert [f] + (ReadFields(rest).value + ReadFields(b).value) ==
          [f] + ReadFields(rest).value + ReadFields(b).value;
      }
    }
  }

  // ---------------------------------------------------------------- sizes

  function FieldsSize(fs: seq<Field>): nat {
    if fs == [] then 0 else FieldSize(fs[0]) + FieldsSize(fs[1..])
  }

  lemma {:induction false} FieldsSizeIs(fs: seq<Field>)
    ensures |WriteFields(fs)| == FieldsSize(fs)
  {
    if fs != [] {
      assert |WriteField(fs[0])| == FieldSize(fs[0]);
      FieldsSizeIs(fs[1..]);
    }
  }

  lemma ModOfMod(n: nat)
    ensures n % TWO_64 % TWO_32 == n % TWO_32
  {
    var r, x := n % TWO_64, n / TWO_64 * TWO_32;
    assert n == r + x * TWO_32;
    AddMultiple(r, x);
  }

  lemma AddMultiple(r: nat, x: nat)
    ensures (r + x * TWO_32) % TWO_32 == r % TWO_32
  {
    assert r + x * TWO_32 == (r / TWO_32 + x) * TWO_32 + r % TWO_32;
  }

  /** The 32-bit reader keeps the low half of what the 64-bit one reads. */
  lemma LowHalf(b: Bytes)
    ensures ReadVarint32(b) == match ReadVarint64(b) case None => None case Some((n, rest)) => Some((n % TWO_32, rest))
  {
    hide ReadVarint;
    if ReadVarint(b, VARINT_BYTES).Some? { ModOfMod(ReadVarint(b, VARINT_BYTES).value.0); }
  }

  lemma {:induction false} WriteFieldsAppend(fs: seq<Field>, gs: seq<Field>)
    ensures WriteFields(fs + gs) == WriteFields(fs) + WriteFields(gs)
  {
    hide WriteField;
    if fs == [] {
      assert fs + gs == gs;
    } else {
      WriteFieldsAppend(fs[1..], gs);
      assert (fs + gs)[0] == fs[0] && (fs + gs)[1..] == fs[1..] + gs;
    }
  }

  lemma {:induction false} ReadAreValid(b: Bytes)
    requires ReadFields(b).Some?
    ensures forall f | f in ReadFields(b).value :: ValidField(f)
    decreases |b|
  {
    if b != [] { ReadAreValid(ReadField(b).value.1); }
  }
}
