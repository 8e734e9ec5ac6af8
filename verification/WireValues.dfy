/** The bytes on the wire, one by one: which number a varint of the Protocol Buffers Encoding specification, section
    "Base 128 Varints", stands for, and how the generated messages lay out their records. */
module WireValues {
  import opened Common
  import opened Wire
  import opened Messages

  // ---------------------------------------------------------------- varints

  /** The low seven bits of the first `k` bytes, the least significant group first. */
  function GroupSum(b: Bytes, k: nat): nat
    requires k <= |b|
  {
    if k == 0 then 0 else GroupSum(b, k - 1) + b[k - 1] % 128 * Power128(k - 1)
  }

  lemma {:induction false} GroupSumCons(c: byte, b: Bytes, k: nat)
    requires k <= |b|
    ensures GroupSum([c] + b, k + 1) == c % 128 + 128 * GroupSum(b, k)
  {
    if k > 0 {
      GroupSumCons(c, b, k - 1);
      assert ([c] + b)[k] == b[k - 1];
      Shifted(b[k - 1] % 128, k - 1);
    }
  }

  lemma Shifted(g: nat, k: nat)
    ensures g * Power128(k + 1) == 128 * (g * Power128(k))
  {}

  /** A written varint has the continuation bit on all bytes but the last, and its groups add up to the number. */
  lemma {:induction false} VarintIsItsGroups(n: nat)
    ensures var b := WriteVarint(n);
      && (forall i | 0 <= i < |b| :: b[i] >= 128 <==> i < |b| - 1)
      && GroupSum(b, |b|) == n
  {
    var b := WriteVarint(n);
    if n >= 128 {
      var rest := WriteVarint(n / 128);
      VarintIsItsGroups(n / 128);
      GroupSumCons(128 + n % 128, rest, |rest|);
      assert b == [128 + n % 128] + rest;
      assert forall i | 0 < i < |b| :: b[i] == rest[i - 1];
    } else {
      assert GroupSum(b, 1) == GroupSum(b, 0) + n % 128 * Power128(0);
    }
  }

  /** The length of the varint at the head of `b`: up to the first byte without continuation bit. */
  predicate VarintEnds(b: Bytes, k: nat) {
    0 < k <= |b| && b[k - 1] < 128 && forall i | 0 <= i < k - 1 :: b[i] >= 128
  }

  /** Whoever wrote the bytes, and however many groups it took: reading takes the bytes up to the first without
      continuation bit, which must be among the first `budget`, and gives the sum of their groups. */
  lemma {:induction false} ReadIsItsGroups(b: Bytes, budget: nat)
    ensures ReadVarint(b, budget).None? <==> forall i | 0 <= i < |b| && i < budget :: b[i] >= 128
    ensures ReadVarint(b, budget).Some? ==>
      var (n, rest) := ReadVarint(b, budget).value;
      var k := |b| - |rest|;
      k <= budget && VarintEnds(b, k) && rest == b[k..] && n == GroupSum(b, k)
  {
    if b != [] && budget > 0 && b[0] >= 128 {
      hide ReadVarint, GroupSum, VarintEnds;
      ReadIsItsGroups(b[1..], budget - 1);
      ReadsOneMore(b, budget);
      if ReadVarint(b, budget).Some? {
        EndsOneLater(b, |b[1..]| - |ReadVarint(b[1..], budget - 1).value.1|);
      } else {
        assert forall i | 0 < i < |b| && i < budget :: b[i] == b[1..][i - 1];
      }
      if forall i | 0 <= i < |b| && i < budget :: b[i] >= 128 {
        assert forall i | 0 <= i < |b[1..]| && i < budget - 1 :: b[1..][i] == b[i + 1];
      }
    } else if b != [] && budget > 0 {
      assert GroupSum(b, 1) == GroupSum(b, 0) + b[0] % 128 * Power128(0);
    }
  }

  /** One group more in front. */
  lemma EndsOneLater(b: Bytes, k: nat)
    requires b != [] && b[0] >= 128 && VarintEnds(b[1..], k)
    ensures VarintEnds(b, k + 1) && b[1..][k..] == b[k + 1..]
    ensures GroupSum(b, k + 1) == b[0] - 128 + 128 * GroupSum(b[1..], k)
  {
    hide GroupSum;
    assert b == [b[0]] + b[1..];
    GroupSumCons(b[0], b[1..], k);
  }

  lemma ReadsOneMore(b: Bytes, budget: nat)
    requires b != [] && b[0] >= 128 && budget > 0
    ensures ReadVarint(b, budget) ==
      match ReadVarint(b[1..], budget - 1)
      case None => None
      case Some((high, rest)) => Some((b[0] - 128 + 128 * high, rest))
  {}

  /** A tag is read from at most five bytes, and keeps its low 32 bits. */
  lemma TagKeepsLowBits(b: Bytes)
    ensures ReadTag(b).None? <==> forall i | 0 <= i < |b| && i < 5 :: b[i] >= 128
    ensures ReadTag(b).Some? ==>
      var (n, rest) := ReadTag(b).value;
      VarintEnds(b, |b| - |rest|) && rest == b[|b| - |rest|..] && n == GroupSum(b, |b| - |rest|) % 0x1_0000_0000
  {
    hide ReadVarint, GroupSum, VarintEnds;
    ReadIsItsGroups(b, 5);
  }

  /** A value is read from at most ten bytes, and keeps its low 64 bits. */
  lemma ValueKeepsLowBits(b: Bytes)
    ensures ReadVarint64(b).None? <==> forall i | 0 <= i < |b| && i < 10 :: b[i] >= 128
    ensures ReadVarint64(b).Some? ==>
      var (n, rest) := ReadVarint64(b).value;
      && VarintEnds(b, |b| - |rest|) && rest == b[|b| - |rest|..]
      && n == GroupSum(b, |b| - |rest|) % 0x1_0000_0000_0000_0000
  {
    hide ReadVarint, GroupSum, VarintEnds;
    ReadIsItsGroups(b, 10);
  }

  // ---------------------------------------------------------------- records

  /** A record is its tag, the field number and the wire type in the three low bits, and then the value. */
  lemma RecordBytes(f: Field)
    ensures WriteField(f) ==
      match f.payload
      case Varint(v) => WriteVarint(f.number * 8) + WriteVarint(v)
      case Fixed64(bytes) => WriteVarint(f.number * 8 + 1) + bytes
      case Length(data) => WriteVarint(f.number * 8 + 2) + (WriteVarint(|data|) + data)
      case Fixed32(bytes) => WriteVarint(f.number * 8 + 5) + bytes
  {
    hide WriteVarint;
  }

  /** The value behind a tag, by the wire type; 3, 4, 6 and 7 are refused. */
  lemma ValueBytes(code: nat, b: Bytes)
    ensures code in {1, 5} ==>
      var width := if code == 1 then 8 else 4;
      if |b| < width then ReadPayload(code, b).None?
      else ReadPayload(code, b) == Some((if code == 1 then Fixed64(b[..8]) else Fixed32(b[..4]), b[width..]))
    ensures code == 0 ==> (ReadPayload(0, b).None? <==> ReadVarint64(b).None?)
    ensures code == 2 ==>
      match ReadVarint64(b)
      case None => ReadPayload(2, b).None?
      case Some((n, rest)) =>
        if |rest| < n then ReadPayload(2, b).None? else ReadPayload(2, b) == Some((Length(rest[..n]), rest[n..]))
    ensures code !in {0, 1, 2, 5} ==> ReadPayload(code, b).None?
  {
    hide ReadVarint64;
  }

  // ---------------------------------------------------------------- messages

  /** A string or submessage record with this one-byte tag. */
  function Chunk(tag: byte, data: Bytes): Bytes { [tag] + WriteVarint(|data|) + data }

  /** The same, left out when empty. */
  function ChunkPart(tag: byte, data: Bytes): Bytes { if data == [] then [] else Chunk(tag, data) }

  function NumberPart(tag: byte, n: nat): Bytes { if n == 0 then [] else [tag] + WriteVarint(n) }

  lemma SmallVarint(n: nat)
    requires n < 128
    ensures WriteVarint(n) == [n]
  {}

  lemma ChunkBytes(number: FieldNumber, data: Bytes)
    requires number < 16
    ensures WriteField(Field(number, Length(data))) == Chunk(number * 8 + 2, data)
    ensures WriteFields(BytesField(number, data)) == ChunkPart(number * 8 + 2, data)
  {
    hide WriteVarint;
    SmallVarint(number * 8 + 2);
    var f := Field(number, Length(data));
    assert [number * 8 + 2] + (WriteVarint(|data|) + data) == [number * 8 + 2] + WriteVarint(|data|) + data;
    OneField(f);
  }

  lemma OneField(f: Field)
    ensures WriteFields([f]) == WriteField(f) && WriteFields([]) == []
  {
    hide WriteField;
    assert [f][1..] == [] && WriteField(f) + [] == WriteField(f);
  }

  lemma NumberBytes(number: FieldNumber, n: uint64)
    requires number < 16
    ensures WriteField(Field(number, Varint(n))) == [number * 8] + WriteVarint(n)
    ensures WriteFields([Field(number, Varint(n))]) == [number * 8] + WriteVarint(n)
    ensures WriteFields([]) == []
  {
    hide WriteVarint;
    SmallVarint(number * 8);
    OneField(Field(number, Varint(n)));
  }

  lemma SevenParts(
    a: seq<Field>, b: seq<Field>, c: seq<Field>, d: seq<Field>, e: seq<Field>, f: seq<Field>, g: seq<Field>)
    ensures WriteFields(a + b + c + d + e + f + g) ==
      WriteFields(a) + WriteFields(b) + WriteFields(c) + WriteFields(d) + WriteFields(e) + WriteFields(f)
      + WriteFields(g)
  {
    hide WriteFields;
    WriteFieldsAppend(a, b);
    WriteFieldsAppend(a + b, c);
    WriteFieldsAppend(a + b + c, d);
    WriteFieldsAppend(a + b + c + d, e);
    WriteFieldsAppend(a + b + c + d + e, f);
    WriteFieldsAppend(a + b + c + d + e + f, g);
  }

  /** A serialised header: for each field that is not its default the tag byte and the value, in field order, and then
      the unknown records. */
  lemma HeaderLayout(m: RpcHeader)
    ensures SerializeHeader(m) ==
      ChunkPart(10, m.serviceName) + ChunkPart(18, m.methodName) + NumberPart(24, m.argsSize)
      + NumberPart(32, m.messageType) + ChunkPart(42, m.ip) + NumberPart(48, m.port) + WriteFields(m.unknown)
  {
    hide WriteFields, ChunkPart, WriteVarint;
    SevenParts(BytesField(1, m.serviceName), BytesField(2, m.methodName), UInt32Field(3, m.argsSize),
      UInt32Field(4, m.messageType), BytesField(5, m.ip), UInt32Field(6, m.port), m.unknown);
    ChunkBytes(1, m.serviceName);
    ChunkBytes(2, m.methodName);
    NumberBytes(3, m.argsSize);
    NumberBytes(4, m.messageType);
    ChunkBytes(5, m.ip);
    NumberBytes(6, m.port);
  }

  /** The same for ResultCode, whose number goes out in two's complement of 64 bits. */
  lemma CodeLayout(m: ResultCode)
    ensures SerializeCode(m) ==
      NumberPart(8, if m.errcode < 0 then 0x1_0000_0000_0000_0000 + m.errcode else m.errcode)
      + ChunkPart(18, m.errmsg) + WriteFields(m.unknown)
  {
    hide WriteFields, ChunkPart, WriteVarint;
    WriteFieldsAppend(Int32Field(1, m.errcode), BytesField(2, m.errmsg));
    WriteFieldsAppend(Int32Field(1, m.errcode) + BytesField(2, m.errmsg), m.unknown);
    NumberBytes(1, SignExtend(m.errcode));
    ChunkBytes(2, m.errmsg);
  }

  function ValChunks(val: seq<Bytes>): Bytes { if val == [] then [] else Chunk(18, val[0]) + ValChunks(val[1..]) }

  lemma {:induction false} ValLayout(val: seq<Bytes>)
    ensures WriteFields(ValFields(val)) == ValChunks(val)
  {
    if val != [] {
      hide WriteField, Chunk;
      ChunkBytes(2, val[0]);
      ValLayout(val[1..]);
      var fs := ValFields(val[1..]);
      assert ([Field(2, Length(val[0]))] + fs)[1..] == fs;
    }
  }

  /** For GetListResponse: the nested message if there is one, even an empty one, then every value. */
  lemma ResponseLayout(m: GetListResponse)
    ensures SerializeResponse(m) ==
      (if m.result.None? then [] else Chunk(10, SerializeCode(m.result.value))) + ValChunks(m.val)
      + WriteFields(m.unknown)
  {
    hide WriteFields, Chunk, WriteVarint, SerializeCode, ValChunks;
    WriteFieldsAppend(ResultFields(m.result), ValFields(m.val));
    WriteFieldsAppend(ResultFields(m.result) + ValFields(m.val), m.unknown);
    ValLayout(m.val);
    if m.result.Some? {
      ChunkBytes(1, SerializeCode(m.result.value));
      OneField(Field(1, Length(SerializeCode(m.result.value))));
    } else {
      NumberBytes(1, 0);
    }
  }

  /** Which tags the header takes, and for what; every other record is kept as it is. */
  lemma HeaderTags(m: RpcHeader, f: Field)
    ensures var r := TakeHeader(m, f);
      && r.Some?
      && (Tag(f) == 10 ==> r == Some(m.(serviceName := f.payload.data)))
      && (Tag(f) == 18 ==> r == Some(m.(methodName := f.payload.data)))
      && (Tag(f) == 24 ==> r == Some(m.(argsSize := f.payload.value % 0x1_0000_0000)))
      && (Tag(f) == 32 ==> r == Some(m.(messageType := f.payload.value % 0x1_0000_0000)))
      && (Tag(f) == 42 ==> r == Some(m.(ip := f.payload.data)))
      && (Tag(f) == 48 ==> r == Some(m.(port := f.payload.value % 0x1_0000_0000)))
      && (Tag(f) !in {10, 18, 24, 32, 42, 48} ==> r == Some(m.(unknown := m.unknown + [f])))
  {}

  lemma CodeTags(m: ResultCode, f: Field)
    ensures var r := TakeCode(m, f);
      && r.Some?
      && (Tag(f) == 8 ==> (r.value.errcode - f.payload.value) % 0x1_0000_0000 == 0
                          && r == Some(m.(errcode := r.value.errcode)))
      && (Tag(f) == 18 ==> r == Some(m.(errmsg := f.payload.data)))
      && (Tag(f) !in {8, 18} ==> r == Some(m.(unknown := m.unknown + [f])))
  {}

  lemma ResponseTags(m: GetListResponse, f: Field)
    ensures var r := TakeResponse(m, f);
      && (Tag(f) == 10 ==>
            match ParseInto(OrEmpty(m.result), f.payload.data, TakeCode)
            case None => r == None
            case Some(result) => r == Some(m.(result := Some(result))))
      && (Tag(f) == 18 ==> r == Some(m.(val := m.val + [f.payload.data])))
      && (Tag(f) !in {10, 18} ==> r == Some(m.(unknown := m.unknown + [f])))
  {
    hide ParseInto;
  }

  /** 300 takes two groups: 0101100 and 0000010. */
  lemma ThreeHundred()
    ensures SerializeHeader(NO_HEADER.(argsSize := 300)) == [24, 172, 2]
    ensures ParseHeader([24, 172, 2]) == Some(NO_HEADER.(argsSize := 300))
  {
    var m := NO_HEADER.(argsSize := 300);
    HeaderLayout(m);
    assert WriteVarint(300) == [172] + WriteVarint(2);
  }
}
