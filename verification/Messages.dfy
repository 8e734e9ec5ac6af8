/** The generated messages on values: how each parse loop takes a record, what each serialiser writes, and merging.
    After the Protocol Buffers Encoding specification, section "Last One Wins". */
module Messages {
  import opened Common
  import opened Wire

  const INT_MAX: nat := 0x7FFF_FFFF

  type int32 = n: int | -0x8000_0000 <= n < 0x8000_0000

  datatype RpcHeader = RpcHeader(
    serviceName: Bytes, methodName: Bytes, argsSize: uint32, messageType: uint32, ip: Bytes, port: uint32,
      unknown: seq<Field>)

  datatype ResultCode = ResultCode(errcode: int32, errmsg: Bytes, unknown: seq<Field>)

  datatype GetListResponse = GetListResponse(result: Option<ResultCode>, val: seq<Bytes>, unknown: seq<Field>)

  const NO_HEADER: RpcHeader := RpcHeader([], [], 0, 0, [], 0, [])
  const NO_CODE: ResultCode := ResultCode(0, [], [])
  const NO_RESPONSE: GetListResponse := GetListResponse(None, [], [])

  // ---------------------------------------------------------------- the parse loop

  /** Takes one record after another into `m` until the bytes end, or fails. */
  function ParseInto<M>(m: M, b: Bytes, take: (M, Field) -> Option<M>): Option<M>
    decreases |b|
  {
    if b == [] then Some(m)
    else
      match ReadField(b)
      case None => None
      case Some((f, rest)) =>
        match take(m, f)
        case None => None
        case Some(m') => ParseInto(m', rest, take)
  }

  function TakeAll<M>(m: M, fs: seq<Field>, take: (M, Field) -> Option<M>): Option<M> {
    if fs == [] then Some(m)
    else
      match take(m, fs[0])
      case None => None
      case Some(m') => TakeAll(m', fs[1..], take)
  }

  // ---------------------------------------------------------------- RpcHeader

  predicate HeaderKnows(f: Field) {
    (f.number in {1, 2, 5} && f.payload.Length?) || (f.number in {3, 4, 6} && f.payload.Varint?)
  }

  function TakeHeader(m: RpcHeader, f: Field): Option<RpcHeader> {
    match f
    case Field(1, Length(data)) => Some(m.(serviceName := data))
    case Field(2, Length(data)) => Some(m.(methodName := data))
    case Field(3, Varint(v)) => Some(m.(argsSize := v % TWO_32))
    case Field(4, Varint(v)) => Some(m.(messageType := v % TWO_32))
    case Field(5, Length(data)) => Some(m.(ip := data))
    case Field(6, Varint(v)) => Some(m.(port := v % TWO_32))
    case _ => Some(m.(unknown := m.unknown + [f]))
  }

  function BytesField(number: FieldNumber, data: Bytes): seq<Field> {
    if |data| > 0 then [Field(number, Length(data))] else []
  }

  function UInt32Field(number: FieldNumber, n: uint32): seq<Field> {
    if n != 0 then [Field(number, Varint(n))] else []
  }

  function HeaderFields(m: RpcHeader): seq<Field> {
    BytesField(1, m.serviceName) + BytesField(2, m.methodName) + UInt32Field(3, m.argsSize) +
      UInt32Field(4, m.messageType)
    + BytesField(5, m.ip) + UInt32Field(6, m.port) + m.unknown
  }

  function ParseHeader(b: Bytes): Option<RpcHeader> { ParseInto(NO_HEADER, b, TakeHeader) }

  function SerializeHeader(m: RpcHeader): Bytes { WriteFields(HeaderFields(m)) }

  function MergeHeader(a: RpcHeader, b: RpcHeader): RpcHeader {
    RpcHeader(
      if |b.serviceName| > 0 then b.serviceName else a.serviceName,
      if |b.methodName| > 0 then b.methodName else a.methodName,
      if b.argsSize != 0 then b.argsSize else a.argsSize,
      if b.messageType != 0 then b.messageType else a.messageType,
      if |b.ip| > 0 then b.ip else a.ip,
      if b.port != 0 then b.port else a.port,
      a.unknown + b.unknown)
  }

  /** What parsing produces: unknown fields are none of the known ones. */
  predicate ValidHeader(m: RpcHeader) { forall f | f in m.unknown :: ValidField(f) && !HeaderKnows(f) }

  // ---------------------------------------------------------------- ResultCode

  predicate CodeKnows(f: Field) {
    (f.number == 1 && f.payload.Varint?) || (f.number == 2 && f.payload.Length?)
  }

  /** An int32 goes out sign-extended to 64 bits. */
  function SignExtend(n: int32): uint64 { if n < 0 then n + TWO_64 else n }

  /** The conversion of a 64-bit value to int32 keeps the low 32 bits. */
  function Truncate(v: uint64): int32 {
    var low := v % TWO_32;
    if low >= 0x8000_0000 then low - TWO_32 else low
  }

  function TakeCode(m: ResultCode, f: Field): Option<ResultCode> {
    match f
    case Field(1, Varint(v)) => Some(m.(errcode := Truncate(v)))
    case Field(2, Length(data)) => Some(m.(errmsg := data))
    case _ => Some(m.(unknown := m.unknown + [f]))
  }

  function Int32Field(number: FieldNumber, n: int32): seq<Field> {
    if n != 0 then [Field(number, Varint(SignExtend(n)))] else []
  }

  function CodeFields(m: ResultCode): seq<Field> { Int32Field(1, m.errcode) + BytesField(2, m.errmsg) + m.unknown }

  function ParseCode(b: Bytes): Option<ResultCode> { ParseInto(NO_CODE, b, TakeCode) }

  function SerializeCode(m: ResultCode): Bytes { WriteFields(CodeFields(m)) }

  function MergeCode(a: ResultCode, b: ResultCode): ResultCode {
    ResultCode(
      if b.errcode != 0 then b.errcode else a.errcode,
      if |b.errmsg| > 0 then b.errmsg else a.errmsg,
      a.unknown + b.unknown)
  }

  predicate ValidCode(m: ResultCode) { forall f | f in m.unknown :: ValidField(f) && !CodeKnows(f) }

  // ---------------------------------------------------------------- GetListResponse

  predicate ResponseKnows(f: Field) { f.number in {1, 2} && f.payload.Length? }

  function OrEmpty(result: Option<ResultCode>): ResultCode { if result.Some? then result.value else NO_CODE }

  /** A `result` record is parsed into the present `result`; a `val` record appends. */
  function TakeResponse(m: GetListResponse, f: Field): Option<GetListResponse> {
    match f
    case Field(1, Length(data)) =>
      (match ParseInto(OrEmpty(m.result), data, TakeCode)
       case None => None
       case Some(result) => Some(m.(result := Some(result))))
    case Field(2, Length(data)) => Some(m.(val := m.val + [data]))
    case _ => Some(m.(unknown := m.unknown + [f]))
  }

  function ValFields(val: seq<Bytes>): seq<Field> {
    if val == [] then [] else [Field(2, Length(val[0]))] + ValFields(val[1..])
  }

  function ResultFields(result: Option<ResultCode>): seq<Field> {
    if result.Some? then [Field(1, Length(SerializeCode(result.value)))] else []
  }

  function ResponseFields(m: GetListResponse): seq<Field> { ResultFields(m.result) + ValFields(m.val) + m.unknown }

  function ParseResponse(b: Bytes): Option<GetListResponse> { ParseInto(NO_RESPONSE, b, TakeResponse) }

  function SerializeResponse(m: GetListResponse): Bytes { WriteFields(ResponseFields(m)) }

  function MergeResponse(a: GetListResponse, b: GetListResponse): GetListResponse {
    GetListResponse(
      if b.result.Some? then Some(MergeCode(OrEmpty(a.result), b.result.value)) else a.result,
      a.val + b.val,
      a.unknown + b.unknown)
  }

  predicate ValidResponse(m: GetListResponse) {
    && (m.result.Some? ==> ValidCode(m.result.value))
    && forall f | f in m.unknown :: ValidField(f) && !ResponseKnows(f)
  }
}
