/** Round trips of the generated messages, and concatenation as merging. */
module MessageProofs {
  import opened Common
  import opened Wire
  import opened Messages

  // ---------------------------------------------------------------- the parse loop in general

  /** Parsing is reading the records, then taking them. */
  lemma {:induction false} ParseIsTake<M>(m: M, b: Bytes, take: (M, Field) -> Option<M>)
    ensures ParseInto(m, b, take) == match ReadFields(b) case None => None case Some(fs) => TakeAll(m, fs, take)
    decreases |b|
  {
    hide ReadField;
    if b != [] && ReadField(b).Some? {
      var (f, rest) := ReadField(b).value;
      ReadFieldsStep(b, f, rest);
      if take(m, f).Some? { ParseIsTake(take(m, f).value, rest, take); }
    }
  }

  lemma {:induction false} TakeAllAppend<M>(m: M, fs: seq<Field>, gs: seq<Field>, take: (M, Field) -> Option<M>)
    ensures TakeAll(m, fs + gs, take) ==
      match TakeAll(m, fs, take) case None => None case Some(m') => TakeAll(m', gs, take)
  {
    if fs == [] {
      assert fs + gs == gs;
    } else {
      assert (fs + gs)[0] == fs[0] && (fs + gs)[1..] == fs[1..] + gs;
      if take(m, fs[0]).Some? { TakeAllAppend(take(m, fs[0]).value, fs[1..], gs, take); }
    }
  }

  /** Parsing on from a prefix that reads as whole records. */
  lemma ParseGoesOn<M>(m: M, a: Bytes, b: Bytes, take: (M, Field) -> Option<M>)
    requires ReadFields(a).Some?
    ensures ParseInto(m, a + b, take) ==
      match ParseInto(m, a, take) case None => None case Some(m') => ParseInto(m', b, take)
  {
    hide ReadFields;
    ParseIsTake(m, a + b, take);
    ParseIsTake(m, a, take);
    FieldsThenMore(a, b);
    var fs := ReadFields(a).value;
    if TakeAll(m, fs, take).Some? { ParseIsTake(TakeAll(m, fs, take).value, b, take); }
    if ReadFields(b).Some? { TakeAllAppend(m, fs, ReadFields(b).value, take); }
  }

  // ---------------------------------------------------------------- what fits

  /** Records that are written in at most `INT_MAX` bytes are valid if their fixed-width payloads are. */
  lemma {:induction false} Fits(fs: seq<Field>)
    requires |WriteFields(fs)| <= INT_MAX
    requires forall f | f in fs && !f.payload.Length? :: ValidField(f)
    ensures forall f | f in fs :: ValidField(f)
  {
    hide WriteVarint, Tag;
    if fs != [] {
      Fits(fs[1..]);
      assert forall f | f in fs :: f == fs[0] || f in fs[1..];
    }
  }

  /** What was written in at most `INT_MAX` bytes is parsed by taking the records that were written. */
  lemma ParseWritten<M>(m: M, fs: seq<Field>, take: (M, Field) -> Option<M>)
    requires |WriteFields(fs)| <= INT_MAX
    requires forall f | f in fs && !f.payload.Length? :: ValidField(f)
    ensures ReadFields(WriteFields(fs)) == Some(fs) && ParseInto(m, WriteFields(fs), take) == TakeAll(m, fs, take)
  {
    hide WriteFields;
    Fits(fs);
    FieldsRoundTrip(fs, []);
    assert WriteFields(fs) + [] == WriteFields(fs) && fs + [] == fs;
    assert ReadFields([]) == Some([]);
    ParseIsTake(m, WriteFields(fs), take);
  }

  // ---------------------------------------------------------------- RpcHeader

  lemma {:induction false} HeaderTakesUnknown(m: RpcHeader, u: seq<Field>)
    requires forall f | f in u :: !HeaderKnows(f)
    ensures TakeAll(m, u, TakeHeader) == Some(m.(unknown := m.unknown + u))
    decreases |u|
  {
    if u == [] {
      assert m.unknown + u == m.unknown;
    } else {
      assert u[0] in u && TakeHeader(m, u[0]) == Some(m.(unknown := m.unknown + [u[0]]));
      HeaderTakesUnknown(m.(unknown := m.unknown + [u[0]]), u[1..]);
      assert m.unknown + [u[0]] + u[1..] == m.unknown + u;
    }
  }

  /** Taking at most one record. */
  lemma TakeOne<M>(m: M, fs: seq<Field>, take: (M, Field) -> Option<M>)
    requires |fs| <= 1
    ensures TakeAll(m, fs, take) == if fs == [] then Some(m) else take(m, fs[0])
  {
    if fs != [] { assert fs[1..] == []; }
  }

  /** Taking the records of `b` into any `m` merges `b` into `m`. */
  lemma HeaderFieldsMerge(m: RpcHeader, b: RpcHeader)
    requires ValidHeader(b)
    ensures TakeAll(m, HeaderFields(b), TakeHeader) == Some(MergeHeader(m, b))
  {
    hide TakeAll;
    var p1, p2, p3 := BytesField(1, b.serviceName), BytesField(2, b.methodName), UInt32Field(3, b.argsSize);
    var p4, p5, p6 := UInt32Field(4, b.messageType), BytesField(5, b.ip), UInt32Field(6, b.port);
    var m' := MergeHeader(m, b);
    var m1 := m.(serviceName := m'.serviceName);
    var m2 := m1.(methodName := m'.methodName);
    var m3 := m2.(argsSize := m'.argsSize);
    var m4 := m3.(messageType := m'.messageType);
    var m5 := m4.(ip := m'.ip);
    TakeOne(m, p1, TakeHeader);
    TakeOne(m1, p2, TakeHeader);
    TakeOne(m2, p3, TakeHeader);
    TakeOne(m3, p4, TakeHeader);
    TakeOne(m4, p5, TakeHeader);
    TakeOne(m5, p6, TakeHeader);
    TakeAllAppend(m, p1, p2, TakeHeader);
    TakeAllAppend(m, p1 + p2, p3, TakeHeader);
    TakeAllAppend(m, p1 + p2 + p3, p4, TakeHeader);
    TakeAllAppend(m, p1 + p2 + p3 + p4, p5, TakeHeader);
    TakeAllAppend(m, p1 + p2 + p3 + p4 + p5, p6, TakeHeader);
    TakeAllAppend(m, p1 + p2 + p3 + p4 + p5 + p6, b.unknown, TakeHeader);
    HeaderTakesUnknown(m5.(port := m'.port), b.unknown);
  }

  lemma HeaderFieldsFixed(m: RpcHeader)
    requires ValidHeader(m)
    ensures forall f | f in HeaderFields(m) && !f.payload.Length? :: ValidField(f)
  {}

  lemma HeaderRoundTrip(m: RpcHeader)
    requires ValidHeader(m) && |SerializeHeader(m)| <= INT_MAX
    ensures ParseHeader(SerializeHeader(m)) == Some(m)
  {
    hide HeaderFields;
    HeaderFieldsFixed(m);
    ParseWritten(NO_HEADER, HeaderFields(m), TakeHeader);
    HeaderFieldsMerge(NO_HEADER, m);
    assert MergeHeader(NO_HEADER, m) == m;
  }

  lemma HeaderConcatIsMerge(a: RpcHeader, b: RpcHeader)
    requires ValidHeader(a) && |SerializeHeader(a)| <= INT_MAX && ValidHeader(b) && |SerializeHeader(b)| <= INT_MAX
    ensures ParseHeader(SerializeHeader(a) + SerializeHeader(b)) == Some(MergeHeader(a, b))
  {
    hide HeaderFields;
    HeaderRoundTrip(a);
    HeaderFieldsFixed(a);
    HeaderFieldsFixed(b);
    ParseWritten(NO_HEADER, HeaderFields(a), TakeHeader);
    ParseGoesOn(NO_HEADER, SerializeHeader(a), SerializeHeader(b), TakeHeader);
    ParseWritten(a, HeaderFields(b), TakeHeader);
    HeaderFieldsMerge(a, b);
  }

  // ---------------------------------------------------------------- ResultCode

  lemma {:induction false} CodeTakesUnknown(m: ResultCode, u: seq<Field>)
    requires forall f | f in u :: !CodeKnows(f)
    ensures TakeAll(m, u, TakeCode) == Some(m.(unknown := m.unknown + u))
    decreases |u|
  {
    if u == [] {
      assert m.unknown + u == m.unknown;
    } else {
      assert u[0] in u && TakeCode(m, u[0]) == Some(m.(unknown := m.unknown + [u[0]]));
      CodeTakesUnknown(m.(unknown := m.unknown + [u[0]]), u[1..]);
      assert m.unknown + [u[0]] + u[1..] == m.unknown + u;
    }
  }

  /** Truncating the 64-bit value brings every int32 back. */
  lemma SignRoundTrip(n: int32)
    ensures Truncate(SignExtend(n)) == n
  {
    if n < 0 { assert n + TWO_64 == (n + TWO_32) + TWO_32 * (TWO_32 - 1); }
  }

  /** A negative int32 takes ten bytes after its tag. */
  lemma NegativeTakesTen(n: int32)
    requires n < 0
    ensures |WriteVarint(SignExtend(n))| == 10
  {
    Power128Values();
    VarintSizeIs(SignExtend(n), 9);
    VarintSizeIs(SignExtend(n), 10);
  }

  lemma CodeFieldsMerge(m: ResultCode, b: ResultCode)
    requires ValidCode(b)
    ensures TakeAll(m, CodeFields(b), TakeCode) == Some(MergeCode(m, b))
  {
    hide TakeAll, SignExtend, Truncate;
    var p1, p2 := Int32Field(1, b.errcode), BytesField(2, b.errmsg);
    SignRoundTrip(b.errcode);
    var m1 := m.(errcode := MergeCode(m, b).errcode);
    TakeOne(m, p1, TakeCode);
    TakeOne(m1, p2, TakeCode);
    TakeAllAppend(m, p1, p2, TakeCode);
    TakeAllAppend(m, p1 + p2, b.unknown, TakeCode);
    CodeTakesUnknown(m1.(errmsg := MergeCode(m, b).errmsg), b.unknown);
  }

  lemma CodeFieldsFixed(m: ResultCode)
    requires ValidCode(m)
    ensures forall f | f in CodeFields(m) && !f.payload.Length? :: ValidField(f)
  {}

  /** Parsing a written `b` into any `m` merges `b` into `m`. */
  lemma CodeParsesInto(m: ResultCode, b: ResultCode)
    requires ValidCode(b) && |SerializeCode(b)| <= INT_MAX
    ensures ParseInto(m, SerializeCode(b), TakeCode) == Some(MergeCode(m, b)) && ReadFields(SerializeCode(b)).Some?
  {
    hide CodeFields;
    CodeFieldsFixed(b);
    ParseWritten(m, CodeFields(b), TakeCode);
    CodeFieldsMerge(m, b);
  }

  lemma CodeRoundTrip(m: ResultCode)
    requires ValidCode(m) && |SerializeCode(m)| <= INT_MAX
    ensures ParseCode(SerializeCode(m)) == Some(m)
  {
    CodeParsesInto(NO_CODE, m);
    assert MergeCode(NO_CODE, m) == m;
  }

  lemma CodeConcatIsMerge(a: ResultCode, b: ResultCode)
    requires ValidCode(a) && |SerializeCode(a)| <= INT_MAX && ValidCode(b) && |SerializeCode(b)| <= INT_MAX
    ensures ParseCode(SerializeCode(a) + SerializeCode(b)) == Some(MergeCode(a, b))
  {
    hide SerializeCode;
    CodeParsesInto(NO_CODE, a);
    CodeRoundTrip(a);
    ParseGoesOn(NO_CODE, SerializeCode(a), SerializeCode(b), TakeCode);
    CodeParsesInto(a, b);
  }

  // ---------------------------------------------------------------- GetListResponse

  lemma {:induction false} ResponseTakesUnknown(m: GetListResponse, u: seq<Field>)
    requires forall f | f in u :: !ResponseKnows(f)
    ensures TakeAll(m, u, TakeResponse) == Some(m.(unknown := m.unknown + u))
    decreases |u|
  {
    hide ParseInto;
    if u == [] {
      assert m.unknown + u == m.unknown;
    } else {
      assert u[0] in u && TakeResponse(m, u[0]) == Some(m.(unknown := m.unknown + [u[0]]));
      ResponseTakesUnknown(m.(unknown := m.unknown + [u[0]]), u[1..]);
      assert m.unknown + [u[0]] + u[1..] == m.unknown + u;
    }
  }

  lemma TakeCons<M>(m: M, f: Field, fs: seq<Field>, take: (M, Field) -> Option<M>)
    ensures TakeAll(m, [f] + fs, take) == match take(m, f) case None => None case Some(m') => TakeAll(m', fs, take)
  {
    assert ([f] + fs)[1..] == fs;
  }

  lemma ValAppends(m: GetListResponse, data: Bytes)
    ensures TakeResponse(m, Field(2, Length(data))) == Some(m.(val := m.val + [data]))
  {}

  lemma {:induction false} ResponseTakesVals(m: GetListResponse, val: seq<Bytes>)
    ensures TakeAll(m, ValFields(val), TakeResponse) == Some(m.(val := m.val + val))
    decreases |val|
  {
    if val == [] {
      assert m.val + val == m.val;
    } else {
      hide ParseInto, TakeAll, TakeResponse;
      var m1 := m.(val := m.val + [val[0]]);
      ValAppends(m, val[0]);
      ResponseTakesVals(m1, val[1..]);
      TakeCons(m, Field(2, Length(val[0])), ValFields(val[1..]), TakeResponse);
      assert m.val + [val[0]] + val[1..] == m.val + val;
    }
  }

  lemma ResponseFieldsMerge(m: GetListResponse, b: GetListResponse)
    requires ValidResponse(b) && (b.result.Some? ==> |SerializeCode(b.result.value)| <= INT_MAX)
    ensures TakeAll(m, ResponseFields(b), TakeResponse) == Some(MergeResponse(m, b))
  {
    hide TakeAll, SerializeCode, ParseInto;
    var p1, p2 := ResultFields(b.result), ValFields(b.val);
    if b.result.Some? { CodeParsesInto(OrEmpty(m.result), b.result.value); }
    TakeOne(m, p1, TakeResponse);
    var m1 := m.(result := MergeResponse(m, b).result);
    ResponseTakesVals(m1, b.val);
    TakeAllAppend(m, p1, p2, TakeResponse);
    TakeAllAppend(m, p1 + p2, b.unknown, TakeResponse);
    ResponseTakesUnknown(m1.(val := m.val + b.val), b.unknown);
  }

  lemma {:induction false} ValFieldsAreLengths(val: seq<Bytes>)
    ensures forall f | f in ValFields(val) :: f.payload.Length?
  {
    if val != [] { ValFieldsAreLengths(val[1..]); }
  }

  lemma ResponseFieldsFixed(m: GetListResponse)
    requires ValidResponse(m)
    ensures forall f | f in ResponseFields(m) && !f.payload.Length? :: ValidField(f)
  {
    ValFieldsAreLengths(m.val);
  }

  /** The nested message is shorter than the message. */
  lemma NestedFits(m: GetListResponse)
    requires m.result.Some?
    ensures |SerializeCode(m.result.value)| <= |SerializeResponse(m)|
  {
    hide WriteVarint, Tag, ValFields, SerializeCode;
    var f := Field(1, Length(SerializeCode(m.result.value)));
    assert ResponseFields(m)[0] == f;
    assert |SerializeResponse(m)| >= |WriteField(f)|;
  }

  lemma ResponseParsesInto(m: GetListResponse, b: GetListResponse)
    requires ValidResponse(b) && |SerializeResponse(b)| <= INT_MAX
    ensures ParseInto(m, SerializeResponse(b), TakeResponse) == Some(MergeResponse(m, b))
    ensures ReadFields(SerializeResponse(b)).Some?
  {
    hide ResponseFields;
    ResponseFieldsFixed(b);
    if b.result.Some? { NestedFits(b); }
    ParseWritten(m, ResponseFields(b), TakeResponse);
    ResponseFieldsMerge(m, b);
  }

  lemma MergeIntoEmpty(m: GetListResponse)
    ensures MergeResponse(NO_RESPONSE, m) == m
  {
    if m.result.Some? { assert MergeCode(NO_CODE, m.result.value) == m.result.value; }
  }

  lemma ResponseRoundTrip(m: GetListResponse)
    requires ValidResponse(m) && |SerializeResponse(m)| <= INT_MAX
    ensures ParseResponse(SerializeResponse(m)) == Some(m)
  {
    ResponseParsesInto(NO_RESPONSE, m);
    MergeIntoEmpty(m);
  }

  /** Scalars and bytes of `b` win, `val` entries append, and `result` merges, also when present but empty. */
  lemma ResponseConcatIsMerge(a: GetListResponse, b: GetListResponse)
    requires ValidResponse(a) && |SerializeResponse(a)| <= INT_MAX && ValidResponse(b)
    requires |SerializeResponse(b)| <= INT_MAX
    ensures ParseResponse(SerializeResponse(a) + SerializeResponse(b)) == Some(MergeResponse(a, b))
  {
    hide SerializeResponse;
    ResponseParsesInto(NO_RESPONSE, a);
    MergeIntoEmpty(a);
    ParseGoesOn(NO_RESPONSE, SerializeResponse(a), SerializeResponse(b), TakeResponse);
    ResponseParsesInto(a, b);
  }

  // ---------------------------------------------------------------- what parsing produces

  lemma {:induction false} TakenHeaderIsValid(m: RpcHeader, fs: seq<Field>)
    requires ValidHeader(m) && forall f | f in fs :: ValidField(f)
    ensures TakeAll(m, fs, TakeHeader).Some? && ValidHeader(TakeAll(m, fs, TakeHeader).value)
    decreases |fs|
  {
    if fs != [] {
      assert fs[0] in fs;
      TakenHeaderIsValid(TakeHeader(m, fs[0]).value, fs[1..]);
    }
  }

  /** Whatever bytes were parsed, writing the message and parsing that gives the message again. */
  lemma HeaderReparses(b: Bytes)
    requires ParseHeader(b).Some? && |SerializeHeader(ParseHeader(b).value)| <= INT_MAX
    ensures ParseHeader(SerializeHeader(ParseHeader(b).value)) == ParseHeader(b)
  {
    hide TakeAll, ReadFields, ParseInto, WriteFields;
    ParseIsTake(NO_HEADER, b, TakeHeader);
    ReadAreValid(b);
    TakenHeaderIsValid(NO_HEADER, ReadFields(b).value);
    HeaderRoundTrip(ParseHeader(b).value);
  }

  lemma {:induction false} TakenCodeIsValid(m: ResultCode, fs: seq<Field>)
    requires ValidCode(m) && forall f | f in fs :: ValidField(f)
    ensures TakeAll(m, fs, TakeCode).Some? && ValidCode(TakeAll(m, fs, TakeCode).value)
    decreases |fs|
  {
    if fs != [] {
      assert fs[0] in fs;
      TakenCodeIsValid(TakeCode(m, fs[0]).value, fs[1..]);
    }
  }

  lemma ParsedCodeIsValid(m: ResultCode, b: Bytes)
    requires ValidCode(m) && ParseInto(m, b, TakeCode).Some?
    ensures ValidCode(ParseInto(m, b, TakeCode).value)
  {
    hide TakeAll, ReadFields, ParseInto;
    ParseIsTake(m, b, TakeCode);
    ReadAreValid(b);
    TakenCodeIsValid(m, ReadFields(b).value);
  }

  lemma TakenRecordIsValid(m: GetListResponse, f: Field)
    requires ValidResponse(m) && ValidField(f) && TakeResponse(m, f).Some?
    ensures ValidResponse(TakeResponse(m, f).value)
  {
    hide ParseInto;
    if f.number == 1 && f.payload.Length? { ParsedCodeIsValid(OrEmpty(m.result), f.payload.data); }
  }

  lemma {:induction false} TakenResponseIsValid(m: GetListResponse, fs: seq<Field>)
    requires ValidResponse(m) && (forall f | f in fs :: ValidField(f)) && TakeAll(m, fs, TakeResponse).Some?
    ensures ValidResponse(TakeAll(m, fs, TakeResponse).value)
    decreases |fs|
  {
    hide TakeResponse, ValidResponse, ValidField;
    if fs != [] {
      assert fs[0] in fs;
      TakenRecordIsValid(m, fs[0]);
      TakenResponseIsValid(TakeResponse(m, fs[0]).value, fs[1..]);
    }
  }

  lemma ResponseReparses(b: Bytes)
    requires ParseResponse(b).Some? && |SerializeResponse(ParseResponse(b).value)| <= INT_MAX
    ensures ParseResponse(SerializeResponse(ParseResponse(b).value)) == ParseResponse(b)
  {
    hide TakeAll, ReadFields, ParseInto, WriteFields;
    ParseIsTake(NO_RESPONSE, b, TakeResponse);
    ReadAreValid(b);
    TakenResponseIsValid(NO_RESPONSE, ReadFields(b).value);
    ResponseRoundTrip(ParseResponse(b).value);
  }
}
