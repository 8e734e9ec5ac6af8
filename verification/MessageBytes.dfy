/** Byte strings of any writer: when parsing their concatenation is merging what they parse to, and when it is not. */
module MessageBytes {
  import opened Common
  import opened Wire
  import opened Messages
  import opened MessageProofs

  // ---------------------------------------------------------------- RpcHeader

  /** A record in `fs` sets known field `number`. */
  predicate Sets(fs: seq<Field>, number: nat) {
    exists f | f in fs :: HeaderKnows(f) && f.number == number
  }

  /** `n` where `fs` sets a field, `m` elsewhere. */
  function Overlay(m: RpcHeader, n: RpcHeader, fs: seq<Field>): RpcHeader {
    RpcHeader(
      if Sets(fs, 1) then n.serviceName else m.serviceName,
      if Sets(fs, 2) then n.methodName else m.methodName,
      if Sets(fs, 3) then n.argsSize else m.argsSize,
      if Sets(fs, 4) then n.messageType else m.messageType,
      if Sets(fs, 5) then n.ip else m.ip,
      if Sets(fs, 6) then n.port else m.port,
      m.unknown + n.unknown)
  }

  lemma SetsSplit(fs: seq<Field>, number: nat)
    requires fs != []
    ensures Sets(fs, number) <==> (HeaderKnows(fs[0]) && fs[0].number == number) || Sets(fs[1..], number)
  {
    assert fs == [fs[0]] + fs[1..];
  }

  /** The last record for a field wins, wherever the parse started from. */
  lemma {:induction false} TakenFrom(m: RpcHeader, fs: seq<Field>)
    ensures TakeAll(m, fs, TakeHeader).Some? && TakeAll(NO_HEADER, fs, TakeHeader).Some?
    ensures TakeAll(m, fs, TakeHeader) == Some(Overlay(m, TakeAll(NO_HEADER, fs, TakeHeader).value, fs))
    decreases |fs|
  {
    if fs == [] {
      assert m.unknown + [] == m.unknown;
    } else {
      hide TakeAll, Overlay, TakeHeader;
      TakenFrom(TakeHeader(m, fs[0]).value, fs[1..]);
      TakenFrom(TakeHeader(NO_HEADER, fs[0]).value, fs[1..]);
      TakeFirst(m, fs);
      TakeFirst(NO_HEADER, fs);
      OverlayStep(m, fs, TakeAll(NO_HEADER, fs[1..], TakeHeader).value);
    }
  }

  lemma OverlayStep(m: RpcHeader, fs: seq<Field>, t: RpcHeader)
    requires fs != []
    ensures Overlay(TakeHeader(m, fs[0]).value, t, fs[1..]) ==
      Overlay(m, Overlay(TakeHeader(NO_HEADER, fs[0]).value, t, fs[1..]), fs)
  {
    hide Sets;
    SetsSplit(fs, 1);
    SetsSplit(fs, 2);
    SetsSplit(fs, 3);
    SetsSplit(fs, 4);
    SetsSplit(fs, 5);
    SetsSplit(fs, 6);
    assert TakeHeader(m, fs[0]).value.unknown + t.unknown ==
      m.unknown + (TakeHeader(NO_HEADER, fs[0]).value.unknown + t.unknown);
  }

  lemma TakeFirst(m: RpcHeader, fs: seq<Field>)
    requires fs != []
    ensures TakeAll(m, fs, TakeHeader) == TakeAll(TakeHeader(m, fs[0]).value, fs[1..], TakeHeader)
  {}

  /** `fs` puts back to its default, in `n`, no field that `m` has. */
  predicate ResetsNothing(m: RpcHeader, n: RpcHeader, fs: seq<Field>) {
    && (Sets(fs, 1) && n.serviceName == [] ==> m.serviceName == [])
    && (Sets(fs, 2) && n.methodName == [] ==> m.methodName == [])
    && (Sets(fs, 3) && n.argsSize == 0 ==> m.argsSize == 0)
    && (Sets(fs, 4) && n.messageType == 0 ==> m.messageType == 0)
    && (Sets(fs, 5) && n.ip == [] ==> m.ip == [])
    && (Sets(fs, 6) && n.port == 0 ==> m.port == 0)
  }

  /** For byte strings from any writer, parsing the concatenation merges exactly when the second does not write
      out a default over something the first had set. */
  lemma HeaderBytesConcatIff(a: Bytes, b: Bytes)
    requires ParseHeader(a).Some? && ParseHeader(b).Some?
    ensures ReadFields(b).Some?
    ensures var (x, y) := (ParseHeader(a).value, ParseHeader(b).value);
      ParseHeader(a + b) == Some(MergeHeader(x, y)) <==> ResetsNothing(x, y, ReadFields(b).value)
  {
    hide TakeAll, ReadFields, ParseInto, Sets;
    var x, y := ParseHeader(a).value, ParseHeader(b).value;
    ParseIsTake(NO_HEADER, a, TakeHeader);
    ParseIsTake(NO_HEADER, b, TakeHeader);
    ParseIsTake(x, b, TakeHeader);
    ParseGoesOn(NO_HEADER, a, b, TakeHeader);
    TakenFrom(x, ReadFields(b).value);
    TakenFrom(NO_HEADER, ReadFields(b).value);
  }

  // ---------------------------------------------------------------- ResultCode

  predicate CodeSets(fs: seq<Field>, number: nat) {
    exists f | f in fs :: CodeKnows(f) && f.number == number
  }

  function CodeOverlay(m: ResultCode, n: ResultCode, fs: seq<Field>): ResultCode {
    ResultCode(
      if CodeSets(fs, 1) then n.errcode else m.errcode,
      if CodeSets(fs, 2) then n.errmsg else m.errmsg,
      m.unknown + n.unknown)
  }

  lemma CodeSetsSplit(fs: seq<Field>, number: nat)
    requires fs != []
    ensures CodeSets(fs, number) <==> (CodeKnows(fs[0]) && fs[0].number == number) || CodeSets(fs[1..], number)
  {
    assert fs == [fs[0]] + fs[1..];
  }

  lemma {:induction false} CodeTakenFrom(m: ResultCode, fs: seq<Field>)
    ensures TakeAll(m, fs, TakeCode).Some? && TakeAll(NO_CODE, fs, TakeCode).Some?
    ensures TakeAll(m, fs, TakeCode) == Some(CodeOverlay(m, TakeAll(NO_CODE, fs, TakeCode).value, fs))
    decreases |fs|
  {
    if fs == [] {
      assert m.unknown + [] == m.unknown;
    } else {
      hide TakeAll, CodeOverlay, TakeCode;
      CodeTakenFrom(TakeCode(m, fs[0]).value, fs[1..]);
      CodeTakenFrom(TakeCode(NO_CODE, fs[0]).value, fs[1..]);
      TakeFirstCode(m, fs);
      TakeFirstCode(NO_CODE, fs);
      CodeOverlayStep(m, fs, TakeAll(NO_CODE, fs[1..], TakeCode).value);
    }
  }

  lemma TakeFirstCode(m: ResultCode, fs: seq<Field>)
    requires fs != []
    ensures TakeCode(m, fs[0]).Some?
    ensures TakeAll(m, fs, TakeCode) == TakeAll(TakeCode(m, fs[0]).value, fs[1..], TakeCode)
  {}

  lemma CodeOverlayStep(m: ResultCode, fs: seq<Field>, t: ResultCode)
    requires fs != []
    ensures CodeOverlay(TakeCode(m, fs[0]).value, t, fs[1..]) ==
      CodeOverlay(m, CodeOverlay(TakeCode(NO_CODE, fs[0]).value, t, fs[1..]), fs)
  {
    hide CodeSets;
    CodeSetsSplit(fs, 1);
    CodeSetsSplit(fs, 2);
    var m', e' := TakeCode(m, fs[0]).value, TakeCode(NO_CODE, fs[0]).value;
    assert m'.unknown + t.unknown == m.unknown + (e'.unknown + t.unknown);
  }

  /** `fs` puts back to its default, in `n`, no field that `m` has. */
  predicate CodeResetsNothing(m: ResultCode, n: ResultCode, fs: seq<Field>) {
    && (CodeSets(fs, 1) && n.errcode == 0 ==> m.errcode == 0)
    && (CodeSets(fs, 2) && n.errmsg == [] ==> m.errmsg == [])
  }

  /** Taking records from `m` on is merging what they are on their own, exactly when they reset nothing. */
  lemma CodeTakenIsMergedIff(m: ResultCode, fs: seq<Field>)
    ensures TakeAll(NO_CODE, fs, TakeCode).Some?
    ensures var n := TakeAll(NO_CODE, fs, TakeCode).value;
      TakeAll(m, fs, TakeCode) == Some(MergeCode(m, n)) <==> CodeResetsNothing(m, n, fs)
  {
    hide TakeAll, CodeSets;
    CodeTakenFrom(m, fs);
    CodeTakenFrom(NO_CODE, fs);
  }

  lemma CodeBytesConcatIff(a: Bytes, b: Bytes)
    requires ParseCode(a).Some? && ParseCode(b).Some?
    ensures ReadFields(b).Some?
    ensures var (x, y) := (ParseCode(a).value, ParseCode(b).value);
      ParseCode(a + b) == Some(MergeCode(x, y)) <==> CodeResetsNothing(x, y, ReadFields(b).value)
  {
    hide TakeAll, ReadFields, ParseInto, CodeSets, CodeResetsNothing, MergeCode;
    var x := ParseCode(a).value;
    ParseIsTake(NO_CODE, a, TakeCode);
    ParseIsTake(NO_CODE, b, TakeCode);
    ParseIsTake(x, b, TakeCode);
    ParseGoesOn(NO_CODE, a, b, TakeCode);
    CodeTakenIsMergedIff(x, ReadFields(b).value);
  }

  // ---------------------------------------------------------------- GetListResponse

  predicate IsResult(f: Field) { f.number == 1 && f.payload.Length? }

  predicate HasResult(fs: seq<Field>) { exists f | f in fs :: IsResult(f) }

  /** The records inside all the `result` records, one after another; None if one of them does not read. */
  function Nested(fs: seq<Field>): Option<seq<Field>> {
    if fs == [] then Some([])
    else
      match Nested(fs[1..])
      case None => None
      case Some(more) =>
        if !IsResult(fs[0]) then Some(more)
        else match ReadFields(fs[0].payload.data) case None => None case Some(inner) => Some(inner + more)
  }

  function Vals(fs: seq<Field>): seq<Bytes> {
    if fs == [] then []
    else (if fs[0].number == 2 && fs[0].payload.Length? then [fs[0].payload.data] else []) + Vals(fs[1..])
  }

  function Unknowns(fs: seq<Field>): seq<Field> {
    if fs == [] then [] else (if ResponseKnows(fs[0]) then [] else [fs[0]]) + Unknowns(fs[1..])
  }

  /** Where taking `fs` leads from `m`, given the records nested in it. */
  function ResponseAfter(m: GetListResponse, fs: seq<Field>, inner: seq<Field>): GetListResponse {
    GetListResponse(
      if HasResult(fs) then TakeAll(OrEmpty(m.result), inner, TakeCode) else m.result,
      m.val + Vals(fs),
      m.unknown + Unknowns(fs))
  }

  lemma HasResultSplit(fs: seq<Field>)
    requires fs != []
    ensures HasResult(fs) <==> IsResult(fs[0]) || HasResult(fs[1..])
  {
    assert fs == [fs[0]] + fs[1..];
  }

  /** All `result` records together act as the records inside them, and the other fields only grow. */
  lemma {:induction false} ResponseTakenFrom(m: GetListResponse, fs: seq<Field>)
    ensures TakeAll(m, fs, TakeResponse) ==
      match Nested(fs) case None => None case Some(inner) => Some(ResponseAfter(m, fs, inner))
    decreases |fs|
  {
    if fs == [] {
      assert m.val + [] == m.val && m.unknown + [] == m.unknown;
    } else {
      hide TakeAll, ResponseAfter, TakeResponse, Nested;
      TakeFirstResponse(m, fs);
      var m1 := TakeResponse(m, fs[0]);
      if m1.Some? { ResponseTakenFrom(m1.value, fs[1..]); }
      if IsResult(fs[0]) { ResultStep(m, fs); } else { OtherStep(m, fs); }
    }
  }

  lemma TakeFirstResponse(m: GetListResponse, fs: seq<Field>)
    requires fs != []
    ensures TakeAll(m, fs, TakeResponse) ==
      match TakeResponse(m, fs[0]) case None => None case Some(m') => TakeAll(m', fs[1..], TakeResponse)
  {
    hide TakeResponse;
  }

  lemma ResultStep(m: GetListResponse, fs: seq<Field>)
    requires fs != [] && IsResult(fs[0])
    ensures (match TakeResponse(m, fs[0]) case None => None
             case Some(m1) => match Nested(fs[1..]) case None => None
               case Some(more) => Some(ResponseAfter(m1, fs[1..], more)))
      == match Nested(fs) case None => None case Some(inner) => Some(ResponseAfter(m, fs, inner))
  {
    hide TakeAll, ParseInto, ReadFields, HasResult;
    var data := fs[0].payload.data;
    ParseIsTake(OrEmpty(m.result), data, TakeCode);
    HasResultSplit(fs);
    if ReadFields(data).Some? && Nested(fs[1..]).Some? {
      var inner, more := ReadFields(data).value, Nested(fs[1..]).value;
      CodeTakenFrom(OrEmpty(m.result), inner);
      TakeAllAppend(OrEmpty(m.result), inner, more, TakeCode);
      var m1 := TakeResponse(m, fs[0]).value;
      CodeTakenFrom(OrEmpty(m1.result), more);
      NoResultNothingNested(fs[1..]);
      TakeNothing(OrEmpty(m1.result));
      assert m.val + ([] + Vals(fs[1..])) == m.val + Vals(fs[1..]);
      assert m.unknown + ([] + Unknowns(fs[1..])) == m.unknown + Unknowns(fs[1..]);
    } else if ReadFields(data).Some? {
      CodeTakenFrom(OrEmpty(m.result), ReadFields(data).value);
    }
  }

  lemma TakeNothing(m: ResultCode)
    ensures TakeAll(m, [], TakeCode) == Some(m)
  {}

  lemma {:induction false} NoResultNothingNested(fs: seq<Field>)
    ensures !HasResult(fs) ==> Nested(fs) == Some([])
  {
    if fs != [] {
      hide HasResult;
      HasResultSplit(fs);
      NoResultNothingNested(fs[1..]);
    }
  }

  lemma OtherStep(m: GetListResponse, fs: seq<Field>)
    requires fs != [] && !IsResult(fs[0])
    ensures TakeResponse(m, fs[0]).Some? && Nested(fs) == Nested(fs[1..])
    ensures forall inner ::
      ResponseAfter(TakeResponse(m, fs[0]).value, fs[1..], inner) == ResponseAfter(m, fs, inner)
  {
    hide TakeAll, ParseInto, HasResult, TakeResponse, Vals, Unknowns;
    HasResultSplit(fs);
    OtherGrows(m, fs);
  }

  lemma OtherGrows(m: GetListResponse, fs: seq<Field>)
    requires fs != [] && !IsResult(fs[0])
    ensures TakeResponse(m, fs[0]).Some?
    ensures var m1 := TakeResponse(m, fs[0]).value;
      m1.result == m.result && m1.val + Vals(fs[1..]) == m.val + Vals(fs)
      && m1.unknown + Unknowns(fs[1..]) == m.unknown + Unknowns(fs)
  {
    hide TakeAll, ParseInto, TakeResponse, Vals, Unknowns;
    OtherTaken(m, fs[0]);
    ValsFirst(fs);
    UnknownsFirst(fs);
    Regroup(m.val, if ResponseKnows(fs[0]) then [fs[0].payload.data] else [], Vals(fs[1..]));
    Regroup(m.unknown, if ResponseKnows(fs[0]) then [] else [fs[0]], Unknowns(fs[1..]));
  }

  lemma ValsFirst(fs: seq<Field>)
    requires fs != [] && !IsResult(fs[0])
    ensures Vals(fs) == (if ResponseKnows(fs[0]) then [fs[0].payload.data] else []) + Vals(fs[1..])
  {}

  lemma UnknownsFirst(fs: seq<Field>)
    requires fs != []
    ensures Unknowns(fs) == (if ResponseKnows(fs[0]) then [] else [fs[0]]) + Unknowns(fs[1..])
  {}

  lemma Regroup<T>(a: seq<T>, b: seq<T>, c: seq<T>)
    ensures a + b + c == a + (b + c) && a + [] == a
  {}

  lemma OtherTaken(m: GetListResponse, f: Field)
    requires !IsResult(f)
    ensures TakeResponse(m, f) ==
      Some(if ResponseKnows(f) then m.(val := m.val + [f.payload.data]) else m.(unknown := m.unknown + [f]))
  {
    hide TakeAll, ParseInto;
  }

  /** For the nested message too: the concatenation merges exactly when the second writer's `result` records, taken
      together, write out no default over a field that the first one's had set. */
  lemma ResponseBytesConcatIff(a: Bytes, b: Bytes)
    requires ParseResponse(a).Some? && ParseResponse(b).Some?
    ensures ReadFields(b).Some? && Nested(ReadFields(b).value).Some?
    ensures var (x, y, fs) := (ParseResponse(a).value, ParseResponse(b).value, ReadFields(b).value);
      ParseResponse(a + b) == Some(MergeResponse(x, y)) <==>
        (HasResult(fs) ==> CodeResetsNothing(OrEmpty(x.result), OrEmpty(y.result), Nested(fs).value))
  {
    hide TakeAll, ReadFields, ParseInto, CodeResetsNothing, MergeCode, HasResult, Nested;
    var x := ParseResponse(a).value;
    ParseIsTake(NO_RESPONSE, a, TakeResponse);
    ParseIsTake(NO_RESPONSE, b, TakeResponse);
    ParseIsTake(x, b, TakeResponse);
    ParseGoesOn(NO_RESPONSE, a, b, TakeResponse);
    var fs := ReadFields(b).value;
    ResponseTakenFrom(NO_RESPONSE, fs);
    ResponseTakenFrom(x, fs);
    assert [] + Vals(fs) == Vals(fs) && [] + Unknowns(fs) == Unknowns(fs);
    CodeTakenIsMergedIff(OrEmpty(x.result), Nested(fs).value);
    CodeTakenFrom(OrEmpty(x.result), Nested(fs).value);
  }

  // ---------------------------------------------------------------- an explicit default

  /** A second header that writes `args_size` out as 0 resets it; a merge would keep the first one's. */
  lemma ExplicitZeroResets()
    ensures var (a, b) := ([24, 5], [24, 0]);
      && ParseHeader(a) == Some(NO_HEADER.(argsSize := 5)) && ParseHeader(b) == Some(NO_HEADER)
      && ParseHeader(a + b) == Some(NO_HEADER)
      && MergeHeader(ParseHeader(a).value, ParseHeader(b).value) == NO_HEADER.(argsSize := 5)
  {
    hide ParseInto, TakeAll;
    var a: Bytes, b: Bytes := [24, 5], [24, 0];
    OneSize(5);
    OneSize(0);
    ParseGoesOn(NO_HEADER, a, b, TakeHeader);
    ParseIsTake(NO_HEADER, a, TakeHeader);
    ParseIsTake(NO_HEADER, b, TakeHeader);
    ParseIsTake(NO_HEADER.(argsSize := 5), b, TakeHeader);
    TakeOne(NO_HEADER, [Field(3, Varint(5))], TakeHeader);
    TakeOne(NO_HEADER, [Field(3, Varint(0))], TakeHeader);
    TakeOne(NO_HEADER.(argsSize := 5), [Field(3, Varint(0))], TakeHeader);
  }

  lemma OneSize(n: byte)
    requires n < 128
    ensures ReadFields([24, n]) == Some([Field(3, Varint(n))])
  {
    var f, none: Bytes := Field(3, Varint(n)), [];
    FieldRoundTrip(f, none);
    assert WriteVarint(24) == [24] && WriteVarint(n) == [n];
    assert WriteField(f) + none == [24, n];
    ReadFieldsStep([24, n], f, none);
    assert ReadFields(none) == Some([]) && [f] + [] == [f];
  }
}
