/** The message objects and the generated loops that fill, write, measure and merge them, proved against Messages.
    A pointer into the input is the bytes it points at; a parse that stops early, at an end-group or zero tag, is the
    failure its caller makes of it. */
module GeneratedMessages {
  import opened Common
  import opened Wire
  import M = Messages

  lemma Step<T>(m: T, b: Bytes, take: (T, Field) -> Option<T>)
    requires b != []
    ensures M.ParseInto(m, b, take) ==
      match ReadField(b)
      case None => None
      case Some((f, rest)) => (match take(m, f) case None => None case Some(m') => M.ParseInto(m', rest, take))
  {
    hide ReadField;
  }

  /** What `ReadField` makes of a tag. */
  lemma AtTag(b: Bytes)
    requires ReadTag(b).Some?
    ensures var (tag, rest) := ReadTag(b).value;
      ReadField(b) ==
        if tag / 8 == 0 then None
        else match ReadPayload(tag % 8, rest) case None => None
          case Some((p, rest')) => Some((Field(tag / 8, p), rest'))
  {
    hide ReadTag, ReadPayload;
  }

  lemma LengthAt(b: Bytes)
    requires ReadTag(b).Some? && ReadTag(b).value.0 >= 8 && ReadTag(b).value.0 % 8 == 2
    ensures var (tag, rest) := ReadTag(b).value;
      ReadField(b) == match ReadLength(rest) case None => None
        case Some((data, rest')) => Some((Field(tag / 8, Length(data)), rest'))
  {
    hide ReadTag, ReadLength;
  }

  lemma VarintAt(b: Bytes)
    requires ReadTag(b).Some? && ReadTag(b).value.0 >= 8 && ReadTag(b).value.0 % 8 == 0
    ensures var (tag, rest) := ReadTag(b).value;
      ReadField(b) == match ReadVarint64(rest) case None => None
        case Some((n, rest')) => Some((Field(tag / 8, Varint(n)), rest'))
  {
    hide ReadTag, ReadVarint64;
  }

  /** `UnknownFieldParse`: the record goes to the unknown fields. */
  method UnknownFieldParse(tag: nat, b: Bytes, unknown: seq<Field>)
    returns (ok: bool, unknown': seq<Field>, rest: Bytes)
    requires tag < TWO_32
    ensures ok == (tag / 8 != 0 && ReadPayload(tag % 8, b).Some?)
    ensures ok ==> unknown' == unknown + [Field(tag / 8, ReadPayload(tag % 8, b).value.0)]
    ensures ok ==> rest == ReadPayload(tag % 8, b).value.1
  {
    var r := ReadPayload(tag % 8, b);
    if tag / 8 == 0 || r.None? {
      return false, unknown, b;
    }
    return true, unknown + [Field(tag / 8, r.value.0)], r.value.1;
  }

  /** At most one record, written. */
  function Written(fs: seq<Field>): Bytes { if fs == [] then [] else WriteField(fs[0]) }

  function BytesSize(data: Bytes): nat { VarintSize(|data|) + |data| }

  /** The tags of field numbers below 16 take one byte. */
  lemma BytesFieldSize(number: FieldNumber, data: Bytes)
    requires number < 16
    ensures |WriteField(Field(number, Length(data)))| == 1 + BytesSize(data)
  {}

  lemma VarintFieldSize(number: FieldNumber, n: uint64)
    requires number < 16
    ensures |WriteField(Field(number, Varint(n)))| == 1 + VarintSize(n)
  {}

  // ---------------------------------------------------------------- ResultCode

  class ResultCode {
    var errcode: M.int32
    var errmsg: Bytes
    var unknown: seq<Field>

    constructor ()
      ensures Value() == M.NO_CODE
    {
      errcode, errmsg, unknown := 0, [], [];
    }

    function Value(): M.ResultCode
      reads this
    {
      M.ResultCode(errcode, errmsg, unknown)
    }

    method InternalParse(buf: Bytes) returns (ok: bool)
      modifies this
      ensures ok == M.ParseInto(old(Value()), buf, M.TakeCode).Some?
      ensures ok ==> M.ParseInto(old(Value()), buf, M.TakeCode) == Some(Value())
    {
      hide M.ParseInto, ReadField, ReadTag, ReadPayload, ReadLength, ReadVarint64, M.Truncate;
      var ptr := buf;
      while ptr != []
        invariant M.ParseInto(old(Value()), buf, M.TakeCode) == M.ParseInto(Value(), ptr, M.TakeCode)
        decreases |ptr|
      {
        Step(Value(), ptr, M.TakeCode);
        var read := ReadTag(ptr);
        if read.None? {
          assert ReadField(ptr).None? by { NoTag(ptr); }
          return false;
        }
        AtTag(ptr);
        var (tag, rest) := read.value;
        if tag == 8 {
          VarintAt(ptr);
          var v := ReadVarint64(rest);
          if v.None? { return false; }
          errcode, ptr := M.Truncate(v.value.0), v.value.1;
        } else if tag == 18 {
          LengthAt(ptr);
          var s := ReadLength(rest);
          if s.None? { return false; }
          errmsg, ptr := s.value.0, s.value.1;
        } else {
          if tag % 8 == 4 || tag == 0 {
            assert ReadPayload(4, rest).None? by { NoGroups(rest); }
            return false;
          }
          ok, unknown, ptr := UnknownFieldParse(tag, rest, unknown);
          if !ok { return; }
        }
      }
      assert M.ParseInto(Value(), [], M.TakeCode) == Some(Value()) by { ParseNothing(Value(), M.TakeCode); }
      ok := true;
    }

    method InternalSerialize(target: Bytes) returns (end: Bytes)
      ensures end == target + M.SerializeCode(Value())
    {
      hide WriteFields, WriteField;
      end := target;
      if errcode != 0 {
        end := end + WriteField(Field(1, Varint(M.SignExtend(errcode))));
      }
      if |errmsg| > 0 {
        end := end + WriteField(Field(2, Length(errmsg)));
      }
      end := end + WriteFields(unknown);
      Written2(M.Int32Field(1, errcode), M.BytesField(2, errmsg), unknown);
    }

    method ByteSizeLong() returns (total: nat)
      ensures total == |M.SerializeCode(Value())|
    {
      hide VarintSize, WriteFields, WriteField;
      Written2(M.Int32Field(1, errcode), M.BytesField(2, errmsg), unknown);
      BytesFieldSize(2, errmsg);
      VarintFieldSize(1, M.SignExtend(errcode));
      FieldsSizeIs(unknown);
      total := 0;
      if |errmsg| > 0 {
        total := total + 1 + BytesSize(errmsg);
      }
      if errcode != 0 {
        total := total + 1 + VarintSize(M.SignExtend(errcode));
      }
      total := total + FieldsSize(unknown);
    }

    method MergeFrom(from: ResultCode)
      requires from != this
      modifies this
      ensures Value() == M.MergeCode(old(Value()), from.Value())
    {
      unknown := unknown + from.unknown;
      if |from.errmsg| > 0 {
        errmsg := from.errmsg;
      }
      if from.errcode != 0 {
        errcode := from.errcode;
      }
    }
  }

  lemma NoTag(b: Bytes)
    requires ReadTag(b).None?
    ensures ReadField(b).None?
  {
    hide ReadTag;
  }

  lemma NoGroups(b: Bytes)
    ensures ReadPayload(4, b).None?
  {}

  lemma WriteNothing()
    ensures WriteFields(M.ValFields([])) == []
  {}

  lemma ParseNothing<T>(m: T, take: (T, Field) -> Option<T>)
    ensures M.ParseInto(m, [], take) == Some(m)
  {}

  lemma WriteAtMostOne(fs: seq<Field>)
    requires |fs| <= 1
    ensures WriteFields(fs) == Written(fs)
  {
    hide WriteField;
    if fs != [] { assert fs[1..] == [] && WriteField(fs[0]) + [] == WriteField(fs[0]); }
  }

  lemma Written2(p: seq<Field>, q: seq<Field>, u: seq<Field>)
    requires |p| <= 1 && |q| <= 1
    ensures WriteFields(p + q + u) == Written(p) + Written(q) + WriteFields(u)
  {
    hide WriteField, WriteFields;
    WriteFieldsAppend(p, q);
    WriteFieldsAppend(p + q, u);
    WriteAtMostOne(p);
    WriteAtMostOne(q);
  }

  // ---------------------------------------------------------------- GetListResponse

  class GetListResponse {
    var result: ResultCode?
    var val: seq<Bytes>
    var unknown: seq<Field>

    constructor ()
      ensures Value() == M.NO_RESPONSE && result == null
    {
      result, val, unknown := null, [], [];
    }

    function Value(): M.GetListResponse
      reads this, result
    {
      M.GetListResponse(if result == null then None else Some(result.Value()), val, unknown)
    }

    /** `_internal_mutable_result`: makes an empty one when there is none. */
    method MutableResult() returns (r: ResultCode)
      modifies this`result
      ensures result == r && r.Value() == M.OrEmpty(old(Value()).result)
      ensures if old(result) == null then fresh(r) else r == old(result)
      ensures Value() == old(Value()).(result := Some(r.Value()))
    {
      if result == null {
        result := new ResultCode();
      }
      r := result;
    }

    method InternalParse(buf: Bytes) returns (ok: bool)
      modifies this, result
      ensures ok == M.ParseInto(old(Value()), buf, M.TakeResponse).Some?
      ensures ok ==> M.ParseInto(old(Value()), buf, M.TakeResponse) == Some(Value())
      ensures result == old(result) || fresh(result)
    {
      hide M.ParseInto, ReadField, ReadTag, ReadPayload, ReadLength;
      var ptr := buf;
      while ptr != []
        invariant M.ParseInto(old(Value()), buf, M.TakeResponse) == M.ParseInto(Value(), ptr, M.TakeResponse)
        invariant result == old(result) || fresh(result)
        decreases |ptr|
      {
        Step(Value(), ptr, M.TakeResponse);
        var read := ReadTag(ptr);
        if read.None? {
          assert ReadField(ptr).None? by { NoTag(ptr); }
          return false;
        }
        AtTag(ptr);
        var (tag, rest) := read.value;
        if tag == 10 {
          LengthAt(ptr);
          var s := ReadLength(rest);
          if s.None? { return false; }
          var r := MutableResult();
          ok := r.InternalParse(s.value.0);
          if !ok { return; }
          ptr := s.value.1;
        } else if tag == 18 {
          SameAsVal(Value(), ptr);
          ok, ptr := ParseVals(rest);
          if !ok { return; }
        } else {
          if tag % 8 == 4 || tag == 0 {
            assert ReadPayload(4, rest).None? by { NoGroups(rest); }
            return false;
          }
          ok, unknown, ptr := UnknownFieldParse(tag, rest, unknown);
          if !ok { return; }
        }
      }
      assert M.ParseInto(Value(), [], M.TakeResponse) == Some(Value()) by { ParseNothing(Value(), M.TakeResponse); }
      ok := true;
    }

    /** The inner loop: `val` entries that follow one another, from behind the first one's tag. */
    method ParseVals(start: Bytes) returns (ok: bool, ptr: Bytes)
      modifies this`val
      ensures var parse := M.ParseInto(old(Value()), [18] + start, M.TakeResponse);
        if ok then parse == M.ParseInto(Value(), ptr, M.TakeResponse) && |ptr| < |start| else parse.None?
    {
      hide M.ParseInto, ReadField, ReadTag, ReadLength;
      ptr := start;
      var again := true;
      while again
        invariant M.ParseInto(old(Value()), [18] + start, M.TakeResponse) ==
          M.ParseInto(Value(), if again then [18] + ptr else ptr, M.TakeResponse)
        invariant |ptr| <= |start| && (!again ==> |ptr| < |start|)
        decreases again, |ptr|
      {
        Step(Value(), [18] + ptr, M.TakeResponse);
        ValTag(ptr);
        LengthAt([18] + ptr);
        var s := ReadLength(ptr);
        if s.None? { return false, ptr; }
        val := val + [s.value.0];
        ptr := s.value.1;
        if ptr != [] && ptr[0] == 18 {
          assert [18] + ptr[1..] == ptr;
          ptr := ptr[1..];
        } else {
          again := false;
        }
      }
      ok := true;
    }

    method PutResult(target: Bytes) returns (end: Bytes)
      ensures end == target + Written(M.ResultFields(Value().result))
    {
      hide WriteField, M.SerializeCode;
      end := target;
      if result != null {
        var nested := result.InternalSerialize([]);
        assert nested == M.SerializeCode(result.Value());
        end := end + WriteField(Field(1, Length(nested)));
      }
    }

    method InternalSerialize(target: Bytes) returns (end: Bytes)
      ensures end == target + M.SerializeResponse(Value())
    {
      hide WriteFields, WriteField, Written, M.SerializeCode, M.ResponseFields;
      end := PutResult(target);
      ghost var head := end;
      WriteNothing();
      var i := 0;
      while i < |val|
        invariant 0 <= i <= |val|
        invariant end == head + WriteFields(M.ValFields(val[..i]))
      {
        WriteNextVal(val, i);
        end := end + WriteField(Field(2, Length(val[i])));
        i := i + 1;
      }
      assert val[..|val|] == val;
      end := end + WriteFields(unknown);
      WrittenResponse(Value());
      assert head + WriteFields(M.ValFields(val)) + WriteFields(unknown) ==
        target + (Written(M.ResultFields(Value().result)) + WriteFields(M.ValFields(val)) + WriteFields(unknown));
    }

    method ByteSizeLong() returns (total: nat)
      ensures total == |M.SerializeResponse(Value())|
    {
      hide WriteFields, WriteField, VarintSize, M.CodeFields;
      total := 1 * |val|;
      WriteAtMostOne([]);
      var i := 0;
      while i < |val|
        invariant 0 <= i <= |val|
        invariant total == |val| - i + |WriteFields(M.ValFields(val[..i]))|
      {
        WriteNextVal(val, i);
        BytesFieldSize(2, val[i]);
        total := total + BytesSize(val[i]);
        i := i + 1;
      }
      assert val[..|val|] == val;
      if result != null {
        var size := result.ByteSizeLong();
        BytesFieldSize(1, M.SerializeCode(result.Value()));
        total := total + 1 + VarintSize(size) + size;
      }
      total := total + FieldsSize(unknown);
      FieldsSizeIs(unknown);
      WrittenResponse(Value());
    }

    method MergeFrom(from: GetListResponse)
      requires from != this && (from.result != null ==> from.result != result)
      modifies this, result
      ensures Value() == M.MergeResponse(old(Value()), old(from.Value()))
      ensures from.Value() == old(from.Value())
    {
      unknown := unknown + from.unknown;
      val := val + from.val;
      if from.result != null {
        var r := MutableResult();
        r.MergeFrom(from.result);
      }
    }
  }

  /** However its tag is encoded, a `val` record parses as one with a one-byte tag. */
  lemma SameAsVal(m: M.GetListResponse, b: Bytes)
    requires ReadTag(b).Some? && ReadTag(b).value.0 == 18
    ensures M.ParseInto(m, b, M.TakeResponse) == M.ParseInto(m, [18] + ReadTag(b).value.1, M.TakeResponse)
  {
    hide M.ParseInto, ReadField, ReadTag, ReadLength;
    var rest := ReadTag(b).value.1;
    ValTag(rest);
    LengthAt(b);
    LengthAt([18] + rest);
    if b == [] { NoTagInNothing(); }
    Step(m, b, M.TakeResponse);
    Step(m, [18] + rest, M.TakeResponse);
  }

  lemma NoTagInNothing()
    ensures ReadTag([]).None?
  {}

  lemma ValTag(rest: Bytes)
    ensures ReadTag([18] + rest) == Some((18, rest))
  {
    assert ([18] + rest)[1..] == rest;
  }

  lemma {:induction false} ValFieldsAppend(val: seq<Bytes>, data: Bytes)
    ensures M.ValFields(val + [data]) == M.ValFields(val) + [Field(2, Length(data))]
  {
    if val == [] {
    } else {
      ValFieldsAppend(val[1..], data);
      assert (val + [data])[1..] == val[1..] + [data];
    }
  }

  lemma WriteNextVal(val: seq<Bytes>, i: nat)
    requires i < |val|
    ensures WriteFields(M.ValFields(val[..i + 1])) ==
      WriteFields(M.ValFields(val[..i])) + WriteField(Field(2, Length(val[i])))
  {
    hide WriteFields, WriteField;
    assert val[..i + 1] == val[..i] + [val[i]];
    ValFieldsAppend(val[..i], val[i]);
    WriteFieldsAppend(M.ValFields(val[..i]), [Field(2, Length(val[i]))]);
    WriteAtMostOne([Field(2, Length(val[i]))]);
  }

  lemma WrittenResponse(m: M.GetListResponse)
    ensures M.SerializeResponse(m) ==
      Written(M.ResultFields(m.result)) + WriteFields(M.ValFields(m.val)) + WriteFields(m.unknown)
  {
    hide WriteFields, WriteField, M.CodeFields;
    WriteFieldsAppend(M.ResultFields(m.result), M.ValFields(m.val));
    WriteFieldsAppend(M.ResultFields(m.result) + M.ValFields(m.val), m.unknown);
    WriteAtMostOne(M.ResultFields(m.result));
  }

  // ---------------------------------------------------------------- RpcHeader

  method PutBytes(number: FieldNumber, data: Bytes, target: Bytes) returns (end: Bytes)
    ensures end == target + Written(M.BytesField(number, data))
  {
    end := target;
    if |data| > 0 {
      end := end + WriteField(Field(number, Length(data)));
    }
  }

  method PutUInt32(number: FieldNumber, n: uint32, target: Bytes) returns (end: Bytes)
    ensures end == target + Written(M.UInt32Field(number, n))
  {
    end := target;
    if n != 0 {
      end := end + WriteField(Field(number, Varint(n)));
    }
  }

  lemma WrittenBytesSize(number: FieldNumber, data: Bytes)
    requires number < 16
    ensures |Written(M.BytesField(number, data))| == if |data| > 0 then 1 + BytesSize(data) else 0
  {
    BytesFieldSize(number, data);
  }

  lemma WrittenUInt32Size(number: FieldNumber, n: uint32)
    requires number < 16
    ensures |Written(M.UInt32Field(number, n))| == if n != 0 then 1 + VarintSize(n) else 0
  {
    VarintFieldSize(number, n);
  }

  lemma Gathered(target: Bytes, w: seq<Bytes>)
    requires |w| == 7
    ensures target + w[0] + w[1] + w[2] + w[3] + w[4] + w[5] + w[6] ==
      target + (w[0] + w[1] + w[2] + w[3] + w[4] + w[5] + w[6])
  {
    var w1 := w[0] + w[1];
    var w2 := w1 + w[2];
    var w3 := w2 + w[3];
    var w4 := w3 + w[4];
    assert target + w[0] + w[1] == target + w1;
    assert target + w1 + w[2] == target + w2;
    assert target + w2 + w[3] == target + w3;
    assert target + w3 + w[4] == target + w4;
    assert target + w4 + w[5] + w[6] == target + (w4 + w[5] + w[6]);
  }

  class RpcHeader {
    var serviceName: Bytes
    var methodName: Bytes
    var argsSize: uint32
    var messageType: uint32
    var ip: Bytes
    var port: uint32
    var unknown: seq<Field>

    constructor ()
      ensures Value() == M.NO_HEADER
    {
      serviceName, methodName, argsSize, messageType, ip, port, unknown := [], [], 0, 0, [], 0, [];
    }

    function Value(): M.RpcHeader
      reads this
    {
      M.RpcHeader(serviceName, methodName, argsSize, messageType, ip, port, unknown)
    }

    method InternalParse(buf: Bytes) returns (ok: bool)
      modifies this
      ensures ok == M.ParseInto(old(Value()), buf, M.TakeHeader).Some?
      ensures ok ==> M.ParseInto(old(Value()), buf, M.TakeHeader) == Some(Value())
    {
      hide M.ParseInto, ReadField, ReadTag, ReadPayload, ReadLength, ReadVarint32, ReadVarint64;
      var ptr := buf;
      while ptr != []
        invariant M.ParseInto(old(Value()), buf, M.TakeHeader) == M.ParseInto(Value(), ptr, M.TakeHeader)
        decreases |ptr|
      {
        Step(Value(), ptr, M.TakeHeader);
        var read := ReadTag(ptr);
        if read.None? {
          assert ReadField(ptr).None? by { NoTag(ptr); }
          return false;
        }
        AtTag(ptr);
        var (tag, rest) := read.value;
        if tag == 10 || tag == 18 || tag == 42 {
          LengthAt(ptr);
          var s := ReadLength(rest);
          if s.None? { return false; }
          ptr := s.value.1;
          if tag == 10 { serviceName := s.value.0; } else if tag == 18 { methodName := s.value.0; }
          else { ip := s.value.0; }
        } else if tag == 24 || tag == 32 || tag == 48 {
          VarintAt(ptr);
          LowHalf(rest);
          var v := ReadVarint32(rest);
          if v.None? { return false; }
          ptr := v.value.1;
          if tag == 24 { argsSize := v.value.0; } else if tag == 32 { messageType := v.value.0; }
          else { port := v.value.0; }
        } else {
          if tag % 8 == 4 || tag == 0 {
            assert ReadPayload(4, rest).None? by { NoGroups(rest); }
            return false;
          }
          ok, unknown, ptr := UnknownFieldParse(tag, rest, unknown);
          if !ok { return; }
        }
      }
      assert M.ParseInto(Value(), [], M.TakeHeader) == Some(Value()) by { ParseNothing(Value(), M.TakeHeader); }
      ok := true;
    }

    method InternalSerialize(target: Bytes) returns (end: Bytes)
      ensures end == target + M.SerializeHeader(Value())
    {
      hide WriteFields, WriteField, M.BytesField, M.UInt32Field, M.HeaderFields;
      end := PutBytes(1, serviceName, target);
      end := PutBytes(2, methodName, end);
      end := PutUInt32(3, argsSize, end);
      end := PutUInt32(4, messageType, end);
      end := PutBytes(5, ip, end);
      end := PutUInt32(6, port, end);
      end := end + WriteFields(unknown);
      WrittenHeader(Value());
      ghost var w := [Written(M.BytesField(1, serviceName)), Written(M.BytesField(2, methodName)),
        Written(M.UInt32Field(3, argsSize)), Written(M.UInt32Field(4, messageType)),
        Written(M.BytesField(5, ip)), Written(M.UInt32Field(6, port)), WriteFields(unknown)];
      Gathered(target, w);
    }

    method ByteSizeLong() returns (total: nat)
      ensures total == |M.SerializeHeader(Value())|
    {
      hide VarintSize, WriteFields, Written, M.BytesField, M.UInt32Field, M.HeaderFields, BytesSize;
      WrittenHeader(Value());
      WrittenBytesSize(1, serviceName);
      WrittenBytesSize(2, methodName);
      WrittenUInt32Size(3, argsSize);
      WrittenUInt32Size(4, messageType);
      WrittenBytesSize(5, ip);
      WrittenUInt32Size(6, port);
      FieldsSizeIs(unknown);
      total := 0;
      if |serviceName| > 0 {
        total := total + 1 + BytesSize(serviceName);
      }
      if |methodName| > 0 {
        total := total + 1 + BytesSize(methodName);
      }
      if |ip| > 0 {
        total := total + 1 + BytesSize(ip);
      }
      if argsSize != 0 {
        total := total + 1 + VarintSize(argsSize);
      }
      if messageType != 0 {
        total := total + 1 + VarintSize(messageType);
      }
      if port != 0 {
        total := total + 1 + VarintSize(port);
      }
      total := total + FieldsSize(unknown);
    }

    method MergeFrom(from: RpcHeader)
      requires from != this
      modifies this
      ensures Value() == M.MergeHeader(old(Value()), from.Value())
    {
      unknown := unknown + from.unknown;
      if |from.serviceName| > 0 {
        serviceName := from.serviceName;
      }
      if |from.methodName| > 0 {
        methodName := from.methodName;
      }
      if |from.ip| > 0 {
        ip := from.ip;
      }
      if from.argsSize != 0 {
        argsSize := from.argsSize;
      }
      if from.messageType != 0 {
        messageType := from.messageType;
      }
      if from.port != 0 {
        port := from.port;
      }
    }
  }

  lemma WrittenHeader(m: M.RpcHeader)
    ensures M.SerializeHeader(m) ==
      Written(M.BytesField(1, m.serviceName)) + Written(M.BytesField(2, m.methodName)) +
        Written(M.UInt32Field(3, m.argsSize))
      + Written(M.UInt32Field(4, m.messageType)) + Written(M.BytesField(5, m.ip)) + Written(M.UInt32Field(6, m.port))
      + WriteFields(m.unknown)
  {
    hide WriteFields, WriteField;
    var p1, p2, p3 := M.BytesField(1, m.serviceName), M.BytesField(2, m.methodName), M.UInt32Field(3, m.argsSize);
    var p4, p5, p6 := M.UInt32Field(4, m.messageType), M.BytesField(5, m.ip), M.UInt32Field(6, m.port);
    WriteAtMostOne(p1);
    WriteAtMostOne(p2);
    WriteAtMostOne(p3);
    WriteAtMostOne(p4);
    WriteAtMostOne(p5);
    WriteAtMostOne(p6);
    WriteFieldsAppend(p1, p2);
    WriteFieldsAppend(p1 + p2, p3);
    WriteFieldsAppend(p1 + p2 + p3, p4);
    WriteFieldsAppend(p1 + p2 + p3 + p4, p5);
    WriteFieldsAppend(p1 + p2 + p3 + p4 + p5, p6);
    WriteFieldsAppend(p1 + p2 + p3 + p4 + p5 + p6, m.unknown);
  }
}
