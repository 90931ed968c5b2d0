/**
  * The BRK2 response encoder: exactly when it succeeds, and that its output parses back to
  * fields 1 to 7 with the original values under the given request id.
  */
module Brk2Response {
  import opened Bytes
  import opened Wire
  import opened Broker
  import opened Brk2

  const MSG_RESPONSE: nat := 4
  const FLAGS: nat := 5                    // FLAG_RESPONSE | FLAG_END_STREAM
  const SCHEMA_RESPONSE: nat := 2

  /** `backend_name`: "cpu", "gpu" or "npu". */
  function BackendName(b: Backend): Str {
    match b
    case Cpu => CPU
    case Gpu => GPU
    case Npu => NPU
  }

  /** `static_cast<uint64_t>(static_cast<int64_t>(i))`. */
  function ToU64(i: i32): u64 {
    if i >= 0 then i else i + U64_RANGE
  }

  function F1(r: Response): Field { Field(1, WT_UTF8, 0, r.taskId) }
  function F2(r: Response): Field { Field(2, WT_U8, 0, Be(StatusCode(r.status), 1)) }
  function F3(r: Response): Field { Field(3, WT_I64, 0, Be(ToU64(r.gpu), 8)) }
  function F4(r: Response): Field { Field(4, WT_U64, 0, Be(r.latency, 8)) }
  function F5(r: Response): Field { Field(5, WT_BYTES, 0, r.result) }
  function F6(r: Response): Field { Field(6, WT_UTF8, 0, r.error) }
  function F7(r: Response): Field { Field(7, WT_UTF8, 0, BackendName(r.backend)) }

  function Fields(r: Response): seq<Field> {
    [F1(r), F2(r), F3(r), F4(r), F5(r), F6(r), F7(r)]
  }

  function Payload(r: Response): Str {
    PutField(F1(r), PutField(F2(r), PutField(F3(r), PutField(F4(r), PutField(F5(r),
      PutField(F6(r), PutField(F7(r), [])))))))
  }

  lemma PayloadIsFields(r: Response)
    ensures Payload(r) == PutFields(Fields(r))
  {
    hide PutField;
    var fs := Fields(r);
    PutFieldsStep(F7(r), []);
    PutFieldsStep(F6(r), [F7(r)]);
    PutFieldsStep(F5(r), [F6(r), F7(r)]);
    PutFieldsStep(F4(r), [F5(r), F6(r), F7(r)]);
    PutFieldsStep(F3(r), [F4(r), F5(r), F6(r), F7(r)]);
    PutFieldsStep(F2(r), [F3(r), F4(r), F5(r), F6(r), F7(r)]);
    PutFieldsStep(F1(r), [F2(r), F3(r), F4(r), F5(r), F6(r), F7(r)]);
    assert [F6(r)] + [F7(r)] == [F6(r), F7(r)];
    assert [F5(r)] + [F6(r), F7(r)] == [F5(r), F6(r), F7(r)];
    assert [F4(r)] + [F5(r), F6(r), F7(r)] == [F4(r), F5(r), F6(r), F7(r)];
    assert [F3(r)] + [F4(r), F5(r), F6(r), F7(r)] == [F3(r), F4(r), F5(r), F6(r), F7(r)];
    assert [F2(r)] + [F3(r), F4(r), F5(r), F6(r), F7(r)] == [F2(r), F3(r), F4(r), F5(r), F6(r), F7(r)];
    assert [F1(r)] + [F2(r), F3(r), F4(r), F5(r), F6(r), F7(r)] == fs;
    assert [F7(r)] + [] == [F7(r)];
  }

  lemma PutFieldsStep(f: Field, fs: seq<Field>)
    ensures PutFields([f] + fs) == PutField(f, PutFields(fs))
    ensures PutFields([]) == []
  {
    assert ([f] + fs)[1..] == fs;
  }

  lemma PayloadSize(r: Response)
    ensures |Payload(r)| == 76 + |r.taskId| + |r.result| + |r.error|
  {
    hide PutField;
    var p7 := PutField(F7(r), []);
    var p6 := PutField(F6(r), p7);
    var p5 := PutField(F5(r), p6);
    var p4 := PutField(F4(r), p5);
    var p3 := PutField(F3(r), p4);
    var p2 := PutField(F2(r), p3);
    FieldLength(F7(r), []);
    FieldLength(F6(r), p7);
    FieldLength(F5(r), p6);
    FieldLength(F4(r), p5);
    FieldLength(F3(r), p4);
    FieldLength(F2(r), p3);
    FieldLength(F1(r), p2);
  }

  /** Each field length must fit its 32-bit length word. */
  predicate FieldsFit(r: Response) {
    |r.taskId| < U32_RANGE && |r.result| < U32_RANGE && |r.error| < U32_RANGE
  }

  /** The exact success condition. */
  predicate Encodable(r: Response, lim: Limits) {
    && |r.taskId| <= lim.maxString && |r.error| <= lim.maxString
    && 76 + |r.taskId| + |r.result| + |r.error| <= lim.maxPayload
    && HEADER_BYTES + 76 + |r.taskId| + |r.result| + |r.error| <= lim.maxFrame
    && FieldsFit(r)
  }

  /** The length word of the envelope is the payload size modulo 2^32. */
  function ResponseEnvelope(r: Response, rid: u64): Envelope {
    Envelope(MAGIC, MAJOR, 0, HEADER_BYTES, MSG_RESPONSE, FLAGS, rid, SCHEMA_RESPONSE, 1, 0,
             |Payload(r)| % U32_RANGE)
  }

  function Body(r: Response, rid: u64): Str {
    PutEnvelope(ResponseEnvelope(r, rid), Payload(r))
  }

  /** The encoder's result: the body, or `None` where it throws. */
  function ResponseBody(r: Response, rid: u64, lim: Limits): Option<Str> {
    if Encodable(r, lim) then Some(Body(r, rid)) else None
  }

  /** The fields of a response as the document lists them: id, wire type, no flags, and the value. */
  predicate Documented(fs: seq<Field>, r: Response) {
    && |fs| == 7
    && fs[0] == Field(1, 8, 0, r.taskId)
    && fs[1] == Field(2, 1, 0, [match r.status case Ok => 0 case Rejected => 1 case Error => 2 case Timeout => 3])
    && fs[2].id == 3 && fs[2].wt == 5 && fs[2].flags == 0
    && |fs[2].data| == 8 && (BeVal(fs[2].data) - r.gpu) % 0x1_0000_0000_0000_0000 == 0
    && fs[3].id == 4 && fs[3].wt == 4 && fs[3].flags == 0
    && |fs[3].data| == 8 && BeVal(fs[3].data) == r.latency
    && fs[4] == Field(5, 9, 0, r.result)
    && fs[5] == Field(6, 8, 0, r.error)
    && fs[6] == Field(7, 8, 0, match r.backend case Cpu => Ascii("cpu") case Gpu => Ascii("gpu") case Npu => Ascii("npu"))
  }

  lemma EightBytes(x: Str, v: u64)
    requires |x| == 8
    ensures x == Be(v, 8) <==> BeVal(x) == v
  {
    assert Pow256(8) == U64_RANGE;
    hide Be, BeVal;
    BeOfBeVal(x);
    BeValOfBe(v, 8);
    DivModUnique(v, Pow256(8), 0, v);
  }

  /** An eight-byte number congruent to a 32-bit integer is its two's complement. */
  lemma TwosComplement(v: u64, i: i32)
    ensures (v - i) % 0x1_0000_0000_0000_0000 == 0 <==> v == ToU64(i)
  {
  }

  lemma StatusField(f: Field, r: Response)
    ensures f == F2(r) <==>
            f == Field(2, 1, 0, [match r.status case Ok => 0 case Rejected => 1 case Error => 2 case Timeout => 3])
  {
    OneByte(StatusCode(r.status));
    hide Be;
  }

  lemma GpuField(f: Field, r: Response)
    ensures f == F3(r) <==>
            && f.id == 3 && f.wt == 5 && f.flags == 0
            && |f.data| == 8 && (BeVal(f.data) - r.gpu) % 0x1_0000_0000_0000_0000 == 0
  {
    hide Be, BeVal;
    if |f.data| == 8 {
      EightBytes(f.data, ToU64(r.gpu));
      ByteValue(f.data);
      TwosComplement(BeVal(f.data), r.gpu);
    }
  }

  lemma LatencyField(f: Field, r: Response)
    ensures f == F4(r) <==>
            f.id == 4 && f.wt == 4 && f.flags == 0 && |f.data| == 8 && BeVal(f.data) == r.latency
  {
    hide Be, BeVal;
    if |f.data| == 8 { EightBytes(f.data, r.latency); }
  }

  lemma NameField(f: Field, r: Response)
    ensures f == F7(r) <==>
            f == Field(7, 8, 0, match r.backend case Cpu => Ascii("cpu") case Gpu => Ascii("gpu") case Npu => Ascii("npu"))
  {
    hide Ascii;
  }

  /** The fields the encoder puts are exactly the documented ones. */
  lemma FieldsDocumented(fs: seq<Field>, r: Response)
    ensures fs == Fields(r) <==> Documented(fs, r)
  {
    hide Be, BeVal, Ascii;
    if |fs| == 7 {
      StatusField(fs[1], r);
      GpuField(fs[2], r);
      LatencyField(fs[3], r);
      NameField(fs[6], r);
      hide F2, F3, F4, F7;
      assert fs == Fields(r) <==>
        && fs[0] == F1(r) && fs[1] == F2(r) && fs[2] == F3(r) && fs[3] == F4(r)
        && fs[4] == F5(r) && fs[5] == F6(r) && fs[6] == F7(r);
    }
  }

  lemma ByteValue(x: Str)
    requires |x| == 8
    ensures BeVal(x) < 0x1_0000_0000_0000_0000
  {
    assert Pow256(8) == U64_RANGE;
  }

  /** The envelope of a response as the document lists it. */
  function DocumentedEnvelope(r: Response, rid: u64): Envelope {
    Envelope(0x42524B32, 2, 0, 32, 4, 5, rid, 2, 1, 0, (76 + |r.taskId| + |r.result| + |r.error|) % 0x1_0000_0000)
  }

  /** What is sent for a response: the documented envelope with the request id, and behind it bytes
      that parse to the documented fields and to nothing else. */
  ghost predicate Sent(b: Str, r: Response, rid: u64) {
    && |b| == 108 + |r.taskId| + |r.result| + |r.error|
    && EnvelopeOf(b) == DocumentedEnvelope(r, rid)
    && (exists fs :: Documented(fs, r))
    && forall fs :: WellFormed(fs) && Region(b) == PutFields(fs) <==> Documented(fs, r)
  }

  /** The output is read back, field by field, to what was put in. */
  lemma BodyReadsBack(r: Response, rid: u64)
    requires FieldsFit(r)
    ensures Sent(Body(r, rid), r, rid)
  {
    hide PutEnvelope, Payload, PutFields, PutField, EnvelopeOf, Documented, Fields;
    var b, p := Body(r, rid), Payload(r);
    PayloadSize(r);
    PayloadIsFields(r);
    EnvelopeLength(ResponseEnvelope(r, rid), p);
    EnvelopeSplit(b);
    EnvelopeInjective(ResponseEnvelope(r, rid), p, EnvelopeOf(b), b[HEADER_BYTES..]);
    FieldsWellFormed(r);
    FieldsDocumented(Fields(r), r);
    forall fs ensures WellFormed(fs) && Region(b) == PutFields(fs) <==> Documented(fs, r) {
      FieldsDocumented(fs, r);
      if WellFormed(fs) && Region(b) == PutFields(fs) { FieldsUnique(fs, Fields(r)); }
    }
  }

  lemma FieldsWellFormed(r: Response)
    requires FieldsFit(r)
    ensures WellFormed(Fields(r))
  {
    var fs := Fields(r);
    assert forall i :: 0 <= i < 7 ==> fs[i].id == i + 1;
  }

  /** Nothing but the in-process fallback flag is lost: equal fields mean equal responses. */
  lemma FieldsDetermineResponse(r: Response, q: Response)
    requires Fields(r) == Fields(q) && r.fellBack == q.fellBack
    ensures r == q
  {
    hide Be;
    var fr, fq := Fields(r), Fields(q);
    assert fr[0] == fq[0] && fr[1] == fq[1] && fr[2] == fq[2] && fr[3] == fq[3];
    assert fr[4] == fq[4] && fr[5] == fq[5] && fr[6] == fq[6];
    BeInjective(StatusCode(r.status), StatusCode(q.status), 1);
    BeInjective(ToU64(r.gpu), ToU64(q.gpu), 8);
    BeInjective(r.latency, q.latency, 8);
    assert BackendName(r.backend)[0] == BackendName(q.backend)[0];
  }

  lemma BeInjective(v: nat, w: nat, n: nat)
    requires v < Pow256(n) && w < Pow256(n) && Be(v, n) == Be(w, n)
    ensures v == w
  {
    assert PutUint(v, n, []) == PutUint(w, n, []);
    PutUintInjective(v, w, n, [], []);
  }

  // ----- encoder -----

  /** `put_field` with flags 0; `false` where it throws. */
  method AppendField(out: Str, f: Field) returns (ok: bool, r: Str)
    requires f.flags == 0
    ensures ok <==> |f.data| < U32_RANGE
    ensures ok ==> forall k {:trigger PutField(f, k)} :: r + k == out + PutField(f, k)
  {
    hide PutUint, PutSized;
    if |f.data| > 0xFFFF_FFFF { return false, out; }
    r := WriteUint(out, f.id, 2);
    r := WriteUint(r, f.wt, 1);
    r := WriteUint(r, 0, 1);
    r := WriteSized(r, f.data, 4);
    ok := true;
  }

  method WriteEnvelope(e: Envelope, payload: Str) returns (b: Str)
    ensures b == PutEnvelope(e, payload)
  {
    hide PutUint;
    b := WriteUint([], e.magic, 4);
    b := WriteUint(b, e.major, 1);
    b := WriteUint(b, e.minor, 1);
    b := WriteUint(b, e.headerLen, 2);
    b := WriteUint(b, e.kind, 2);
    b := WriteUint(b, e.flags, 2);
    b := WriteUint(b, e.requestId, 8);
    b := WriteUint(b, e.schema, 4);
    b := WriteUint(b, e.schemaVersion, 2);
    b := WriteUint(b, e.reserved, 2);
    b := WriteUint(b, e.payloadLen, 4);
    b := b + payload;
    assert [] + PutEnvelope(e, payload) == PutEnvelope(e, payload);
  }

  method EncodeResponse(r: Response, rid: u64, lim: Limits) returns (out: Option<Str>)
    ensures out == ResponseBody(r, rid, lim)
    ensures out.Some? <==>
            && |r.taskId| <= lim.maxString && |r.error| <= lim.maxString
            && 76 + |r.taskId| + |r.result| + |r.error| <= lim.maxPayload
            && 108 + |r.taskId| + |r.result| + |r.error| <= lim.maxFrame
            && |r.taskId| < 0x1_0000_0000 && |r.result| < 0x1_0000_0000 && |r.error| < 0x1_0000_0000
    ensures out.Some? ==> Sent(out.value, r, rid)
  {
    if FieldsFit(r) { BodyReadsBack(r, rid); }
    hide PutField, PutEnvelope, Sent;
    PayloadSize(r);
    if |r.result| > lim.maxPayload { return None; }
    if |r.taskId| > lim.maxString || |r.error| > lim.maxString { return None; }
    var ok, p := AppendField([], F1(r));
    if !ok { return None; }
    ok, p := AppendField(p, F2(r));
    if !ok { return None; }
    ok, p := AppendField(p, F3(r));
    if !ok { return None; }
    ok, p := AppendField(p, F4(r));
    if !ok { return None; }
    ok, p := AppendField(p, F5(r));
    if !ok { return None; }
    ok, p := AppendField(p, F6(r));
    if !ok { return None; }
    ok, p := AppendField(p, F7(r));
    if !ok { return None; }
    assert p + [] == p && [] + Payload(r) == Payload(r);
    if |p| > lim.maxPayload || HEADER_BYTES + |p| > lim.maxFrame { return None; }
    var b := WriteEnvelope(
      Envelope(MAGIC, MAJOR, 0, HEADER_BYTES, MSG_RESPONSE, FLAGS, rid, SCHEMA_RESPONSE, 1, 0, |p| % U32_RANGE), p);
    return Some(b);
  }
}
