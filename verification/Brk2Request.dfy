/**
  * The BRK2 request schema. `Accepts` says which bodies carry which request; the decoder
  * returns exactly that. Because `Accepts` speaks only of which fields are present, the order
  * of fields and the presence of unknown optional fields cannot matter.
  */
module Brk2Request {
  import opened Bytes
  import opened Broker
  import opened Brk2
  import opened Utf8

  const MSG_REQUEST: nat := 3
  const SCHEMA_REQUEST: nat := 1

  const AUTO: Str := Ascii("auto")

  predicate Known(id: u16) {
    1 <= id <= 10
  }

  predicate Critical(f: Field) {
    f.flags % 2 == 1
  }

  ghost predicate Carries(fs: seq<Field>, id: u16, wt: byte, data: Str) {
    exists f :: f in fs && f.id == id && f.wt == wt && f.data == data
  }

  ghost predicate CarriesText(fs: seq<Field>, id: u16, x: Str, lim: Limits) {
    Carries(fs, id, WT_UTF8, x) && IsUtf8(x) && x != [] && |x| <= lim.maxString
  }

  predicate NoUnknownCritical(fs: seq<Field>) {
    forall f :: f in fs ==> Known(f.id) || !Critical(f)
  }

  predicate OptionalOk(fs: seq<Field>, id: u16, wt: byte, size: nat) {
    forall f :: f in fs && f.id == id ==> f.wt == wt && |f.data| == size
  }

  ghost predicate PreferenceIs(fs: seq<Field>, p: Str) {
    if forall f :: f in fs ==> f.id != 10 then p == []
    else Carries(fs, 10, WT_UTF8, p) && (p == CPU || p == GPU || p == NPU || p == AUTO)
  }

  /** Request schema 1: what the fields must say for them to denote `m`. */
  ghost predicate Schema(fs: seq<Field>, lim: Limits, m: Request) {
    && NoUnknownCritical(fs)
    && CarriesText(fs, 1, m.taskId, lim)
    && CarriesText(fs, 2, m.source, lim)
    && CarriesText(fs, 3, m.destination, lim)
    && CarriesText(fs, 4, m.kind, lim)
    && Carries(fs, 5, WT_U8, [m.priority])
    && Carries(fs, 6, WT_U32, Be(m.timeoutMs, 4))
    && Carries(fs, 7, WT_BYTES, m.payload) && |m.payload| <= lim.maxPayload
    && OptionalOk(fs, 8, WT_UUID, 16)
    && OptionalOk(fs, 9, WT_U64, 8)
    && PreferenceIs(fs, m.preference)
    && 1 <= m.timeoutMs <= MAX_TIMEOUT_MS
    && m.profile == None
  }

  /** The body with request id `rid` and fields `fs`; the minor version byte is free. */
  function Body(minor: byte, rid: u64, fs: seq<Field>): Str
    requires |PutFields(fs)| < U32_RANGE
  {
    PutEnvelope(
      Envelope(MAGIC, MAJOR, minor, HEADER_BYTES, MSG_REQUEST, 0, rid, SCHEMA_REQUEST, 1, 0, |PutFields(fs)|),
      PutFields(fs))
  }

  predicate WithinLimits(fs: seq<Field>, lim: Limits) {
    && |PutFields(fs)| < U32_RANGE
    && |PutFields(fs)| <= lim.maxPayload
    && HEADER_BYTES + |PutFields(fs)| <= lim.maxFrame
  }

  ghost predicate AcceptsAs(body: Str, lim: Limits, m: Request, rid: u64, minor: byte, fs: seq<Field>) {
    && WithinLimits(fs, lim) && WellFormed(fs)
    && body == Body(minor, rid, fs) && Schema(fs, lim, m)
  }

  ghost predicate Accepts(body: Str, lim: Limits, m: Request, rid: u64) {
    exists minor: byte, fs :: AcceptsAs(body, lim, m, rid, minor, fs)
  }

  // ----- decoder -----

  /** The checks of the envelope, in the code's order; `payload_len` must be exact. */
  predicate EnvelopeOk(body: Str, lim: Limits) {
    && HEADER_BYTES <= |body| <= lim.maxFrame
    && var e := EnvelopeOf(body);
    && e.magic == MAGIC && e.major == MAJOR && e.headerLen == HEADER_BYTES && e.kind == MSG_REQUEST
    && e.flags == 0 && e.reserved == 0
    && e.payloadLen <= lim.maxPayload && e.payloadLen == |body| - HEADER_BYTES
    && e.schema == SCHEMA_REQUEST && e.schemaVersion == 1
  }

  lemma BodyPasses(minor: byte, rid: u64, fs: seq<Field>, lim: Limits)
    requires WithinLimits(fs, lim)
    ensures var body := Body(minor, rid, fs);
            EnvelopeOk(body, lim) && EnvelopeOf(body).requestId == rid && Region(body) == PutFields(fs)
  {
    hide PutEnvelope, PutFields, EnvelopeOf;
    var body := Body(minor, rid, fs);
    var e := Envelope(MAGIC, MAJOR, minor, HEADER_BYTES, MSG_REQUEST, 0, rid, SCHEMA_REQUEST, 1, 0, |PutFields(fs)|);
    EnvelopeLength(e, PutFields(fs));
    EnvelopeSplit(body);
    EnvelopeInjective(e, PutFields(fs), EnvelopeOf(body), body[HEADER_BYTES..]);
  }

  lemma PassedIsBody(body: Str, lim: Limits, fs: seq<Field>)
    requires EnvelopeOk(body, lim) && Region(body) == PutFields(fs)
    ensures WithinLimits(fs, lim) && body == Body(EnvelopeOf(body).minor, EnvelopeOf(body).requestId, fs)
  {
    hide PutEnvelope, PutFields, EnvelopeOf;
    EnvelopeSplit(body);
    assert body[HEADER_BYTES..] == Region(body);
  }

  /** `Accepts`, split into the envelope and the fields. */
  lemma AcceptsMeans(body: Str, lim: Limits, m: Request, rid: u64)
    ensures Accepts(body, lim, m, rid) <==>
            && EnvelopeOk(body, lim) && rid == EnvelopeOf(body).requestId
            && exists fs :: WellFormed(fs) && Region(body) == PutFields(fs) && Schema(fs, lim, m)
  {
    hide Schema, PutFields, EnvelopeOf, WellFormed, Region;
    if Accepts(body, lim, m, rid) {
      var minor: byte, fs :| AcceptsAs(body, lim, m, rid, minor, fs);
      BodyPasses(minor, rid, fs, lim);
    }
    if EnvelopeOk(body, lim) && rid == EnvelopeOf(body).requestId {
      forall fs | WellFormed(fs) && Region(body) == PutFields(fs) && Schema(fs, lim, m)
        ensures Accepts(body, lim, m, rid)
      {
        PassedIsBody(body, lim, fs);
        assert AcceptsAs(body, lim, m, rid, EnvelopeOf(body).minor, fs);
      }
    }
  }

  method CheckEnvelope(body: Str, lim: Limits) returns (ok: bool, rid: u64)
    ensures ok <==> EnvelopeOk(body, lim)
    ensures ok ==> rid == EnvelopeOf(body).requestId
  {
    ok, rid := false, 0;
    if |body| < HEADER_BYTES || |body| > lim.maxFrame { return; }
    var v := ReadUintAt(body, 0, 4);
    if v != MAGIC { return; }
    if body[4] != 2 { return; }
    v := ReadUintAt(body, 6, 2);
    if v != HEADER_BYTES { return; }
    v := ReadUintAt(body, 8, 2);
    if v != MSG_REQUEST { return; }
    v := ReadUintAt(body, 10, 2);
    if v != 0 { return; }
    v := ReadUintAt(body, 26, 2);
    if v != 0 { return; }
    var payloadLen := ReadUintAt(body, 28, 4);
    if payloadLen > lim.maxPayload || payloadLen != |body| - HEADER_BYTES { return; }
    var schema := ReadUintAt(body, 20, 4);
    var schemaVersion := ReadUintAt(body, 24, 2);
    if schema != SCHEMA_REQUEST || schemaVersion != 1 { return; }
    v := ReadUintAt(body, 12, 8);
    ok, rid := true, v;
  }

  /** With distinct ids, the field `Find` returns is the only one with that id. */
  lemma FindIsTheField(fs: seq<Field>, id: u16)
    requires DistinctIds(fs)
    ensures forall f :: f in fs && f.id == id ==> Find(fs, id) == Some(f)
  {
    forall f | f in fs && f.id == id ensures Find(fs, id) == Some(f) {
      var g := Find(fs, id);
      assert g.Some? && g.value in fs && g.value.id == id;
      var i :| 0 <= i < |fs| && fs[i] == f;
      var j :| 0 <= j < |fs| && fs[j] == g.value;
      assert i == j;
    }
  }

  /** `get_string`; the configured length limit is applied afterwards. */
  method GetString(fs: seq<Field>, id: u16) returns (r: Option<Str>)
    requires DistinctIds(fs)
    ensures forall x :: r == Some(x) <==> Carries(fs, id, WT_UTF8, x) && IsUtf8(x) && x != []
  {
    FindIsTheField(fs, id);
    var f := Find(fs, id);
    if f.None? || f.value.wt != WT_UTF8 { return None; }
    var ok := ValidUtf8(f.value.data);
    if !ok { return None; }
    if f.value.data == [] { return None; }
    return Some(f.value.data);
  }

  /** `get_fixed` together with the copy of the data. */
  method GetFixed(fs: seq<Field>, id: u16, wt: byte, n: nat) returns (r: Option<Str>)
    requires DistinctIds(fs)
    ensures forall x :: r == Some(x) <==> Carries(fs, id, wt, x) && |x| == n
  {
    FindIsTheField(fs, id);
    var f := Find(fs, id);
    if f.None? || f.value.wt != wt || |f.value.data| != n { return None; }
    return Some(f.value.data);
  }

  method CheckKnown(fs: seq<Field>) returns (ok: bool)
    ensures ok <==> NoUnknownCritical(fs)
  {
    var i := 0;
    while i < |fs|
      invariant 0 <= i <= |fs|
      invariant forall j :: 0 <= j < i ==> Known(fs[j].id) || !Critical(fs[j])
    {
      if !Known(fs[i].id) && Critical(fs[i]) { return false; }
      i := i + 1;
    }
    return true;
  }

  /** The optional fields 8, 9 and 10. */
  method GetOptional(fs: seq<Field>) returns (r: Option<Str>)
    requires DistinctIds(fs)
    ensures forall p :: r == Some(p) <==>
              OptionalOk(fs, 8, WT_UUID, 16) && OptionalOk(fs, 9, WT_U64, 8) && PreferenceIs(fs, p)
  {
    FindIsTheField(fs, 8);
    FindIsTheField(fs, 9);
    FindIsTheField(fs, 10);
    var key := Find(fs, 8);
    if key.Some? && (key.value.wt != WT_UUID || |key.value.data| != 16) { return None; }
    var deadline := Find(fs, 9);
    if deadline.Some? && (deadline.value.wt != WT_U64 || |deadline.value.data| != 8) { return None; }
    var pref := Find(fs, 10);
    if pref.None? { return Some([]); }
    if pref.value.wt != WT_UTF8 { return None; }
    var p := pref.value.data;
    if p != CPU && p != GPU && p != NPU && p != AUTO { return None; }
    return Some(p);
  }

  /** The four mandatory strings, each within the configured limit. */
  method GetTexts(fs: seq<Field>, lim: Limits) returns (r: Option<(Str, Str, Str, Str)>)
    requires DistinctIds(fs)
    ensures forall a, b, c, d :: r == Some((a, b, c, d)) <==>
              CarriesText(fs, 1, a, lim) && CarriesText(fs, 2, b, lim)
              && CarriesText(fs, 3, c, lim) && CarriesText(fs, 4, d, lim)
  {
    hide Carries, IsUtf8;
    var a := GetString(fs, 1);
    if a.None? { return None; }
    var b := GetString(fs, 2);
    if b.None? { return None; }
    var c := GetString(fs, 3);
    if c.None? { return None; }
    var d := GetString(fs, 4);
    if d.None? { return None; }
    if |a.value| > lim.maxString || |b.value| > lim.maxString || |c.value| > lim.maxString
       || |d.value| > lim.maxString { return None; }
    return Some((a.value, b.value, c.value, d.value));
  }

  /** Fields 5, 6 and 7. */
  method GetScalars(fs: seq<Field>, lim: Limits) returns (r: Option<(byte, u32, Str)>)
    requires DistinctIds(fs)
    ensures forall p: byte, t: u32, x :: r == Some((p, t, x)) <==>
              Carries(fs, 5, WT_U8, [p]) && Carries(fs, 6, WT_U32, Be(t, 4))
              && Carries(fs, 7, WT_BYTES, x) && |x| <= lim.maxPayload
  {
    hide Carries;
    var priority := GetFixed(fs, 5, WT_U8, 1);
    if priority.None? {
      assert forall p: byte :: |[p]| == 1;
      return None;
    }
    assert priority.value == [priority.value[0]];
    var timeout := GetFixed(fs, 6, WT_U32, 4);
    if timeout.None? { return None; }
    var timeoutMs := ReadUintAt(timeout.value, 0, 4);
    assert timeout.value[0..4] == timeout.value;
    TimeoutBytes(timeout.value);
    var found := Find(fs, 7);
    var payload := GetFixed(fs, 7, WT_BYTES, if found.Some? then |found.value.data| else 0);
    PayloadSize(fs);
    if payload.None? { return None; }
    if |payload.value| > lim.maxPayload { return None; }
    return Some((priority.value[0], timeoutMs, payload.value));
  }

  method ReadSchema(fs: seq<Field>, lim: Limits) returns (r: Option<Request>)
    requires DistinctIds(fs)
    ensures forall m :: r == Some(m) <==> Schema(fs, lim, m)
  {
    hide Carries, CarriesText, PreferenceIs, OptionalOk, NoUnknownCritical;
    var known := CheckKnown(fs);
    if !known { return None; }
    var texts := GetTexts(fs, lim);
    if texts.None? {
      assert forall a, b, c, d :: !(CarriesText(fs, 1, a, lim) && CarriesText(fs, 2, b, lim)
                                    && CarriesText(fs, 3, c, lim) && CarriesText(fs, 4, d, lim));
      return None;
    }
    var scalars := GetScalars(fs, lim);
    if scalars.None? { return None; }
    var optional := GetOptional(fs);
    if optional.None? { return None; }
    var (priority, timeoutMs, payload) := scalars.value;
    if timeoutMs == 0 || timeoutMs > MAX_TIMEOUT_MS { return None; }
    var (a, b, c, d) := texts.value;
    return Some(Request(a, b, c, d, priority, timeoutMs, payload, None, optional.value));
  }

  lemma TimeoutBytes(x: Str)
    requires |x| == 4
    ensures BeVal(x) < U32_RANGE
    ensures forall v: u32 :: x == Be(v, 4) <==> v == BeVal(x)
  {
    assert Pow256(4) == U32_RANGE;
    hide Be, BeVal;
    BeOfBeVal(x);
    forall v: u32 | x == Be(v, 4) ensures v == BeVal(x) {
      BeValOfBe(v, 4);
      DivModUnique(v, Pow256(4), 0, v);
    }
  }

  lemma PayloadSize(fs: seq<Field>)
    requires DistinctIds(fs)
    ensures forall x :: Carries(fs, 7, WT_BYTES, x) ==> Find(fs, 7).Some? && |Find(fs, 7).value.data| == |x|
  {
    FindIsTheField(fs, 7);
  }

  method DecodeRequest(body: Str, lim: Limits) returns (r: Option<(Request, u64)>)
    ensures forall m, rid: u64 :: r == Some((m, rid)) <==> Accepts(body, lim, m, rid)
  {
    hide Accepts, Schema, PutFields, EnvelopeOf, AllWf, Region;
    forall m, rid: u64 ensures Accepts(body, lim, m, rid) <==>
        && EnvelopeOk(body, lim) && rid == EnvelopeOf(body).requestId
        && exists fs :: WellFormed(fs) && Region(body) == PutFields(fs) && Schema(fs, lim, m)
    {
      AcceptsMeans(body, lim, m, rid);
    }
    r := None;
    var ok, rid := CheckEnvelope(body, lim);
    if !ok { return; }
    var fields := ParseFields(body);
    if fields.None? { return; }
    assert fields == Some(fields.value);
    var m := ReadSchema(fields.value, lim);
    if m.None? { return; }
    r := Some((m.value, rid));
  }

  // ----- what decoding does not depend on -----

  ghost predicate SameKnown(fs: seq<Field>, gs: seq<Field>) {
    forall f: Field :: Known(f.id) ==> (f in fs <==> f in gs)
  }

  /** The schema sees a field list only through its known fields and unknown critical ones. */
  lemma SchemaSeesKnownFields(fs: seq<Field>, gs: seq<Field>, lim: Limits, m: Request)
    requires SameKnown(fs, gs) && NoUnknownCritical(gs)
    requires Schema(fs, lim, m)
    ensures Schema(gs, lim, m)
  {
    forall id: u16, wt: byte, x | Known(id) && Carries(fs, id, wt, x) ensures Carries(gs, id, wt, x) {
      var f :| f in fs && f.id == id && f.wt == wt && f.data == x;
      assert f in gs;
    }
    assert (forall f :: f in fs ==> f.id != 10) <==> (forall f :: f in gs ==> f.id != 10) by {
      forall f | f in fs && f.id == 10 ensures f in gs {}
      forall f | f in gs && f.id == 10 ensures f in fs {}
    }
  }

  /** A body accepted with fields `fs` stays accepted, with the same request and request id, when
      `fs` is replaced by any well-formed list with the same known fields, no unknown critical
      field and a size within the limits. */
  lemma DecodingSeesKnownFields(minor: byte, minor': byte, rid: u64, fs: seq<Field>, gs: seq<Field>,
                                lim: Limits, m: Request)
    requires WellFormed(fs) && WellFormed(gs) && SameKnown(fs, gs) && NoUnknownCritical(gs)
    requires |PutFields(fs)| < U32_RANGE && WithinLimits(gs, lim)
    requires Accepts(Body(minor, rid, fs), lim, m, rid)
    ensures Accepts(Body(minor', rid, gs), lim, m, rid)
  {
    hide Schema, PutFields, EnvelopeOf, Region;
    AcceptedFields(minor, rid, fs, lim, m);
    SchemaSeesKnownFields(fs, gs, lim, m);
    assert AcceptsAs(Body(minor', rid, gs), lim, m, rid, minor', gs);
  }

  /** The fields of an accepted body are the ones it was built from. */
  lemma AcceptedFields(minor: byte, rid: u64, fs: seq<Field>, lim: Limits, m: Request)
    requires WellFormed(fs) && |PutFields(fs)| < U32_RANGE
    ensures Accepts(Body(minor, rid, fs), lim, m, rid) <==> WithinLimits(fs, lim) && Schema(fs, lim, m)
  {
    hide Schema, PutFields, PutEnvelope;
    var body := Body(minor, rid, fs);
    if Accepts(body, lim, m, rid) {
      var minor2: byte, gs :| AcceptsAs(body, lim, m, rid, minor2, gs);
      EnvelopeInjective(
        Envelope(MAGIC, MAJOR, minor, HEADER_BYTES, MSG_REQUEST, 0, rid, SCHEMA_REQUEST, 1, 0, |PutFields(fs)|),
        PutFields(fs),
        Envelope(MAGIC, MAJOR, minor2, HEADER_BYTES, MSG_REQUEST, 0, rid, SCHEMA_REQUEST, 1, 0, |PutFields(gs)|),
        PutFields(gs));
      FieldsUnique(fs, gs);
    }
    if WithinLimits(fs, lim) && Schema(fs, lim, m) {
      assert AcceptsAs(body, lim, m, rid, minor, fs);
    }
  }

  /** Permuting the TLVs of a body changes neither whether it is accepted nor what it denotes. */
  lemma FieldOrderIrrelevant(minor: byte, rid: u64, fs: seq<Field>, gs: seq<Field>, lim: Limits, m: Request)
    requires WellFormed(fs) && multiset(fs) == multiset(gs) && |PutFields(fs)| < U32_RANGE
    ensures |PutFields(gs)| == |PutFields(fs)| && WellFormed(gs)
    ensures Accepts(Body(minor, rid, fs), lim, m, rid) <==> Accepts(Body(minor, rid, gs), lim, m, rid)
  {
    hide Schema, PutFields, Accepts;
    PermutedSize(fs, gs);
    PermutedWellFormed(fs, gs);
    assert forall f :: f in fs <==> f in multiset(fs);
    assert forall f :: f in gs <==> f in multiset(gs);
    AcceptedFields(minor, rid, fs, lim, m);
    AcceptedFields(minor, rid, gs, lim, m);
    if Schema(fs, lim, m) { CriticalFree(fs, lim, m); SchemaSeesKnownFields(fs, gs, lim, m); }
    if Schema(gs, lim, m) { CriticalFree(gs, lim, m); SchemaSeesKnownFields(gs, fs, lim, m); }
  }

  lemma CriticalFree(fs: seq<Field>, lim: Limits, m: Request)
    requires Schema(fs, lim, m)
    ensures NoUnknownCritical(fs)
  {
  }

  /** An unknown optional field with a fresh id is ignored, at whatever field boundary it stands. */
  lemma UnknownOptionalIgnored(minor: byte, rid: u64, fs: seq<Field>, i: nat, u: Field, lim: Limits, m: Request)
    requires WellFormed(fs) && i <= |fs| && WfField(u)
    requires !Known(u.id) && !Critical(u) && forall f :: f in fs ==> f.id != u.id
    requires WithinLimits(fs[..i] + [u] + fs[i..], lim)
    ensures WithinLimits(fs, lim)
    ensures Accepts(Body(minor, rid, fs), lim, m, rid) <==>
            Accepts(Body(minor, rid, fs[..i] + [u] + fs[i..]), lim, m, rid)
  {
    hide Schema, PutFields, Accepts;
    var gs := fs[..i] + [u] + fs[i..];
    InsertedSize(fs, i, u);
    InsertedWellFormed(fs, i, u);
    forall f ensures f in gs <==> f in fs || f == u { InsertedMember(fs, i, u, f); }
    AcceptedFields(minor, rid, fs, lim, m);
    AcceptedFields(minor, rid, gs, lim, m);
    if Schema(fs, lim, m) { CriticalFree(fs, lim, m); SchemaSeesKnownFields(fs, gs, lim, m); }
    if Schema(gs, lim, m) { CriticalFree(gs, lim, m); SchemaSeesKnownFields(gs, fs, lim, m); }
  }

  /** An unknown critical field makes any body unacceptable. */
  lemma UnknownCriticalRejected(minor: byte, rid: u64, fs: seq<Field>, lim: Limits, m: Request)
    requires WellFormed(fs) && |PutFields(fs)| < U32_RANGE && !NoUnknownCritical(fs)
    ensures !Accepts(Body(minor, rid, fs), lim, m, rid)
  {
    hide PutFields, Accepts;
    AcceptedFields(minor, rid, fs, lim, m);
  }

  // ----- sizes and well-formedness under insertion and permutation -----

  lemma InsertedMember(fs: seq<Field>, i: nat, u: Field, f: Field)
    requires i <= |fs|
    ensures f in fs[..i] + [u] + fs[i..] <==> f in fs || f == u
  {
    assert fs == fs[..i] + fs[i..];
  }

  lemma {:induction false} InsertedSize(fs: seq<Field>, i: nat, u: Field)
    requires i <= |fs|
    ensures |PutFields(fs[..i] + [u] + fs[i..])| == |PutFields(fs)| + 8 + |u.data|
    decreases i
  {
    hide PutField;
    var gs := fs[..i] + [u] + fs[i..];
    FieldLength(gs[0], PutFields(gs[1..]));
    if i == 0 {
      assert gs[1..] == fs;
    } else {
      assert gs[1..] == fs[1..][..i - 1] + [u] + fs[1..][i - 1..];
      InsertedSize(fs[1..], i - 1, u);
      FieldLength(fs[0], PutFields(fs[1..]));
    }
  }

  lemma InsertedWellFormed(fs: seq<Field>, i: nat, u: Field)
    requires WellFormed(fs) && i <= |fs| && WfField(u) && forall f :: f in fs ==> f.id != u.id
    ensures WellFormed(fs[..i] + [u] + fs[i..])
  {
    hide WfField;
    var gs := fs[..i] + [u] + fs[i..];
    forall a, b | 0 <= a < b < |gs| ensures gs[a].id != gs[b].id {
      if a != i && b != i {
        assert gs[a] == fs[if a < i then a else a - 1] && gs[b] == fs[if b < i then b else b - 1];
      } else if a == i {
        assert gs[b] == fs[b - 1];
      } else {
        assert gs[a] == fs[a];
      }
    }
  }

  /** Removing one occurrence of the head of `fs` from a permutation of `fs`. */
  lemma PermutedTail(fs: seq<Field>, gs: seq<Field>) returns (j: nat)
    requires fs != [] && multiset(fs) == multiset(gs)
    ensures j < |gs| && gs[j] == fs[0]
    ensures multiset(fs[1..]) == multiset(gs[..j] + gs[j + 1..])
  {
    assert fs[0] in multiset(fs);
    j := IndexOf(gs, fs[0]);
    WithoutOne(gs, j);
    WithoutHead(fs);
  }

  lemma IndexOf(s: seq<Field>, x: Field) returns (j: nat)
    requires x in multiset(s)
    ensures j < |s| && s[j] == x
  {
    assert x in s;
    j :| 0 <= j < |s| && s[j] == x;
  }

  lemma WithoutHead(s: seq<Field>)
    requires s != []
    ensures multiset(s[1..]) == multiset(s) - multiset{s[0]}
  {
    assert s == [s[0]] + s[1..];
  }

  lemma WithoutOne(s: seq<Field>, j: nat)
    requires j < |s|
    ensures multiset(s[..j] + s[j + 1..]) == multiset(s) - multiset{s[j]}
  {
    assert s == s[..j] + ([s[j]] + s[j + 1..]);
  }

  lemma {:induction false} PermutedSize(fs: seq<Field>, gs: seq<Field>)
    requires multiset(fs) == multiset(gs)
    ensures |PutFields(fs)| == |PutFields(gs)|
    decreases |fs|
  {
    hide PutField;
    if fs == [] {
      assert |gs| == |multiset(gs)| == 0;
    } else {
      var j := PermutedTail(fs, gs);
      var rest := gs[..j] + gs[j + 1..];
      PermutedSize(fs[1..], rest);
      FieldLength(fs[0], PutFields(fs[1..]));
      InsertedSize(rest, j, gs[j]);
      assert rest[..j] + [gs[j]] + rest[j..] == gs;
    }
  }

  lemma {:induction false} PermutedWellFormed(fs: seq<Field>, gs: seq<Field>)
    requires WellFormed(fs) && multiset(fs) == multiset(gs)
    ensures WellFormed(gs)
    decreases |fs|
  {
    if fs == [] {
      assert |gs| == |multiset(gs)| == 0;
    } else {
      var j := PermutedTail(fs, gs);
      var rest := gs[..j] + gs[j + 1..];
      HeadIdFresh(fs);
      hide WellFormed, WfField;
      PermutedWellFormed(fs[1..], rest);
      SameMembers(fs[1..], rest);
      InsertedWellFormed(rest, j, gs[j]);
      assert rest[..j] + [gs[j]] + rest[j..] == gs;
    }
  }

  lemma HeadIdFresh(fs: seq<Field>)
    requires fs != [] && WellFormed(fs)
    ensures WfField(fs[0]) && WellFormed(fs[1..]) && forall f :: f in fs[1..] ==> f.id != fs[0].id
  {
    hide WfField;
    forall f | f in fs[1..] ensures f.id != fs[0].id {
      var i :| 0 <= i < |fs[1..]| && fs[1..][i] == f;
      assert fs[i + 1] == f;
    }
  }

  lemma SameMembers(fs: seq<Field>, gs: seq<Field>)
    requires multiset(fs) == multiset(gs)
    ensures forall f :: f in fs <==> f in gs
  {
    forall f ensures f in fs <==> f in gs {
      assert f in fs <==> f in multiset(fs);
      assert f in gs <==> f in multiset(gs);
    }
  }
}
