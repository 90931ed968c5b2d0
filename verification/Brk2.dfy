/**
  * BRK2: a 32-byte envelope followed by TLV fields. `ParseFields` accepts exactly the
  * concatenations of field images with pairwise distinct ids.
  */
module Brk2 {
  import opened Bytes
  import opened Wire

  const MAGIC: nat := 0x42524B32
  const MAJOR: byte := 2
  const HEADER_BYTES: nat := 32

  // Wire types.
  const WT_U8: byte := 1
  const WT_U32: byte := 3
  const WT_U64: byte := 4
  const WT_I64: byte := 5
  const WT_UTF8: byte := 8
  const WT_BYTES: byte := 9
  const WT_UUID: byte := 12

  // ----- envelope -----

  datatype Envelope = Envelope(
    magic: u32, major: byte, minor: byte, headerLen: u16, kind: u16, flags: u16, requestId: u64,
    schema: u32, schemaVersion: u16, reserved: u16, payloadLen: u32)

  function PutEnvelope(e: Envelope, k: Str): Str {
    PutUint(e.magic, 4, PutUint(e.major, 1, PutUint(e.minor, 1, PutUint(e.headerLen, 2,
      PutUint(e.kind, 2, PutUint(e.flags, 2, PutUint(e.requestId, 8, PutUint(e.schema, 4,
      PutUint(e.schemaVersion, 2, PutUint(e.reserved, 2, PutUint(e.payloadLen, 4, k)))))))))))
  }

  /** The envelope of any body of at least 32 bytes. */
  function EnvelopeOf(body: Str): Envelope
    requires |body| >= HEADER_BYTES
  {
    Envelope(ReadAt(body, 0, 4), body[4], body[5], ReadAt(body, 6, 2), ReadAt(body, 8, 2),
             ReadAt(body, 10, 2), ReadAt(body, 12, 8), ReadAt(body, 20, 4), ReadAt(body, 24, 2),
             ReadAt(body, 26, 2), ReadAt(body, 28, 4))
  }

  /** `read16`, `read32` and `read64` at a fixed offset. */
  function ReadAt(s: Str, off: nat, n: nat): (v: nat)
    requires off + n <= |s|
    ensures v < Pow256(n)
  {
    BeVal(s[off..off + n])
  }

  lemma SplitAt(s: Str, off: nat, n: nat)
    requires off + n <= |s|
    ensures s[off..] == PutUint(ReadAt(s, off, n), n, s[off + n..])
  {
    BeOfBeVal(s[off..off + n]);
    assert s[off..] == s[off..off + n] + s[off + n..];
  }

  lemma SplitByteAt(s: Str, off: nat)
    requires off < |s|
    ensures s[off..] == PutUint(s[off], 1, s[off + 1..])
  {
    assert Be(s[off], 1) == [s[off]];
  }

  /** Printing the envelope of `body` in front of the rest gives `body` back. */
  lemma EnvelopeSplit(body: Str)
    requires |body| >= HEADER_BYTES
    ensures body == PutEnvelope(EnvelopeOf(body), body[HEADER_BYTES..])
  {
    hide PutUint, ReadAt;
    assert body[0..] == body;
    SplitAt(body, 0, 4);
    SplitByteAt(body, 4);
    SplitByteAt(body, 5);
    SplitAt(body, 6, 2);
    SplitAt(body, 8, 2);
    SplitAt(body, 10, 2);
    SplitAt(body, 12, 8);
    SplitAt(body, 20, 4);
    SplitAt(body, 24, 2);
    SplitAt(body, 26, 2);
    SplitAt(body, 28, 4);
  }

  lemma PutUintInjective(v: nat, w: nat, n: nat, k: Str, l: Str)
    requires v < Pow256(n) && w < Pow256(n) && PutUint(v, n, k) == PutUint(w, n, l)
    ensures v == w && k == l
  {
    hide GetUint, PutUint;
    GetPutUint(v, n, k);
    GetPutUint(w, n, l);
  }

  /** A body determines its envelope and the bytes behind it. */
  lemma EnvelopeInjective(e: Envelope, k: Str, f: Envelope, l: Str)
    requires PutEnvelope(e, k) == PutEnvelope(f, l)
    ensures e == f && k == l
  {
    hide PutUint;
    var a10, b10 := PutUint(e.payloadLen, 4, k), PutUint(f.payloadLen, 4, l);
    var a9, b9 := PutUint(e.reserved, 2, a10), PutUint(f.reserved, 2, b10);
    var a8, b8 := PutUint(e.schemaVersion, 2, a9), PutUint(f.schemaVersion, 2, b9);
    var a7, b7 := PutUint(e.schema, 4, a8), PutUint(f.schema, 4, b8);
    var a6, b6 := PutUint(e.requestId, 8, a7), PutUint(f.requestId, 8, b7);
    var a5, b5 := PutUint(e.flags, 2, a6), PutUint(f.flags, 2, b6);
    var a4, b4 := PutUint(e.kind, 2, a5), PutUint(f.kind, 2, b5);
    var a3, b3 := PutUint(e.headerLen, 2, a4), PutUint(f.headerLen, 2, b4);
    var a2, b2 := PutUint(e.minor, 1, a3), PutUint(f.minor, 1, b3);
    var a1, b1 := PutUint(e.major, 1, a2), PutUint(f.major, 1, b2);
    PutUintInjective(e.magic, f.magic, 4, a1, b1);
    PutUintInjective(e.major, f.major, 1, a2, b2);
    PutUintInjective(e.minor, f.minor, 1, a3, b3);
    PutUintInjective(e.headerLen, f.headerLen, 2, a4, b4);
    PutUintInjective(e.kind, f.kind, 2, a5, b5);
    PutUintInjective(e.flags, f.flags, 2, a6, b6);
    PutUintInjective(e.requestId, f.requestId, 8, a7, b7);
    PutUintInjective(e.schema, f.schema, 4, a8, b8);
    PutUintInjective(e.schemaVersion, f.schemaVersion, 2, a9, b9);
    PutUintInjective(e.reserved, f.reserved, 2, a10, b10);
    PutUintInjective(e.payloadLen, f.payloadLen, 4, k, l);
  }

  lemma EnvelopeLength(e: Envelope, k: Str)
    ensures |PutEnvelope(e, k)| == HEADER_BYTES + |k|
  {
  }

  // ----- fields -----

  datatype Field = Field(id: u16, wt: byte, flags: byte, data: Str)

  predicate WfField(f: Field) {
    f.flags <= 3 && 1 <= f.wt <= 12 && |f.data| < 0x1_0000_0000
  }

  function PutField(f: Field, k: Str): Str {
    PutUint(f.id, 2, PutUint(f.wt, 1, PutUint(f.flags, 1, PutSized(f.data, 4, k))))
  }

  function PutFields(fs: seq<Field>): Str {
    if fs == [] then [] else PutField(fs[0], PutFields(fs[1..]))
  }

  predicate DistinctIds(fs: seq<Field>) {
    forall i, j :: 0 <= i < j < |fs| ==> fs[i].id != fs[j].id
  }

  predicate AllWf(fs: seq<Field>) {
    forall i :: 0 <= i < |fs| ==> WfField(fs[i])
  }

  predicate WellFormed(fs: seq<Field>) {
    AllWf(fs) && DistinctIds(fs)
  }

  function GetField(s: Str): (r: Parsed<Field>)
    ensures r.Got? ==> WfField(r.value) && s == PutField(r.value, r.rest) && |r.rest| < |s|
  {
    var (id, s1) :- GetUint(s, 2);
    var (wt, s2) :- GetUint(s1, 1);
    var (flags, s3) :- GetUint(s2, 1);
    var (data, s4) :- GetSized(s3, 4, |s|);
    if flags > 3 || wt < 1 || wt > 12 then Fail else Got(Field(id, wt, flags, data), s4)
  }

  lemma FieldLength(f: Field, k: Str)
    ensures |PutField(f, k)| == 8 + |f.data| + |k|
  {
  }

  lemma GetPutField(f: Field, k: Str)
    requires WfField(f)
    ensures GetField(PutField(f, k)) == Got(f, k)
  {
    FieldLength(f, k);
    hide GetUint, PutUint, GetSized, PutSized;
    var s := PutField(f, k);
    var s3 := PutSized(f.data, 4, k);
    var s2 := PutUint(f.flags, 1, s3);
    GetPutUint(f.id, 2, PutUint(f.wt, 1, s2));
    GetPutUint(f.wt, 1, s2);
    GetPutUint(f.flags, 1, s3);
    GetPutSized(f.data, 4, |s|, k);
  }

  function GetFields(s: Str): Option<seq<Field>>
    decreases |s|
  {
    if s == [] then Some([]) else
    match GetField(s)
    case Fail => None
    case Got(f, rest) =>
      match GetFields(rest)
      case None => None
      case Some(fs) => Some([f] + fs)
  }

  /** The field region splits into fields in exactly one way, if at all. */
  lemma {:induction false} FieldsLaw(s: Str, fs: seq<Field>)
    ensures GetFields(s) == Some(fs) <==> AllWf(fs) && s == PutFields(fs)
    decreases |s|
  {
    hide GetField, PutField, WfField;
    if s == [] {
      if fs != [] { FieldLength(fs[0], PutFields(fs[1..])); }
    } else {
      if AllWf(fs) && s == PutFields(fs) {
        GetPutField(fs[0], PutFields(fs[1..]));
        FieldsLaw(PutFields(fs[1..]), fs[1..]);
        assert [fs[0]] + fs[1..] == fs;
      }
      if GetFields(s) == Some(fs) {
        var g := GetField(s);
        assert fs[1..] == GetFields(g.rest).value;
        FieldsLaw(g.rest, fs[1..]);
      }
    }
  }

  /** The bytes `parse_fields` looks at. */
  function Region(body: Str): Str {
    if |body| <= HEADER_BYTES then [] else body[HEADER_BYTES..]
  }

  ghost function Join(fs: seq<Field>, p: Option<seq<Field>>): Option<seq<Field>> {
    match p
    case None => None
    case Some(v) => Some(fs + v)
  }

  method HasId(fs: seq<Field>, id: u16) returns (b: bool)
    ensures b <==> exists j :: 0 <= j < |fs| && fs[j].id == id
  {
    var i := 0;
    while i < |fs|
      invariant 0 <= i <= |fs|
      invariant forall j :: 0 <= j < i ==> fs[j].id != id
    {
      if fs[i].id == id { return true; }
      i := i + 1;
    }
    return false;
  }

  /** What the loop of `ParseFields` does to a partial parse. */
  lemma ParseStep(fields: seq<Field>, s: Str, all: Option<seq<Field>>)
    requires s != [] && all == Join(fields, GetFields(s))
    ensures GetField(s).Fail? ==> all == None
    ensures GetField(s).Got? ==>
              var g := GetField(s);
              && all == Join(fields + [g.value], GetFields(g.rest))
              && (all.Some? && !DistinctIds(fields + [g.value]) ==> !DistinctIds(all.value))
  {
    hide DistinctIds;
    var g := GetField(s);
    if g.Got? && GetFields(g.rest).Some? {
      var tail := GetFields(g.rest).value;
      assert fields + ([g.value] + tail) == (fields + [g.value]) + tail;
      DistinctPrefix(fields + [g.value], tail);
    }
  }

  lemma DistinctPrefix(fs: seq<Field>, gs: seq<Field>)
    ensures DistinctIds(fs + gs) ==> DistinctIds(fs)
  {
    if DistinctIds(fs + gs) {
      forall i, j | 0 <= i < j < |fs| ensures fs[i].id != fs[j].id {
        assert (fs + gs)[i] == fs[i] && (fs + gs)[j] == fs[j];
      }
    }
  }

  lemma DistinctSnoc(fs: seq<Field>, f: Field)
    requires DistinctIds(fs)
    ensures DistinctIds(fs + [f]) <==> !exists j :: 0 <= j < |fs| && fs[j].id == f.id
  {
    var gs := fs + [f];
    assert gs[|fs|] == f && forall j :: 0 <= j < |fs| ==> gs[j] == fs[j];
  }

  /** A parse of the whole region, refused if an id repeats. */
  ghost function Strict(all: Option<seq<Field>>): Option<seq<Field>> {
    if all.Some? && DistinctIds(all.value) then all else None
  }

  lemma StrictLaw(s: Str, r: Option<seq<Field>>)
    requires r == Strict(GetFields(s))
    ensures forall fs :: r == Some(fs) <==> WellFormed(fs) && s == PutFields(fs)
  {
    hide GetFields, AllWf, PutFields, DistinctIds;
    forall fs ensures r == Some(fs) <==> WellFormed(fs) && s == PutFields(fs) { FieldsLaw(s, fs); }
  }

  method ParseFields(body: Str) returns (r: Option<seq<Field>>)
    ensures forall fs :: r == Some(fs) <==> WellFormed(fs) && Region(body) == PutFields(fs)
  {
    ghost var all, rest := GetFields(Region(body)), Region(body);
    assert GetFields([]) == Some([]) && DistinctIds([]);
    assert rest == if HEADER_BYTES <= |body| then body[HEADER_BYTES..] else [];
    hide GetField, PutField, WellFormed, PutFields, Region, GetFields, DistinctIds;
    assert all.Some? ==> [] + all.value == all.value;
    var fields: seq<Field> := [];
    var pos := HEADER_BYTES;
    while pos < |body|
      invariant pos <= |body| || pos == HEADER_BYTES
      invariant rest == if pos <= |body| then body[pos..] else []
      invariant all == Join(fields, GetFields(rest))
      invariant DistinctIds(fields)
    {
      var ok, f, next := ReadField(body, pos);
      ParseStep(fields, rest, all);
      if !ok {
        StrictLaw(Region(body), None);
        return None;
      }
      DistinctSnoc(fields, f);
      var dup := HasId(fields, f.id);
      if dup {
        StrictLaw(Region(body), None);
        return None;
      }
      fields, pos, rest := fields + [f], next, body[next..];
    }
    assert fields + [] == fields;
    StrictLaw(Region(body), Some(fields));
    return Some(fields);
  }

  /** One iteration of the TLV loop up to the duplicate test. */
  method ReadField(body: Str, pos: nat) returns (ok: bool, f: Field, next: nat)
    requires pos < |body|
    ensures ok <==> GetField(body[pos..]).Got?
    ensures ok ==> pos < next <= |body| && GetField(body[pos..]) == Got(f, body[next..])
  {
    hide GetUint, PutUint, GetSized, PutSized;
    f, next := Field(0, 0, 0, []), pos;
    if |body| - pos < 8 {
      if GetField(body[pos..]).Got? {
        FieldLength(GetField(body[pos..]).value, GetField(body[pos..]).rest);
      }
      return false, f, next;
    }
    var id, wt, flags, data;
    ok, id, next := ReadUint(body, pos, 2);
    if !ok { return; }
    ok, wt, next := ReadUint(body, next, 1);
    if !ok { return; }
    ok, flags, next := ReadUint(body, next, 1);
    if !ok { return; }
    ok, data, next := ReadSized(body, next, 4, |body[pos..]|);
    if !ok { return; }
    if flags > 3 { ok := false; return; }
    if wt < 1 || wt > 12 { ok := false; return; }
    f := Field(id, wt, flags, data);
  }

  /** The same statement about the unique list, for use in lemmas. */
  lemma FieldsUnique(fs: seq<Field>, gs: seq<Field>)
    requires AllWf(fs) && AllWf(gs) && PutFields(fs) == PutFields(gs)
    ensures fs == gs
  {
    FieldsLaw(PutFields(fs), fs);
    FieldsLaw(PutFields(fs), gs);
  }

  /** `find`: the first field with the given id. */
  function Find(fs: seq<Field>, id: u16): (r: Option<Field>)
    ensures r.Some? ==> r.value in fs && r.value.id == id
    ensures r.None? ==> forall f :: f in fs ==> f.id != id
  {
    if fs == [] then None else if fs[0].id == id then Some(fs[0]) else Find(fs[1..], id)
  }

  /** Whichever field comes first with the id is the one found, repeated ids included. */
  lemma {:induction false} FindIsFirst(fs: seq<Field>, id: u16, i: nat)
    requires i < |fs| && fs[i].id == id && forall j :: 0 <= j < i ==> fs[j].id != id
    ensures Find(fs, id) == Some(fs[i])
    decreases i
  {
    if i > 0 {
      FindIsFirst(fs[1..], id, i - 1);
    }
  }
}
