/**
  * NXR1: geospatial frames. Doubles are their 64-bit patterns; a pattern is finite when its
  * eleven exponent bits are not all ones (section 3.4 of IEEE 754-2008).
  */
module Nxr1 {
  import opened Bytes
  import opened Wire

  const MAGIC: nat := 0x4E585231
  const VERSION: nat := 1
  const FIELD_COUNT: nat := 9

  datatype Frame = Frame(
    latitude: u64, longitude: u64, altitude: u64, velocityX: u64, velocityY: u64, velocityZ: u64,
    fluidity: u64, drag: u64, divergence: u64, payload: Str)

  predicate Finite(bits: u64) {
    bits / 0x10_0000_0000_0000 % 0x800 != 0x7FF
  }

  /** The numeric fields in wire order. */
  function Fields(m: Frame): seq<u64> {
    [m.latitude, m.longitude, m.altitude, m.velocityX, m.velocityY, m.velocityZ,
     m.fluidity, m.drag, m.divergence]
  }

  function FromFields(f: seq<u64>, payload: Str): (m: Frame)
    requires |f| == FIELD_COUNT
    ensures Fields(m) == f && m.payload == payload
  {
    Frame(f[0], f[1], f[2], f[3], f[4], f[5], f[6], f[7], f[8], payload)
  }

  predicate AllFinite(ds: seq<u64>) {
    forall i :: 0 <= i < |ds| ==> Finite(ds[i])
  }

  function PutDoubles(ds: seq<u64>, k: Str): Str {
    if ds == [] then k else PutUint(ds[0], 8, PutDoubles(ds[1..], k))
  }

  function GetDoubles(s: Str, n: nat): (r: Parsed<seq<u64>>)
    ensures r.Got? ==> |r.value| == n && AllFinite(r.value) && s == PutDoubles(r.value, r.rest)
  {
    if n == 0 then Got([], s) else
    var (d, t) :- GetUint(s, 8);
    if !Finite(d) then Fail else
    var (ds, u) :- GetDoubles(t, n - 1);
    assert ([d] + ds)[1..] == ds;
    Got([d] + ds, u)
  }

  lemma {:induction false} GetPutDoubles(ds: seq<u64>, k: Str)
    requires AllFinite(ds)
    ensures GetDoubles(PutDoubles(ds, k), |ds|) == Got(ds, k)
    decreases |ds|
  {
    hide GetUint, PutUint, Finite;
    if ds != [] {
      GetPutUint(ds[0], 8, PutDoubles(ds[1..], k));
      GetPutDoubles(ds[1..], k);
      assert [ds[0]] + ds[1..] == ds;
    }
  }

  function Put(m: Frame, k: Str): Str {
    PutUint(MAGIC, 4, PutUint(VERSION, 2, PutDoubles(Fields(m), PutSized(m.payload, 4, k))))
  }

  predicate Fits(m: Frame, maxPayload: nat) {
    AllFinite(Fields(m)) && |m.payload| <= maxPayload && |m.payload| < 0x1_0000_0000
  }

  function Get(s: Str, maxPayload: nat): Parsed<Frame> {
    hide GetUint, GetSized;
    var (magic, s1) :- GetUint(s, 4);
    var (version, s2) :- GetUint(s1, 2);
    if magic != MAGIC || version != VERSION then Fail else
    var (fields, s3) :- GetDoubles(s2, FIELD_COUNT);
    var (payload, s4) :- GetSized(s3, 4, maxPayload);
    Got(FromFields(fields, payload), s4)
  }

  lemma Law(s: Str, maxPayload: nat, m: Frame, k: Str)
    ensures Get(s, maxPayload) == Got(m, k) <==> Fits(m, maxPayload) && s == Put(m, k)
  {
    hide GetUint, PutUint, GetSized, PutSized, GetDoubles, PutDoubles, AllFinite;
    if Fits(m, maxPayload) && s == Put(m, k) {
      var s2 := PutSized(m.payload, 4, k);
      var s1 := PutDoubles(Fields(m), s2);
      GetPutUint(MAGIC, 4, PutUint(VERSION, 2, s1));
      GetPutUint(VERSION, 2, s1);
      GetPutDoubles(Fields(m), s2);
      GetPutSized(m.payload, 4, maxPayload, k);
    }
  }

  lemma Unique(s: Str, maxPayload: nat)
    ensures forall m :: Fits(m, maxPayload) && s == Put(m, []) <==>
              Get(s, maxPayload).Got? && Get(s, maxPayload).rest == [] && Get(s, maxPayload).value == m
  {
    hide Get, Put, Fits;
    var g := Get(s, maxPayload);
    if g.Got? { Law(s, maxPayload, g.value, g.rest); }
    forall m | Fits(m, maxPayload) && s == Put(m, []) ensures g == Got(m, []) { Law(s, maxPayload, m, []); }
  }

  method Encode(m: Frame, maxPayload: nat) returns (r: Option<Str>)
    ensures r.Some? <==> Fits(m, maxPayload)
    ensures r.Some? ==> r.value == Put(m, [])
  {
    hide PutUint, PutSized, Finite;
    if |m.payload| > maxPayload || |m.payload| > 0xFFFF_FFFF { return None; }
    var out := WriteUint([], MAGIC, 4);
    out := WriteUint(out, VERSION, 2);
    ghost var head := out;
    var fields := Fields(m);
    assert fields[0..] == fields;
    var i := 0;
    while i < FIELD_COUNT
      invariant 0 <= i <= FIELD_COUNT
      invariant forall j :: 0 <= j < i ==> Finite(fields[j])
      invariant forall k {:trigger PutDoubles(fields, k)} ::
                  out + PutDoubles(fields[i..], k) == head + PutDoubles(fields, k)
    {
      if !Finite(fields[i]) { return None; }
      out := WriteUint(out, fields[i], 8);
      forall k ensures out + PutDoubles(fields[i + 1..], k) == head + PutDoubles(fields, k) {
        assert fields[i..][1..] == fields[i + 1..];
        assert PutDoubles(fields[i..], k) == PutUint(fields[i], 8, PutDoubles(fields[i + 1..], k));
      }
      i := i + 1;
    }
    ghost var tail := PutSized(m.payload, 4, []);
    assert fields[i..] == [] && PutDoubles(fields[i..], tail) == tail;
    out := WriteSized(out, m.payload, 4);
    assert out + [] == out && [] + Put(m, []) == Put(m, []);
    return Some(out);
  }

  /** The loop of the decoder over the nine doubles. */
  method ReadDoubles(bytes: Str, off0: nat) returns (ok: bool, fields: seq<u64>, off: nat)
    requires off0 <= |bytes|
    ensures ok <==> GetDoubles(bytes[off0..], FIELD_COUNT).Got?
    ensures ok ==> off <= |bytes| && GetDoubles(bytes[off0..], FIELD_COUNT) == Got(fields, bytes[off..])
  {
    hide GetUint, PutUint, PutDoubles, Finite, AllFinite;
    ghost var all := GetDoubles(bytes[off0..], FIELD_COUNT);
    assert all.Got? ==> [] + all.value == all.value;
    fields, off := [], off0;
    var i := 0;
    while i < FIELD_COUNT
      invariant 0 <= i <= FIELD_COUNT && |fields| == i && off <= |bytes|
      invariant all == Prepend(fields, GetDoubles(bytes[off..], FIELD_COUNT - i))
    {
      var d, next;
      ok, d, next := ReadUint(bytes, off, 8);
      if !ok { return; }
      if !Finite(d) { ok := false; return; }
      ghost var tail := GetDoubles(bytes[next..], FIELD_COUNT - i - 1);
      assert tail.Got? ==> fields + ([d] + tail.value) == (fields + [d]) + tail.value;
      fields, off := fields + [d], next;
      i := i + 1;
    }
    assert fields + [] == fields;
    ok := true;
  }

  method Decode(bytes: Str, maxPayload: nat) returns (r: Option<Frame>)
    ensures forall m :: r == Some(m) <==> Fits(m, maxPayload) && bytes == Put(m, [])
  {
    hide GetUint, PutUint, GetSized, PutSized, GetDoubles, PutDoubles, Fits, Put, AllFinite;
    r := None;
    Unique(bytes, maxPayload);
    assert bytes[0..] == bytes;
    var ok, magic, off := ReadUint(bytes, 0, 4);
    if !ok { return; }
    var version, payload;
    ok, version, off := ReadUint(bytes, off, 2);
    if !ok { return; }
    if magic != MAGIC { return; }
    if version != VERSION { return; }
    var fields;
    ok, fields, off := ReadDoubles(bytes, off);
    if !ok { return; }
    ok, payload, off := ReadSized(bytes, off, 4, maxPayload);
    if !ok { return; }
    if off != |bytes| { return; }
    r := Some(FromFields(fields, payload));
  }

}
