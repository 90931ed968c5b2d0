/** MED1: media chunks. The decoder accepts exactly the bytes the layout produces. */
module Med1 {
  import opened Bytes
  import opened Wire

  const MAGIC: nat := 0x4D454431
  const VERSION: nat := 1
  const GENERIC_DATA: byte := 2

  datatype Frame = Frame(
    mediaType: byte, codec: Str, streamId: Str, sequence: u64, timestamp: u64,
    sampleRate: u32, width: u32, height: u32, channels: u32,
    keyframe: bool, final: bool, payload: Str)

  function Flags(m: Frame): byte {
    (if m.keyframe then 1 else 0) + (if m.final then 2 else 0)
  }

  function Put(m: Frame, k: Str): Str {
    PutUint(MAGIC, 4, PutUint(VERSION, 2, PutUint(m.mediaType, 1,
      PutSized(m.codec, 2, PutSized(m.streamId, 2, PutUint(m.sequence, 8, PutUint(m.timestamp, 8,
      PutUint(m.sampleRate, 4, PutUint(m.width, 4, PutUint(m.height, 4, PutUint(m.channels, 4,
      PutUint(Flags(m), 1, PutSized(m.payload, 4, k)))))))))))))
  }

  predicate Fits(m: Frame, maxPayload: nat, maxString: nat) {
    && m.mediaType <= GENERIC_DATA
    && FitsStr(m.codec, maxString) && FitsStr(m.streamId, maxString) && FitsBlob(m.payload, maxPayload)
  }

  function Get(s: Str, maxPayload: nat, maxString: nat): Parsed<Frame> {
    hide GetUint, GetSized;
    var (magic, a) :- GetUint(s, 4);
    var (version, b) :- GetUint(a, 2);
    if magic != MAGIC || version != VERSION then Fail else
    var (mediaType, s0) :- GetUint(b, 1);
    if mediaType > GENERIC_DATA then Fail else
    var (codec, s1) :- GetSized(s0, 2, maxString);
    var (streamId, s2) :- GetSized(s1, 2, maxString);
    var (sequence, s3) :- GetUint(s2, 8);
    var (timestamp, s4) :- GetUint(s3, 8);
    var (sampleRate, s5) :- GetUint(s4, 4);
    var (width, s6) :- GetUint(s5, 4);
    var (height, s7) :- GetUint(s6, 4);
    var (channels, s8) :- GetUint(s7, 4);
    var (flags, s9) :- GetUint(s8, 1);
    if flags > 3 then Fail else
    var (payload, t) :- GetSized(s9, 4, maxPayload);
    Got(Frame(mediaType, codec, streamId, sequence, timestamp, sampleRate, width, height, channels,
              flags % 2 == 1, flags / 2 == 1, payload), t)
  }

  lemma Law(s: Str, maxPayload: nat, maxString: nat, m: Frame, k: Str)
    ensures Get(s, maxPayload, maxString) == Got(m, k) <==> Fits(m, maxPayload, maxString) && s == Put(m, k)
  {
    hide GetUint, PutUint, GetSized, PutSized;
    if Fits(m, maxPayload, maxString) && s == Put(m, k) {
      var s9 := PutSized(m.payload, 4, k);
      var s8 := PutUint(Flags(m), 1, s9);
      var s7 := PutUint(m.channels, 4, s8);
      var s6 := PutUint(m.height, 4, s7);
      var s5 := PutUint(m.width, 4, s6);
      var s4 := PutUint(m.sampleRate, 4, s5);
      var s3 := PutUint(m.timestamp, 8, s4);
      var s2 := PutUint(m.sequence, 8, s3);
      var s1 := PutSized(m.streamId, 2, s2);
      var s0 := PutSized(m.codec, 2, s1);
      var b := PutUint(m.mediaType, 1, s0);
      GetPutUint(MAGIC, 4, PutUint(VERSION, 2, b));
      GetPutUint(VERSION, 2, b);
      GetPutUint(m.mediaType, 1, s0);
      GetPutSized(m.codec, 2, maxString, s1);
      GetPutSized(m.streamId, 2, maxString, s2);
      GetPutUint(m.sequence, 8, s3);
      GetPutUint(m.timestamp, 8, s4);
      GetPutUint(m.sampleRate, 4, s5);
      GetPutUint(m.width, 4, s6);
      GetPutUint(m.height, 4, s7);
      GetPutUint(m.channels, 4, s8);
      GetPutUint(Flags(m), 1, s9);
      GetPutSized(m.payload, 4, maxPayload, k);
    }
  }

  lemma Unique(s: Str, maxPayload: nat, maxString: nat)
    ensures forall m :: Fits(m, maxPayload, maxString) && s == Put(m, []) <==>
              && Get(s, maxPayload, maxString).Got? && Get(s, maxPayload, maxString).rest == []
              && Get(s, maxPayload, maxString).value == m
  {
    hide Get, Put, Fits;
    var g := Get(s, maxPayload, maxString);
    if g.Got? { Law(s, maxPayload, maxString, g.value, g.rest); }
    forall m | Fits(m, maxPayload, maxString) && s == Put(m, []) ensures g == Got(m, []) {
      Law(s, maxPayload, maxString, m, []);
    }
  }

  method Encode(m: Frame, maxPayload: nat, maxString: nat) returns (r: Option<Str>)
    ensures r.Some? <==> Fits(m, maxPayload, maxString)
    ensures r.Some? ==> r.value == Put(m, [])
  {
    hide PutUint, PutSized;
    if m.mediaType > GENERIC_DATA { return None; }
    if |m.codec| > maxString || |m.streamId| > maxString || |m.codec| > 0xFFFF || |m.streamId| > 0xFFFF {
      return None;
    }
    if |m.payload| > maxPayload || |m.payload| > 0xFFFF_FFFF { return None; }
    var out := WriteUint([], MAGIC, 4);
    out := WriteUint(out, VERSION, 2);
    out := WriteUint(out, m.mediaType, 1);
    out := WriteSized(out, m.codec, 2);
    out := WriteSized(out, m.streamId, 2);
    out := WriteUint(out, m.sequence, 8);
    out := WriteUint(out, m.timestamp, 8);
    out := WriteUint(out, m.sampleRate, 4);
    out := WriteUint(out, m.width, 4);
    out := WriteUint(out, m.height, 4);
    out := WriteUint(out, m.channels, 4);
    out := WriteUint(out, Flags(m), 1);
    out := WriteSized(out, m.payload, 4);
    assert out + [] == out && [] + Put(m, []) == Put(m, []);
    return Some(out);
  }

  method Decode(bytes: Str, maxPayload: nat, maxString: nat) returns (r: Option<Frame>)
    ensures forall m :: r == Some(m) <==> Fits(m, maxPayload, maxString) && bytes == Put(m, [])
  {
    hide GetUint, PutUint, GetSized, PutSized;
    r := None;
    Unique(bytes, maxPayload, maxString);
    assert bytes[0..] == bytes;
    var ok, magic, off := ReadUint(bytes, 0, 4);
    if !ok { return; }
    var version;
    ok, version, off := ReadUint(bytes, off, 2);
    if !ok { return; }
    if magic != MAGIC { return; }
    if version != VERSION { return; }
    var mediaType, codec, streamId;
    ok, mediaType, off := ReadUint(bytes, off, 1);
    if !ok { return; }
    if mediaType > GENERIC_DATA { return; }
    ok, codec, off := ReadSized(bytes, off, 2, maxString);
    if !ok { return; }
    ok, streamId, off := ReadSized(bytes, off, 2, maxString);
    if !ok { return; }
    var sequence, timestamp, sampleRate, width, height, channels, flags, payload;
    ok, sequence, off := ReadUint(bytes, off, 8);
    if !ok { return; }
    ok, timestamp, off := ReadUint(bytes, off, 8);
    if !ok { return; }
    ok, sampleRate, off := ReadUint(bytes, off, 4);
    if !ok { return; }
    ok, width, off := ReadUint(bytes, off, 4);
    if !ok { return; }
    ok, height, off := ReadUint(bytes, off, 4);
    if !ok { return; }
    ok, channels, off := ReadUint(bytes, off, 4);
    if !ok { return; }
    ok, flags, off := ReadUint(bytes, off, 1);
    if !ok { return; }
    if flags > 3 { return; }
    ok, payload, off := ReadSized(bytes, off, 4, maxPayload);
    if !ok { return; }
    if off != |bytes| { return; }
    r := Some(Frame(mediaType, codec, streamId, sequence, timestamp, sampleRate, width, height,
                    channels, flags % 2 == 1, flags / 2 == 1, payload));
  }
}
