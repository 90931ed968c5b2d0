/**
  * The wire formats as their documents lay them out, byte by byte and with every number written
  * out. Each lemma says which byte strings a format accepts for a message, and under which sizes;
  * the codecs of the other modules are proved to accept and produce exactly those.
  */
module Layouts {
  import opened Bytes
  import opened Wire
  import Broker
  import Brk1
  import Brk2
  import Brk2Request
  import Med1
  import Nxr1
  import Utf8
  import Wsm1
  import Wsm1Codec

  // ----- numbers and strings -----

  /** Unsigned integers, most significant byte first. */
  function B2(v: nat): Str { [v / 0x100 % 0x100, v % 0x100] }

  function B4(v: nat): Str { [v / 0x100_0000 % 0x100, v / 0x1_0000 % 0x100, v / 0x100 % 0x100, v % 0x100] }

  function B8(v: nat): Str { B4(v / 0x1_0000_0000) + B4(v) }

  /** A signed integer in two's complement. */
  function I4(i: i32): Str { B4(if i < 0 then i + 0x1_0000_0000 else i) }

  /** A string behind its 16-bit length, and a blob behind its 32-bit length. */
  function Text(x: Str): Str { B2(|x|) + x }

  function Blob(x: Str): Str { B4(|x|) + x }

  lemma Two(v: nat)
    ensures Be(v, 2) == B2(v)
  {
    assert Be(v, 1) == Be(v / 256, 0) + [v % 256];
    assert Be(v, 2) == Be(v / 256, 1) + [v % 256];
    OneDigit(v / 256);
  }

  lemma OneDigit(v: nat)
    ensures Be(v, 1) == [v % 256]
  {
  }

  lemma Four(v: nat)
    ensures Be(v, 4) == B4(v)
  {
    var a, b := v / 256, v / 256 / 256;
    Two(b);
    assert Be(a, 3) == Be(b, 2) + [a % 256];
    assert Be(v, 4) == Be(a, 3) + [v % 256];
    hide Be;
    assert b / 0x100 == v / 0x100_0000 && b == v / 0x1_0000;
  }

  lemma Eight(v: nat)
    ensures Be(v, 8) == B8(v)
  {
    var a := v / 256;
    var b := a / 256;
    var c := b / 256;
    var d := c / 256;
    Four(d);
    assert Be(c, 5) == Be(d, 4) + [c % 256];
    assert Be(b, 6) == Be(c, 5) + [b % 256];
    assert Be(a, 7) == Be(b, 6) + [a % 256];
    assert Be(v, 8) == Be(a, 7) + [v % 256];
    hide Be;
    assert b == v / 0x1_0000 && c == v / 0x100_0000 && d == v / 0x1_0000_0000;
    assert ((B4(d) + [c % 256]) + [b % 256]) + [a % 256] + [v % 256] == B4(d) + [c % 256, b % 256, a % 256, v % 256];
  }

  lemma PutTwo(v: nat, k: Str)
    ensures PutUint(v, 2, k) == B2(v) + k
  {
    Two(v);
  }

  lemma PutFour(v: nat, k: Str)
    ensures PutUint(v, 4, k) == B4(v) + k
  {
    Four(v);
  }

  lemma PutEight(v: nat, k: Str)
    ensures PutUint(v, 8, k) == B8(v) + k
  {
    Eight(v);
  }

  lemma PutOne(v: byte, k: Str)
    ensures PutUint(v, 1, k) == [v] + k
  {
    OneByte(v);
  }

  lemma PutSigned(i: i32, k: Str)
    ensures PutUint(ToU32(i), 4, k) == I4(i) + k
  {
    Four(ToU32(i));
  }

  lemma PutText(x: Str, k: Str)
    ensures PutSized(x, 2, k) == Text(x) + k
  {
    Two(|x|);
    hide Be;
    assert (B2(|x|) + x) + k == B2(|x|) + (x + k);
  }

  lemma PutBlob(x: Str, k: Str)
    ensures PutSized(x, 4, k) == Blob(x) + k
  {
    Four(|x|);
    hide Be;
    assert (B4(|x|) + x) + k == B4(|x|) + (x + k);
  }

  /** A string, or a blob, that fits its limit and its length word. */
  predicate ShortText(x: Str, max: nat) { |x| <= max && |x| <= 65535 }

  predicate ShortBlob(x: Str, max: nat) { |x| <= max && |x| <= 4294967295 }

  lemma Magics()
    ensures B4(0x57534D31) == Ascii("WSM1") && B4(0x42524B31) == Ascii("BRK1") && B4(0x42524B32) == Ascii("BRK2")
    ensures B4(0x4D454431) == Ascii("MED1") && B4(0x4E585231) == Ascii("NXR1")
  {
    Magic(0x57534D31, "WSM1");
    Magic(0x42524B31, "BRK1");
    Magic(0x42524B32, "BRK2");
    Magic(0x4D454431, "MED1");
    Magic(0x4E585231, "NXR1");
  }

  lemma Magic(v: u32, s: string)
    requires |s| == 4
    requires v / 0x100_0000 == s[0] as int && v / 0x1_0000 % 0x100 == s[1] as int
    requires v / 0x100 % 0x100 == s[2] as int && v % 0x100 == s[3] as int
    ensures B4(v) == Ascii(s)
  {
  }

  lemma Small()
    ensures B2(0) == [0, 0] && B2(1) == [0, 1] && B2(3) == [0, 3] && B2(32) == [0, 32] && B4(1) == [0, 0, 0, 1]
  {
  }

  // ----- WSM1 -----

  lemma Wsm1Header(kind: byte, flags: byte, k: Str)
    ensures Wsm1.PutHeader(kind, flags, k) == Ascii("WSM1") + ([0, 1, kind, flags] + k)
  {
    Magics();
    Small();
    hide PutUint, Ascii, B2, B4;
    var s2 := PutUint(flags, 1, k);
    var s1 := PutUint(kind, 1, s2);
    PutFour(0x57534D31, PutUint(1, 2, s1));
    PutTwo(1, s1);
    PutOne(kind, s2);
    PutOne(flags, k);
    assert [0, 1] + ([kind] + ([flags] + k)) == [0, 1, kind, flags] + k;
  }

  function DescriptorBytes(d: Wsm1.Descriptor, k: Str): Str {
    B4(d.id) + (B4(d.flags) + (B8(d.offset) + (B8(d.length) + (Text(d.name) + k))))
  }

  function DescriptorsBytes(ds: seq<Wsm1.Descriptor>, k: Str): Str {
    if ds == [] then k else DescriptorBytes(ds[0], DescriptorsBytes(ds[1..], k))
  }

  lemma DescriptorLayout(d: Wsm1.Descriptor, k: Str)
    ensures Wsm1.PutDescriptor(d, k) == DescriptorBytes(d, k)
  {
    hide PutUint, PutSized, B4, B8, Text;
    var s4 := PutSized(d.name, 2, k);
    var s3 := PutUint(d.length, 8, s4);
    var s2 := PutUint(d.offset, 8, s3);
    var s1 := PutUint(d.flags, 4, s2);
    PutFour(d.id, s1);
    PutFour(d.flags, s2);
    PutEight(d.offset, s3);
    PutEight(d.length, s4);
    PutText(d.name, k);
  }

  lemma {:induction false} DescriptorsLayout(ds: seq<Wsm1.Descriptor>, k: Str)
    ensures Wsm1.PutDescriptors(ds, k) == DescriptorsBytes(ds, k)
    decreases |ds|
  {
    hide Wsm1.PutDescriptor, DescriptorBytes;
    if ds != [] {
      DescriptorsLayout(ds[1..], k);
      DescriptorLayout(ds[0], DescriptorsBytes(ds[1..], k));
    }
  }

  lemma BuffersLayout(ds: seq<Wsm1.Descriptor>, k: Str)
    ensures Wsm1.PutBuffers(ds, k) == B2(|ds|) + DescriptorsBytes(ds, k)
  {
    hide PutUint, B2, DescriptorsBytes, Wsm1.PutDescriptors;
    DescriptorsLayout(ds, k);
    PutTwo(|ds|, DescriptorsBytes(ds, k));
  }

  predicate ShortBuffers(ds: seq<Wsm1.Descriptor>, lim: Wsm1.Limits) {
    |ds| <= lim.maxBuffers && |ds| <= 65535 && forall d :: d in ds ==> ShortText(d.name, lim.maxString)
  }

  /** A WSM1 task request, byte by byte; the flags byte may hold anything. */
  lemma TaskRequestBytes(frame: Str, lim: Wsm1.Limits, m: Wsm1.TaskRequest)
    ensures Wsm1Codec.IsTaskRequest(frame, lim, m) <==>
            && m.taskId != [] && m.sandboxId != [] && m.moduleId != [] && m.version != [] && m.kind != []
            && ShortText(m.taskId, lim.maxString) && ShortText(m.sandboxId, lim.maxString)
            && ShortText(m.moduleId, lim.maxString) && ShortText(m.version, lim.maxString)
            && ShortText(m.kind, lim.maxString) && ShortBuffers(m.buffers, lim) && ShortBlob(m.payload, lim.maxPayload)
            && |frame| <= lim.maxFrame
            && exists flags: byte ::
                 frame == Ascii("WSM1") + ([0, 1, 1, flags] + (Text(m.taskId) + (Text(m.sandboxId)
                   + (Text(m.moduleId) + (Text(m.version) + (Text(m.kind) + ([m.priority] + (B8(m.deadline)
                   + (B2(|m.buffers|) + DescriptorsBytes(m.buffers, Blob(m.payload) + []))))))))))
  {
    hide PutUint, PutSized, B2, B8, Text, Blob, Ascii, DescriptorsBytes, Wsm1.PutHeader, Wsm1.PutBuffers;
    var s8 := PutSized(m.payload, 4, []);
    var s7 := Wsm1.PutBuffers(m.buffers, s8);
    var s6 := PutUint(m.deadline, 8, s7);
    var s5 := PutUint(m.priority, 1, s6);
    var s4 := PutSized(m.kind, 2, s5);
    var s3 := PutSized(m.version, 2, s4);
    var s2 := PutSized(m.moduleId, 2, s3);
    var s1 := PutSized(m.sandboxId, 2, s2);
    var s0 := PutSized(m.taskId, 2, s1);
    PutBlob(m.payload, []);
    BuffersLayout(m.buffers, s8);
    PutEight(m.deadline, s7);
    PutOne(m.priority, s6);
    PutText(m.kind, s5);
    PutText(m.version, s4);
    PutText(m.moduleId, s3);
    PutText(m.sandboxId, s2);
    PutText(m.taskId, s1);
    forall flags: byte ensures Wsm1.PutTaskRequest(m, flags, []) == Ascii("WSM1") + ([0, 1, 1, flags] + s0) {
      Wsm1Header(1, flags, s0);
    }
  }

  /** A WSM1 task response, byte by byte. */
  lemma TaskResponseBytes(frame: Str, lim: Wsm1.Limits, m: Wsm1.TaskResponse)
    ensures Wsm1Codec.IsTaskResponse(frame, lim, m) <==>
            && ShortText(m.taskId, lim.maxString) && ShortText(m.error, lim.maxString)
            && ShortBuffers(m.buffers, lim) && ShortBlob(m.result, lim.maxPayload)
            && |frame| <= lim.maxFrame
            && frame == Ascii("WSM1") + ([0, 1, 2, m.status] + (B2(m.protocol) + (Text(m.taskId) + (I4(m.gpu)
                 + (B8(m.latency) + (Text(m.error)
                 + (B2(|m.buffers|) + DescriptorsBytes(m.buffers, Blob(m.result) + []))))))))
  {
    hide PutUint, PutSized, B2, B8, I4, Text, Blob, Ascii, DescriptorsBytes, Wsm1.PutHeader, Wsm1.PutBuffers;
    var s6 := PutSized(m.result, 4, []);
    var s5 := Wsm1.PutBuffers(m.buffers, s6);
    var s4 := PutSized(m.error, 2, s5);
    var s3 := PutUint(m.latency, 8, s4);
    var s2 := PutUint(ToU32(m.gpu), 4, s3);
    var s1 := PutSized(m.taskId, 2, s2);
    var s0 := PutUint(m.protocol, 2, s1);
    PutBlob(m.result, []);
    BuffersLayout(m.buffers, s6);
    PutText(m.error, s5);
    PutEight(m.latency, s4);
    PutSigned(m.gpu, s3);
    PutText(m.taskId, s2);
    PutTwo(m.protocol, s1);
    Wsm1Header(2, m.status, s0);
  }

  /** A WSM1 lifecycle request, byte by byte. */
  lemma LifecycleRequestBytes(frame: Str, lim: Wsm1.Limits, m: Wsm1.LifecycleRequest)
    ensures Wsm1Codec.IsLifecycleRequest(frame, lim, m) <==>
            && m.requestId != [] && m.sandboxId != [] && m.moduleId != [] && m.version != []
            && ShortText(m.requestId, lim.maxString) && ShortText(m.sandboxId, lim.maxString)
            && ShortText(m.moduleId, lim.maxString) && ShortText(m.version, lim.maxString)
            && ShortText(m.ackToken, lim.maxString) && ShortBlob(m.payload, lim.maxPayload)
            && |frame| <= lim.maxFrame
            && frame == Ascii("WSM1") + ([0, 1, 3, m.action] + (Text(m.requestId) + (Text(m.sandboxId)
                 + (Text(m.moduleId) + (Text(m.version) + (I4(m.targetGpu) + (B4(m.graceMs) + (Text(m.ackToken)
                 + (Blob(m.payload) + [])))))))))
  {
    hide PutUint, PutSized, B4, I4, Text, Blob, Ascii, Wsm1.PutHeader;
    var s7 := PutSized(m.payload, 4, []);
    var s6 := PutSized(m.ackToken, 2, s7);
    var s5 := PutUint(m.graceMs, 4, s6);
    var s4 := PutUint(ToU32(m.targetGpu), 4, s5);
    var s3 := PutSized(m.version, 2, s4);
    var s2 := PutSized(m.moduleId, 2, s3);
    var s1 := PutSized(m.sandboxId, 2, s2);
    var s0 := PutSized(m.requestId, 2, s1);
    PutBlob(m.payload, []);
    PutText(m.ackToken, s7);
    PutFour(m.graceMs, s6);
    PutSigned(m.targetGpu, s5);
    PutText(m.version, s4);
    PutText(m.moduleId, s3);
    PutText(m.sandboxId, s2);
    PutText(m.requestId, s1);
    Wsm1Header(3, m.action, s0);
  }

  /** A WSM1 lifecycle response, byte by byte. */
  lemma LifecycleResponseBytes(frame: Str, lim: Wsm1.Limits, m: Wsm1.LifecycleResponse)
    ensures Wsm1Codec.IsLifecycleResponse(frame, lim, m) <==>
            && ShortText(m.requestId, lim.maxString) && ShortText(m.sandboxId, lim.maxString)
            && ShortText(m.moduleId, lim.maxString) && ShortText(m.version, lim.maxString)
            && ShortText(m.lease, lim.maxString) && ShortText(m.error, lim.maxString)
            && |frame| <= lim.maxFrame
            && frame == Ascii("WSM1") + ([0, 1, 4, m.action] + ([m.status] + (B2(m.protocol) + ([m.state]
                 + (Text(m.requestId) + (Text(m.sandboxId) + (Text(m.moduleId) + (Text(m.version)
                 + (I4(m.gpu) + (B4(m.active) + (Text(m.lease) + (Text(m.error) + []))))))))))))
  {
    hide PutUint, PutSized, B2, B4, I4, Text, Ascii, Wsm1.PutHeader;
    var s10 := PutSized(m.error, 2, []);
    var s9 := PutSized(m.lease, 2, s10);
    var s8 := PutUint(m.active, 4, s9);
    var s7 := PutUint(ToU32(m.gpu), 4, s8);
    var s6 := PutSized(m.version, 2, s7);
    var s5 := PutSized(m.moduleId, 2, s6);
    var s4 := PutSized(m.sandboxId, 2, s5);
    var s3 := PutSized(m.requestId, 2, s4);
    var s2 := PutUint(m.state, 1, s3);
    var s1 := PutUint(m.protocol, 2, s2);
    var s0 := PutUint(m.status, 1, s1);
    PutText(m.error, []);
    PutText(m.lease, s10);
    PutFour(m.active, s9);
    PutSigned(m.gpu, s8);
    PutText(m.version, s7);
    PutText(m.moduleId, s6);
    PutText(m.sandboxId, s5);
    PutText(m.requestId, s4);
    PutOne(m.state, s3);
    PutTwo(m.protocol, s2);
    PutOne(m.status, s1);
    Wsm1Header(4, m.action, s0);
  }

  // ----- BRK1 -----

  lemma Brk1Header(kind: byte, k: Str)
    ensures Brk1.PutHeader(kind, k) == Ascii("BRK1") + ([0, 1, kind, 0] + k)
  {
    Magics();
    Small();
    hide PutUint, Ascii, B2, B4;
    var s2 := PutUint(0, 1, k);
    var s1 := PutUint(kind, 1, s2);
    PutFour(0x42524B31, PutUint(1, 2, s1));
    PutTwo(1, s1);
    PutOne(kind, s2);
    PutOne(0, k);
    assert [0, 1] + ([kind] + ([0] + k)) == [0, 1, kind, 0] + k;
  }

  /** A BRK1 request, byte by byte; it carries neither a profile nor a device preference. */
  lemma Brk1RequestBytes(frame: Str, lim: Broker.Limits, m: Broker.Request)
    ensures Brk1.IsRequest(frame, lim, m) <==>
            && m.taskId != [] && m.source != [] && m.destination != [] && m.kind != []
            && 1 <= m.timeoutMs <= 300_000 && m.profile.None? && m.preference == []
            && ShortText(m.taskId, lim.maxString) && ShortText(m.source, lim.maxString)
            && ShortText(m.destination, lim.maxString) && ShortText(m.kind, lim.maxString)
            && ShortBlob(m.payload, lim.maxPayload) && |frame| <= lim.maxFrame
            && frame == Ascii("BRK1") + ([0, 1, 1, 0] + (Text(m.taskId) + (Text(m.source) + (Text(m.destination)
                 + (Text(m.kind) + ([m.priority] + (B4(m.timeoutMs) + (Blob(m.payload) + []))))))))
  {
    hide PutUint, PutSized, B4, Text, Blob, Ascii, Brk1.PutHeader;
    var s6 := PutSized(m.payload, 4, []);
    var s5 := PutUint(m.timeoutMs, 4, s6);
    var s4 := PutUint(m.priority, 1, s5);
    var s3 := PutSized(m.kind, 2, s4);
    var s2 := PutSized(m.destination, 2, s3);
    var s1 := PutSized(m.source, 2, s2);
    var s0 := PutSized(m.taskId, 2, s1);
    PutBlob(m.payload, []);
    PutFour(m.timeoutMs, s6);
    PutOne(m.priority, s5);
    PutText(m.kind, s4);
    PutText(m.destination, s3);
    PutText(m.source, s2);
    PutText(m.taskId, s1);
    Brk1Header(1, s0);
  }

  /** A BRK1 response, byte by byte; it carries neither the backend nor the fallback flag. */
  lemma Brk1ResponseBytes(frame: Str, lim: Broker.Limits, m: Broker.Response)
    ensures Brk1.IsResponse(frame, lim, m) <==>
            && m.backend.Cpu? && !m.fellBack
            && ShortText(m.taskId, lim.maxString) && ShortBlob(m.result, lim.maxPayload)
            && ShortText(m.error, lim.maxString) && |frame| <= lim.maxFrame
            && frame == Ascii("BRK1") + ([0, 1, 2, 0] + (Text(m.taskId)
                 + ([match m.status case Ok => 0 case Rejected => 1 case Error => 2 case Timeout => 3]
                 + (I4(m.gpu) + (B8(m.latency) + (Blob(m.result) + (Text(m.error) + [])))))))
  {
    hide PutUint, PutSized, B8, I4, Text, Blob, Ascii, Brk1.PutHeader;
    var s5 := PutSized(m.error, 2, []);
    var s4 := PutSized(m.result, 4, s5);
    var s3 := PutUint(m.latency, 8, s4);
    var s2 := PutUint(ToU32(m.gpu), 4, s3);
    var s1 := PutUint(Broker.StatusCode(m.status), 1, s2);
    var s0 := PutSized(m.taskId, 2, s1);
    PutText(m.error, []);
    PutBlob(m.result, s5);
    PutEight(m.latency, s4);
    PutSigned(m.gpu, s3);
    PutOne(Broker.StatusCode(m.status), s2);
    PutText(m.taskId, s1);
    Brk1Header(2, s0);
  }

  // ----- MED1 and NXR1 -----

  /** A MED1 chunk, byte by byte. */
  lemma Med1Bytes(bytes: Str, maxPayload: nat, maxString: nat, m: Med1.Frame)
    ensures Med1.Fits(m, maxPayload, maxString) && bytes == Med1.Put(m, []) <==>
            && m.mediaType <= 2 && ShortText(m.codec, maxString) && ShortText(m.streamId, maxString)
            && ShortBlob(m.payload, maxPayload)
            && bytes == Ascii("MED1") + ([0, 1] + ([m.mediaType] + (Text(m.codec) + (Text(m.streamId)
                 + (B8(m.sequence) + (B8(m.timestamp) + (B4(m.sampleRate) + (B4(m.width) + (B4(m.height)
                 + (B4(m.channels)
                 + ([if m.keyframe then (if m.final then 3 else 1) else if m.final then 2 else 0]
                 + (Blob(m.payload) + []))))))))))))
  {
    Magics();
    Small();
    hide PutUint, PutSized, B2, B4, B8, Text, Blob, Ascii;
    var s11 := PutSized(m.payload, 4, []);
    var s10 := PutUint(Med1.Flags(m), 1, s11);
    var s9 := PutUint(m.channels, 4, s10);
    var s8 := PutUint(m.height, 4, s9);
    var s7 := PutUint(m.width, 4, s8);
    var s6 := PutUint(m.sampleRate, 4, s7);
    var s5 := PutUint(m.timestamp, 8, s6);
    var s4 := PutUint(m.sequence, 8, s5);
    var s3 := PutSized(m.streamId, 2, s4);
    var s2 := PutSized(m.codec, 2, s3);
    var s1 := PutUint(m.mediaType, 1, s2);
    PutBlob(m.payload, []);
    PutOne(Med1.Flags(m), s11);
    PutFour(m.channels, s10);
    PutFour(m.height, s9);
    PutFour(m.width, s8);
    PutFour(m.sampleRate, s7);
    PutEight(m.timestamp, s6);
    PutEight(m.sequence, s5);
    PutText(m.streamId, s4);
    PutText(m.codec, s3);
    PutOne(m.mediaType, s2);
    PutTwo(1, s1);
    PutFour(0x4D454431, PutUint(1, 2, s1));
  }

  /** Neither an infinity nor a NaN: the eleven exponent bits are not all ones. */
  predicate IsFinite(bits: u64) { (bits / 0x10_0000_0000_0000) % 2048 < 2047 }

  lemma DoublesLayout(m: Nxr1.Frame, k: Str)
    ensures Nxr1.PutDoubles(Nxr1.Fields(m), k) ==
            B8(m.latitude) + (B8(m.longitude) + (B8(m.altitude) + (B8(m.velocityX) + (B8(m.velocityY)
              + (B8(m.velocityZ) + (B8(m.fluidity) + (B8(m.drag) + (B8(m.divergence) + k))))))))
  {
    hide B8;
    var d8 := PutDouble([m.divergence], k);
    var d7 := PutDouble([m.drag, m.divergence], k);
    var d6 := PutDouble([m.fluidity, m.drag, m.divergence], k);
    var d5 := PutDouble([m.velocityZ, m.fluidity, m.drag, m.divergence], k);
    var d4 := PutDouble([m.velocityY, m.velocityZ, m.fluidity, m.drag, m.divergence], k);
    var d3 := PutDouble([m.velocityX, m.velocityY, m.velocityZ, m.fluidity, m.drag, m.divergence], k);
    var d2 := PutDouble(Nxr1.Fields(m)[2..], k);
    var d1 := PutDouble(Nxr1.Fields(m)[1..], k);
    var d0 := PutDouble(Nxr1.Fields(m), k);
    hide Nxr1.PutDoubles;
    assert d0[1..] == Nxr1.Fields(m)[1..] && d1[1..] == Nxr1.Fields(m)[2..] && d2[1..] == d3;
    assert d3[1..] == d4 && d4[1..] == d5 && d5[1..] == d6 && d6[1..] == d7 && d7[1..] == d8 && d8[1..] == [];
  }

  /** One double of a list. */
  lemma PutDouble(ds: seq<u64>, k: Str) returns (same: seq<u64>)
    requires ds != []
    ensures same == ds
    ensures Nxr1.PutDoubles(ds, k) == B8(ds[0]) + Nxr1.PutDoubles(ds[1..], k)
    ensures Nxr1.PutDoubles([], k) == k
  {
    same := ds;
    PutEight(ds[0], Nxr1.PutDoubles(ds[1..], k));
  }

  /** An NXR1 frame, byte by byte. */
  lemma Nxr1Bytes(bytes: Str, maxPayload: nat, m: Nxr1.Frame)
    ensures Nxr1.Fits(m, maxPayload) && bytes == Nxr1.Put(m, []) <==>
            && IsFinite(m.latitude) && IsFinite(m.longitude) && IsFinite(m.altitude)
            && IsFinite(m.velocityX) && IsFinite(m.velocityY) && IsFinite(m.velocityZ)
            && IsFinite(m.fluidity) && IsFinite(m.drag) && IsFinite(m.divergence)
            && ShortBlob(m.payload, maxPayload)
            && bytes == Ascii("NXR1") + ([0, 1] + (B8(m.latitude) + (B8(m.longitude) + (B8(m.altitude)
                 + (B8(m.velocityX) + (B8(m.velocityY) + (B8(m.velocityZ) + (B8(m.fluidity) + (B8(m.drag)
                 + (B8(m.divergence) + (Blob(m.payload) + [])))))))))))
  {
    FiniteFields(m);
    Magics();
    Small();
    hide PutUint, PutSized, B2, B4, B8, Blob, Ascii, Nxr1.PutDoubles, Nxr1.Fields, Nxr1.AllFinite, IsFinite;
    var s3 := PutSized(m.payload, 4, []);
    var s2 := Nxr1.PutDoubles(Nxr1.Fields(m), s3);
    PutBlob(m.payload, []);
    DoublesLayout(m, s3);
    PutTwo(1, s2);
    PutFour(0x4E585231, PutUint(1, 2, s2));
  }

  lemma FiniteFields(m: Nxr1.Frame)
    ensures Nxr1.AllFinite(Nxr1.Fields(m)) <==>
            && IsFinite(m.latitude) && IsFinite(m.longitude) && IsFinite(m.altitude)
            && IsFinite(m.velocityX) && IsFinite(m.velocityY) && IsFinite(m.velocityZ)
            && IsFinite(m.fluidity) && IsFinite(m.drag) && IsFinite(m.divergence)
  {
    var fs := Nxr1.Fields(m);
    forall b: u64 ensures Nxr1.Finite(b) <==> IsFinite(b) { }
    hide Nxr1.Finite, IsFinite;
    assert fs[0] == m.latitude && fs[1] == m.longitude && fs[2] == m.altitude;
    assert fs[3] == m.velocityX && fs[4] == m.velocityY && fs[5] == m.velocityZ;
    assert fs[6] == m.fluidity && fs[7] == m.drag && fs[8] == m.divergence;
  }

  // ----- BRK2 -----

  /** The TLV fields, byte by byte. */
  function TlvBytes(fs: seq<Brk2.Field>): Str {
    if fs == [] then []
    else B2(fs[0].id) + ([fs[0].wt, fs[0].flags] + (Blob(fs[0].data) + TlvBytes(fs[1..])))
  }

  lemma {:induction false} TlvLayout(fs: seq<Brk2.Field>)
    ensures Brk2.PutFields(fs) == TlvBytes(fs)
    decreases |fs|
  {
    hide PutUint, PutSized, B2, Blob;
    if fs != [] {
      TlvLayout(fs[1..]);
      var f, k := fs[0], TlvBytes(fs[1..]);
      var s2 := PutSized(f.data, 4, k);
      var s1 := PutUint(f.flags, 1, s2);
      var s0 := PutUint(f.wt, 1, s1);
      PutBlob(f.data, k);
      PutOne(f.flags, s2);
      PutOne(f.wt, s1);
      PutTwo(f.id, s0);
      assert [f.wt] + ([f.flags] + s2) == [f.wt, f.flags] + s2;
    }
  }

  /** Fields that may stand in a BRK2 body: known flags and wire types, 32-bit lengths, no id twice. */
  predicate TlvOk(fs: seq<Brk2.Field>) {
    && (forall i :: 0 <= i < |fs| ==> fs[i].flags <= 3 && 1 <= fs[i].wt <= 12 && |fs[i].data| <= 4294967295)
    && (forall i, j :: 0 <= i < |fs| && 0 <= j < |fs| && i != j ==> fs[i].id != fs[j].id)
  }

  /** What the TLV parser accepts behind the 32-byte header, byte by byte. */
  lemma FieldsBytes(body: Str, fs: seq<Brk2.Field>)
    ensures Brk2.WellFormed(fs) && Brk2.Region(body) == Brk2.PutFields(fs) <==>
            TlvOk(fs) && (if |body| > 32 then body[32..] else []) == TlvBytes(fs)
  {
    TlvLayout(fs);
  }

  /** Field `id` is there, with this wire type and this value. */
  ghost predicate Has(fs: seq<Brk2.Field>, id: nat, wt: nat, data: Str) {
    exists i :: 0 <= i < |fs| && fs[i].id == id && fs[i].wt == wt && fs[i].data == data
  }

  ghost predicate HasText(fs: seq<Brk2.Field>, id: nat, x: Str, max: nat) {
    Has(fs, id, 8, x) && x != [] && |x| <= max && Utf8.IsUtf8(x)
  }

  /** Field `id`, if it is there, has this wire type and size. */
  predicate IfThere(fs: seq<Brk2.Field>, id: nat, wt: nat, size: nat) {
    forall i :: 0 <= i < |fs| && fs[i].id == id ==> fs[i].wt == wt && |fs[i].data| == size
  }

  lemma HasMeans(fs: seq<Brk2.Field>, id: u16, wt: byte, data: Str)
    ensures Brk2Request.Carries(fs, id, wt, data) <==> Has(fs, id, wt, data)
  {
    if Has(fs, id, wt, data) {
      var i :| 0 <= i < |fs| && fs[i].id == id && fs[i].wt == wt && fs[i].data == data;
      assert fs[i] in fs;
    }
  }

  /** The request schema, field by field: ids 1 to 10, wire types and values. */
  ghost predicate DocumentedFields(fs: seq<Brk2.Field>, lim: Broker.Limits, m: Broker.Request) {
    && (forall i :: 0 <= i < |fs| && (fs[i].id < 1 || fs[i].id > 10) ==> fs[i].flags % 2 == 0)
    && HasText(fs, 1, m.taskId, lim.maxString) && HasText(fs, 2, m.source, lim.maxString)
    && HasText(fs, 3, m.destination, lim.maxString) && HasText(fs, 4, m.kind, lim.maxString)
    && Has(fs, 5, 1, [m.priority]) && Has(fs, 6, 3, B4(m.timeoutMs))
    && Has(fs, 7, 9, m.payload) && |m.payload| <= lim.maxPayload
    && IfThere(fs, 8, 12, 16) && IfThere(fs, 9, 4, 8)
    && (if forall i :: 0 <= i < |fs| ==> fs[i].id != 10 then m.preference == []
        else Has(fs, 10, 8, m.preference)
             && m.preference in {Ascii("cpu"), Ascii("gpu"), Ascii("npu"), Ascii("auto")})
    && 1 <= m.timeoutMs <= 300_000 && m.profile.None?
  }

  lemma RequestFields(fs: seq<Brk2.Field>, lim: Broker.Limits, m: Broker.Request)
    ensures Brk2Request.Schema(fs, lim, m) <==> DocumentedFields(fs, lim, m)
  {
    Four(m.timeoutMs);
    HasMeans(fs, 1, 8, m.taskId);
    HasMeans(fs, 2, 8, m.source);
    HasMeans(fs, 3, 8, m.destination);
    HasMeans(fs, 4, 8, m.kind);
    HasMeans(fs, 5, 1, [m.priority]);
    HasMeans(fs, 6, 3, B4(m.timeoutMs));
    HasMeans(fs, 7, 9, m.payload);
    HasMeans(fs, 10, 8, m.preference);
    EachField(fs);
    hide Be, B4, Ascii, Utf8.IsUtf8, Has, Brk2Request.Carries;
    assert (forall f :: f in fs ==> f.id != 10) <==> (forall i :: 0 <= i < |fs| ==> fs[i].id != 10);
  }

  lemma EachField(fs: seq<Brk2.Field>)
    ensures Brk2Request.NoUnknownCritical(fs) <==>
            forall i :: 0 <= i < |fs| && (fs[i].id < 1 || fs[i].id > 10) ==> fs[i].flags % 2 == 0
    ensures Brk2Request.OptionalOk(fs, 8, 12, 16) <==> IfThere(fs, 8, 12, 16)
    ensures Brk2Request.OptionalOk(fs, 9, 4, 8) <==> IfThere(fs, 9, 4, 8)
  {
    assert forall i :: 0 <= i < |fs| ==> fs[i] in fs;
  }

  /** The header of a BRK2 request, byte by byte; byte 5, the minor version, may hold anything. */
  predicate DocumentedHeader(body: Str, lim: Broker.Limits) {
    && 32 <= |body| <= lim.maxFrame
    && body[..4] == Ascii("BRK2") && body[4] == 2 && body[6..8] == [0, 32] && body[8..10] == [0, 3]
    && body[10..12] == [0, 0] && body[20..24] == [0, 0, 0, 1] && body[24..26] == [0, 1]
    && body[26..28] == [0, 0]
    && |body| - 32 <= lim.maxPayload && |body| - 32 <= 4294967295 && body[28..32] == B4(|body| - 32)
  }

  /** A BRK2 request, byte by byte: the decoder accepts exactly these bodies, with this id. */
  lemma Brk2RequestBytes(body: Str, lim: Broker.Limits, m: Broker.Request, rid: u64)
    ensures Brk2Request.Accepts(body, lim, m, rid) <==>
            && DocumentedHeader(body, lim) && body[12..20] == B8(rid)
            && exists fs :: TlvOk(fs) && body[32..] == TlvBytes(fs) && DocumentedFields(fs, lim, m)
  {
    Brk2Request.AcceptsMeans(body, lim, m, rid);
    RequestHeaderBytes(body, lim);
    hide Brk2Request.Accepts, Brk2Request.EnvelopeOk, Brk2Request.Schema, DocumentedFields, TlvOk, TlvBytes, B8;
    hide Brk2.WellFormed, Brk2.PutFields, Brk2.Region, Brk2.EnvelopeOf;
    forall fs ensures Brk2Request.Schema(fs, lim, m) <==> DocumentedFields(fs, lim, m) { RequestFields(fs, lim, m); }
    forall fs
      ensures Brk2.WellFormed(fs) && Brk2.Region(body) == Brk2.PutFields(fs) <==>
              TlvOk(fs) && (if |body| > 32 then body[32..] else []) == TlvBytes(fs)
    {
      FieldsBytes(body, fs);
    }
    assert |body| == 32 ==> body[32..] == [];
  }

  lemma RequestHeaderBytes(body: Str, lim: Broker.Limits)
    ensures Brk2Request.EnvelopeOk(body, lim) <==> DocumentedHeader(body, lim)
    ensures |body| >= 32 ==>
              forall rid: u64 :: rid == Brk2.EnvelopeOf(body).requestId <==> body[12..20] == B8(rid)
  {
    if |body| >= 32 {
      Magics();
      Small();
      hide Ascii, B2, B4, B8, Brk2.ReadAt;
      ReadsFour(body, 0, 0x42524B32);
      ReadsTwo(body, 6, 32);
      ReadsTwo(body, 8, 3);
      ReadsTwo(body, 10, 0);
      ReadsFour(body, 20, 1);
      ReadsTwo(body, 24, 1);
      ReadsTwo(body, 26, 0);
      if |body| - 32 <= 4294967295 { ReadsFour(body, 28, |body| - 32); }
      forall rid: u64 ensures rid == Brk2.EnvelopeOf(body).requestId <==> body[12..20] == B8(rid) {
        ReadsEight(body, 12, rid);
      }
      assert body[..4] == body[0..4];
    }
  }

  lemma ReadsTwo(s: Str, off: nat, v: u16)
    requires off + 2 <= |s|
    ensures Brk2.ReadAt(s, off, 2) == v <==> s[off..off + 2] == B2(v)
  {
    assert Pow256(2) == 0x1_0000;
    hide B2;
    Two(v);
    Reads(s, off, 2, v);
  }

  lemma ReadsFour(s: Str, off: nat, v: u32)
    requires off + 4 <= |s|
    ensures Brk2.ReadAt(s, off, 4) == v <==> s[off..off + 4] == B4(v)
  {
    assert Pow256(4) == U32_RANGE;
    hide B4;
    Four(v);
    Reads(s, off, 4, v);
  }

  lemma ReadsEight(s: Str, off: nat, v: u64)
    requires off + 8 <= |s|
    ensures Brk2.ReadAt(s, off, 8) == v <==> s[off..off + 8] == B8(v)
  {
    assert Pow256(8) == U64_RANGE;
    hide B8;
    Eight(v);
    Reads(s, off, 8, v);
  }

  lemma Reads(s: Str, off: nat, n: nat, v: nat)
    requires off + n <= |s| && v < Pow256(n)
    ensures Brk2.ReadAt(s, off, n) == v <==> s[off..off + n] == Be(v, n)
  {
    hide Be, BeVal;
    BeOfBeVal(s[off..off + n]);
    BeValOfBe(v, n);
    DivModUnique(v, Pow256(n), 0, v);
  }
}
