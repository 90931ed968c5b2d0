/**
  * The WSM1 encoders and decoders, in the code's own form: encoders append to a growing vector,
  * decoders advance an offset and give up at the first malformed field. Each decoder returns
  * `m` exactly for the frames that carry `m`; each encoder produces such a frame exactly when
  * one exists.
  */
module Wsm1Codec {
  import opened Bytes
  import opened Wire
  import opened Wsm1

  // ----- pieces -----

  method AppendDescriptor(out: Str, d: Descriptor, lim: Limits) returns (ok: bool, r: Str)
    ensures ok <==> FitsStr(d.name, lim.maxString)
    ensures ok ==> forall k {:trigger PutDescriptor(d, k)} :: r + k == out + PutDescriptor(d, k)
  {
    hide PutUint, PutSized;
    r := WriteUint(out, d.id, 4);
    r := WriteUint(r, d.flags, 4);
    r := WriteUint(r, d.offset, 8);
    r := WriteUint(r, d.length, 8);
    ok, r := AppendStr(r, d.name, lim.maxString);
  }

  /** `append_buffer_descriptors`: the count, then every descriptor until one does not fit. */
  method AppendBuffers(out: Str, ds: seq<Descriptor>, lim: Limits) returns (ok: bool, r: Str)
    ensures ok <==> FitsBuffers(ds, lim)
    ensures ok ==> forall k {:trigger PutBuffers(ds, k)} :: r + k == out + PutBuffers(ds, k)
  {
    hide PutDescriptor, PutUint;
    if |ds| > lim.maxBuffers || |ds| > 0xFFFF { return false, out; }
    r := WriteUint(out, |ds|, 2);
    ghost var lead := r;
    assert ds[0..] == ds;
    var i := 0;
    while i < |ds|
      invariant 0 <= i <= |ds|
      invariant forall j :: 0 <= j < i ==> FitsStr(ds[j].name, lim.maxString)
      invariant forall k {:trigger PutDescriptors(ds, k)} ::
                  r + PutDescriptors(ds[i..], k) == lead + PutDescriptors(ds, k)
    {
      ghost var before := r;
      ok, r := AppendDescriptor(r, ds[i], lim);
      if !ok {
        assert ds[i] in ds;
        return false, out;
      }
      forall k ensures r + PutDescriptors(ds[i + 1..], k) == lead + PutDescriptors(ds, k) {
        assert ds[i..][1..] == ds[i + 1..];
        assert PutDescriptors(ds[i..], k) == PutDescriptor(ds[i], PutDescriptors(ds[i + 1..], k));
      }
      i := i + 1;
    }
    ok := true;
    forall k ensures r + k == out + PutBuffers(ds, k) {
      assert ds[i..] == [] && PutDescriptors(ds[i..], k) == k;
    }
  }

  method WriteHeader(out: Str, kind: byte, flags: byte) returns (r: Str)
    ensures forall k {:trigger PutHeader(kind, flags, k)} :: r + k == out + PutHeader(kind, flags, k)
  {
    hide PutUint;
    r := WriteUint(out, MAGIC, 4);
    r := WriteUint(r, VERSION, 2);
    r := WriteUint(r, kind, 1);
    r := WriteUint(r, flags, 1);
  }

  method ReadHeader(frame: Str, kind: byte) returns (ok: bool, flags: byte, off: nat)
    ensures ok <==> GetHeader(frame, kind).Got?
    ensures ok ==> off == 8 <= |frame| && GetHeader(frame, kind) == Got(flags, frame[off..])
  {
    hide GetUint, PutUint;
    flags, off := 0, 0;
    ok := Take(8, |frame|, 0);
    if !ok { HeaderNeedsEight(frame, kind); return; }
    assert frame[0..] == frame;
    var v;
    ok, v, off := ReadUint(frame, 0, 4);
    if !ok || v != MAGIC { ok := false; return; }
    ok, v, off := ReadUint(frame, off, 2);
    if !ok || v != VERSION { ok := false; return; }
    ok, v, off := ReadUint(frame, off, 1);
    if !ok || v != kind { ok := false; return; }
    ok, v, off := ReadUint(frame, off, 1);
    if ok { flags := v; HeaderNeedsEight(frame, kind); }
  }

  lemma HeaderNeedsEight(frame: Str, kind: byte)
    ensures GetHeader(frame, kind).Got? ==> |frame| == 8 + |GetHeader(frame, kind).rest|
  {
  }

  method ReadDescriptor(frame: Str, off0: nat, lim: Limits) returns (ok: bool, d: Descriptor, off: nat)
    requires off0 <= |frame|
    ensures ok <==> GetDescriptor(frame[off0..], lim).Got?
    ensures ok ==> off0 <= off <= |frame| && GetDescriptor(frame[off0..], lim) == Got(d, frame[off..])
  {
    hide GetUint, PutUint, GetSized, PutSized;
    d := Descriptor(0, 0, 0, 0, []);
    var id, flags, offset, length, name;
    ok, id, off := ReadUint(frame, off0, 4);
    if !ok { return; }
    ok, flags, off := ReadUint(frame, off, 4);
    if !ok { return; }
    ok, offset, off := ReadUint(frame, off, 8);
    if !ok { return; }
    ok, length, off := ReadUint(frame, off, 8);
    if !ok { return; }
    ok, name, off := ReadSized(frame, off, 2, lim.maxString);
    if !ok { return; }
    d := Descriptor(id, flags, offset, length, name);
  }

  /** `read_buffer_descriptors`: the count, then that many descriptors pushed one by one. */
  method ReadBuffers(frame: Str, off0: nat, lim: Limits) returns (ok: bool, ds: seq<Descriptor>, off: nat)
    requires off0 <= |frame|
    ensures ok <==> GetBuffers(frame[off0..], lim).Got?
    ensures ok ==> off0 <= off <= |frame| && GetBuffers(frame[off0..], lim) == Got(ds, frame[off..])
  {
    hide GetUint, PutUint, GetDescriptor, PutDescriptor, PutDescriptors, FitsStr;
    ds := [];
    var count;
    ok, count, off := ReadUint(frame, off0, 2);
    if !ok { return; }
    if count > lim.maxBuffers { ok := false; return; }
    ghost var all := GetDescriptors(frame[off..], count, lim);
    assert all.Got? ==> [] + all.value == all.value;
    var i := 0;
    while i < count
      invariant 0 <= i <= count && |ds| == i
      invariant off0 <= off <= |frame|
      invariant all == Prepend(ds, GetDescriptors(frame[off..], count - i, lim))
    {
      var d, next;
      ok, d, next := ReadDescriptor(frame, off, lim);
      if !ok { return; }
      ghost var tail := GetDescriptors(frame[next..], count - i - 1, lim);
      assert tail.Got? ==> ds + ([d] + tail.value) == (ds + [d]) + tail.value;
      ds, off := ds + [d], next;
      i := i + 1;
    }
    assert ds + [] == ds;
    ok := true;
  }

  // ----- the four messages -----

  /** `frame` is a task request carrying `m`; the reserved flags byte may hold anything. */
  ghost predicate IsTaskRequest(frame: Str, lim: Limits, m: TaskRequest) {
    && FitsTaskRequest(m, lim) && |frame| <= lim.maxFrame
    && exists flags: byte :: frame == PutTaskRequest(m, flags, [])
  }

  method EncodeTaskRequest(m: TaskRequest, lim: Limits) returns (r: Option<Str>)
    ensures r.Some? <==> FitsTaskRequest(m, lim) && |PutTaskRequest(m, 0, [])| <= lim.maxFrame
    ensures r.Some? ==> r.value == PutTaskRequest(m, 0, []) && IsTaskRequest(r.value, lim, m)
  {
    hide PutUint, PutSized, PutBuffers, FitsBuffers, PutHeader;
    if m.taskId == [] || m.sandboxId == [] || m.moduleId == [] || m.version == [] || m.kind == [] { return None; }
    var frame := WriteHeader([], TASK_REQUEST, 0);
    var ok: bool;
    ok, frame := AppendStr(frame, m.taskId, lim.maxString);
    if !ok { return None; }
    ok, frame := AppendStr(frame, m.sandboxId, lim.maxString);
    if !ok { return None; }
    ok, frame := AppendStr(frame, m.moduleId, lim.maxString);
    if !ok { return None; }
    ok, frame := AppendStr(frame, m.version, lim.maxString);
    if !ok { return None; }
    ok, frame := AppendStr(frame, m.kind, lim.maxString);
    if !ok { return None; }
    frame := WriteUint(frame, m.priority, 1);
    frame := WriteUint(frame, m.deadline, 8);
    ok, frame := AppendBuffers(frame, m.buffers, lim);
    if !ok { return None; }
    ok, frame := AppendBlob(frame, m.payload, lim.maxPayload);
    if !ok { return None; }
    assert frame + [] == frame && [] + PutTaskRequest(m, 0, []) == PutTaskRequest(m, 0, []);
    if |frame| > lim.maxFrame { return None; }
    return Some(frame);
  }

  lemma TaskRequestUnique(frame: Str, lim: Limits)
    ensures forall m :: IsTaskRequest(frame, lim, m) <==>
              && |frame| <= lim.maxFrame && GetTaskRequest(frame, lim).Got?
              && GetTaskRequest(frame, lim).rest == [] && GetTaskRequest(frame, lim).value.0 == m
  {
    hide GetTaskRequest, PutTaskRequest, FitsTaskRequest;
    var g := GetTaskRequest(frame, lim);
    if g.Got? { TaskRequestLaw(frame, lim, g.value.0, g.value.1, g.rest); }
    forall m, flags: byte | FitsTaskRequest(m, lim) && frame == PutTaskRequest(m, flags, [])
      ensures g == Got((m, flags), [])
    {
      TaskRequestLaw(frame, lim, m, flags, []);
    }
  }

  /** Byte 7 of a header is its flags byte. */
  lemma HeaderFlags(kind: byte, flags: byte, g: byte, k: Str)
    ensures |PutHeader(kind, flags, k)| >= 8 && PutHeader(kind, flags, k)[7] == flags
    ensures PutHeader(kind, flags, k)[7 := g] == PutHeader(kind, g, k)
  {
    OneByte(flags);
    OneByte(g);
    hide Be;
    Replace(Be(MAGIC, 4), Be(VERSION, 2), Be(kind, 1), flags, g, k);
  }

  lemma Replace(a: Str, b: Str, c: Str, x: byte, y: byte, k: Str)
    requires |a| + |b| + |c| == 7
    ensures (a + (b + (c + ([x] + k))))[7] == x
    ensures (a + (b + (c + ([x] + k))))[7 := y] == a + (b + (c + ([y] + k)))
  {
    var p := a + b + c;
    assert a + (b + (c + ([x] + k))) == p + ([x] + k);
    assert a + (b + (c + ([y] + k))) == p + ([y] + k);
  }

  /** The accepted frames of `m` are its encoding with any value in the reserved flags byte, so
      decoding and encoding again gives back the frame with that byte cleared. */
  lemma TaskRequestReencodes(frame: Str, lim: Limits, m: TaskRequest)
    ensures IsTaskRequest(frame, lim, m) <==>
              && FitsTaskRequest(m, lim) && 8 <= |frame| <= lim.maxFrame
              && frame[7 := 0] == PutTaskRequest(m, 0, [])
  {
    var k := PutSized(m.taskId, 2, PutSized(m.sandboxId, 2, PutSized(m.moduleId, 2,
      PutSized(m.version, 2, PutSized(m.kind, 2, PutUint(m.priority, 1,
      PutUint(m.deadline, 8, PutBuffers(m.buffers, PutSized(m.payload, 4, [])))))))));
    assert forall f :: PutTaskRequest(m, f, []) == PutHeader(TASK_REQUEST, f, k);
    hide PutTaskRequest, PutHeader, FitsTaskRequest, PutSized, PutUint, PutBuffers;
    forall f: byte ensures PutHeader(TASK_REQUEST, f, k)[7 := 0] == PutHeader(TASK_REQUEST, 0, k) {
      HeaderFlags(TASK_REQUEST, f, 0, k);
    }
    if 8 <= |frame| && frame[7 := 0] == PutTaskRequest(m, 0, []) {
      HeaderFlags(TASK_REQUEST, 0, frame[7], k);
      assert frame[7 := 0][7 := frame[7]] == frame;
      assert frame == PutTaskRequest(m, frame[7], []);
    }
  }

  method DecodeTaskRequest(frame: Str, lim: Limits) returns (r: Option<TaskRequest>)
    ensures forall m :: r == Some(m) <==> IsTaskRequest(frame, lim, m)
  {
    hide GetUint, PutUint, GetSized, PutSized, GetBuffers, PutBuffers, FitsBuffers, GetHeader, PutHeader;
    r := None;
    TaskRequestUnique(frame, lim);
    HeaderNeedsEight(frame, TASK_REQUEST);
    if frame == [] || |frame| > lim.maxFrame { return; }
    var ok, flags, off := ReadHeader(frame, TASK_REQUEST);
    if !ok { return; }
    var taskId;
    ok, taskId, off := ReadSized(frame, off, 2, lim.maxString);
    if !ok { return; }
    var sandboxId;
    ok, sandboxId, off := ReadSized(frame, off, 2, lim.maxString);
    if !ok { return; }
    var moduleId;
    ok, moduleId, off := ReadSized(frame, off, 2, lim.maxString);
    if !ok { return; }
    var version;
    ok, version, off := ReadSized(frame, off, 2, lim.maxString);
    if !ok { return; }
    var kind;
    ok, kind, off := ReadSized(frame, off, 2, lim.maxString);
    if !ok { return; }
    var priority;
    ok, priority, off := ReadUint(frame, off, 1);
    if !ok { return; }
    var deadline;
    ok, deadline, off := ReadUint(frame, off, 8);
    if !ok { return; }
    var buffers;
    ok, buffers, off := ReadBuffers(frame, off, lim);
    if !ok { return; }
    var payload;
    ok, payload, off := ReadSized(frame, off, 4, lim.maxPayload);
    if !ok { return; }
    if off != |frame| { return; }
    if taskId == [] || sandboxId == [] || moduleId == [] || version == [] || kind == [] { return; }
    r := Some(TaskRequest(taskId, sandboxId, moduleId, version, kind, priority, deadline, buffers, payload));
  }

  /** `frame` is the encoded response carrying `m`. */
  ghost predicate IsTaskResponse(frame: Str, lim: Limits, m: TaskResponse) {
    FitsTaskResponse(m, lim) && |frame| <= lim.maxFrame && frame == PutTaskResponse(m, [])
  }

  method EncodeTaskResponse(m: TaskResponse, lim: Limits) returns (r: Option<Str>)
    ensures r.Some? <==> FitsTaskResponse(m, lim) && |PutTaskResponse(m, [])| <= lim.maxFrame
    ensures r.Some? ==> r.value == PutTaskResponse(m, []) && IsTaskResponse(r.value, lim, m)
  {
    hide PutUint, PutSized, PutBuffers, FitsBuffers, PutHeader;
    var frame := WriteHeader([], TASK_RESPONSE, m.status);
    var ok: bool;
    frame := WriteUint(frame, m.protocol, 2);
    ok, frame := AppendStr(frame, m.taskId, lim.maxString);
    if !ok { return None; }
    frame := WriteUint(frame, ToU32(m.gpu), 4);
    frame := WriteUint(frame, m.latency, 8);
    ok, frame := AppendStr(frame, m.error, lim.maxString);
    if !ok { return None; }
    ok, frame := AppendBuffers(frame, m.buffers, lim);
    if !ok { return None; }
    ok, frame := AppendBlob(frame, m.result, lim.maxPayload);
    if !ok { return None; }
    assert frame + [] == frame && [] + PutTaskResponse(m, []) == PutTaskResponse(m, []);
    if |frame| > lim.maxFrame { return None; }
    return Some(frame);
  }

  lemma TaskResponseUnique(frame: Str, lim: Limits)
    ensures forall m :: IsTaskResponse(frame, lim, m) <==>
              && |frame| <= lim.maxFrame && GetTaskResponse(frame, lim).Got?
              && GetTaskResponse(frame, lim).rest == [] && GetTaskResponse(frame, lim).value == m
  {
    hide GetTaskResponse, PutTaskResponse, FitsTaskResponse;
    var g := GetTaskResponse(frame, lim);
    if g.Got? { TaskResponseLaw(frame, lim, g.value, g.rest); }
    forall m | IsTaskResponse(frame, lim, m) ensures g == Got(m, []) {
      TaskResponseLaw(frame, lim, m, []);
    }
  }

  method DecodeTaskResponse(frame: Str, lim: Limits) returns (r: Option<TaskResponse>)
    ensures forall m :: r == Some(m) <==> IsTaskResponse(frame, lim, m)
  {
    hide GetUint, PutUint, GetSized, PutSized, GetBuffers, PutBuffers, FitsBuffers, GetHeader, PutHeader;
    r := None;
    TaskResponseUnique(frame, lim);
    HeaderNeedsEight(frame, TASK_RESPONSE);
    if frame == [] || |frame| > lim.maxFrame { return; }
    var ok, status, off := ReadHeader(frame, TASK_RESPONSE);
    if !ok { return; }
    var protocol;
    ok, protocol, off := ReadUint(frame, off, 2);
    if !ok { return; }
    var taskId;
    ok, taskId, off := ReadSized(frame, off, 2, lim.maxString);
    if !ok { return; }
    var gpu;
    ok, gpu, off := ReadUint(frame, off, 4);
    if !ok { return; }
    var latency;
    ok, latency, off := ReadUint(frame, off, 8);
    if !ok { return; }
    var error;
    ok, error, off := ReadSized(frame, off, 2, lim.maxString);
    if !ok { return; }
    var buffers;
    ok, buffers, off := ReadBuffers(frame, off, lim);
    if !ok { return; }
    var result;
    ok, result, off := ReadSized(frame, off, 4, lim.maxPayload);
    if !ok { return; }
    if off != |frame| { return; }
    r := Some(TaskResponse(status, protocol, taskId, ToI32(gpu), latency, error, buffers, result));
  }

  /** `frame` is the lifecycle request carrying `m`. */
  ghost predicate IsLifecycleRequest(frame: Str, lim: Limits, m: LifecycleRequest) {
    FitsLifecycleRequest(m, lim) && |frame| <= lim.maxFrame && frame == PutLifecycleRequest(m, [])
  }

  method EncodeLifecycleRequest(m: LifecycleRequest, lim: Limits) returns (r: Option<Str>)
    ensures r.Some? <==> FitsLifecycleRequest(m, lim) && |PutLifecycleRequest(m, [])| <= lim.maxFrame
    ensures r.Some? ==> r.value == PutLifecycleRequest(m, []) && IsLifecycleRequest(r.value, lim, m)
  {
    hide PutUint, PutSized, PutHeader;
    if m.requestId == [] || m.sandboxId == [] || m.moduleId == [] || m.version == [] { return None; }
    var frame := WriteHeader([], LIFECYCLE_REQUEST, m.action);
    var ok: bool;
    ok, frame := AppendStr(frame, m.requestId, lim.maxString);
    if !ok { return None; }
    ok, frame := AppendStr(frame, m.sandboxId, lim.maxString);
    if !ok { return None; }
    ok, frame := AppendStr(frame, m.moduleId, lim.maxString);
    if !ok { return None; }
    ok, frame := AppendStr(frame, m.version, lim.maxString);
    if !ok { return None; }
    frame := WriteUint(frame, ToU32(m.targetGpu), 4);
    frame := WriteUint(frame, m.graceMs, 4);
    ok, frame := AppendStr(frame, m.ackToken, lim.maxString);
    if !ok { return None; }
    ok, frame := AppendBlob(frame, m.payload, lim.maxPayload);
    if !ok { return None; }
    assert frame + [] == frame && [] + PutLifecycleRequest(m, []) == PutLifecycleRequest(m, []);
    if |frame| > lim.maxFrame { return None; }
    return Some(frame);
  }

  lemma LifecycleRequestUnique(frame: Str, lim: Limits)
    ensures forall m :: IsLifecycleRequest(frame, lim, m) <==>
              && |frame| <= lim.maxFrame && GetLifecycleRequest(frame, lim).Got?
              && GetLifecycleRequest(frame, lim).rest == [] && GetLifecycleRequest(frame, lim).value == m
  {
    hide GetLifecycleRequest, PutLifecycleRequest, FitsLifecycleRequest;
    var g := GetLifecycleRequest(frame, lim);
    if g.Got? { LifecycleRequestLaw(frame, lim, g.value, g.rest); }
    forall m | IsLifecycleRequest(frame, lim, m) ensures g == Got(m, []) {
      LifecycleRequestLaw(frame, lim, m, []);
    }
  }

  method DecodeLifecycleRequest(frame: Str, lim: Limits) returns (r: Option<LifecycleRequest>)
    ensures forall m :: r == Some(m) <==> IsLifecycleRequest(frame, lim, m)
  {
    hide GetUint, PutUint, GetSized, PutSized, GetHeader, PutHeader;
    r := None;
    LifecycleRequestUnique(frame, lim);
    HeaderNeedsEight(frame, LIFECYCLE_REQUEST);
    if frame == [] || |frame| > lim.maxFrame { return; }
    var ok, action, off := ReadHeader(frame, LIFECYCLE_REQUEST);
    if !ok { return; }
    var requestId;
    ok, requestId, off := ReadSized(frame, off, 2, lim.maxString);
    if !ok { return; }
    var sandboxId;
    ok, sandboxId, off := ReadSized(frame, off, 2, lim.maxString);
    if !ok { return; }
    var moduleId;
    ok, moduleId, off := ReadSized(frame, off, 2, lim.maxString);
    if !ok { return; }
    var version;
    ok, version, off := ReadSized(frame, off, 2, lim.maxString);
    if !ok { return; }
    var targetGpu;
    ok, targetGpu, off := ReadUint(frame, off, 4);
    if !ok { return; }
    var graceMs;
    ok, graceMs, off := ReadUint(frame, off, 4);
    if !ok { return; }
    var ackToken;
    ok, ackToken, off := ReadSized(frame, off, 2, lim.maxString);
    if !ok { return; }
    var payload;
    ok, payload, off := ReadSized(frame, off, 4, lim.maxPayload);
    if !ok { return; }
    if off != |frame| { return; }
    if requestId == [] || sandboxId == [] || moduleId == [] || version == [] { return; }
    r := Some(LifecycleRequest(action, requestId, sandboxId, moduleId, version, ToI32(targetGpu), graceMs, ackToken, payload));
  }

  /** `frame` is the lifecycle response carrying `m`. */
  ghost predicate IsLifecycleResponse(frame: Str, lim: Limits, m: LifecycleResponse) {
    FitsLifecycleResponse(m, lim) && |frame| <= lim.maxFrame && frame == PutLifecycleResponse(m, [])
  }

  method EncodeLifecycleResponse(m: LifecycleResponse, lim: Limits) returns (r: Option<Str>)
    ensures r.Some? <==> FitsLifecycleResponse(m, lim) && |PutLifecycleResponse(m, [])| <= lim.maxFrame
    ensures r.Some? ==> r.value == PutLifecycleResponse(m, []) && IsLifecycleResponse(r.value, lim, m)
  {
    hide PutUint, PutSized, PutHeader;
    var frame := WriteHeader([], LIFECYCLE_RESPONSE, m.action);
    var ok: bool;
    frame := WriteUint(frame, m.status, 1);
    frame := WriteUint(frame, m.protocol, 2);
    frame := WriteUint(frame, m.state, 1);
    ok, frame := AppendStr(frame, m.requestId, lim.maxString);
    if !ok { return None; }
    ok, frame := AppendStr(frame, m.sandboxId, lim.maxString);
    if !ok { return None; }
    ok, frame := AppendStr(frame, m.moduleId, lim.maxString);
    if !ok { return None; }
    ok, frame := AppendStr(frame, m.version, lim.maxString);
    if !ok { return None; }
    frame := WriteUint(frame, ToU32(m.gpu), 4);
    frame := WriteUint(frame, m.active, 4);
    ok, frame := AppendStr(frame, m.lease, lim.maxString);
    if !ok { return None; }
    ok, frame := AppendStr(frame, m.error, lim.maxString);
    if !ok { return None; }
    assert frame + [] == frame && [] + PutLifecycleResponse(m, []) == PutLifecycleResponse(m, []);
    if |frame| > lim.maxFrame { return None; }
    return Some(frame);
  }

  lemma LifecycleResponseUnique(frame: Str, lim: Limits)
    ensures forall m :: IsLifecycleResponse(frame, lim, m) <==>
              && |frame| <= lim.maxFrame && GetLifecycleResponse(frame, lim).Got?
              && GetLifecycleResponse(frame, lim).rest == [] && GetLifecycleResponse(frame, lim).value == m
  {
    hide GetLifecycleResponse, PutLifecycleResponse, FitsLifecycleResponse;
    var g := GetLifecycleResponse(frame, lim);
    if g.Got? { LifecycleResponseLaw(frame, lim, g.value, g.rest); }
    forall m | IsLifecycleResponse(frame, lim, m) ensures g == Got(m, []) {
      LifecycleResponseLaw(frame, lim, m, []);
    }
  }

  method DecodeLifecycleResponse(frame: Str, lim: Limits) returns (r: Option<LifecycleResponse>)
    ensures forall m :: r == Some(m) <==> IsLifecycleResponse(frame, lim, m)
  {
    hide GetUint, PutUint, GetSized, PutSized, GetHeader, PutHeader;
    r := None;
    LifecycleResponseUnique(frame, lim);
    HeaderNeedsEight(frame, LIFECYCLE_RESPONSE);
    if frame == [] || |frame| > lim.maxFrame { return; }
    var ok, action, off := ReadHeader(frame, LIFECYCLE_RESPONSE);
    if !ok { return; }
    var status;
    ok, status, off := ReadUint(frame, off, 1);
    if !ok { return; }
    var protocol;
    ok, protocol, off := ReadUint(frame, off, 2);
    if !ok { return; }
    var state;
    ok, state, off := ReadUint(frame, off, 1);
    if !ok { return; }
    var requestId;
    ok, requestId, off := ReadSized(frame, off, 2, lim.maxString);
    if !ok { return; }
    var sandboxId;
    ok, sandboxId, off := ReadSized(frame, off, 2, lim.maxString);
    if !ok { return; }
    var moduleId;
    ok, moduleId, off := ReadSized(frame, off, 2, lim.maxString);
    if !ok { return; }
    var version;
    ok, version, off := ReadSized(frame, off, 2, lim.maxString);
    if !ok { return; }
    var gpu;
    ok, gpu, off := ReadUint(frame, off, 4);
    if !ok { return; }
    var active;
    ok, active, off := ReadUint(frame, off, 4);
    if !ok { return; }
    var lease;
    ok, lease, off := ReadSized(frame, off, 2, lim.maxString);
    if !ok { return; }
    var error;
    ok, error, off := ReadSized(frame, off, 2, lim.maxString);
    if !ok { return; }
    if off != |frame| { return; }
    r := Some(LifecycleResponse(action, status, protocol, state, requestId, sandboxId, moduleId, version, ToI32(gpu), active, lease, error));
  }
}
