/**
  * WSM1: the wire format between a WebAssembly host and the broker. Four message kinds behind
  * one eight-byte header; two of them carry a list of buffer descriptors.
  */
module Wsm1 {
  import opened Bytes
  import opened Wire

  const MAGIC: nat := 0x57534D31
  const VERSION: nat := 1
  const TASK_REQUEST: nat := 1
  const TASK_RESPONSE: nat := 2
  const LIFECYCLE_REQUEST: nat := 3
  const LIFECYCLE_RESPONSE: nat := 4

  datatype Limits = Limits(maxString: nat, maxPayload: nat, maxBuffers: nat, maxFrame: nat)

  datatype Descriptor = Descriptor(id: u32, flags: u32, offset: u64, length: u64, name: Str)

  datatype TaskRequest = TaskRequest(
    taskId: Str, sandboxId: Str, moduleId: Str, version: Str, kind: Str,
    priority: byte, deadline: u64, buffers: seq<Descriptor>, payload: Str)

  // Enumerations arrive as unchecked `static_cast`s of a byte, so any byte value is possible.
  datatype TaskResponse = TaskResponse(
    status: byte, protocol: u16, taskId: Str, gpu: i32, latency: u64, error: Str,
    buffers: seq<Descriptor>, result: Str)

  datatype LifecycleRequest = LifecycleRequest(
    action: byte, requestId: Str, sandboxId: Str, moduleId: Str, version: Str,
    targetGpu: i32, graceMs: u32, ackToken: Str, payload: Str)

  datatype LifecycleResponse = LifecycleResponse(
    action: byte, status: byte, protocol: u16, state: byte,
    requestId: Str, sandboxId: Str, moduleId: Str, version: Str,
    gpu: i32, active: u32, lease: Str, error: Str)

  // ----- buffer descriptors -----

  function PutDescriptor(d: Descriptor, k: Str): Str {
    PutUint(d.id, 4, PutUint(d.flags, 4, PutUint(d.offset, 8, PutUint(d.length, 8, PutSized(d.name, 2, k)))))
  }

  function GetDescriptor(s: Str, lim: Limits): (r: Parsed<Descriptor>)
    ensures r.Got? ==> FitsStr(r.value.name, lim.maxString) && s == PutDescriptor(r.value, r.rest)
  {
    var (id, s1) :- GetUint(s, 4);
    var (flags, s2) :- GetUint(s1, 4);
    var (offset, s3) :- GetUint(s2, 8);
    var (length, s4) :- GetUint(s3, 8);
    var (name, s5) :- GetSized(s4, 2, lim.maxString);
    Got(Descriptor(id, flags, offset, length, name), s5)
  }

  lemma GetPutDescriptor(d: Descriptor, lim: Limits, k: Str)
    requires FitsStr(d.name, lim.maxString)
    ensures GetDescriptor(PutDescriptor(d, k), lim) == Got(d, k)
  {
    hide GetUint, PutUint, GetSized, PutSized;
    var s4 := PutSized(d.name, 2, k);
    var s3 := PutUint(d.length, 8, s4);
    var s2 := PutUint(d.offset, 8, s3);
    var s1 := PutUint(d.flags, 4, s2);
    GetPutUint(d.id, 4, s1);
    GetPutUint(d.flags, 4, s2);
    GetPutUint(d.offset, 8, s3);
    GetPutUint(d.length, 8, s4);
    GetPutSized(d.name, 2, lim.maxString, k);
  }

  function PutDescriptors(ds: seq<Descriptor>, k: Str): Str {
    if ds == [] then k else PutDescriptor(ds[0], PutDescriptors(ds[1..], k))
  }

  predicate FitAll(ds: seq<Descriptor>, lim: Limits) {
    forall d :: d in ds ==> FitsStr(d.name, lim.maxString)
  }

  function GetDescriptors(s: Str, n: nat, lim: Limits): (r: Parsed<seq<Descriptor>>)
    ensures r.Got? ==> |r.value| == n && FitAll(r.value, lim) && s == PutDescriptors(r.value, r.rest)
  {
    if n == 0 then Got([], s) else
    var (d, t) :- GetDescriptor(s, lim);
    var (ds, u) :- GetDescriptors(t, n - 1, lim);
    assert ([d] + ds)[1..] == ds;
    Got([d] + ds, u)
  }

  lemma {:induction false} GetPutDescriptors(ds: seq<Descriptor>, lim: Limits, k: Str)
    requires FitAll(ds, lim)
    ensures GetDescriptors(PutDescriptors(ds, k), |ds|, lim) == Got(ds, k)
    decreases |ds|
  {
    hide GetDescriptor, PutDescriptor, FitsStr;
    if ds != [] {
      GetPutDescriptor(ds[0], lim, PutDescriptors(ds[1..], k));
      GetPutDescriptors(ds[1..], lim, k);
      assert [ds[0]] + ds[1..] == ds;
    }
  }

  function PutBuffers(ds: seq<Descriptor>, k: Str): Str {
    PutUint(|ds|, 2, PutDescriptors(ds, k))
  }

  predicate FitsBuffers(ds: seq<Descriptor>, lim: Limits) {
    |ds| <= lim.maxBuffers && |ds| < 0x1_0000 && FitAll(ds, lim)
  }

  function GetBuffers(s: Str, lim: Limits): (r: Parsed<seq<Descriptor>>)
    ensures r.Got? ==> FitsBuffers(r.value, lim) && s == PutBuffers(r.value, r.rest)
  {
    var (count, t) :- GetUint(s, 2);
    if count > lim.maxBuffers then Fail else GetDescriptors(t, count, lim)
  }

  lemma GetPutBuffers(ds: seq<Descriptor>, lim: Limits, k: Str)
    requires FitsBuffers(ds, lim)
    ensures GetBuffers(PutBuffers(ds, k), lim) == Got(ds, k)
  {
    hide GetUint, PutUint, GetDescriptors, PutDescriptors;
    GetPutUint(|ds|, 2, PutDescriptors(ds, k));
    GetPutDescriptors(ds, lim, k);
  }

  // ----- header -----

  function PutHeader(kind: byte, flags: byte, k: Str): Str {
    PutUint(MAGIC, 4, PutUint(VERSION, 2, PutUint(kind, 1, PutUint(flags, 1, k))))
  }

  function GetHeader(s: Str, kind: byte): (r: Parsed<byte>)
    ensures r.Got? ==> s == PutHeader(kind, r.value, r.rest)
  {
    var (magic, s1) :- GetUint(s, 4);
    if magic != MAGIC then Fail else
    var (version, s2) :- GetUint(s1, 2);
    if version != VERSION then Fail else
    var (k, s3) :- GetUint(s2, 1);
    if k != kind then Fail else
    var (flags, s4) :- GetUint(s3, 1);
    Got(flags, s4)
  }

  lemma GetPutHeader(kind: byte, flags: byte, k: Str)
    ensures GetHeader(PutHeader(kind, flags, k), kind) == Got(flags, k)
  {
    hide GetUint, PutUint;
    var s2 := PutUint(flags, 1, k);
    var s1 := PutUint(kind, 1, s2);
    var s0 := PutUint(VERSION, 2, s1);
    GetPutUint(MAGIC, 4, s0);
    GetPutUint(VERSION, 2, s1);
    GetPutUint(kind, 1, s2);
    GetPutUint(flags, 1, k);
  }

  // ----- task request -----

  function PutTaskRequest(m: TaskRequest, flags: byte, k: Str): Str {
    PutHeader(TASK_REQUEST, flags,
      PutSized(m.taskId, 2, PutSized(m.sandboxId, 2, PutSized(m.moduleId, 2,
      PutSized(m.version, 2, PutSized(m.kind, 2, PutUint(m.priority, 1,
      PutUint(m.deadline, 8, PutBuffers(m.buffers, PutSized(m.payload, 4, k))))))))))
  }

  predicate FitsTaskRequest(m: TaskRequest, lim: Limits) {
    && m.taskId != [] && m.sandboxId != [] && m.moduleId != [] && m.version != [] && m.kind != []
    && FitsStr(m.taskId, lim.maxString) && FitsStr(m.sandboxId, lim.maxString) && FitsStr(m.moduleId, lim.maxString)
    && FitsStr(m.version, lim.maxString) && FitsStr(m.kind, lim.maxString) && FitsBuffers(m.buffers, lim)
    && FitsBlob(m.payload, lim.maxPayload)
  }

  function GetTaskRequest(s: Str, lim: Limits): Parsed<(TaskRequest, byte)> {
    hide GetUint, GetSized, GetBuffers, GetHeader;
    var (flags, s0) :- GetHeader(s, TASK_REQUEST);
    var (taskId, s1) :- GetSized(s0, 2, lim.maxString);
    var (sandboxId, s2) :- GetSized(s1, 2, lim.maxString);
    var (moduleId, s3) :- GetSized(s2, 2, lim.maxString);
    var (version, s4) :- GetSized(s3, 2, lim.maxString);
    var (kind, s5) :- GetSized(s4, 2, lim.maxString);
    var (priority, s6) :- GetUint(s5, 1);
    var (deadline, s7) :- GetUint(s6, 8);
    var (buffers, s8) :- GetBuffers(s7, lim);
    var (payload, s9) :- GetSized(s8, 4, lim.maxPayload);
    if taskId == [] || sandboxId == [] || moduleId == [] || version == [] || kind == [] then Fail else
    Got((TaskRequest(taskId, sandboxId, moduleId, version, kind, priority, deadline, buffers, payload), flags), s9)
  }

  lemma TaskRequestLaw(s: Str, lim: Limits, m: TaskRequest, flags: byte, k: Str)
    ensures GetTaskRequest(s, lim) == Got((m, flags), k) <==>
            FitsTaskRequest(m, lim) && s == PutTaskRequest(m, flags, k)
  {
    hide GetUint, PutUint, GetSized, PutSized, GetBuffers, PutBuffers, FitsBuffers, GetHeader, PutHeader;
    if FitsTaskRequest(m, lim) && s == PutTaskRequest(m, flags, k) {
      var s8 := PutSized(m.payload, 4, k);
      var s7 := PutBuffers(m.buffers, s8);
      var s6 := PutUint(m.deadline, 8, s7);
      var s5 := PutUint(m.priority, 1, s6);
      var s4 := PutSized(m.kind, 2, s5);
      var s3 := PutSized(m.version, 2, s4);
      var s2 := PutSized(m.moduleId, 2, s3);
      var s1 := PutSized(m.sandboxId, 2, s2);
      GetPutHeader(TASK_REQUEST, flags, PutSized(m.taskId, 2, s1));
      GetPutSized(m.taskId, 2, lim.maxString, s1);
      GetPutSized(m.sandboxId, 2, lim.maxString, s2);
      GetPutSized(m.moduleId, 2, lim.maxString, s3);
      GetPutSized(m.version, 2, lim.maxString, s4);
      GetPutSized(m.kind, 2, lim.maxString, s5);
      GetPutUint(m.priority, 1, s6);
      GetPutUint(m.deadline, 8, s7);
      GetPutBuffers(m.buffers, lim, s8);
      GetPutSized(m.payload, 4, lim.maxPayload, k);
    }
  }

  // ----- task response -----

  function PutTaskResponse(m: TaskResponse, k: Str): Str {
    PutHeader(TASK_RESPONSE, m.status,
      PutUint(m.protocol, 2, PutSized(m.taskId, 2, PutUint(ToU32(m.gpu), 4,
      PutUint(m.latency, 8, PutSized(m.error, 2, PutBuffers(m.buffers, PutSized(m.result, 4, k))))))))
  }

  predicate FitsTaskResponse(m: TaskResponse, lim: Limits) {
    && FitsStr(m.taskId, lim.maxString) && FitsStr(m.error, lim.maxString) && FitsBuffers(m.buffers, lim)
    && FitsBlob(m.result, lim.maxPayload)
  }

  function GetTaskResponse(s: Str, lim: Limits): Parsed<TaskResponse> {
    hide GetUint, GetSized, GetBuffers, GetHeader;
    var (status, s0) :- GetHeader(s, TASK_RESPONSE);
    var (protocol, s1) :- GetUint(s0, 2);
    var (taskId, s2) :- GetSized(s1, 2, lim.maxString);
    var (gpu, s3) :- GetUint(s2, 4);
    var (latency, s4) :- GetUint(s3, 8);
    var (error, s5) :- GetSized(s4, 2, lim.maxString);
    var (buffers, s6) :- GetBuffers(s5, lim);
    var (result, s7) :- GetSized(s6, 4, lim.maxPayload);
    Got(TaskResponse(status, protocol, taskId, ToI32(gpu), latency, error, buffers, result), s7)
  }

  lemma TaskResponseLaw(s: Str, lim: Limits, m: TaskResponse, k: Str)
    ensures GetTaskResponse(s, lim) == Got(m, k) <==>
            FitsTaskResponse(m, lim) && s == PutTaskResponse(m, k)
  {
    hide GetUint, PutUint, GetSized, PutSized, GetBuffers, PutBuffers, FitsBuffers, GetHeader, PutHeader;
    if FitsTaskResponse(m, lim) && s == PutTaskResponse(m, k) {
      var s6 := PutSized(m.result, 4, k);
      var s5 := PutBuffers(m.buffers, s6);
      var s4 := PutSized(m.error, 2, s5);
      var s3 := PutUint(m.latency, 8, s4);
      var s2 := PutUint(ToU32(m.gpu), 4, s3);
      var s1 := PutSized(m.taskId, 2, s2);
      GetPutHeader(TASK_RESPONSE, m.status, PutUint(m.protocol, 2, s1));
      GetPutUint(m.protocol, 2, s1);
      GetPutSized(m.taskId, 2, lim.maxString, s2);
      GetPutUint(ToU32(m.gpu), 4, s3);
      GetPutUint(m.latency, 8, s4);
      GetPutSized(m.error, 2, lim.maxString, s5);
      GetPutBuffers(m.buffers, lim, s6);
      GetPutSized(m.result, 4, lim.maxPayload, k);
    }
  }

  // ----- lifecycle request -----

  function PutLifecycleRequest(m: LifecycleRequest, k: Str): Str {
    PutHeader(LIFECYCLE_REQUEST, m.action,
      PutSized(m.requestId, 2, PutSized(m.sandboxId, 2, PutSized(m.moduleId, 2,
      PutSized(m.version, 2, PutUint(ToU32(m.targetGpu), 4, PutUint(m.graceMs, 4,
      PutSized(m.ackToken, 2, PutSized(m.payload, 4, k)))))))))
  }

  predicate FitsLifecycleRequest(m: LifecycleRequest, lim: Limits) {
    && m.requestId != [] && m.sandboxId != [] && m.moduleId != [] && m.version != []
    && FitsStr(m.requestId, lim.maxString) && FitsStr(m.sandboxId, lim.maxString) && FitsStr(m.moduleId, lim.maxString)
    && FitsStr(m.version, lim.maxString) && FitsStr(m.ackToken, lim.maxString) && FitsBlob(m.payload, lim.maxPayload)
  }

  function GetLifecycleRequest(s: Str, lim: Limits): Parsed<LifecycleRequest> {
    hide GetUint, GetSized, GetHeader;
    var (action, s0) :- GetHeader(s, LIFECYCLE_REQUEST);
    var (requestId, s1) :- GetSized(s0, 2, lim.maxString);
    var (sandboxId, s2) :- GetSized(s1, 2, lim.maxString);
    var (moduleId, s3) :- GetSized(s2, 2, lim.maxString);
    var (version, s4) :- GetSized(s3, 2, lim.maxString);
    var (targetGpu, s5) :- GetUint(s4, 4);
    var (graceMs, s6) :- GetUint(s5, 4);
    var (ackToken, s7) :- GetSized(s6, 2, lim.maxString);
    var (payload, s8) :- GetSized(s7, 4, lim.maxPayload);
    if requestId == [] || sandboxId == [] || moduleId == [] || version == [] then Fail else
    Got(LifecycleRequest(action, requestId, sandboxId, moduleId, version, ToI32(targetGpu), graceMs, ackToken, payload), s8)
  }

  lemma LifecycleRequestLaw(s: Str, lim: Limits, m: LifecycleRequest, k: Str)
    ensures GetLifecycleRequest(s, lim) == Got(m, k) <==>
            FitsLifecycleRequest(m, lim) && s == PutLifecycleRequest(m, k)
  {
    hide GetUint, PutUint, GetSized, PutSized, GetHeader, PutHeader;
    if FitsLifecycleRequest(m, lim) && s == PutLifecycleRequest(m, k) {
      var s7 := PutSized(m.payload, 4, k);
      var s6 := PutSized(m.ackToken, 2, s7);
      var s5 := PutUint(m.graceMs, 4, s6);
      var s4 := PutUint(ToU32(m.targetGpu), 4, s5);
      var s3 := PutSized(m.version, 2, s4);
      var s2 := PutSized(m.moduleId, 2, s3);
      var s1 := PutSized(m.sandboxId, 2, s2);
      GetPutHeader(LIFECYCLE_REQUEST, m.action, PutSized(m.requestId, 2, s1));
      GetPutSized(m.requestId, 2, lim.maxString, s1);
      GetPutSized(m.sandboxId, 2, lim.maxString, s2);
      GetPutSized(m.moduleId, 2, lim.maxString, s3);
      GetPutSized(m.version, 2, lim.maxString, s4);
      GetPutUint(ToU32(m.targetGpu), 4, s5);
      GetPutUint(m.graceMs, 4, s6);
      GetPutSized(m.ackToken, 2, lim.maxString, s7);
      GetPutSized(m.payload, 4, lim.maxPayload, k);
    }
  }

  // ----- lifecycle response -----

  function PutLifecycleResponse(m: LifecycleResponse, k: Str): Str {
    PutHeader(LIFECYCLE_RESPONSE, m.action,
      PutUint(m.status, 1, PutUint(m.protocol, 2, PutUint(m.state, 1,
      PutSized(m.requestId, 2, PutSized(m.sandboxId, 2, PutSized(m.moduleId, 2,
      PutSized(m.version, 2, PutUint(ToU32(m.gpu), 4, PutUint(m.active, 4,
      PutSized(m.lease, 2, PutSized(m.error, 2, k))))))))))))
  }

  predicate FitsLifecycleResponse(m: LifecycleResponse, lim: Limits) {
    && FitsStr(m.requestId, lim.maxString) && FitsStr(m.sandboxId, lim.maxString) && FitsStr(m.moduleId, lim.maxString)
    && FitsStr(m.version, lim.maxString) && FitsStr(m.lease, lim.maxString) && FitsStr(m.error, lim.maxString)
  }

  function GetLifecycleResponse(s: Str, lim: Limits): Parsed<LifecycleResponse> {
    hide GetUint, GetSized, GetHeader;
    var (action, s0) :- GetHeader(s, LIFECYCLE_RESPONSE);
    var (status, s1) :- GetUint(s0, 1);
    var (protocol, s2) :- GetUint(s1, 2);
    var (state, s3) :- GetUint(s2, 1);
    var (requestId, s4) :- GetSized(s3, 2, lim.maxString);
    var (sandboxId, s5) :- GetSized(s4, 2, lim.maxString);
    var (moduleId, s6) :- GetSized(s5, 2, lim.maxString);
    var (version, s7) :- GetSized(s6, 2, lim.maxString);
    var (gpu, s8) :- GetUint(s7, 4);
    var (active, s9) :- GetUint(s8, 4);
    var (lease, s10) :- GetSized(s9, 2, lim.maxString);
    var (error, s11) :- GetSized(s10, 2, lim.maxString);
    Got(LifecycleResponse(action, status, protocol, state, requestId, sandboxId, moduleId, version, ToI32(gpu), active, lease, error), s11)
  }

  lemma LifecycleResponseLaw(s: Str, lim: Limits, m: LifecycleResponse, k: Str)
    ensures GetLifecycleResponse(s, lim) == Got(m, k) <==>
            FitsLifecycleResponse(m, lim) && s == PutLifecycleResponse(m, k)
  {
    hide GetUint, PutUint, GetSized, PutSized, GetHeader, PutHeader;
    if FitsLifecycleResponse(m, lim) && s == PutLifecycleResponse(m, k) {
      var s10 := PutSized(m.error, 2, k);
      var s9 := PutSized(m.lease, 2, s10);
      var s8 := PutUint(m.active, 4, s9);
      var s7 := PutUint(ToU32(m.gpu), 4, s8);
      var s6 := PutSized(m.version, 2, s7);
      var s5 := PutSized(m.moduleId, 2, s6);
      var s4 := PutSized(m.sandboxId, 2, s5);
      var s3 := PutSized(m.requestId, 2, s4);
      var s2 := PutUint(m.state, 1, s3);
      var s1 := PutUint(m.protocol, 2, s2);
      GetPutHeader(LIFECYCLE_RESPONSE, m.action, PutUint(m.status, 1, s1));
      GetPutUint(m.status, 1, s1);
      GetPutUint(m.protocol, 2, s2);
      GetPutUint(m.state, 1, s3);
      GetPutSized(m.requestId, 2, lim.maxString, s4);
      GetPutSized(m.sandboxId, 2, lim.maxString, s5);
      GetPutSized(m.moduleId, 2, lim.maxString, s6);
      GetPutSized(m.version, 2, lim.maxString, s7);
      GetPutUint(ToU32(m.gpu), 4, s8);
      GetPutUint(m.active, 4, s9);
      GetPutSized(m.lease, 2, lim.maxString, s10);
      GetPutSized(m.error, 2, lim.maxString, k);
    }
  }
}
