/**
  * `handle_request`: backend selection, the generic compute path with its fallback, and the two
  * echo handlers. Kernels are arbitrary functions that may fail; the clock is a parameter.
  */
module Dispatch {
  import opened Bytes
  import opened Broker
  import opened Doubles
  import Nxr1
  import Med1

  datatype Policy = Policy(
    default: Backend, thresholdBytes: nat, thresholdFlops: u64,
    forceCpu: bool, gpuAvailable: bool, npuAvailable: bool)

  predicate RequiresCpu(p: Profile) {
    (p.exact || p.verification || p.cryptographic) && !p.verified
  }

  /** `select_backend`, stated by exactly when each accelerator is chosen. */
  function SelectBackend(policy: Policy, profile: Option<Profile>): (b: Backend)
    ensures b == Npu <==>
            && !policy.forceCpu && policy.npuAvailable && profile.Some? && profile.value.inference
            && !((profile.value.exact || profile.value.verification || profile.value.cryptographic)
                 && !profile.value.verified)
    ensures b == Gpu <==>
            && !policy.forceCpu && policy.gpuAvailable
            && (profile.None? ==> policy.default == Gpu)
            && (profile.Some? ==>
                  var p := profile.value;
                  && !((p.exact || p.verification || p.cryptographic) && !p.verified)
                  && p.dataParallel && !(p.inference && policy.npuAvailable)
                  && (p.bytes >= policy.thresholdBytes || 0 < policy.thresholdFlops <= p.flops))
  {
    if policy.forceCpu then Cpu
    else if profile.None? then
      if policy.default == Gpu && policy.gpuAvailable then Gpu else Cpu
    else
      var p := profile.value;
      if RequiresCpu(p) then Cpu
      else if p.inference && policy.npuAvailable then Npu
      else if p.dataParallel && policy.gpuAvailable
           && (p.bytes >= policy.thresholdBytes || (policy.thresholdFlops > 0 && p.flops >= policy.thresholdFlops))
      then Gpu
      else Cpu
  }

  const PLAIN: Profile := Profile(false, false, false, false, false, false, 0, 0, false)

  /** The profile used for dispatch: the request's own, or the one its device preference implies. */
  function EffectiveProfile(m: Request): Option<Profile> {
    if m.profile.Some? then m.profile
    else if m.preference == NPU then
      Some(PLAIN.(inference := true, fallbackSafe := true, bytes := |m.payload|))
    else if m.preference == GPU then
      Some(PLAIN.(dataParallel := true, fallbackSafe := true, bytes := |m.payload|))
    else None
  }

  function EffectivePolicy(policy: Policy, m: Request): Policy {
    if m.profile.None? && m.preference == CPU then policy.(forceCpu := true) else policy
  }

  predicate FallbackSafe(m: Request) {
    EffectiveProfile(m).Some? && EffectiveProfile(m).value.fallbackSafe
  }

  function Selected(policy: Policy, m: Request): Backend {
    SelectBackend(EffectivePolicy(policy, m), EffectiveProfile(m))
  }

  /** What a request is dispatched to, by its profile or else by its device preference. */
  lemma SelectedMeans(policy: Policy, m: Request)
    ensures m.profile.Some? ==> Selected(policy, m) == SelectBackend(policy, m.profile)
    ensures m.profile.None? && m.preference == Ascii("npu") ==>
              Selected(policy, m) == if policy.npuAvailable && !policy.forceCpu then Npu else Cpu
    ensures m.profile.None? && m.preference == Ascii("gpu") ==>
              Selected(policy, m) ==
                if policy.gpuAvailable && !policy.forceCpu && |m.payload| >= policy.thresholdBytes then Gpu else Cpu
    ensures m.profile.None? && m.preference == Ascii("cpu") ==> Selected(policy, m) == Cpu
    ensures m.profile.None? && m.preference !in {Ascii("npu"), Ascii("gpu"), Ascii("cpu")} ==>
              Selected(policy, m) ==
                if policy.default == Gpu && policy.gpuAvailable && !policy.forceCpu then Gpu else Cpu
  {
    DeviceNames();
    hide Ascii;
  }

  /** A failed accelerator attempt may be redone on the CPU if the profile says so, or if there is none
      and the request prefers an accelerator. */
  lemma FallbackMeans(m: Request)
    ensures m.profile.Some? ==> (FallbackSafe(m) <==> m.profile.value.fallbackSafe)
    ensures m.profile.None? ==> (FallbackSafe(m) <==> m.preference == Ascii("npu") || m.preference == Ascii("gpu"))
  {
    DeviceNames();
    hide Ascii;
  }

  lemma DeviceNames()
    ensures CPU != GPU && CPU != NPU && GPU != NPU
  {
    assert CPU[0] == 99 && GPU[0] == 103 && NPU[0] == 110;
  }

  /** What a WASM handler fills in; the task id is the request's own. */
  datatype WasmAnswer = WasmAnswer(status: TaskStatus, gpu: i32, result: Str, error: Str)

  /** The kernels, and what happens to a GPU attempt before its kernel runs. */
  datatype World = World(
    cpu: seq<u64> -> seq<u64>,
    npu: seq<u64> -> Option<seq<u64>>,
    gpu: (seq<u64>, i32) -> Option<seq<u64>>,
    placement: Option<i32>,           // the GPU chosen, or `None` if placement throws
    admitted: bool,                   // whether the GPU was below its capacity
    wasm: Request -> WasmAnswer)      // the handlers of the WASM kinds

  /** The output of backend `b` on `input`, `gpu` being the GPU it ran on. */
  function Output(w: World, b: Backend, gpu: i32, input: seq<u64>): Option<seq<u64>> {
    match b
    case Cpu => Some(w.cpu(input))
    case Npu => w.npu(input)
    case Gpu => w.gpu(input, gpu)
  }

  const TIMED_OUT: Str := Ascii("request timed out")

  /** `finish_response` with the elapsed time in milliseconds. */
  function Finish(r: Response, elapsed: u64, timeoutMs: u32): (f: Response)
    ensures f.status == Timeout <==> elapsed >= timeoutMs || r.status == Timeout
    ensures elapsed >= timeoutMs ==> f.result == [] && f.error == TIMED_OUT
    ensures elapsed < timeoutMs ==> f == r.(latency := elapsed)
    ensures f.latency == elapsed && f.taskId == r.taskId && f.backend == r.backend && f.fellBack == r.fellBack && f.gpu == r.gpu
  {
    var r1 := r.(latency := elapsed);
    if elapsed >= timeoutMs then r1.(status := Timeout, result := [], error := TIMED_OUT) else r1
  }

  function Blank(m: Request): Response {
    Response(m.taskId, Error, -1, 0, [], [], Cpu, false)
  }

  function FromWasm(m: Request, a: WasmAnswer): Response {
    Blank(m).(status := a.status, gpu := a.gpu, result := a.result, error := a.error)
  }

  /** `run_on_gpu`; the counters around the kernel are the subject of `GpuService`. */
  method RunOnGpu(m: Request, input: seq<u64>, w: World) returns (r: Response)
    ensures r.taskId == m.taskId && r.backend == Gpu && !r.fellBack && r.status != Timeout
    ensures r.status == Ok ==>
              && w.placement == Some(r.gpu) && w.admitted
              && w.gpu(input, r.gpu).Some? && r.result == Pack(w.gpu(input, r.gpu).value)
    ensures r.status != Ok ==> r.result == []
    ensures r.status == Ok <==> w.placement.Some? && w.admitted && w.gpu(input, w.placement.value).Some?
    ensures r.status == Rejected <==> w.placement.Some? && !w.admitted
    ensures r.gpu == if w.placement.Some? then w.placement.value else -1
  {
    r := Blank(m).(backend := Gpu);
    if w.placement.None? { return; }
    r := r.(gpu := w.placement.value);
    if !w.admitted { r := r.(status := Rejected); return; }
    var output := w.gpu(input, w.placement.value);
    if output.None? { return; }
    var bytes := EncodePayload(output.value);
    r := r.(status := Ok, result := bytes[..]);
  }

  /** Did the selected accelerator fail on this input? */
  predicate AcceleratorFailed(w: World, b: Backend, input: seq<u64>) {
    || (b == Gpu && !(w.placement.Some? && w.admitted && w.gpu(input, w.placement.value).Some?))
    || (b == Npu && w.npu(input).None?)
  }

  /** What the generic path promises about its response. */
  ghost predicate ComputeSpec(m: Request, policy: Policy, w: World, lim: Limits, elapsed: u64, r: Response) {
    var failed := |m.payload| % 8 == 0 && AcceleratorFailed(w, Selected(policy, m), Unpack(m.payload));
    && r.taskId == m.taskId
    && (!Valid(m, lim) ==> r.status == Rejected)
    && (Valid(m, lim) ==> (r.status == Timeout <==> elapsed >= m.timeoutMs))
    && (Valid(m, lim) && elapsed >= m.timeoutMs ==> r.error == TIMED_OUT)
    && (r.status != Ok ==> r.result == [])
    // An Ok result is the reported backend's kernel applied to the decoded payload.
    && (r.status == Ok ==>
          && |m.payload| % 8 == 0
          && Output(w, r.backend, r.gpu, Unpack(m.payload)).Some?
          && r.result == Pack(Output(w, r.backend, r.gpu, Unpack(m.payload)).value)
          && (r.backend == Selected(policy, m) || (r.backend == Cpu && r.fellBack)))
    // Falling back happens exactly after a failed accelerator attempt on a fallback-safe request.
    && (r.fellBack <==> Valid(m, lim) && FallbackSafe(m) && failed)
    // Unverified exact, verification or cryptographic work never runs on an accelerator.
    && (m.profile.Some? && !m.profile.value.verified
        && (m.profile.value.exact || m.profile.value.verification || m.profile.value.cryptographic) ==>
          r.backend == Cpu && !r.fellBack)
    // Without an accelerator failure that is not fallback-safe, a timely valid request succeeds.
    && (Valid(m, lim) && elapsed < m.timeoutMs ==>
          (r.status == Ok <==> |m.payload| % 8 == 0 && (failed ==> FallbackSafe(m))))
    // A failure names the backend that was tried, and is a rejection only for lack of room on a GPU.
    && (Valid(m, lim) && elapsed < m.timeoutMs && r.status != Ok ==>
          && r.backend == (if |m.payload| % 8 == 0 then Selected(policy, m) else Cpu)
          && r.status == (if r.backend == Gpu && w.placement.Some? && !w.admitted then Rejected else Error))
    && r.gpu == (if r.backend == Gpu && w.placement.Some? then w.placement.value else -1)
    && r.latency == (if Valid(m, lim) then elapsed else 0)
  }

  /** The generic path of `handle_request`. */
  method HandleCompute(m: Request, policy: Policy, w: World, lim: Limits, elapsed: u64) returns (r: Response)
    ensures ComputeSpec(m, policy, w, lim, elapsed, r)
  {
    hide SelectBackend, Finish, Pack, Unpack, TIMED_OUT;
    r := Blank(m);
    if !Valid(m, lim) { return r.(status := Rejected); }
    var backend := Selected(policy, m);
    var decoded := DecodePayload(m.payload);
    if decoded.None? { return Finish(r, elapsed, m.timeoutMs); }
    var input := decoded.value;
    if backend == Gpu {
      var g := RunOnGpu(m, input, w);
      if g.status == Ok || !FallbackSafe(m) { return Finish(g, elapsed, m.timeoutMs); }
      r := r.(fellBack := true);
    } else if backend == Npu {
      var output := w.npu(input);
      if output.Some? {
        var bytes := EncodePayload(output.value);
        return Finish(r.(result := bytes[..], status := Ok, backend := Npu), elapsed, m.timeoutMs);
      }
      if !FallbackSafe(m) { return Finish(r.(backend := Npu), elapsed, m.timeoutMs); }
      r := r.(fellBack := true);
    }
    var bytes := EncodePayload(w.cpu(input));
    return Finish(r.(status := Ok, backend := Cpu, gpu := -1, result := bytes[..]), elapsed, m.timeoutMs);
  }

  // ----- echo handlers -----

  /** A geospatial payload that decodes is echoed byte for byte; the encoder cannot fail on it. */
  method HandleGeospatial(m: Request, lim: Limits) returns (r: Response)
    ensures r.taskId == m.taskId
    ensures r.status == Ok <==> exists f :: Nxr1.Fits(f, lim.maxPayload) && m.payload == Nxr1.Put(f, [])
    ensures r.status == Ok ==> r.result == m.payload
    ensures r.status != Ok ==> r.status == Rejected && r.result == []
  {
    hide Nxr1.Fits, Nxr1.Put;
    r := Blank(m);
    var frame := Nxr1.Decode(m.payload, lim.maxPayload);
    if frame.None? { return r.(status := Rejected); }
    var encoded := Nxr1.Encode(frame.value, lim.maxPayload);
    if encoded.None? { return r; }
    return r.(status := Ok, result := encoded.value);
  }

  /** The same for media chunks. */
  method HandleMedia(m: Request, lim: Limits) returns (r: Response)
    ensures r.taskId == m.taskId
    ensures r.status == Ok <==>
            exists f :: Med1.Fits(f, lim.maxPayload, lim.maxString) && m.payload == Med1.Put(f, [])
    ensures r.status == Ok ==> r.result == m.payload
    ensures r.status != Ok ==> r.status == Rejected && r.result == []
  {
    hide Med1.Fits, Med1.Put;
    r := Blank(m);
    var frame := Med1.Decode(m.payload, lim.maxPayload, lim.maxString);
    if frame.None? { return r.(status := Rejected); }
    var encoded := Med1.Encode(frame.value, lim.maxPayload, lim.maxString);
    if encoded.None? { return r; }
    return r.(status := Ok, result := encoded.value);
  }

  // ----- the whole of `handle_request` -----

  const GEOSPATIAL: Str := Ascii("geospatial.frame.v1")
  const MEDIA: Str := Ascii("media.stream.v1")
  const WASM_TASK: Str := Ascii("wasm.task.v1")
  const WASM_LIFECYCLE: Str := Ascii("wasm.lifecycle.v1")
  const WASM_PREPARE: Str := Ascii("wasm.lifecycle.prepare.v1")
  const WASM_DRAIN: Str := Ascii("wasm.lifecycle.drain.v1")
  const WASM_RELEASE: Str := Ascii("wasm.lifecycle.release.v1")
  const WASM_QUERY: Str := Ascii("wasm.lifecycle.query.v1")

  predicate IsWasm(kind: Str) {
    || kind == WASM_TASK || kind == WASM_LIFECYCLE || kind == WASM_PREPARE
    || kind == WASM_DRAIN || kind == WASM_RELEASE || kind == WASM_QUERY
  }

  /** The kinds that go to the WASM handlers. */
  lemma WasmKinds(kind: Str)
    ensures IsWasm(kind) <==>
            || kind == Ascii("wasm.task.v1")
            || kind == Ascii("wasm.lifecycle.v1")
            || kind == Ascii("wasm.lifecycle.prepare.v1")
            || kind == Ascii("wasm.lifecycle.drain.v1")
            || kind == Ascii("wasm.lifecycle.release.v1")
            || kind == Ascii("wasm.lifecycle.query.v1")
  {
    hide Ascii;
  }

  /** `handle_request`: validation, dispatch on the kind, and the deadline over every path. */
  method HandleRequest(m: Request, policy: Policy, w: World, lim: Limits, elapsed: u64) returns (r: Response)
    ensures r.taskId == m.taskId
    ensures !Valid(m, lim) ==> r.status == Rejected && r.result == []
    // On every path a late answer is a timeout that carries nothing.
    ensures Valid(m, lim) && elapsed >= m.timeoutMs ==> 
              r.status == Timeout && r.result == [] && r.error == Ascii("request timed out")
    // A timely frame is echoed byte for byte; what is not a frame is rejected.
    ensures Valid(m, lim) && elapsed < m.timeoutMs && m.kind == Ascii("geospatial.frame.v1") ==>
              var framed := exists f :: Nxr1.Fits(f, lim.maxPayload) && m.payload == Nxr1.Put(f, []);
              r.status == (if framed then Ok else Rejected) && r.result == (if framed then m.payload else [])
    ensures Valid(m, lim) && elapsed < m.timeoutMs && m.kind == Ascii("media.stream.v1") ==>
              var framed := exists f :: Med1.Fits(f, lim.maxPayload, lim.maxString) && m.payload == Med1.Put(f, []);
              r.status == (if framed then Ok else Rejected) && r.result == (if framed then m.payload else [])
    // A timely WASM request gets its handler's answer.
    ensures Valid(m, lim) && elapsed < m.timeoutMs && IsWasm(m.kind) ==>
              var a := w.wasm(m);
              r == Response(m.taskId, a.status, a.gpu, elapsed, a.result, a.error, Cpu, false)
    ensures m.kind != Ascii("geospatial.frame.v1") && m.kind != Ascii("media.stream.v1") && !IsWasm(m.kind) ==>
              ComputeSpec(m, policy, w, lim, elapsed, r)
    // Only a WASM handler can report a timeout of its own, and only it attaches a result to a failure.
    ensures !IsWasm(m.kind) ==> (r.status != Ok ==> r.result == [])
    ensures Valid(m, lim) && !IsWasm(m.kind) ==> (r.status == Timeout <==> elapsed >= m.timeoutMs)
  {
    KindsDiffer();
    hide Ascii;
    RejectedSpec(m, policy, w, lim, elapsed);
    hide Nxr1.Fits, Nxr1.Put, Med1.Fits, Med1.Put, Output, AcceleratorFailed, Selected, FallbackSafe, IsWasm;
    if !Valid(m, lim) { return Blank(m).(status := Rejected); }
    if m.kind == GEOSPATIAL {
      r := HandleGeospatial(m, lim);
      return Finish(r, elapsed, m.timeoutMs);
    }
    if m.kind == MEDIA {
      r := HandleMedia(m, lim);
      return Finish(r, elapsed, m.timeoutMs);
    }
    if IsWasm(m.kind) { return Finish(FromWasm(m, w.wasm(m)), elapsed, m.timeoutMs); }
    r := HandleCompute(m, policy, w, lim, elapsed);
  }

  lemma KindsDiffer()
    ensures GEOSPATIAL != MEDIA && !IsWasm(GEOSPATIAL) && !IsWasm(MEDIA)
  {
  }

  lemma RejectedSpec(m: Request, policy: Policy, w: World, lim: Limits, elapsed: u64)
    ensures !Valid(m, lim) ==> ComputeSpec(m, policy, w, lim, elapsed, Blank(m).(status := Rejected))
  {
  }
}
