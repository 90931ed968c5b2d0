/** The messages every broker front end exchanges, independent of their wire format. */
module Broker {
  import opened Bytes

  const MAX_TIMEOUT_MS: nat := 300000

  datatype Limits = Limits(maxFrame: nat, maxPayload: nat, maxString: nat)

  datatype TaskStatus = Ok | Rejected | Error | Timeout

  function StatusCode(s: TaskStatus): byte {
    match s case Ok => 0 case Rejected => 1 case Error => 2 case Timeout => 3
  }

  function StatusOf(b: byte): TaskStatus {
    if b == 0 then Ok else if b == 1 then Rejected else if b == 2 then Error else Timeout
  }

  const CPU: Str := Ascii("cpu")
  const GPU: Str := Ascii("gpu")
  const NPU: Str := Ascii("npu")

  datatype Backend = Cpu | Gpu | Npu

  datatype Profile = Profile(
    exact: bool, verification: bool, cryptographic: bool, verified: bool,
    inference: bool, dataParallel: bool, bytes: nat, flops: u64, fallbackSafe: bool)

  datatype Request = Request(
    taskId: Str, source: Str, destination: Str, kind: Str, priority: byte, timeoutMs: u32,
    payload: Str, profile: Option<Profile>, preference: Str)

  datatype Response = Response(
    taskId: Str, status: TaskStatus, gpu: i32, latency: u64, result: Str, error: Str,
    backend: Backend, fellBack: bool)

  /** `validate_request`. */
  predicate Valid(m: Request, lim: Limits) {
    && m.taskId != []
    && m.source != [] && m.destination != [] && m.kind != []
    && 0 < m.timeoutMs <= MAX_TIMEOUT_MS
    && |m.payload| <= lim.maxPayload
  }

  /** The requests that are refused before anything is done. */
  lemma InvalidMeans(m: Request, lim: Limits)
    ensures !Valid(m, lim) <==>
            || |m.taskId| == 0 || |m.source| == 0 || |m.destination| == 0 || |m.kind| == 0
            || m.timeoutMs == 0 || m.timeoutMs > 300_000 || |m.payload| > lim.maxPayload
  {
  }
}
