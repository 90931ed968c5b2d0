/**
  * `handle_wasm_lifecycle_request`: decode, act, encode the answer. The manager acts before the
  * answer is encoded, so an answer that does not fit loses a change that has been made. When
  * that happens is stated exactly.
  */
module WasmLifecycle {
  import opened Bytes
  import opened Wire
  import opened Broker
  import opened Names
  import opened HotswapManager
  import opened Wsm1Codec
  import Wsm1
  import Hotswap
  import Dispatch

  const MAX_BUFFERS: nat := 64

  function WasmLimits(lim: Limits): Wsm1.Limits {
    Wsm1.Limits(lim.maxString, lim.maxPayload, MAX_BUFFERS, lim.maxFrame)
  }

  function ModOf(q: Wsm1.LifecycleRequest): Mod { Mod(q.sandboxId, q.moduleId, q.version) }

  /** Four of the five lifecycle kinds override the action byte of the message. */
  function Action(kind: Str, q: Wsm1.LifecycleRequest): byte {
    if kind == Dispatch.WASM_PREPARE then PREPARE
    else if kind == Dispatch.WASM_DRAIN then DRAIN
    else if kind == Dispatch.WASM_RELEASE then RELEASE
    else if kind == Dispatch.WASM_QUERY then QUERY
    else q.action
  }

  function StatusByte(s: Hotswap.Status): byte {
    match s case Ok => 0 case Rejected => 1 case Failed => 2 case Busy => 3 case NotFound => 4
  }

  function StateByte(s: Hotswap.ModuleState): byte {
    match s case Unknown => 0 case Prepared => 1 case Active => 2 case Draining => 3 case Stopped => 4 case Released => 5
  }

  /** How the broker reports a lifecycle status. */
  function Outer(s: Hotswap.Status): TaskStatus {
    match s case Ok => Ok case Failed => Error case _ => Rejected
  }

  /** The message a reply becomes; `text` gives the error text of replies that are not Ok. */
  function Message(q: Wsm1.LifecycleRequest, action: byte, r: Hotswap.Reply, text: Str): Wsm1.LifecycleResponse {
    Wsm1.LifecycleResponse(action, StatusByte(r.status), Wsm1.VERSION, StateByte(r.state),
      q.requestId, q.sandboxId, q.moduleId, q.version, r.gpu, r.active, r.lease, if r.status.Ok? then [] else text)
  }

  predicate Encodable(x: Wsm1.LifecycleResponse, lim: Wsm1.Limits) {
    Wsm1.FitsLifecycleResponse(x, lim) && |Wsm1.PutLifecycleResponse(x, [])| <= lim.maxFrame
  }

  /** The step a request takes, by its kind; only the general kind looks at the action byte. */
  ghost predicate TakesStep(kind: Str, q: Wsm1.LifecycleRequest, gpu: i32,
                            g: Hotswap.Manager, g': Hotswap.Manager, r: Hotswap.Reply) {
    var m := Mod(q.sandboxId, q.moduleId, q.version);
    && (kind == Ascii("wasm.lifecycle.prepare.v1") ==> (g', r) == Hotswap.Prepare(g, m, gpu))
    && (kind == Ascii("wasm.lifecycle.drain.v1") ==> (g', r) == Hotswap.Drain(g, m))
    && (kind == Ascii("wasm.lifecycle.release.v1") ==> (g', r) == Hotswap.Release(g, m))
    && (kind == Ascii("wasm.lifecycle.query.v1") ==> (g', r) == (g, Hotswap.Query(g, m)))
    && (kind == Ascii("wasm.lifecycle.v1") ==>
          && (q.action == 1 ==> (g', r) == Hotswap.Prepare(g, m, gpu))
          && (q.action == 2 ==> (g', r) == Hotswap.Drain(g, m))
          && (q.action == 3 ==> (g', r) == Hotswap.Release(g, m))
          && (q.action == 4 ==> (g', r) == (g, Hotswap.Query(g, m)))
          && (q.action == 0 || q.action > 4 ==> (g', r) == (g, Hotswap.Reply(Hotswap.Failed, Hotswap.Unknown, -1, 0, []))))
  }

  /** The message `x` tells the client of request `q` what the manager replied. */
  predicate Tells(x: Wsm1.LifecycleResponse, kind: Str, q: Wsm1.LifecycleRequest, r: Hotswap.Reply, text: Str) {
    && x.requestId == q.requestId && x.sandboxId == q.sandboxId && x.moduleId == q.moduleId && x.version == q.version
    && x.protocol == 1 && x.gpu == r.gpu && x.active == r.active && x.lease == r.lease
    && x.error == (if r.status.Ok? then [] else text)
    && x.status == (match r.status case Ok => 0 case Rejected => 1 case Failed => 2 case Busy => 3 case NotFound => 4)
    && x.state == (match r.state
                   case Unknown => 0 case Prepared => 1 case Active => 2
                   case Draining => 3 case Stopped => 4 case Released => 5)
    && (kind == Ascii("wasm.lifecycle.prepare.v1") ==> x.action == 1)
    && (kind == Ascii("wasm.lifecycle.drain.v1") ==> x.action == 2)
    && (kind == Ascii("wasm.lifecycle.release.v1") ==> x.action == 3)
    && (kind == Ascii("wasm.lifecycle.query.v1") ==> x.action == 4)
    && (kind == Ascii("wasm.lifecycle.v1") ==> x.action == q.action)
  }

  /** The answer `a` to a lifecycle request whose step replied `r`: an empty Error exactly if a string
      or the frame is too long, and otherwise the manager's verdict around a message that tells it. */
  ghost predicate Answers(a: Dispatch.WasmAnswer, kind: Str, q: Wsm1.LifecycleRequest, r: Hotswap.Reply, text: Str,
                          lim: Limits) {
    var error := if r.status.Ok? then [] else text;
    var long := || |r.lease| > lim.maxString || |r.lease| > 65535 || |error| > lim.maxString || |error| > 65535
                || 32 + |q.requestId| + |q.sandboxId| + |q.moduleId| + |q.version| + |r.lease| + |error| > lim.maxFrame;
    && (long ==> a.status == Error && a.result == [] && a.gpu == -1)
    && (!long ==>
          && a.status == (match r.status
                          case Ok => TaskStatus.Ok case Failed => Error
                          case Rejected => TaskStatus.Rejected case Busy => TaskStatus.Rejected
                          case NotFound => TaskStatus.Rejected)
          && a.gpu == r.gpu && a.error == error
          && exists x :: Tells(x, kind, q, r, text)
                         && IsLifecycleResponse(a.result, Wsm1.Limits(lim.maxString, lim.maxPayload, 64, lim.maxFrame), x))
  }

  lemma KindsDiffer()
    ensures Dispatch.WASM_PREPARE != Dispatch.WASM_DRAIN && Dispatch.WASM_PREPARE != Dispatch.WASM_RELEASE
    ensures Dispatch.WASM_PREPARE != Dispatch.WASM_QUERY && Dispatch.WASM_PREPARE != Dispatch.WASM_LIFECYCLE
    ensures Dispatch.WASM_DRAIN != Dispatch.WASM_RELEASE && Dispatch.WASM_DRAIN != Dispatch.WASM_QUERY
    ensures Dispatch.WASM_DRAIN != Dispatch.WASM_LIFECYCLE && Dispatch.WASM_RELEASE != Dispatch.WASM_QUERY
    ensures Dispatch.WASM_RELEASE != Dispatch.WASM_LIFECYCLE && Dispatch.WASM_QUERY != Dispatch.WASM_LIFECYCLE
  {
    assert Dispatch.WASM_PREPARE[15] == 112 && Dispatch.WASM_RELEASE[15] == 114;
    assert Dispatch.WASM_DRAIN[15] == 100 && Dispatch.WASM_QUERY[15] == 113;
  }

  lemma StepTaken(kind: Str, q: Wsm1.LifecycleRequest, gpu: i32, g: Hotswap.Manager)
    ensures TakesStep(kind, q, gpu, g, Lifecycle(g, Action(kind, q), ModOf(q), gpu).0,
                      Lifecycle(g, Action(kind, q), ModOf(q), gpu).1)
  {
    KindsDiffer();
    hide Ascii, Hotswap.Prepare, Hotswap.Drain, Hotswap.Release, Hotswap.Query;
  }

  lemma MessageTells(kind: Str, q: Wsm1.LifecycleRequest, r: Hotswap.Reply, text: Str)
    ensures Tells(Message(q, Action(kind, q), r, text), kind, q, r, text)
  {
    KindsDiffer();
    hide Ascii;
  }

  /** `handle_wasm_lifecycle_request`; `selected` is what the GPU selector would answer, `text` the
      error text of a refusal. */
  method HandleLifecycle(mgr: WasmSandboxManager, m: Request, lim: Limits, selected: i32, text: Hotswap.Reply -> Str)
    returns (a: Dispatch.WasmAnswer)
    modifies mgr
    ensures mgr.forceCpu == old(mgr.forceCpu) && mgr.hasSelector == old(mgr.hasSelector)
    // What is not a lifecycle request is rejected and changes nothing.
    ensures (forall q :: !IsLifecycleRequest(m.payload, Wsm1.Limits(lim.maxString, lim.maxPayload, 64, lim.maxFrame), q)) ==>
              a.status == TaskStatus.Rejected && a.result == [] && a.gpu == -1 && mgr.State() == old(mgr.State())
    // Otherwise the manager takes the step of the kind, whatever becomes of the answer.
    ensures forall q :: IsLifecycleRequest(m.payload, Wsm1.Limits(lim.maxString, lim.maxPayload, 64, lim.maxFrame), q) ==>
              exists r ::
                && TakesStep(m.kind, q, AssignGpu(q.targetGpu, old(mgr.forceCpu), old(mgr.hasSelector), selected),
                             old(mgr.State()), mgr.State(), r)
                && Answers(a, m.kind, q, r, text(r), lim)
  {
    var l := WasmLimits(lim);
    assert l == Wsm1.Limits(lim.maxString, lim.maxPayload, 64, lim.maxFrame);
    hide Wsm1.FitsLifecycleRequest, Wsm1.PutLifecycleRequest, Wsm1.FitsLifecycleResponse, Wsm1.PutLifecycleResponse;
    hide Lifecycle, AssignGpu, TakesStep, Answers, Message, Outer, Tells;
    var decoded := DecodeLifecycleRequest(m.payload, l);
    if decoded.None? { return Dispatch.WasmAnswer(TaskStatus.Rejected, -1, [], []); }
    var q := decoded.value;
    var act := Action(m.kind, q);
    ghost var g := mgr.State();
    var r := mgr.HandleLifecycle(act, ModOf(q), q.targetGpu, selected);
    StepTaken(m.kind, q, AssignGpu(q.targetGpu, old(mgr.forceCpu), old(mgr.hasSelector), selected), g);
    var x := Message(q, act, r, text(r));
    var encoded := EncodeLifecycleResponse(x, l);
    a := if encoded.None? then Dispatch.WasmAnswer(Error, -1, [], [])
         else Dispatch.WasmAnswer(Outer(r.status), r.gpu, encoded.value, x.error);
    AnswerGiven(m, q, r, text(r), lim, a);
  }

  lemma AnswerGiven(m: Request, q: Wsm1.LifecycleRequest, r: Hotswap.Reply, text: Str, lim: Limits, a: Dispatch.WasmAnswer)
    requires IsLifecycleRequest(m.payload, WasmLimits(lim), q)
    requires var x := Message(q, Action(m.kind, q), r, text);
             if Encodable(x, WasmLimits(lim))
             then IsLifecycleResponse(a.result, WasmLimits(lim), x)
                  && a == Dispatch.WasmAnswer(Outer(r.status), r.gpu, a.result, x.error)
             else a == Dispatch.WasmAnswer(Error, -1, [], [])
    ensures Answers(a, m.kind, q, r, text, lim)
  {
    var x := Message(q, Action(m.kind, q), r, text);
    MessageSize(x);
    MessageTells(m.kind, q, r, text);
    hide Wsm1.PutLifecycleResponse, Wsm1.PutLifecycleRequest, Tells, Action;
  }

  // ----- when a change is made but not reported -----

  lemma MessageSize(x: Wsm1.LifecycleResponse)
    ensures |Wsm1.PutLifecycleResponse(x, [])| ==
            32 + |x.requestId| + |x.sandboxId| + |x.moduleId| + |x.version| + |x.lease| + |x.error|
  {
    hide Be;
  }

  lemma LeaseSize(m: Mod, n: nat)
    ensures |Lease(m, n)| == 9 + |m.sandboxId| + |m.moduleId| + |m.version| + |Decimal(n)|
  {
  }

  /** The lease fits a string, and the answer around it fits a frame. */
  predicate AnswerFits(q: Wsm1.LifecycleRequest, lease: Str, lim: Limits) {
    && FitsStr(lease, lim.maxString)
    && 32 + |q.requestId| + |q.sandboxId| + |q.moduleId| + |q.version| + |lease| <= lim.maxFrame
  }

  /** For a decoded request, an Ok reply is lost if and only if its lease does not fit. */
  lemma OkReplyFits(q: Wsm1.LifecycleRequest, act: byte, r: Hotswap.Reply, text: Str, lim: Limits)
    requires Wsm1.FitsLifecycleRequest(q, WasmLimits(lim)) && r.status.Ok?
    ensures Encodable(Message(q, act, r, text), WasmLimits(lim)) <==> AnswerFits(q, r.lease, lim)
  {
    hide Wsm1.PutLifecycleResponse;
    MessageSize(Message(q, act, r, text));
  }

  /** Which actions change the manager, by what is registered. */
  predicate Changes(g: Hotswap.Manager, act: byte, m: Mod) {
    var key := MakeKey(m);
    || (act == PREPARE && key !in g.modules)
    || (act == DRAIN && key in g.modules && g.modules[key].state in {Hotswap.Prepared, Hotswap.Active})
    || (act == RELEASE && key in g.modules && g.modules[key].active == 0)
  }

  /** The lease of a registered module, or the one it would get. */
  function LeaseAt(g: Hotswap.Manager, m: Mod): Str {
    if MakeKey(m) in g.modules then g.modules[MakeKey(m)].lease else Lease(m, g.nextLease)
  }

  lemma ChangesIff(s: Hotswap.System, act: byte, m: Mod, gpu: i32)
    requires Hotswap.Inv(s) && Named(m)
    ensures var (g, r) := Lifecycle(s.mgr, act, m, gpu);
            && (g != s.mgr <==> Changes(s.mgr, act, m))
            && (g != s.mgr ==> r.status.Ok? && r.lease == LeaseAt(s.mgr, m))
  {
    hide Lease, MakeKey, Hotswap.TasksOf, Hotswap.Roomy;
    var key := MakeKey(m);
    if key in s.mgr.modules {
      assert Hotswap.RecordOk(s, key);
      if s.mgr.modules[key].state in {Hotswap.Draining, Hotswap.Stopped} {
        assert s.mgr.modules[key := s.mgr.modules[key]] == s.mgr.modules;
      }
    }
  }

  /** In every reachable state, a request that decodes has its change made and its client told only
      Error if and only if the action changes the manager and the module's lease, or the answer
      around it, does not fit: the registration, drain or release is then done all the same. */
  lemma LostChangeIff(s: Hotswap.System, q: Wsm1.LifecycleRequest, act: byte, gpu: i32, text: Str, lim: Limits)
    requires Hotswap.Inv(s) && Wsm1.FitsLifecycleRequest(q, WasmLimits(lim))
    ensures var (g, r) := Lifecycle(s.mgr, act, ModOf(q), gpu);
            g != s.mgr && !Encodable(Message(q, act, r, text), WasmLimits(lim)) <==>
            Changes(s.mgr, act, ModOf(q)) && !AnswerFits(q, LeaseAt(s.mgr, ModOf(q)), lim)
  {
    hide Lifecycle, Encodable, AnswerFits, Changes, LeaseAt, Hotswap.Inv;
    ChangesIff(s, act, ModOf(q), gpu);
    var (g, r) := Lifecycle(s.mgr, act, ModOf(q), gpu);
    if g != s.mgr { OkReplyFits(q, act, r, text, lim); }
  }

  /** Requests the decoder accepts can lose their registration under every limit: it suffices that the
      three ids together come within nine bytes of the string limit. */
  lemma LongIdsAreLost(s: Hotswap.System, q: Wsm1.LifecycleRequest, gpu: i32, text: Str, lim: Limits)
    requires Hotswap.Inv(s) && Wsm1.FitsLifecycleRequest(q, WasmLimits(lim)) && MakeKey(ModOf(q)) !in s.mgr.modules
    requires |q.sandboxId| + |q.moduleId| + |q.version| + 9 >= lim.maxString
    ensures var (g, r) := Lifecycle(s.mgr, PREPARE, ModOf(q), gpu);
            && MakeKey(ModOf(q)) in g.modules
            && !Encodable(Message(q, PREPARE, r, text), WasmLimits(lim))
  {
    hide Encodable, Hotswap.Inv;
    LeaseSize(ModOf(q), s.mgr.nextLease);
    LostChangeIff(s, q, PREPARE, gpu, text, lim);
    hide Lease, MakeKey;
  }
}
