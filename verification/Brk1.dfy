/**
  * BRK1: the fixed-layout request and response frames. `PutRequest` and `PutResponse` are the
  * layouts; the decoders accept exactly the frames the layouts produce.
  */
module Brk1 {
  import opened Bytes
  import opened Wire
  import opened Broker

  const MAGIC: nat := 0x42524B31
  const VERSION: nat := 1
  const REQUEST: byte := 1
  const RESPONSE: byte := 2

  // ----- header -----

  function PutHeader(kind: byte, k: Str): Str {
    PutUint(MAGIC, 4, PutUint(VERSION, 2, PutUint(kind, 1, PutUint(0, 1, k))))
  }

  function GetHeader(s: Str, kind: byte): (r: Parsed<()>)
    ensures r.Got? ==> s == PutHeader(kind, r.rest) && |s| == 8 + |r.rest|
  {
    var (magic, s1) :- GetUint(s, 4);
    var (version, s2) :- GetUint(s1, 2);
    var (k, s3) :- GetUint(s2, 1);
    var (reserved, s4) :- GetUint(s3, 1);
    if magic != MAGIC || version != VERSION || k != kind || reserved != 0 then Fail else Got((), s4)
  }

  lemma GetPutHeader(kind: byte, k: Str)
    ensures GetHeader(PutHeader(kind, k), kind) == Got((), k)
  {
    hide GetUint, PutUint;
    var s2 := PutUint(0, 1, k);
    var s1 := PutUint(kind, 1, s2);
    GetPutUint(MAGIC, 4, PutUint(VERSION, 2, s1));
    GetPutUint(VERSION, 2, s1);
    GetPutUint(kind, 1, s2);
    GetPutUint(0, 1, k);
  }

  // ----- request -----

  function PutRequest(m: Request, k: Str): Str {
    PutHeader(REQUEST,
      PutSized(m.taskId, 2, PutSized(m.source, 2, PutSized(m.destination, 2, PutSized(m.kind, 2,
      PutUint(m.priority, 1, PutUint(m.timeoutMs, 4, PutSized(m.payload, 4, k))))))))
  }

  predicate FitsRequest(m: Request, lim: Limits) {
    && Valid(m, lim) && m.profile == None && m.preference == []
    && FitsStr(m.taskId, lim.maxString) && FitsStr(m.source, lim.maxString) && FitsStr(m.destination, lim.maxString)
    && FitsStr(m.kind, lim.maxString) && FitsBlob(m.payload, lim.maxPayload)
  }

  function GetRequest(s: Str, lim: Limits): Parsed<Request> {
    hide GetUint, GetSized, GetHeader;
    var (_, s0) :- GetHeader(s, REQUEST);
    var (taskId, s1) :- GetSized(s0, 2, lim.maxString);
    var (source, s2) :- GetSized(s1, 2, lim.maxString);
    var (destination, s3) :- GetSized(s2, 2, lim.maxString);
    var (kind, s4) :- GetSized(s3, 2, lim.maxString);
    var (priority, s5) :- GetUint(s4, 1);
    var (timeoutMs, s6) :- GetUint(s5, 4);
    var (payload, s7) :- GetSized(s6, 4, lim.maxPayload);
    var m := Request(taskId, source, destination, kind, priority, timeoutMs, payload, None, []);
    if Valid(m, lim) then Got(m, s7) else Fail
  }

  lemma RequestLaw(s: Str, lim: Limits, m: Request, k: Str)
    ensures GetRequest(s, lim) == Got(m, k) <==> FitsRequest(m, lim) && s == PutRequest(m, k)
  {
    hide GetUint, PutUint, GetSized, PutSized, GetHeader, PutHeader;
    if FitsRequest(m, lim) && s == PutRequest(m, k) {
      var s6 := PutSized(m.payload, 4, k);
      var s5 := PutUint(m.timeoutMs, 4, s6);
      var s4 := PutUint(m.priority, 1, s5);
      var s3 := PutSized(m.kind, 2, s4);
      var s2 := PutSized(m.destination, 2, s3);
      var s1 := PutSized(m.source, 2, s2);
      GetPutHeader(REQUEST, PutSized(m.taskId, 2, s1));
      GetPutSized(m.taskId, 2, lim.maxString, s1);
      GetPutSized(m.source, 2, lim.maxString, s2);
      GetPutSized(m.destination, 2, lim.maxString, s3);
      GetPutSized(m.kind, 2, lim.maxString, s4);
      GetPutUint(m.priority, 1, s5);
      GetPutUint(m.timeoutMs, 4, s6);
      GetPutSized(m.payload, 4, lim.maxPayload, k);
    }
  }

  // ----- response -----

  function PutResponse(m: Response, k: Str): Str {
    PutHeader(RESPONSE,
      PutSized(m.taskId, 2, PutUint(StatusCode(m.status), 1, PutUint(ToU32(m.gpu), 4,
      PutUint(m.latency, 8, PutSized(m.result, 4, PutSized(m.error, 2, k)))))))
  }

  predicate FitsResponse(m: Response, lim: Limits) {
    && m.backend == Cpu && !m.fellBack
    && FitsStr(m.taskId, lim.maxString) && FitsBlob(m.result, lim.maxPayload) && FitsStr(m.error, lim.maxString)
  }

  function GetResponse(s: Str, lim: Limits): Parsed<Response> {
    hide GetUint, GetSized, GetHeader;
    var (_, s0) :- GetHeader(s, RESPONSE);
    var (taskId, s1) :- GetSized(s0, 2, lim.maxString);
    var (status, s2) :- GetUint(s1, 1);
    var (gpu, s3) :- GetUint(s2, 4);
    var (latency, s4) :- GetUint(s3, 8);
    var (result, s5) :- GetSized(s4, 4, lim.maxPayload);
    var (error, s6) :- GetSized(s5, 2, lim.maxString);
    if status > StatusCode(Timeout) then Fail else
    Got(Response(taskId, StatusOf(status), ToI32(gpu), latency, result, error, Cpu, false), s6)
  }

  lemma ResponseLaw(s: Str, lim: Limits, m: Response, k: Str)
    ensures GetResponse(s, lim) == Got(m, k) <==> FitsResponse(m, lim) && s == PutResponse(m, k)
  {
    hide GetUint, PutUint, GetSized, PutSized, GetHeader, PutHeader;
    if FitsResponse(m, lim) && s == PutResponse(m, k) {
      var s5 := PutSized(m.error, 2, k);
      var s4 := PutSized(m.result, 4, s5);
      var s3 := PutUint(m.latency, 8, s4);
      var s2 := PutUint(ToU32(m.gpu), 4, s3);
      var s1 := PutUint(StatusCode(m.status), 1, s2);
      GetPutHeader(RESPONSE, PutSized(m.taskId, 2, s1));
      GetPutSized(m.taskId, 2, lim.maxString, s1);
      GetPutUint(StatusCode(m.status), 1, s2);
      GetPutUint(ToU32(m.gpu), 4, s3);
      GetPutUint(m.latency, 8, s4);
      GetPutSized(m.result, 4, lim.maxPayload, s5);
      GetPutSized(m.error, 2, lim.maxString, k);
    }
  }

  // ----- frames -----

  ghost predicate IsRequest(frame: Str, lim: Limits, m: Request) {
    FitsRequest(m, lim) && |frame| <= lim.maxFrame && frame == PutRequest(m, [])
  }

  ghost predicate IsResponse(frame: Str, lim: Limits, m: Response) {
    FitsResponse(m, lim) && |frame| <= lim.maxFrame && frame == PutResponse(m, [])
  }

  lemma RequestUnique(frame: Str, lim: Limits)
    ensures forall m :: IsRequest(frame, lim, m) <==>
              && |frame| <= lim.maxFrame && GetRequest(frame, lim).Got?
              && GetRequest(frame, lim).rest == [] && GetRequest(frame, lim).value == m
  {
    hide GetRequest, PutRequest, FitsRequest;
    var g := GetRequest(frame, lim);
    if g.Got? { RequestLaw(frame, lim, g.value, g.rest); }
    forall m | IsRequest(frame, lim, m) ensures g == Got(m, []) { RequestLaw(frame, lim, m, []); }
  }

  lemma ResponseUnique(frame: Str, lim: Limits)
    ensures forall m :: IsResponse(frame, lim, m) <==>
              && |frame| <= lim.maxFrame && GetResponse(frame, lim).Got?
              && GetResponse(frame, lim).rest == [] && GetResponse(frame, lim).value == m
  {
    hide GetResponse, PutResponse, FitsResponse;
    var g := GetResponse(frame, lim);
    if g.Got? { ResponseLaw(frame, lim, g.value, g.rest); }
    forall m | IsResponse(frame, lim, m) ensures g == Got(m, []) { ResponseLaw(frame, lim, m, []); }
  }

  /** What a BRK1 frame can carry of a request. */
  function Visible(m: Request): Request {
    m.(profile := None, preference := [])
  }

  /** What a BRK1 frame can carry of a response. */
  function VisibleResponse(m: Response): Response {
    m.(backend := Cpu, fellBack := false)
  }

  method WriteHeader(kind: byte) returns (r: Str)
    ensures forall k {:trigger PutHeader(kind, k)} :: r + k == PutHeader(kind, k)
  {
    hide PutUint;
    r := WriteUint([], MAGIC, 4);
    r := WriteUint(r, VERSION, 2);
    r := WriteUint(r, kind, 1);
    r := WriteUint(r, 0, 1);
    forall k ensures r + k == PutHeader(kind, k) { assert [] + PutHeader(kind, k) == PutHeader(kind, k); }
  }

  method EncodeRequest(m: Request, lim: Limits) returns (r: Option<Str>)
    ensures r.Some? <==> FitsRequest(Visible(m), lim) && |PutRequest(m, [])| <= lim.maxFrame
    ensures r.Some? ==> r.value == PutRequest(m, []) && IsRequest(r.value, lim, Visible(m))
  {
    hide PutUint, PutSized, PutHeader;
    if !Valid(m, lim) { return None; }
    var frame := WriteHeader(REQUEST);
    var ok;
    ok, frame := AppendStr(frame, m.taskId, lim.maxString);
    if !ok { return None; }
    ok, frame := AppendStr(frame, m.source, lim.maxString);
    if !ok { return None; }
    ok, frame := AppendStr(frame, m.destination, lim.maxString);
    if !ok { return None; }
    ok, frame := AppendStr(frame, m.kind, lim.maxString);
    if !ok { return None; }
    frame := WriteUint(frame, m.priority, 1);
    frame := WriteUint(frame, m.timeoutMs, 4);
    ok, frame := AppendBlob(frame, m.payload, lim.maxPayload);
    if !ok { return None; }
    assert frame + [] == frame;
    if |frame| > lim.maxFrame { return None; }
    return Some(frame);
  }

  method EncodeResponse(m: Response, lim: Limits) returns (r: Option<Str>)
    ensures r == ResponseFrame(m, lim)
    ensures r.Some? ==> IsResponse(r.value, lim, VisibleResponse(m))
  {
    hide PutUint, PutSized, PutHeader;
    var frame := WriteHeader(RESPONSE);
    var ok;
    ok, frame := AppendStr(frame, m.taskId, lim.maxString);
    if !ok { return None; }
    frame := WriteUint(frame, StatusCode(m.status), 1);
    frame := WriteUint(frame, ToU32(m.gpu), 4);
    frame := WriteUint(frame, m.latency, 8);
    ok, frame := AppendBlob(frame, m.result, lim.maxPayload);
    if !ok { return None; }
    ok, frame := AppendStr(frame, m.error, lim.maxString);
    if !ok { return None; }
    assert frame + [] == frame;
    if |frame| > lim.maxFrame { return None; }
    return Some(frame);
  }

  /** The frame of a response, or `None` where the encoder throws. */
  function ResponseFrame(m: Response, lim: Limits): Option<Str> {
    if FitsResponse(VisibleResponse(m), lim) && |PutResponse(m, [])| <= lim.maxFrame
    then Some(PutResponse(m, [])) else None
  }

  method ReadHeader(frame: Str, kind: byte) returns (ok: bool, off: nat)
    ensures ok <==> GetHeader(frame, kind).Got?
    ensures ok ==> off <= |frame| && GetHeader(frame, kind) == Got((), frame[off..])
  {
    hide GetUint, PutUint;
    off := 8;
    if !Take(8, |frame|, 0) { return false, off; }
    assert frame[0..] == frame;
    var ok0, magic, o0 := ReadUint(frame, 0, 4);
    if !ok0 { return false, off; }
    var ok1, version, o1 := ReadUint(frame, o0, 2);
    if !ok1 { return false, off; }
    var ok2, raw, o2 := ReadUint(frame, o1, 1);
    if !ok2 { return false, off; }
    var ok3, reserved, o3 := ReadUint(frame, o2, 1);
    if !ok3 { return false, off; }
    if magic != MAGIC { return false, off; }
    if version != VERSION { return false, off; }
    if raw != kind { return false, off; }
    if reserved != 0 { return false, off; }
    return true, o3;
  }

  method DecodeRequest(frame: Str, lim: Limits) returns (r: Option<Request>)
    ensures forall m :: r == Some(m) <==> IsRequest(frame, lim, m)
  {
    hide GetUint, PutUint, GetSized, PutSized, GetHeader, PutHeader;
    r := None;
    RequestUnique(frame, lim);
    if frame == [] || |frame| > lim.maxFrame { return; }
    var ok, off := ReadHeader(frame, REQUEST);
    if !ok { return; }
    var taskId, source, destination, kind, priority, timeoutMs, payload;
    ok, taskId, off := ReadSized(frame, off, 2, lim.maxString);
    if !ok { return; }
    ok, source, off := ReadSized(frame, off, 2, lim.maxString);
    if !ok { return; }
    ok, destination, off := ReadSized(frame, off, 2, lim.maxString);
    if !ok { return; }
    ok, kind, off := ReadSized(frame, off, 2, lim.maxString);
    if !ok { return; }
    ok, priority, off := ReadUint(frame, off, 1);
    if !ok { return; }
    ok, timeoutMs, off := ReadUint(frame, off, 4);
    if !ok { return; }
    ok, payload, off := ReadSized(frame, off, 4, lim.maxPayload);
    if !ok { return; }
    if off != |frame| { return; }
    var m := Request(taskId, source, destination, kind, priority, timeoutMs, payload, None, []);
    if !Valid(m, lim) { return; }
    r := Some(m);
  }

  method DecodeResponse(frame: Str, lim: Limits) returns (r: Option<Response>)
    ensures forall m :: r == Some(m) <==> IsResponse(frame, lim, m)
  {
    hide GetUint, PutUint, GetSized, PutSized, GetHeader, PutHeader;
    r := None;
    ResponseUnique(frame, lim);
    if frame == [] || |frame| > lim.maxFrame { return; }
    var ok, off := ReadHeader(frame, RESPONSE);
    if !ok { return; }
    var taskId, status, gpu, latency, result, error;
    ok, taskId, off := ReadSized(frame, off, 2, lim.maxString);
    if !ok { return; }
    ok, status, off := ReadUint(frame, off, 1);
    if !ok { return; }
    if status > StatusCode(Timeout) { return; }
    ok, gpu, off := ReadUint(frame, off, 4);
    if !ok { return; }
    ok, latency, off := ReadUint(frame, off, 8);
    if !ok { return; }
    ok, result, off := ReadSized(frame, off, 4, lim.maxPayload);
    if !ok { return; }
    ok, error, off := ReadSized(frame, off, 2, lim.maxString);
    if !ok { return; }
    if off != |frame| { return; }
    r := Some(Response(taskId, StatusOf(status), ToI32(gpu), latency, result, error, Cpu, false));
  }

  // ----- no accepted frame is a proper prefix of another -----

  lemma PutRequestAppend(m: Request, k: Str, t: Str)
    ensures PutRequest(m, k) + t == PutRequest(m, k + t)
  {
    hide PutUint, PutSized;
    var s6 := PutSized(m.payload, 4, k);
    var s5 := PutUint(m.timeoutMs, 4, s6);
    var s4 := PutUint(m.priority, 1, s5);
    var s3 := PutSized(m.kind, 2, s4);
    var s2 := PutSized(m.destination, 2, s3);
    var s1 := PutSized(m.source, 2, s2);
    var s0 := PutSized(m.taskId, 2, s1);
    PutHeaderAppend(REQUEST, s0, t);
    PutSizedAppend(m.taskId, 2, s1, t);
    PutSizedAppend(m.source, 2, s2, t);
    PutSizedAppend(m.destination, 2, s3, t);
    PutSizedAppend(m.kind, 2, s4, t);
    PutUintAppend(m.priority, 1, s5, t);
    PutUintAppend(m.timeoutMs, 4, s6, t);
    PutSizedAppend(m.payload, 4, k, t);
  }

  lemma PutResponseAppend(m: Response, k: Str, t: Str)
    ensures PutResponse(m, k) + t == PutResponse(m, k + t)
  {
    hide PutUint, PutSized;
    var s5 := PutSized(m.error, 2, k);
    var s4 := PutSized(m.result, 4, s5);
    var s3 := PutUint(m.latency, 8, s4);
    var s2 := PutUint(ToU32(m.gpu), 4, s3);
    var s1 := PutUint(StatusCode(m.status), 1, s2);
    PutHeaderAppend(RESPONSE, PutSized(m.taskId, 2, s1), t);
    PutSizedAppend(m.taskId, 2, s1, t);
    PutUintAppend(StatusCode(m.status), 1, s2, t);
    PutUintAppend(ToU32(m.gpu), 4, s3, t);
    PutUintAppend(m.latency, 8, s4, t);
    PutSizedAppend(m.result, 4, s5, t);
    PutSizedAppend(m.error, 2, k, t);
  }

  lemma PutHeaderAppend(kind: byte, k: Str, t: Str)
    ensures PutHeader(kind, k) + t == PutHeader(kind, k + t)
  {
    hide PutUint;
    var s2 := PutUint(0, 1, k);
    var s1 := PutUint(kind, 1, s2);
    PutUintAppend(MAGIC, 4, PutUint(VERSION, 2, s1), t);
    PutUintAppend(VERSION, 2, s1, t);
    PutUintAppend(kind, 1, s2, t);
    PutUintAppend(0, 1, k, t);
  }

  /** Under any two limit configurations, an accepted request is never a proper prefix of another. */
  lemma RequestPrefixFree(f: Str, fl: Limits, m: Request, g: Str, gl: Limits, n: Request)
    requires IsRequest(f, fl, m) && IsRequest(g, gl, n) && f <= g
    ensures f == g && m == n
  {
    hide GetRequest, PutRequest;
    var t := g[|f|..];
    PutRequestAppend(m, [], t);
    assert g == f + t && [] + t == t;
    var both := Limits(0, fl.maxPayload + gl.maxPayload, fl.maxString + gl.maxString);
    RequestLaw(g, both, m, t);
    RequestLaw(g, both, n, []);
  }

  lemma ResponsePrefixFree(f: Str, fl: Limits, m: Response, g: Str, gl: Limits, n: Response)
    requires IsResponse(f, fl, m) && IsResponse(g, gl, n) && f <= g
    ensures f == g && m == n
  {
    hide GetResponse, PutResponse;
    var t := g[|f|..];
    PutResponseAppend(m, [], t);
    assert g == f + t && [] + t == t;
    var both := Limits(0, fl.maxPayload + gl.maxPayload, fl.maxString + gl.maxString);
    ResponseLaw(g, both, m, t);
    ResponseLaw(g, both, n, []);
  }
}
