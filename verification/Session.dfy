/**
  * One broker session as a transition system: a reader, bounded response threads, and a socket
  * they share under a write mutex. A frame goes out in two writes, its length and its body; both
  * happen under the mutex, and either may fail part-way.
  */
module Session {
  import opened Bytes
  import opened Broker
  import opened Framing
  import Brk1
  import Brk2
  import Brk2Response

  /** The protocol a request arrived in; its reply goes out in the same one. */
  datatype Proto = OverBrk1 | OverBrk2(rid: u64)

  /** A decoded request, as far as its reply depends on it. */
  datatype Job = Job(taskId: Str, proto: Proto)

  /** The encoded reply, or `None` where the encoder throws. */
  function Encoded(r: Response, p: Proto, lim: Limits): Option<Str> {
    match p
    case OverBrk1 => Brk1.ResponseFrame(r, lim)
    case OverBrk2(rid) => Brk2Response.ResponseBody(r, rid, lim)
  }

  /** The frame `f` says `r` in protocol `p`: over BRK1 it is the frame of `r` less what BRK1 does not
      carry, over BRK2 it carries the request id and all of `r` but the fallback flag. */
  ghost predicate SaysResponse(f: Str, r: Response, p: Proto, lim: Limits) {
    match p
    case OverBrk1 =>
      Brk1.IsResponse(f, lim, Response(r.taskId, r.status, r.gpu, r.latency, r.result, r.error, Cpu, false))
    case OverBrk2(rid) => Brk2Response.Sent(f, r, rid)
  }

  /** `r` is too large for a frame of protocol `p`. */
  predicate Oversized(r: Response, p: Proto, lim: Limits) {
    || |r.taskId| > lim.maxString || |r.error| > lim.maxString
    || match p {
         case OverBrk1 =>
           || |r.taskId| > 65535 || |r.error| > 65535 || |r.result| > lim.maxPayload || |r.result| > 0xFFFF_FFFF
           || 29 + |r.taskId| + |r.result| + |r.error| > lim.maxFrame
         case OverBrk2(_) =>
           || |r.taskId| > 0xFFFF_FFFF || |r.error| > 0xFFFF_FFFF || |r.result| > 0xFFFF_FFFF
           || 76 + |r.taskId| + |r.result| + |r.error| > lim.maxPayload
           || 108 + |r.taskId| + |r.result| + |r.error| > lim.maxFrame
       }
  }

  lemma Brk1Size(r: Response)
    ensures |Brk1.PutResponse(r, [])| == 29 + |r.taskId| + |r.result| + |r.error|
  {
    hide Be;
  }

  /** A response has an encoding exactly if it is not too large, and the encoding says it. */
  lemma EncodedMeans(r: Response, p: Proto, lim: Limits)
    ensures Encoded(r, p, lim) == None <==> Oversized(r, p, lim)
    ensures Encoded(r, p, lim).Some? ==> SaysResponse(Encoded(r, p, lim).value, r, p, lim)
  {
    Brk1Size(r);
    hide Brk1.PutResponse, Brk2Response.Sent, Brk2Response.Body;
    match p
    case OverBrk1 => SameFrame(r);
    case OverBrk2(rid) => if Brk2Response.FieldsFit(r) { Brk2Response.BodyReadsBack(r, rid); }
  }

  lemma SameFrame(r: Response)
    ensures Brk1.PutResponse(r, []) ==
            Brk1.PutResponse(Response(r.taskId, r.status, r.gpu, r.latency, r.result, r.error, Cpu, false), [])
  {
  }

  /** `frame` is correlated with `job`: a BRK2 frame carries its request id, a BRK1 frame its task id. */
  ghost predicate Correlated(frame: Str, job: Job, lim: Limits) {
    match job.proto
    case OverBrk1 => exists r :: Brk1.IsResponse(frame, lim, r) && r.taskId == job.taskId
    case OverBrk2(rid) => |frame| >= Brk2.HEADER_BYTES && Brk2.EnvelopeOf(frame).requestId == rid
  }

  lemma EncodedIsCorrelated(r: Response, job: Job, lim: Limits)
    requires Encoded(r, job.proto, lim).Some?
    requires job.proto.OverBrk1? ==> r.taskId == job.taskId
    ensures Correlated(Encoded(r, job.proto, lim).value, job, lim)
    ensures |Encoded(r, job.proto, lim).value| <= lim.maxFrame
  {
    match job.proto
    case OverBrk1 =>
      assert Brk1.IsResponse(Brk1.PutResponse(r, []), lim, Brk1.VisibleResponse(r));
    case OverBrk2(rid) =>
      Brk2Response.BodyReadsBack(r, rid);
  }

  /** A response thread. */
  datatype Thread =
    | Computing
    | Ready(frame: Str)       // encoded, waiting for the write mutex
    | Holding(frame: Str)     // owns the mutex, nothing written yet
    | HalfSent(frame: Str)    // owns the mutex, length written
    | Finished

  /** The reader thread. `idx` is the request it answers itself, if any. */
  datatype Reader =
    | Reading
    | Replying(frame: Str, idx: Option<nat>, last: bool)
    | RHolding(frame: Str, idx: Option<nat>, last: bool)
    | RHalfSent(frame: Str, idx: Option<nat>, last: bool)
    | Ending                  // its last reply is out, writes are still enabled
    | Joining                 // writes disabled, socket shut down
    | Closed

  datatype Owner = TheReader | TheThread(t: nat)

  datatype Entry = Entry(idx: Option<nat>, frame: Str)

  datatype Sess = Sess(
    max: nat, lim: Limits,
    jobs: seq<Job>,                     // decoded requests, in arrival order
    threads: map<nat, Thread>,          // by request index
    pending: set<nat>,                  // the deque of response threads not yet reaped
    reader: Reader,
    lock: Option<Owner>,                // write_mutex
    enabled: bool,                      // writes_enabled
    out: Str,                           // every byte handed to the socket
    sent: seq<Entry>,                   // frames completely written
    cut: bool)                          // some frame was cut short by a failing write

  datatype Step =
    | Receive(job: Job, busy: Response) // a decoded request; `busy` is the rejection if over the cap
    | StartFails(job: Job)              // a decoded request whose response thread cannot be started
    | Refuse(proto: Proto, err: Response, last: bool) // an undecodable or oversized frame
    | Respond(t: nat, r: Option<Response>)            // `handle_request` returned, or threw
    | Acquire(o: Owner)
    | WriteLen(o: Owner)
    | WriteBody(o: Owner)
    | WriteFails(o: Owner, delivered: Str)            // `delivered`: whatever else reached the socket; the
                                                      // reader tries the body even after a failed length
    | Reap(t: nat)
    | Stop                                            // end of input, shutdown, or an exception
    | Close

  predicate Has(s: Sess, t: nat) { t in s.threads }

  predicate Enabled(s: Sess, e: Step) {
    match e
    case Receive(job, busy) =>
      s.reader == Reading && (job.proto.OverBrk1? ==> busy.taskId == job.taskId)
    case StartFails(_) => s.reader == Reading && |s.pending| < s.max
    case Refuse(_, _, _) => s.reader == Reading
    case Respond(t, r) =>
      Has(s, t) && s.threads[t] == Computing && t < |s.jobs|
      && (r.Some? ==> r.value.taskId == s.jobs[t].taskId)
    case Acquire(o) =>
      s.lock == None && match o { case TheReader => s.reader.Replying? case TheThread(t) => Has(s, t) && s.threads[t].Ready? }
    case WriteLen(o) => Owns(s, o, false)
    case WriteBody(o) => Owns(s, o, true)
    case WriteFails(o, _) => Owns(s, o, false) || Owns(s, o, true)
    case Reap(t) => (s.reader == Reading || s.reader == Joining) && t in s.pending && Has(s, t) && s.threads[t] == Finished
    case Stop => s.reader == Reading || s.reader == Ending
    case Close => s.reader == Joining && s.pending == {}
  }

  /** `o` is inside the mutex, before or after writing the length. */
  predicate Owns(s: Sess, o: Owner, half: bool) {
    match o
    case TheReader => if half then s.reader.RHalfSent? else s.reader.RHolding?
    case TheThread(t) => Has(s, t) && if half then s.threads[t].HalfSent? else s.threads[t].Holding?
  }

  function FrameAt(s: Sess, o: Owner): Str
    requires Owns(s, o, false) || Owns(s, o, true)
  {
    match o case TheReader => s.reader.frame case TheThread(t) => s.threads[t].frame
  }

  function IndexAt(s: Sess, o: Owner): Option<nat>
    requires Owns(s, o, false) || Owns(s, o, true)
  {
    match o case TheReader => s.reader.idx case TheThread(t) => Some(t)
  }

  /** Leaving the mutex: a thread is done; the reader goes on, or starts to wind the session down. */
  function Leave(s: Sess, o: Owner): Sess
    requires Owns(s, o, false) || Owns(s, o, true)
  {
    match o
    case TheReader => s.(lock := None, reader := if s.reader.last then Ending else Reading)
    case TheThread(t) => s.(lock := None, threads := s.threads[t := Finished])
  }

  /** A response thread takes the request. */
  function Spawn(s: Sess, job: Job): Sess {
    var i := |s.jobs|;
    s.(jobs := s.jobs + [job], threads := s.threads[i := Computing], pending := s.pending + {i})
  }

  /** The reader answers the request itself; having no reply to send, it ends the session. */
  function Reject(s: Sess, job: Job, f: Option<Str>): Sess {
    match f
    case None => s.(jobs := s.jobs + [job], reader := Joining, enabled := false)
    case Some(frame) => s.(jobs := s.jobs + [job], reader := Replying(frame, Some(|s.jobs|), false))
  }

  function Next(s: Sess, e: Step): Sess
    requires Enabled(s, e)
  {
    match e
    case Receive(job, busy) =>
      if |s.pending| >= s.max then Reject(s, job, Encoded(busy, job.proto, s.lim)) else Spawn(s, job)
    case StartFails(job) => Reject(s, job, None)
    case Refuse(proto, err, last) =>
      (match Encoded(err, proto, s.lim)
       case None => s.(reader := Joining, enabled := false)
       case Some(f) => s.(reader := Replying(f, None, last)))
    case Respond(t, r) =>
      var f := if r.Some? && s.enabled then Encoded(r.value, s.jobs[t].proto, s.lim) else None;
      s.(threads := s.threads[t := if f.Some? then Ready(f.value) else Finished])
    case Acquire(o) =>
      (match o
       case TheReader =>
         // Only the reader disables writes, so it never finds them disabled here.
         s.(lock := Some(o), reader := RHolding(s.reader.frame, s.reader.idx, s.reader.last))
       case TheThread(t) =>
         if s.enabled then s.(lock := Some(o), threads := s.threads[t := Holding(s.threads[t].frame)])
         else s.(threads := s.threads[t := Finished]))
    case WriteLen(o) =>
      var s1 := s.(out := s.out + Be(|FrameAt(s, o)|, 4));
      (match o
       case TheReader => s1.(reader := RHalfSent(s.reader.frame, s.reader.idx, s.reader.last))
       case TheThread(t) => s1.(threads := s.threads[t := HalfSent(s.threads[t].frame)]))
    case WriteBody(o) =>
      var f := FrameAt(s, o);
      Leave(s, o).(out := s.out + f, sent := s.sent + [Entry(IndexAt(s, o), f)])
    case WriteFails(o, delivered) =>
      Leave(s, o).(out := s.out + delivered, cut := s.cut || Owns(s, o, true) || delivered != [])
    case Reap(t) => s.(pending := s.pending - {t})
    case Stop => s.(reader := Joining, enabled := false)
    case Close => s.(reader := Closed)
  }

  // ----- invariant -----

  function Frames(es: seq<Entry>): seq<Str> {
    seq(|es|, i requires 0 <= i < |es| => es[i].frame)
  }

  /** The bytes of the frame being written. */
  function Partial(s: Sess): Str {
    if s.lock.Some? && Owns(s, s.lock.value, true) then Be(|FrameAt(s, s.lock.value)|, 4) else []
  }

  ghost predicate LockOk(s: Sess) {
    forall o :: (Owns(s, o, false) || Owns(s, o, true)) <==> s.lock == Some(o)
  }

  ghost predicate StreamOk(s: Sess) {
    var framed := Stream(Frames(s.sent)) + Partial(s);
    if s.cut then |s.out| > |framed| else s.out == framed
  }

  /** A frame that `o` is about to write. */
  predicate HasFrame(th: Thread) { th.Ready? || th.Holding? || th.HalfSent? }

  ghost predicate FrameOk(s: Sess, idx: Option<nat>, f: Str) {
    && |f| <= s.lim.maxFrame
    && (idx.Some? ==> idx.value < |s.jobs| && Correlated(f, s.jobs[idx.value], s.lim))
  }

  predicate Replies(r: Reader) { r.Replying? || r.RHolding? || r.RHalfSent? }

  predicate Unanswered(sent: seq<Entry>, i: nat) {
    forall j :: 0 <= j < |sent| ==> sent[j].idx != Some(i)
  }

  ghost predicate RepliesOk(s: Sess) {
    && (forall j :: 0 <= j < |s.sent| ==> FrameOk(s, s.sent[j].idx, s.sent[j].frame))
    && (forall t :: t in s.threads && HasFrame(s.threads[t]) ==> FrameOk(s, Some(t), s.threads[t].frame))
    && (Replies(s.reader) ==> FrameOk(s, s.reader.idx, s.reader.frame))
  }

  predicate SentOnce(sent: seq<Entry>) {
    forall i, j :: 0 <= i < j < |sent| && sent[i].idx.Some? ==> sent[i].idx != sent[j].idx
  }

  predicate SentBelow(sent: seq<Entry>, n: nat) {
    forall j :: 0 <= j < |sent| && sent[j].idx.Some? ==> sent[j].idx.value < n
  }

  predicate Numbered(s: Sess) { forall t :: t in s.threads ==> t < |s.jobs| }

  ghost predicate OnceOk(s: Sess) {
    && SentOnce(s.sent)
    && SentBelow(s.sent, |s.jobs|)
    && Numbered(s)
    && (forall t :: t in s.threads && s.threads[t] != Finished ==> Unanswered(s.sent, t))
    && (Replies(s.reader) && s.reader.idx.Some? ==>
          s.reader.idx.value < |s.jobs| && s.reader.idx.value !in s.threads && Unanswered(s.sent, s.reader.idx.value))
  }

  ghost predicate PendingOk(s: Sess) {
    && |s.pending| <= s.max
    && (forall t :: t in s.pending ==> t in s.threads)
    && (forall t :: t in s.threads && s.threads[t] != Finished ==> t in s.pending)
    && (s.reader == Closed ==> s.pending == {})
    && (s.enabled <==> s.reader != Joining && s.reader != Closed)
  }

  ghost predicate Inv(s: Sess) {
    LockOk(s) && StreamOk(s) && RepliesOk(s) && OnceOk(s) && PendingOk(s)
  }

  lemma StepLock(s: Sess, e: Step)
    requires LockOk(s) && Numbered(s) && Enabled(s, e)
    ensures LockOk(Next(s, e))
  {
    assert e.StartFails? ==> s.reader == Reading && Next(s, e) == Reject(s, e.job, None);
    hide LockOk, Numbered, Next, Enabled;
    match e
    case Receive(job, busy) => LockReceive(s, job, busy);
    case StartFails(job) => LockReject(s, job, None);
    case Acquire(_) => LockEnters(s, e);
    case WriteLen(_) => LockEnters(s, e);
    case WriteBody(_) => LockLeaves(s, e);
    case WriteFails(_, _) => LockLeaves(s, e);
    case _ => LockStays(s, e);
  }

  lemma LockEnters(s: Sess, e: Step)
    requires LockOk(s) && Enabled(s, e) && (e.Acquire? || e.WriteLen?)
    ensures LockOk(Next(s, e))
  {
    hide Be;
    var s' := Next(s, e);
    forall o ensures (Owns(s', o, false) || Owns(s', o, true)) <==> s'.lock == Some(o) {
      assert (Owns(s, o, false) || Owns(s, o, true)) <==> s.lock == Some(o);
      if e.WriteLen? { assert s.lock == Some(e.o); }
    }
  }

  lemma LockLeaves(s: Sess, e: Step)
    requires LockOk(s) && Enabled(s, e) && (e.WriteBody? || e.WriteFails?)
    ensures LockOk(Next(s, e))
  {
    var s' := Next(s, e);
    assert s.lock == Some(e.o);
    forall o ensures !Owns(s', o, false) && !Owns(s', o, true) {
      assert (Owns(s, o, false) || Owns(s, o, true)) <==> s.lock == Some(o);
    }
  }

  lemma LockReceive(s: Sess, job: Job, busy: Response)
    requires LockOk(s) && Numbered(s) && Enabled(s, Receive(job, busy))
    ensures LockOk(Next(s, Receive(job, busy)))
  {
    hide Encoded, Reject, Spawn, LockOk, Numbered;
    if |s.pending| >= s.max { LockReject(s, job, Encoded(busy, job.proto, s.lim)); } else { LockSpawn(s, job); }
  }

  lemma LockReject(s: Sess, job: Job, f: Option<Str>)
    requires LockOk(s) && s.reader == Reading
    ensures LockOk(Reject(s, job, f))
  {
    var s' := Reject(s, job, f);
    forall o ensures (Owns(s', o, false) || Owns(s', o, true)) <==> s'.lock == Some(o) {
      assert (Owns(s, o, false) || Owns(s, o, true)) <==> s.lock == Some(o);
    }
  }

  lemma LockSpawn(s: Sess, job: Job)
    requires LockOk(s) && Numbered(s)
    ensures LockOk(Spawn(s, job))
  {
    var s' := Spawn(s, job);
    forall o ensures (Owns(s', o, false) || Owns(s', o, true)) <==> s'.lock == Some(o) {
      assert (Owns(s, o, false) || Owns(s, o, true)) <==> s.lock == Some(o);
    }
  }

  lemma LockStays(s: Sess, e: Step)
    requires LockOk(s) && Enabled(s, e)
    requires !(e.Receive? || e.StartFails? || e.Acquire? || e.WriteLen? || e.WriteBody? || e.WriteFails?)
    ensures LockOk(Next(s, e))
  {
    hide Encoded;
    var s' := Next(s, e);
    forall o ensures (Owns(s', o, false) || Owns(s', o, true)) <==> s'.lock == Some(o) {
      assert (Owns(s, o, false) || Owns(s, o, true)) <==> s.lock == Some(o);
    }
  }

  lemma StepStream(s: Sess, e: Step)
    requires LockOk(s) && Numbered(s) && StreamOk(s) && Enabled(s, e)
    ensures StreamOk(Next(s, e))
  {
    hide Next, Enabled, Partial, Frames, Stream, Numbered, LockOk;
    if e.WriteLen? { StreamLen(s, e.o); }
    else if e.WriteBody? { StreamBody(s, e.o); }
    else if e.WriteFails? { StreamFails(s, e.o, e.delivered); }
    else { SameOutput(s, e); SamePartial(s, e); }
  }

  lemma StreamLen(s: Sess, o: Owner)
    requires LockOk(s) && StreamOk(s) && Enabled(s, WriteLen(o))
    ensures StreamOk(Next(s, WriteLen(o)))
  {
    hide Stream, Be, Frames;
    assert s.lock == Some(o);
  }

  lemma StreamBody(s: Sess, o: Owner)
    requires LockOk(s) && StreamOk(s) && Enabled(s, WriteBody(o))
    ensures StreamOk(Next(s, WriteBody(o)))
  {
    hide Stream, Be, Frames;
    assert s.lock == Some(o);
    BodyCompletes(s, o);
    var st, f := Stream(Frames(s.sent)), FrameAt(s, o);
    assert (st + Be(|f|, 4)) + f == st + (Be(|f|, 4) + f);
  }

  /** A write that fails is harmless only if it delivered nothing of the length word. */
  lemma StreamFails(s: Sess, o: Owner, delivered: Str)
    requires LockOk(s) && StreamOk(s) && Enabled(s, WriteFails(o, delivered))
    ensures StreamOk(Next(s, WriteFails(o, delivered)))
  {
    hide Stream, Be, Frames;
    assert s.lock == Some(o);
  }

  lemma SameOutput(s: Sess, e: Step)
    requires Enabled(s, e) && !e.WriteLen? && !e.WriteBody? && !e.WriteFails?
    ensures var s' := Next(s, e); s'.sent == s.sent && s'.out == s.out && s'.cut == s.cut
  {
    hide Encoded;
  }

  /** Outside the three write steps, the owner of the mutex stands still. */
  lemma OwnerStands(s: Sess, e: Step, o: Owner)
    requires Numbered(s) && Enabled(s, e) && !e.WriteLen? && !e.WriteBody? && !e.WriteFails?
    requires s.lock == Some(o) && (Owns(s, o, false) || Owns(s, o, true))
    ensures Next(s, e).lock == Some(o)
    ensures forall half :: Owns(Next(s, e), o, half) <==> Owns(s, o, half)
    ensures FrameAt(s, o) == FrameAt(Next(s, e), o)
  {
    hide Encoded;
  }

  /** A free mutex leaves nothing half-sent. */
  lemma FreeStands(s: Sess, e: Step)
    requires Enabled(s, e) && s.lock == None && !e.WriteLen? && !e.WriteBody? && !e.WriteFails?
    ensures Next(s, e).lock.Some? ==> Owns(Next(s, e), Next(s, e).lock.value, false)
  {
    hide Encoded;
  }

  lemma SamePartial(s: Sess, e: Step)
    requires LockOk(s) && Numbered(s) && Enabled(s, e) && !e.WriteLen? && !e.WriteBody? && !e.WriteFails?
    ensures Partial(Next(s, e)) == Partial(s)
  {
    hide Next, Enabled, Numbered, Be;
    StepLock(s, e);
    if s.lock.Some? { OwnerStands(s, e, s.lock.value); } else { FreeStands(s, e); }
  }

  lemma BodyCompletes(s: Sess, o: Owner)
    requires Enabled(s, WriteBody(o))
    ensures var f := FrameAt(s, o);
            Stream(Frames(Next(s, WriteBody(o)).sent)) == Stream(Frames(s.sent)) + (Be(|f|, 4) + f)
  {
    hide Be, Stream;
    var f := FrameAt(s, o);
    var x := Entry(IndexAt(s, o), f);
    assert Frames(s.sent + [x]) == Frames(s.sent) + [f];
    StreamSnoc(Frames(s.sent), f);
    FramedIs(f);
  }

  lemma FramedIs(f: Str)
    ensures Framed(f) == Be(|f|, 4) + f
  {
  }

  lemma StepPending(s: Sess, e: Step)
    requires PendingOk(s) && Numbered(s) && Enabled(s, e)
    ensures PendingOk(Next(s, e))
  {
    hide Next, Enabled, PendingOk, Numbered;
    match e
    case Receive(job, busy) => PendingReceive(s, job, busy);
    case _ => PendingOther(s, e);
  }

  lemma PendingReceive(s: Sess, job: Job, busy: Response)
    requires PendingOk(s) && Numbered(s) && Enabled(s, Receive(job, busy))
    ensures PendingOk(Next(s, Receive(job, busy)))
  {
    hide Encoded;
    assert |s.jobs| !in s.pending;
  }

  lemma PendingOther(s: Sess, e: Step)
    requires PendingOk(s) && Enabled(s, e) && !e.Receive?
    ensures PendingOk(Next(s, e))
  {
    hide PendingOk, Next, Enabled;
    match e
    case WriteBody(_) => PendingLeave(s, e);
    case WriteFails(_, _) => PendingLeave(s, e);
    case Respond(_, _) => PendingThread(s, e);
    case Acquire(_) => PendingThread(s, e);
    case WriteLen(_) => PendingThread(s, e);
    case _ => PendingReader(s, e);
  }

  lemma PendingLeave(s: Sess, e: Step)
    requires PendingOk(s) && Enabled(s, e) && (e.WriteBody? || e.WriteFails?)
    ensures PendingOk(Next(s, e))
  {
  }

  lemma PendingThread(s: Sess, e: Step)
    requires PendingOk(s) && Enabled(s, e) && (e.Respond? || e.Acquire? || e.WriteLen?)
    ensures PendingOk(Next(s, e))
  {
    hide Encoded, Be;
  }

  lemma PendingReader(s: Sess, e: Step)
    requires PendingOk(s) && Enabled(s, e) && (e.StartFails? || e.Refuse? || e.Reap? || e.Stop? || e.Close?)
    ensures PendingOk(Next(s, e))
  {
    hide Encoded;
  }

  lemma FrameOkGrows(s: Sess, e: Step, idx: Option<nat>, f: Str)
    requires Enabled(s, e) && FrameOk(s, idx, f)
    ensures FrameOk(Next(s, e), idx, f)
  {
    hide Encoded, Frames, Stream, Correlated;
  }

  lemma StepReplies(s: Sess, e: Step)
    requires RepliesOk(s) && OnceOk(s) && Enabled(s, e)
    ensures RepliesOk(Next(s, e))
  {
    hide Frames, Stream, Be, Encoded, OnceOk, FrameOk;
    var s' := Next(s, e);
    NewFrame(s, e);
    forall j | 0 <= j < |s'.sent| ensures FrameOk(s', s'.sent[j].idx, s'.sent[j].frame) {
      if j < |s.sent| {
        FrameOkGrows(s, e, s.sent[j].idx, s.sent[j].frame);
      } else {
        FrameOkGrows(s, e, IndexAt(s, e.o), FrameAt(s, e.o));
      }
    }
    forall t | t in s'.threads && HasFrame(s'.threads[t]) ensures FrameOk(s', Some(t), s'.threads[t].frame) {
      ThreadFrame(s, e, t);
    }
    if Replies(s'.reader) && Replies(s.reader) {
      FrameOkGrows(s, e, s.reader.idx, s.reader.frame);
    }
  }

  lemma ThreadFrame(s: Sess, e: Step, t: nat)
    requires RepliesOk(s) && Enabled(s, e) && t in Next(s, e).threads && HasFrame(Next(s, e).threads[t])
    ensures FrameOk(Next(s, e), Some(t), Next(s, e).threads[t].frame)
  {
    hide Next, Enabled, FrameOk;
    if e.Respond? && e.t == t {
      NewFrame(s, e);
    } else {
      OldFrame(s, e, t);
      FrameOkGrows(s, e, Some(t), s.threads[t].frame);
    }
  }

  /** Only a response step gives a thread a new frame. */
  predicate KeepsFrame(s: Sess, s': Sess, t: nat) {
    t in s'.threads && HasFrame(s'.threads[t]) ==>
      t in s.threads && HasFrame(s.threads[t]) && s.threads[t].frame == s'.threads[t].frame
  }

  lemma OldFrame(s: Sess, e: Step, t: nat)
    requires Enabled(s, e) && !(e.Respond? && e.t == t)
    ensures KeepsFrame(s, Next(s, e), t)
  {
    hide Next, Enabled, KeepsFrame;
    if e.WriteLen? || e.WriteBody? || e.WriteFails? { OldFrameWrites(s, e, t); } else { OldFrameStays(s, e, t); }
  }

  lemma OldFrameWrites(s: Sess, e: Step, t: nat)
    requires Enabled(s, e) && (e.WriteLen? || e.WriteBody? || e.WriteFails?)
    ensures KeepsFrame(s, Next(s, e), t)
  {
    hide Be;
  }

  lemma OldFrameStays(s: Sess, e: Step, t: nat)
    requires Enabled(s, e) && !e.WriteLen? && !e.WriteBody? && !e.WriteFails? && !(e.Respond? && e.t == t)
    ensures KeepsFrame(s, Next(s, e), t)
  {
    hide Encoded;
  }

  /** A frame that a step has just encoded answers the right request. */
  lemma NewFrame(s: Sess, e: Step)
    requires Enabled(s, e)
    ensures e.Respond? && HasFrame(Next(s, e).threads[e.t]) ==>
              FrameOk(Next(s, e), Some(e.t), Next(s, e).threads[e.t].frame)
    ensures (e.Receive? || e.Refuse?) && Replies(Next(s, e).reader) ==>
              FrameOk(Next(s, e), Next(s, e).reader.idx, Next(s, e).reader.frame)
  {
    hide Encoded, Correlated;
    match e {
      case Respond(t, r) =>
        if r.Some? && Encoded(r.value, s.jobs[t].proto, s.lim).Some? { EncodedIsCorrelated(r.value, s.jobs[t], s.lim); }
      case Receive(job, busy) =>
        if Encoded(busy, job.proto, s.lim).Some? { EncodedIsCorrelated(busy, job, s.lim); }
      case Refuse(proto, err, last) =>
        if Encoded(err, proto, s.lim).Some? {
          EncodedIsCorrelated(err, Job(err.taskId, proto), s.lim);
        }
      case _ =>
    }
  }

  lemma StepOnce(s: Sess, e: Step)
    requires OnceOk(s) && Enabled(s, e)
    ensures OnceOk(Next(s, e))
  {
    assert e.StartFails? ==> s.reader == Reading && Next(s, e) == Reject(s, e.job, None);
    hide Next, Enabled, OnceOk;
    match e
    case Receive(job, busy) => OnceReceive(s, job, busy);
    case StartFails(job) => OnceReject(s, job, None);
    case WriteBody(o) => OnceWriteBody(s, o);
    case WriteFails(o, d) => OnceWriteFails(s, o, d);
    case _ => OnceOther(s, e);
  }

  lemma OnceReceive(s: Sess, job: Job, busy: Response)
    requires OnceOk(s) && Enabled(s, Receive(job, busy))
    ensures OnceOk(Next(s, Receive(job, busy)))
  {
    hide OnceOk, Spawn, Reject, Encoded;
    if |s.pending| >= s.max { OnceReject(s, job, Encoded(busy, job.proto, s.lim)); } else { OnceSpawn(s, job); }
  }

  lemma OnceSpawn(s: Sess, job: Job)
    requires OnceOk(s) && s.reader == Reading
    ensures OnceOk(Spawn(s, job))
  {
    assert SentBelow(s.sent, |s.jobs| + 1) && Unanswered(s.sent, |s.jobs|);
    hide Unanswered, SentOnce, SentBelow;
  }

  lemma OnceReject(s: Sess, job: Job, f: Option<Str>)
    requires OnceOk(s) && s.reader == Reading
    ensures OnceOk(Reject(s, job, f))
  {
    assert SentBelow(s.sent, |s.jobs| + 1) && Unanswered(s.sent, |s.jobs|);
    hide Unanswered, SentOnce, SentBelow;
  }

  lemma OnceWriteBody(s: Sess, o: Owner)
    requires OnceOk(s) && Enabled(s, WriteBody(o))
    ensures OnceOk(Next(s, WriteBody(o)))
  {
    var x := Entry(IndexAt(s, o), FrameAt(s, o));
    assert x.idx.Some? ==> Unanswered(s.sent, x.idx.value);
    assert SentOnce(s.sent + [x]) && SentBelow(s.sent + [x], |s.jobs|);
    hide Unanswered, SentOnce, SentBelow, Be;
    forall i: nat ensures Unanswered(s.sent + [x], i) <==> Unanswered(s.sent, i) && x.idx != Some(i) {
      UnansweredSnoc(s.sent, x, i);
    }
  }

  lemma UnansweredSnoc(sent: seq<Entry>, x: Entry, i: nat)
    ensures Unanswered(sent + [x], i) <==> Unanswered(sent, i) && x.idx != Some(i)
  {
    assert (sent + [x])[|sent|] == x;
    assert forall j :: 0 <= j < |sent| ==> (sent + [x])[j] == sent[j];
  }

  lemma OnceWriteFails(s: Sess, o: Owner, d: Str)
    requires OnceOk(s) && Enabled(s, WriteFails(o, d))
    ensures OnceOk(Next(s, WriteFails(o, d)))
  {
    hide Unanswered, SentOnce, SentBelow, Be;
  }

  lemma OnceOther(s: Sess, e: Step)
    requires OnceOk(s) && Enabled(s, e) && !e.Receive? && !e.StartFails? && !e.WriteBody? && !e.WriteFails?
    ensures OnceOk(Next(s, e))
  {
    hide Encoded, Be, Unanswered, SentOnce, SentBelow;
  }

  lemma StepInv(s: Sess, e: Step)
    requires Inv(s) && Enabled(s, e)
    ensures Inv(Next(s, e))
  {
    assert Numbered(s);
    hide LockOk, StreamOk, RepliesOk, OnceOk, PendingOk, Next, Enabled, Numbered;
    StepLock(s, e);
    StepStream(s, e);
    StepPending(s, e);
    StepReplies(s, e);
    StepOnce(s, e);
  }

  // ----- whole sessions -----

  function Fresh(max: nat, lim: Limits): Sess {
    Sess(max, lim, [], map[], {}, Reading, None, true, [], [], false)
  }

  predicate Legal(s: Sess, es: seq<Step>)
    decreases |es|
  {
    es == [] || (Enabled(s, es[0]) && Legal(Next(s, es[0]), es[1..]))
  }

  function Exec(s: Sess, es: seq<Step>): Sess
    requires Legal(s, es)
    decreases |es|
  {
    if es == [] then s else Exec(Next(s, es[0]), es[1..])
  }

  lemma FreshInv(max: nat, lim: Limits)
    ensures Inv(Fresh(max, lim))
  {
    hide Correlated, FrameOk, FrameAt, Be;
    assert Frames([]) == [] && Stream([]) == [];
  }

  lemma KeepsConfig(s: Sess, e: Step)
    requires Enabled(s, e)
    ensures Next(s, e).max == s.max && Next(s, e).lim == s.lim
  {
    hide Encoded, Be;
  }

  lemma {:induction false} RunInv(s: Sess, es: seq<Step>)
    requires Inv(s) && Legal(s, es)
    ensures Inv(Exec(s, es)) && Exec(s, es).max == s.max && Exec(s, es).lim == s.lim
    decreases |es|
  {
    hide Inv, Next, Enabled;
    if es != [] {
      StepInv(s, es[0]);
      KeepsConfig(s, es[0]);
      RunInv(Next(s, es[0]), es[1..]);
    }
  }

  /** In every run the bytes sent are the frames sent, each behind its length, followed by at most the
      length word of the frame being written, if and only if no write was cut short. If so, whenever
      the write mutex is free a client splits them into frames in only one way. */
  lemma OutputIsFrames(max: nat, lim: Limits, es: seq<Step>)
    requires Legal(Fresh(max, lim), es)
    ensures var s := Exec(Fresh(max, lim), es);
            && (s.out == Stream(Frames(s.sent)) + Partial(s) <==> !s.cut)
            && (s.lock == None ==> (s.out == Stream(Frames(s.sent)) <==> !s.cut))
            && (lim.maxFrame < U32_RANGE && s.lock == None && !s.cut ==>
                  forall fs :: Short(fs) && Stream(fs) == s.out ==> fs == Frames(s.sent))
  {
    FreshInv(max, lim);
    RunInv(Fresh(max, lim), es);
    var s := Exec(Fresh(max, lim), es);
    hide Stream, Exec, Legal;
    assert s.lock == None ==> Stream(Frames(s.sent)) + Partial(s) == Stream(Frames(s.sent));
    if lim.maxFrame < U32_RANGE && s.lock == None && !s.cut {
      assert Short(Frames(s.sent));
      forall fs | Short(fs) && Stream(fs) == s.out ensures fs == Frames(s.sent) {
        StreamInjective(fs, Frames(s.sent));
      }
    }
  }

  /** A failed write does not end the session: from any idle state, a reply whose length word went
      out and whose body did not leaves writes enabled behind four stray bytes. */
  lemma CutSessionGoesOn(s: Sess, proto: Proto, err: Response)
    requires Inv(s) && s.reader == Reading && s.lock == None && Encoded(err, proto, s.lim).Some?
    ensures var es := [Refuse(proto, err, false), Acquire(TheReader), WriteLen(TheReader), WriteFails(TheReader, [])];
            && Legal(s, es)
            && var s' := Exec(s, es);
               && s'.cut && s'.enabled && s'.reader == Reading && s'.lock == None && s'.sent == s.sent
               && s'.out == s.out + Be(|Encoded(err, proto, s.lim).value|, 4)
  {
    hide Be, Encoded, LockOk, StreamOk, RepliesOk, OnceOk;
    var e1, e2, e3, e4 := Refuse(proto, err, false), Acquire(TheReader), WriteLen(TheReader), WriteFails(TheReader, []);
    var s1 := Next(s, e1);
    var s2 := Next(s1, e2);
    var s3 := Next(s2, e3);
    var s4 := Next(s3, e4);
    assert s3.out + [] == s3.out;
    RunOfFour(s, e1, e2, e3, e4);
  }

  lemma RunOfFour(s: Sess, e1: Step, e2: Step, e3: Step, e4: Step)
    requires Enabled(s, e1) && Enabled(Next(s, e1), e2) && Enabled(Next(Next(s, e1), e2), e3)
    requires Enabled(Next(Next(Next(s, e1), e2), e3), e4)
    ensures Legal(s, [e1, e2, e3, e4])
    ensures Exec(s, [e1, e2, e3, e4]) == Next(Next(Next(Next(s, e1), e2), e3), e4)
  {
    hide Next, Enabled;
    assert [e1, e2, e3, e4][1..] == [e2, e3, e4] && [e2, e3, e4][1..] == [e3, e4] && [e3, e4][1..] == [e4] && [e4][1..] == [];
    var s1 := Next(s, e1);
    var s2 := Next(s1, e2);
    var s3 := Next(s2, e3);
    assert Legal(s3, [e4]) && Exec(s3, [e4]) == Next(s3, e4);
    assert Legal(s2, [e3, e4]) && Exec(s2, [e3, e4]) == Exec(s3, [e4]);
    assert Legal(s1, [e2, e3, e4]) && Exec(s1, [e2, e3, e4]) == Exec(s2, [e3, e4]);
  }

  /** Every decoded request is answered by at most one frame, and that frame carries the request's
      own request id or task id. */
  lemma OneReplyEach(max: nat, lim: Limits, es: seq<Step>, i: nat, j: nat)
    requires Legal(Fresh(max, lim), es)
    requires i < |Exec(Fresh(max, lim), es).sent| && Exec(Fresh(max, lim), es).sent[i].idx.Some?
    ensures var s := Exec(Fresh(max, lim), es);
            && s.sent[i].idx.value < |s.jobs|
            && Correlated(s.sent[i].frame, s.jobs[s.sent[i].idx.value], lim)
            && (j < |s.sent| && s.sent[j].idx == s.sent[i].idx ==> i == j)
  {
    FreshInv(max, lim);
    RunInv(Fresh(max, lim), es);
    hide Exec, Legal, Correlated;
    var s := Exec(Fresh(max, lim), es);
    assert FrameOk(s, s.sent[i].idx, s.sent[i].frame);
  }

  /** At most `max` response threads are outstanding, and when the socket is closed all of them
      have finished and none is left unjoined. */
  lemma ThreadsBounded(max: nat, lim: Limits, es: seq<Step>)
    requires Legal(Fresh(max, lim), es)
    ensures var s := Exec(Fresh(max, lim), es);
            && |s.pending| <= max
            && (s.reader == Closed ==> s.pending == {} && forall t :: t in s.threads ==> s.threads[t] == Finished)
            && (!s.enabled <==> s.reader == Joining || s.reader == Closed)
  {
    FreshInv(max, lim);
    RunInv(Fresh(max, lim), es);
  }
}
