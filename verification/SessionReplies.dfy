/**
  * Which requests of a session are answered: every decoded request is answered exactly once or is
  * still in flight, unless one particular step dropped its reply.
  */
module SessionReplies {
  import opened Bytes
  import opened Broker
  import opened Session

  predicate Answered(s: Sess, i: nat) { !Unanswered(s.sent, i) }

  predicate InFlight(s: Sess, i: nat) {
    || (i in s.threads && s.threads[i] != Finished)
    || (Replies(s.reader) && s.reader.idx == Some(i))
  }

  /** Request `i` has not arrived yet, is in flight, or has been answered. */
  predicate Kept(s: Sess, i: nat) { i < |s.jobs| ==> InFlight(s, i) || Answered(s, i) }

  /** Step `e` gives up the reply to request `i`: its thread could not be started, its handler
      threw, its reply is too large, the session is winding down, or the write failed. */
  predicate Drops(s: Sess, e: Step, i: nat)
    requires Enabled(s, e)
  {
    match e
    case Receive(job, busy) =>
      i == |s.jobs| && |s.pending| >= s.max && Oversized(busy, job.proto, s.lim)
    case StartFails(_) => i == |s.jobs|
    case Respond(t, r) =>
      i == t && !(s.enabled && r.Some? && !Oversized(r.value, s.jobs[t].proto, s.lim))
    case Acquire(o) => o == TheThread(i) && !s.enabled
    case WriteFails(o, _) => IndexAt(s, o) == Some(i)
    case _ => false
  }

  predicate DropsIn(s: Sess, es: seq<Step>, i: nat)
    requires Legal(s, es)
    decreases |es|
  {
    es != [] && (Drops(s, es[0], i) || DropsIn(Next(s, es[0]), es[1..], i))
  }

  /** A request in flight has not been answered. */
  lemma NotBoth(s: Sess, i: nat)
    requires OnceOk(s)
    ensures !(InFlight(s, i) && Answered(s, i))
  {
  }

  lemma KeptStep(s: Sess, e: Step, i: nat)
    requires OnceOk(s) && Enabled(s, e)
    ensures Kept(Next(s, e), i) <==> Kept(s, i) && !Drops(s, e, i)
  {
    hide Next, Enabled, OnceOk, Kept, Drops;
    match e
    case Receive(_, _) => KeptReceive(s, e, i);
    case StartFails(_) => KeptReceive(s, e, i);
    case Respond(_, _) => KeptThread(s, e, i);
    case Acquire(_) => KeptThread(s, e, i);
    case WriteLen(_) => KeptThread(s, e, i);
    case WriteBody(_) => KeptSent(s, e, i);
    case WriteFails(_, _) => KeptFailed(s, e, i);
    case _ => KeptReader(s, e, i);
  }

  lemma KeptReceive(s: Sess, e: Step, i: nat)
    requires OnceOk(s) && Enabled(s, e) && (e.Receive? || e.StartFails?)
    ensures Kept(Next(s, e), i) <==> Kept(s, i) && !Drops(s, e, i)
  {
    hide Encoded, Oversized, SaysResponse;
    if e.Receive? { EncodedMeans(e.busy, e.job.proto, s.lim); }
    assert Unanswered(s.sent, |s.jobs|);
    hide Unanswered, SentOnce, SentBelow;
  }

  lemma KeptThread(s: Sess, e: Step, i: nat)
    requires OnceOk(s) && Enabled(s, e) && (e.Respond? || e.Acquire? || e.WriteLen?)
    ensures Kept(Next(s, e), i) <==> Kept(s, i) && !Drops(s, e, i)
  {
    hide Encoded, Oversized, SaysResponse, Be, Unanswered, SentOnce, SentBelow;
    if e.Respond? && e.r.Some? { EncodedMeans(e.r.value, s.jobs[e.t].proto, s.lim); }
  }

  lemma KeptReader(s: Sess, e: Step, i: nat)
    requires Enabled(s, e) && (e.Refuse? || e.Reap? || e.Stop? || e.Close?)
    ensures Kept(Next(s, e), i) <==> Kept(s, i) && !Drops(s, e, i)
  {
    hide Encoded, Unanswered;
  }

  lemma KeptSent(s: Sess, e: Step, i: nat)
    requires OnceOk(s) && Enabled(s, e) && e.WriteBody?
    ensures Kept(Next(s, e), i) <==> Kept(s, i) && !Drops(s, e, i)
  {
    hide Unanswered, SentOnce, SentBelow;
    UnansweredSnoc(s.sent, Entry(IndexAt(s, e.o), FrameAt(s, e.o)), i);
  }

  lemma KeptFailed(s: Sess, e: Step, i: nat)
    requires OnceOk(s) && Enabled(s, e) && e.WriteFails?
    ensures Kept(Next(s, e), i) <==> Kept(s, i) && !Drops(s, e, i)
  {
    hide Unanswered, SentOnce, SentBelow;
  }

  lemma {:induction false} KeptRun(s: Sess, es: seq<Step>, i: nat)
    requires Inv(s) && Legal(s, es)
    ensures Kept(Exec(s, es), i) <==> Kept(s, i) && !DropsIn(s, es, i)
    decreases |es|
  {
    hide Kept, Drops, Next, Enabled;
    if es != [] {
      KeptStep(s, es[0], i);
      StepInv(s, es[0]);
      KeptRun(Next(s, es[0]), es[1..], i);
    }
  }

  /** In every session, a decoded request is in flight or has exactly one reply on the wire if and
      only if no step dropped its reply. Once the session is closed nothing is in flight. */
  lemma RepliedUnlessDropped(max: nat, lim: Limits, es: seq<Step>, i: nat)
    requires Legal(Fresh(max, lim), es) && i < |Exec(Fresh(max, lim), es).jobs|
    ensures var s := Exec(Fresh(max, lim), es);
            && (InFlight(s, i) || Answered(s, i) <==> !DropsIn(Fresh(max, lim), es, i))
            && !(InFlight(s, i) && Answered(s, i))
            && (s.reader == Closed ==> (Answered(s, i) <==> !DropsIn(Fresh(max, lim), es, i)))
            && (Answered(s, i) <==> exists j :: 0 <= j < |s.sent| && s.sent[j].idx == Some(i))
            && (forall j, k :: 0 <= j < k < |s.sent| && s.sent[j].idx == Some(i) ==> s.sent[k].idx != Some(i))
  {
    FreshInv(max, lim);
    KeptRun(Fresh(max, lim), es, i);
    RunInv(Fresh(max, lim), es);
    var s := Exec(Fresh(max, lim), es);
    NotBoth(s, i);
    hide Exec, Legal, DropsIn, LockOk, StreamOk, RepliesOk;
    forall j, k | 0 <= j < k < |s.sent| && s.sent[j].idx == Some(i) ensures s.sent[k].idx != Some(i) {
      assert s.sent[j].idx != s.sent[k].idx;
    }
  }

  // ----- what the replies say -----

  /** Step `e` decides what is said to request `i`: the encoding of its own handler's response, or of
      the rejection it gets over the cap. */
  predicate Says(s: Sess, e: Step, i: nat, f: Str)
    requires Enabled(s, e)
  {
    match e
    case Receive(job, busy) =>
      i == |s.jobs| && |s.pending| >= s.max && Encoded(busy, job.proto, s.lim) == Some(f)
    case Respond(t, r) =>
      i == t && r.Some? && Encoded(r.value, s.jobs[t].proto, s.lim) == Some(f)
    case _ => false
  }

  predicate SaidIn(s: Sess, es: seq<Step>, i: nat, f: Str)
    requires Legal(s, es)
    decreases |es|
  {
    es != [] && (Says(s, es[0], i, f) || SaidIn(Next(s, es[0]), es[1..], i, f))
  }

  predicate OnWire(sent: seq<Entry>, i: nat, f: Str) { Entry(Some(i), f) in sent }

  /** Frame `f` is on the wire for request `i`, or waiting to go there. */
  predicate Carries(s: Sess, i: nat, f: Str) {
    || OnWire(s.sent, i, f)
    || (i in s.threads && HasFrame(s.threads[i]) && s.threads[i].frame == f)
    || (Replies(s.reader) && s.reader.idx == Some(i) && s.reader.frame == f)
  }

  /** No step puts words into another request's mouth. */
  lemma CarriesStep(s: Sess, e: Step, i: nat, f: Str)
    requires Enabled(s, e) && Carries(Next(s, e), i, f)
    ensures Carries(s, i, f) || Says(s, e, i, f)
  {
    hide Next, Enabled, Carries, Says;
    if e.WriteLen? || e.WriteBody? || e.WriteFails? { CarriesWrite(s, e, i, f); }
    else { CarriesOther(s, e, i, f); }
  }

  lemma CarriesWrite(s: Sess, e: Step, i: nat, f: Str)
    requires Enabled(s, e) && Carries(Next(s, e), i, f) && (e.WriteLen? || e.WriteBody? || e.WriteFails?)
    ensures Carries(s, i, f)
  {
    hide Be;
  }

  lemma CarriesOther(s: Sess, e: Step, i: nat, f: Str)
    requires Enabled(s, e) && Carries(Next(s, e), i, f) && !(e.WriteLen? || e.WriteBody? || e.WriteFails?)
    ensures Carries(s, i, f) || Says(s, e, i, f)
  {
    hide Encoded, OnWire;
  }

  lemma {:induction false} CarriesRun(s: Sess, es: seq<Step>, i: nat, f: Str)
    requires Legal(s, es) && Carries(Exec(s, es), i, f)
    ensures Carries(s, i, f) || SaidIn(s, es, i, f)
    decreases |es|
  {
    hide Next, Enabled, Carries, Says;
    if es != [] {
      CarriesRun(Next(s, es[0]), es[1..], i, f);
      if Carries(Next(s, es[0]), i, f) { CarriesStep(s, es[0], i, f); }
    }
  }

  /** What request `i` is told has been decided: it has arrived and no handler works on it. */
  predicate Decided(s: Sess, i: nat) {
    i < |s.jobs| && !(i in s.threads && s.threads[i] == Computing)
  }

  lemma SaysDecides(s: Sess, e: Step, i: nat, f: Str)
    requires OnceOk(s) && Enabled(s, e) && Says(s, e, i, f)
    ensures Decided(Next(s, e), i) && !Decided(s, i)
  {
    hide Encoded, SentOnce, SentBelow, Unanswered;
  }

  lemma DecidedStays(s: Sess, e: Step, i: nat)
    requires Enabled(s, e) && Decided(s, i)
    ensures Decided(Next(s, e), i)
  {
    hide Encoded, Be;
  }

  lemma {:induction false} NothingMoreSaid(s: Sess, es: seq<Step>, i: nat, f: Str)
    requires Inv(s) && Legal(s, es) && Decided(s, i)
    ensures !SaidIn(s, es, i, f)
    decreases |es|
  {
    hide Next, Enabled, Decided, Says;
    if es != [] {
      if Says(s, es[0], i, f) { SaysDecides(s, es[0], i, f); }
      DecidedStays(s, es[0], i);
      StepInv(s, es[0]);
      NothingMoreSaid(Next(s, es[0]), es[1..], i, f);
    }
  }

  /** Over every run, at most one thing is said to a request. */
  lemma {:induction false} SaidOnce(s: Sess, es: seq<Step>, i: nat, f: Str, g: Str)
    requires Inv(s) && Legal(s, es) && SaidIn(s, es, i, f) && SaidIn(s, es, i, g)
    ensures f == g
    decreases |es|
  {
    assert Says(s, es[0], i, f) && Says(s, es[0], i, g) ==> f == g;
    hide Next, Enabled, Decided, Says, Inv;
    var s', rest := Next(s, es[0]), es[1..];
    StepInv(s, es[0]);
    if Says(s, es[0], i, f) || Says(s, es[0], i, g) {
      if Says(s, es[0], i, f) { SaysThenQuiet(s, es, i, f, g); } else { SaysThenQuiet(s, es, i, g, f); }
    } else {
      SaidOnce(s', rest, i, f, g);
    }
  }

  lemma SaysThenQuiet(s: Sess, es: seq<Step>, i: nat, f: Str, g: Str)
    requires es != [] && Inv(s) && Legal(s, es) && Says(s, es[0], i, f)
    ensures !SaidIn(Next(s, es[0]), es[1..], i, g)
  {
    hide Next, Enabled, Decided, Says;
    SaysDecides(s, es[0], i, f);
    StepInv(s, es[0]);
    NothingMoreSaid(Next(s, es[0]), es[1..], i, g);
  }

  // ----- the responses behind the replies -----

  /** Step `e` hands in the response `r` for request `i`: its own handler returns it, or it is the
      rejection the request gets over the cap. */
  predicate Returns(s: Sess, e: Step, i: nat, r: Response) {
    || (e.Respond? && e.t == i && e.r == Some(r))
    || (e.Receive? && i == |s.jobs| && |s.pending| >= s.max && e.busy == r)
  }

  predicate ReturnedIn(s: Sess, es: seq<Step>, i: nat, r: Response)
    requires Legal(s, es)
    decreases |es|
  {
    es != [] && (Returns(s, es[0], i, r) || ReturnedIn(Next(s, es[0]), es[1..], i, r))
  }

  lemma ReturnDecides(s: Sess, e: Step, i: nat, r: Response)
    requires OnceOk(s) && Enabled(s, e) && Returns(s, e, i, r)
    ensures Decided(Next(s, e), i) && !Decided(s, i)
  {
    hide Encoded, SentOnce, SentBelow, Unanswered;
  }

  lemma {:induction false} NothingMoreReturned(s: Sess, es: seq<Step>, i: nat, r: Response)
    requires Inv(s) && Legal(s, es) && Decided(s, i)
    ensures !ReturnedIn(s, es, i, r)
    decreases |es|
  {
    hide Next, Enabled, Decided, Returns;
    if es != [] {
      if Returns(s, es[0], i, r) { ReturnDecides(s, es[0], i, r); }
      DecidedStays(s, es[0], i);
      StepInv(s, es[0]);
      NothingMoreReturned(Next(s, es[0]), es[1..], i, r);
    }
  }

  /** Over every run, at most one response is handed in for a request. */
  lemma {:induction false} ReturnedOnce(s: Sess, es: seq<Step>, i: nat, r: Response, q: Response)
    requires Inv(s) && Legal(s, es) && ReturnedIn(s, es, i, r) && ReturnedIn(s, es, i, q)
    ensures r == q
    decreases |es|
  {
    assert Returns(s, es[0], i, r) && Returns(s, es[0], i, q) ==> r == q;
    hide Next, Enabled, Decided, Returns, Inv;
    StepInv(s, es[0]);
    if Returns(s, es[0], i, r) { ReturnThenQuiet(s, es, i, r, q); }
    else if Returns(s, es[0], i, q) { ReturnThenQuiet(s, es, i, q, r); }
    else { ReturnedOnce(Next(s, es[0]), es[1..], i, r, q); }
  }

  lemma ReturnThenQuiet(s: Sess, es: seq<Step>, i: nat, r: Response, q: Response)
    requires es != [] && Inv(s) && Legal(s, es) && Returns(s, es[0], i, r)
    ensures !ReturnedIn(Next(s, es[0]), es[1..], i, q)
  {
    hide Next, Enabled, Decided, Returns;
    ReturnDecides(s, es[0], i, r);
    StepInv(s, es[0]);
    NothingMoreReturned(Next(s, es[0]), es[1..], i, q);
  }

  /** A request keeps its protocol. */
  lemma JobStays(s: Sess, e: Step)
    requires Enabled(s, e)
    ensures s.jobs <= Next(s, e).jobs && Next(s, e).lim == s.lim
    ensures e.Receive? ==> Next(s, e).jobs == s.jobs + [e.job]
  {
    hide Encoded, Be;
  }

  lemma {:induction false} JobsStay(s: Sess, es: seq<Step>)
    requires Legal(s, es)
    ensures s.jobs <= Exec(s, es).jobs && Exec(s, es).lim == s.lim
    decreases |es|
  {
    hide Next, Enabled;
    if es != [] {
      JobStays(s, es[0]);
      JobsStay(Next(s, es[0]), es[1..]);
    }
  }

  /** What is said to a request is the encoding of the response handed in for it, in its protocol. */
  lemma {:induction false} SaidIsReturned(s: Sess, es: seq<Step>, i: nat, f: Str) returns (r: Response)
    requires Legal(s, es) && SaidIn(s, es, i, f)
    ensures ReturnedIn(s, es, i, r) && i < |Exec(s, es).jobs|
    ensures Encoded(r, Exec(s, es).jobs[i].proto, s.lim) == Some(f)
    decreases |es|
  {
    var e, s' := es[0], Next(s, es[0]);
    JobStays(s, e);
    JobsStay(s', es[1..]);
    if Says(s, e, i, f) {
      r := SaysReturns(s, e, i, f);
      hide Next, Enabled, Encoded;
    } else {
      hide Next, Enabled, Encoded, Says;
      r := SaidIsReturned(s', es[1..], i, f);
    }
  }

  lemma SaysReturns(s: Sess, e: Step, i: nat, f: Str) returns (r: Response)
    requires Enabled(s, e) && Says(s, e, i, f)
    ensures Returns(s, e, i, r) && i < |Next(s, e).jobs|
    ensures Encoded(r, Next(s, e).jobs[i].proto, s.lim) == Some(f)
  {
    hide Encoded;
    r := if e.Respond? then e.r.value else e.busy;
  }

  /** In every run, the frame sent for a request says, in the request's own protocol, the one response
      that its own handler returned, or its own rejection over the cap. */
  lemma RepliesSayTheResponse(max: nat, lim: Limits, es: seq<Step>, j: nat) returns (r: Response)
    requires Legal(Fresh(max, lim), es)
    requires j < |Exec(Fresh(max, lim), es).sent| && Exec(Fresh(max, lim), es).sent[j].idx.Some?
    ensures var s := Exec(Fresh(max, lim), es);
            var i := s.sent[j].idx.value;
            && i < |s.jobs|
            && (forall q :: ReturnedIn(Fresh(max, lim), es, i, q) <==> q == r)
            && SaysResponse(s.sent[j].frame, r, s.jobs[i].proto, lim)
            && !Oversized(r, s.jobs[i].proto, lim)
  {
    RepliesAreOwn(max, lim, es, j);
    var s, s0 := Exec(Fresh(max, lim), es), Fresh(max, lim);
    var i, f := s.sent[j].idx.value, s.sent[j].frame;
    assert SaidIn(s0, es, i, f) && s0.lim == lim;
    FreshInv(max, lim);
    hide Inv, Exec, Legal, SaidIn, Encoded, SaysResponse, Oversized, ReturnedIn;
    r := SaidIsReturned(s0, es, i, f);
    EncodedMeans(r, s.jobs[i].proto, lim);
    forall q | ReturnedIn(s0, es, i, q) ensures q == r { ReturnedOnce(s0, es, i, q, r); }
  }

  /** In every run, the frame sent for a request is the encoding of what its own handler returned, or
      of its own rejection over the cap, and nothing else is ever said to it. */
  lemma RepliesAreOwn(max: nat, lim: Limits, es: seq<Step>, j: nat)
    requires Legal(Fresh(max, lim), es)
    requires j < |Exec(Fresh(max, lim), es).sent| && Exec(Fresh(max, lim), es).sent[j].idx.Some?
    ensures var x := Exec(Fresh(max, lim), es).sent[j];
            forall f :: SaidIn(Fresh(max, lim), es, x.idx.value, f) <==> f == x.frame
  {
    var s, s0 := Exec(Fresh(max, lim), es), Fresh(max, lim);
    var x := s.sent[j];
    assert x == Entry(Some(x.idx.value), x.frame) && x in s.sent;
    assert Carries(s, x.idx.value, x.frame) && !Carries(s0, x.idx.value, x.frame);
    hide Exec, Legal, Carries, SaidIn;
    FreshInv(max, lim);
    hide Inv;
    CarriesRun(s0, es, x.idx.value, x.frame);
    forall f | SaidIn(s0, es, x.idx.value, f) ensures f == x.frame {
      SaidOnce(s0, es, x.idx.value, f, x.frame);
    }
  }
}
