/**
  * No session gets stuck: from every reachable state the session can be wound down to `Closed`
  * without any write failing or any handler throwing. So the write mutex, the response threads
  * and the final join never wait for one another in a circle. And once winding down has begun,
  * every schedule reaches `Closed` in boundedly many steps, whatever fails on the way.
  */
module SessionClose {
  import opened Bytes
  import opened Broker
  import opened Session

  function ReaderRank(r: Reader): nat {
    match r
    case Replying(_, _, _) => 6
    case RHolding(_, _, _) => 5
    case RHalfSent(_, _, _) => 4
    case Reading => 3
    case Ending => 2
    case Joining => 1
    case Closed => 0
  }

  /** Pending response threads that have not finished. */
  function Busy(s: Sess): set<nat> {
    set t | t in s.pending && t in s.threads && s.threads[t] != Finished
  }

  /** How many writes the owner of the mutex has left. */
  function WritesLeft(s: Sess): nat {
    if s.lock.None? then 0 else if Owns(s, s.lock.value, false) then 2 else 1
  }

  /** `s'` is closer to the end than `s`. */
  predicate Closer(s': Sess, s: Sess) {
    || ReaderRank(s'.reader) < ReaderRank(s.reader)
    || (s'.reader == s.reader && |s'.pending| < |s.pending|)
    || (s'.reader == s.reader && s'.pending == s.pending && |Busy(s')| < |Busy(s)|)
    || (s'.reader == s.reader && s'.pending == s.pending && Busy(s') == Busy(s) && WritesLeft(s') < WritesLeft(s))
  }

  /** A step in which nothing goes wrong and nothing new comes in. */
  predicate Calm(e: Step) {
    && !e.Receive? && !e.StartFails? && !e.Refuse? && !e.WriteFails?
    && (e.Respond? ==> e.r.Some?)
  }

  ghost predicate Advances(s: Sess, e: Step) {
    Enabled(s, e) && Calm(e) && Closer(Next(s, e), s)
  }

  /** A thread leaves the busy set and nothing else about the pending threads changes. */
  lemma OneLess(s: Sess, s': Sess, t: nat)
    requires t in s.pending && t in s.threads && s.threads[t] != Finished
    requires s'.pending == s.pending && s'.reader == s.reader && s'.threads == s.threads[t := Finished]
    ensures Closer(s', s)
  {
    assert Busy(s') == Busy(s) - {t};
  }

  /** Whoever owns the mutex can go on writing. */
  lemma OwnerAdvances(s: Sess) returns (e: Step)
    requires LockOk(s) && PendingOk(s) && s.lock.Some?
    ensures Advances(s, e)
  {
    hide Be;
    var o := s.lock.value;
    assert Owns(s, o, false) || Owns(s, o, true);
    if Owns(s, o, false) {
      e := WriteLen(o);
      assert Busy(Next(s, e)) == Busy(s);
    } else {
      e := WriteBody(o);
      if o.TheThread? { OneLess(s, Next(s, e), o.t); }
    }
  }

  /** With the mutex free, the reader finishes its reply or stops reading. */
  lemma ReaderAdvances(s: Sess) returns (e: Step)
    requires LockOk(s) && s.lock == None && s.reader != Joining && s.reader != Closed
    ensures Advances(s, e)
  {
    assert !Owns(s, TheReader, false) && !Owns(s, TheReader, true);
    e := if s.reader.Replying? then Acquire(TheReader) else Stop;
  }

  /** With writes disabled and the mutex free, a pending thread finishes or is joined. */
  lemma ThreadAdvances(s: Sess, t: nat) returns (e: Step)
    requires LockOk(s) && PendingOk(s) && Numbered(s) && s.lock == None && s.reader == Joining && t in s.pending
    ensures Advances(s, e)
  {
    hide Encoded;
    assert !Owns(s, TheThread(t), false) && !Owns(s, TheThread(t), true);
    match s.threads[t]
    case Computing =>
      e := Respond(t, Some(Response(s.jobs[t].taskId, Error, -1, 0, [], [], Cpu, false)));
      OneLess(s, Next(s, e), t);
    case Ready(_) =>
      e := Acquire(TheThread(t));
      OneLess(s, Next(s, e), t);
    case _ =>
      e := Reap(t);
  }

  lemma Advance(s: Sess) returns (e: Step)
    requires Inv(s) && s.reader != Closed
    ensures Advances(s, e)
  {
    assert Numbered(s);
    hide LockOk, StreamOk, RepliesOk, OnceOk, Numbered, Advances;
    if s.lock.Some? {
      e := OwnerAdvances(s);
    } else if s.reader != Joining {
      e := ReaderAdvances(s);
    } else if s.pending != {} {
      var t :| t in s.pending;
      e := ThreadAdvances(s, t);
    } else {
      e := Close;
      CloseAdvances(s);
    }
  }

  lemma CloseAdvances(s: Sess)
    requires s.reader == Joining && s.pending == {}
    ensures Advances(s, Close)
  {
  }

  /** From every state with the session invariant there is a legal continuation to `Closed`. */
  lemma {:induction false} CanClose(s: Sess) returns (es: seq<Step>)
    requires Inv(s)
    ensures Legal(s, es) && Exec(s, es).reader == Closed
    ensures forall e :: e in es ==> Calm(e)
    decreases ReaderRank(s.reader), |s.pending|, |Busy(s)|, WritesLeft(s)
  {
    hide Inv, Next, Enabled, Busy, WritesLeft;
    if s.reader == Closed {
      es := [];
    } else {
      var e := Advance(s);
      StepInv(s, e);
      var rest := CanClose(Next(s, e));
      es := [e] + rest;
      assert es[0] == e && es[1..] == rest;
    }
  }

  /** Every run of every session can be continued to a closed socket. */
  lemma EveryRunCanClose(max: nat, lim: Limits, es: seq<Step>) returns (more: seq<Step>)
    requires Legal(Fresh(max, lim), es)
    ensures Legal(Exec(Fresh(max, lim), es), more) && Exec(Exec(Fresh(max, lim), es), more).reader == Closed
    ensures forall e :: e in more ==> Calm(e)
  {
    hide Inv, Exec, Legal;
    FreshInv(max, lim);
    RunInv(Fresh(max, lim), es);
    more := CanClose(Exec(Fresh(max, lim), es));
  }

  // ----- winding down, whatever the schedule -----

  /** The most steps left once writes are disabled. */
  function Budget(s: Sess): nat {
    if s.reader == Closed then 0 else 1 + |s.pending| + |Busy(s)| + WritesLeft(s)
  }

  predicate Winding(s: Sess) { s.reader == Joining || s.reader == Closed }

  /** The effect of a step while winding down. */
  ghost predicate Winds(s: Sess, e: Step) {
    Enabled(s, e) && s.reader == Joining && Winding(Next(s, e)) && Budget(Next(s, e)) < Budget(s)
  }

  /** A step that finishes busy thread `t` uses up budget. */
  lemma FinishWinds(s: Sess, s': Sess, t: nat)
    requires s.reader == Joining && t in s.pending && t in s.threads && s.threads[t] != Finished
    requires s'.pending == s.pending && s'.reader == s.reader && s'.threads == s.threads[t := Finished]
    requires s'.lock == None || (s'.lock == s.lock && s.lock != Some(TheThread(t)))
    ensures Budget(s') < Budget(s)
  {
    assert Busy(s') == Busy(s) - {t};
    assert WritesLeft(s') <= WritesLeft(s);
  }

  lemma WriteWinds(s: Sess, e: Step)
    requires LockOk(s) && PendingOk(s) && Enabled(s, e) && s.reader == Joining
    requires e.WriteLen? || e.WriteBody? || e.WriteFails?
    ensures Winds(s, e)
  {
    hide Be;
    assert s.lock == Some(e.o);
    if e.WriteLen? { assert Busy(Next(s, e)) == Busy(s); } else { FinishWinds(s, Next(s, e), e.o.t); }
  }

  lemma FinishesDisabled(s: Sess, e: Step, t: nat)
    requires LockOk(s) && PendingOk(s) && Enabled(s, e) && s.reader == Joining
    requires (e.Respond? && e.t == t) || e == Acquire(TheThread(t))
    ensures Winds(s, e)
  {
    hide Encoded;
    assert !Owns(s, TheThread(t), false) && !Owns(s, TheThread(t), true);
    FinishWinds(s, Next(s, e), t);
  }

  lemma ReapWinds(s: Sess, e: Step)
    requires PendingOk(s) && Enabled(s, e) && s.reader == Joining && (e.Reap? || e.Close?)
    ensures Winds(s, e)
  {
    var s' := Next(s, e);
    if e.Reap? {
      assert Busy(s') == Busy(s);
      assert WritesLeft(s') == WritesLeft(s);
    }
  }

  lemma StepWinds(s: Sess, e: Step)
    requires Inv(s) && Enabled(s, e) && Winding(s)
    ensures Winds(s, e)
  {
    NothingAfterClose(s, e);
    hide StreamOk, RepliesOk, OnceOk, LockOk, PendingOk, Winds, Next, Budget;
    match e
    case WriteLen(_) => WriteWinds(s, e);
    case WriteBody(_) => WriteWinds(s, e);
    case WriteFails(_, _) => WriteWinds(s, e);
    case Respond(t, _) => FinishesDisabled(s, e, t);
    case Acquire(o) => FinishesDisabled(s, e, o.t);
    case _ => ReapWinds(s, e);
  }

  lemma NothingAfterClose(s: Sess, e: Step)
    requires LockOk(s) && PendingOk(s) && Enabled(s, e)
    ensures s.reader != Closed
  {
    hide Encoded;
  }

  /** Once writes are disabled, every schedule is bounded: it has at most `Budget(s)` steps, whether
      writes fail and handlers throw or not, and when no step is left the socket is closed. */
  lemma {:induction false} EveryScheduleCloses(s: Sess, es: seq<Step>)
    requires Inv(s) && Winding(s) && Legal(s, es)
    ensures Winding(Exec(s, es)) && |es| + Budget(Exec(s, es)) <= Budget(s)
    ensures Exec(s, es).reader == Closed <==> forall e :: !Enabled(Exec(s, es), e)
    decreases |es|
  {
    hide Inv, Next, Enabled, Budget;
    if es == [] {
      Inert(s);
    } else {
      StepWinds(s, es[0]);
      StepInv(s, es[0]);
      EveryScheduleCloses(Next(s, es[0]), es[1..]);
    }
  }

  /** Exactly in a closed session nothing can happen any more. */
  lemma Inert(s: Sess)
    requires Inv(s)
    ensures s.reader == Closed <==> forall e :: !Enabled(s, e)
  {
    if s.reader == Closed {
      forall e ensures !Enabled(s, e) { if Enabled(s, e) { NothingAfterClose(s, e); } }
    } else {
      var e := Advance(s);
    }
  }

  /** The budget is at most twice the cap on pending responses, and three. */
  lemma BudgetBound(s: Sess)
    requires Inv(s)
    ensures Budget(s) <= 2 * s.max + 3
  {
    hide LockOk, StreamOk, RepliesOk, OnceOk;
    SubsetSize(Busy(s), s.pending);
  }

  lemma {:induction false} SubsetSize(a: set<nat>, b: set<nat>)
    requires a <= b
    ensures |a| <= |b|
    decreases a
  {
    if a != {} {
      var x :| x in a;
      SubsetSize(a - {x}, b - {x});
    }
  }

  // ----- what winding down rules out -----

  /** The reader will read no more: its last reply is on its way, or it is past that. */
  predicate Finishing(s: Sess) {
    || (Replies(s.reader) && s.reader.last)
    || s.reader == Ending || s.reader == Joining || s.reader == Closed
  }

  /** Exactly what ends reading: a stop, a thread that cannot be started, a refusal marked as the last,
      or a refusal or rejection too large to be sent. */
  lemma FinishesIff(s: Sess, e: Step)
    requires Enabled(s, e) && !Finishing(s)
    ensures Finishing(Next(s, e)) <==>
            || e.Stop? || e.StartFails?
            || (e.Refuse? && (e.last || Oversized(e.err, e.proto, s.lim)))
            || (e.Receive? && |s.pending| >= s.max && Oversized(e.busy, e.job.proto, s.lim))
  {
    hide Encoded, Oversized, SaysResponse, Be;
    if e.Refuse? { EncodedMeans(e.err, e.proto, s.lim); }
    if e.Receive? { EncodedMeans(e.busy, e.job.proto, s.lim); }
  }

  /** An ordinary refusal is not: once its reply is written or given up, the reader reads on. */
  lemma RefusalReadsOn(s: Sess, e: Step)
    requires Enabled(s, e) && (e.WriteBody? || e.WriteFails?) && e.o == TheReader && !s.reader.last
    ensures Next(s, e).reader == Reading
  {
  }

  lemma FinishingStep(s: Sess, e: Step)
    requires Enabled(s, e) && Finishing(s)
    ensures Finishing(Next(s, e)) && Next(s, e).jobs == s.jobs
    ensures !e.Receive? && !e.StartFails? && !e.Refuse?
  {
    hide Encoded, Be;
  }

  /** Over every run after that, no request is read and no frame refused. */
  lemma {:induction false} NothingReadAfterLast(s: Sess, es: seq<Step>)
    requires Legal(s, es) && Finishing(s)
    ensures Finishing(Exec(s, es)) && Exec(s, es).jobs == s.jobs
    ensures forall e :: e in es ==> !e.Receive? && !e.StartFails? && !e.Refuse?
    decreases |es|
  {
    hide Next, Enabled, Finishing;
    if es != [] {
      FinishingStep(s, es[0]);
      NothingReadAfterLast(Next(s, es[0]), es[1..]);
      assert forall e :: e in es ==> e == es[0] || e in es[1..];
    }
  }

  /** Frames sent, and the one whose writer is inside the mutex. */
  function Begun(s: Sess): nat { |s.sent| + if s.lock.Some? then 1 else 0 }

  lemma NothingBegins(s: Sess, e: Step)
    requires Inv(s) && Enabled(s, e) && Winding(s)
    ensures Begun(Next(s, e)) <= Begun(s)
  {
    NothingAfterClose(s, e);
    hide StreamOk, RepliesOk, OnceOk, Encoded, Be;
    if e.WriteLen? || e.WriteBody? || e.WriteFails? { assert s.lock == Some(e.o); }
  }

  /** Once writes are disabled no frame is begun: over every run, at most the one whose writer already
      holds the mutex is still sent. */
  lemma {:induction false} NoFrameBegunAfterStop(s: Sess, es: seq<Step>)
    requires Inv(s) && Winding(s) && Legal(s, es)
    ensures Begun(Exec(s, es)) <= Begun(s)
    decreases |es|
  {
    hide Inv, Next, Enabled, Begun;
    if es != [] {
      NothingBegins(s, es[0]);
      StepWinds(s, es[0]);
      StepInv(s, es[0]);
      NoFrameBegunAfterStop(Next(s, es[0]), es[1..]);
    }
  }
}
