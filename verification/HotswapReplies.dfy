/**
  * What the hotswap manager answers. Every reply is stated by the history of the run: which
  * prepare registered the live incarnation, whether a drain or a task has come since, and which of
  * its tasks are in flight.
  */
module HotswapReplies {
  import opened Bytes
  import opened Names
  import opened Hotswap
  import opened HotswapRuns

  /** The tasks in flight in the live incarnation of key `k`. */
  function InFlight(es: seq<Event>, k: Str): set<nat> {
    set t | t in Exec(INITIAL, es).tasks && Exec(INITIAL, es).tasks[t].key == k
  }

  /** After the run, an incarnation of `k` is registered. */
  predicate Alive(es: seq<Event>, k: Str) { k in Exec(INITIAL, es).mgr.modules }

  /** Event `p` is the last registration of `k` in the run. */
  predicate LastRegistration(es: seq<Event>, k: Str, p: nat) {
    RegistersKey(es, p, k) && forall q :: p < q < |es| ==> !RegistersKey(es, q, k)
  }

  /** Among the first `n` events, event `d` drained `key` or brought it a task, and none registered it
      since. */
  predicate UsedAt(es: seq<Event>, n: nat, key: Str, d: nat) {
    && d < n <= |es|
    && (es[d].EDrain? || es[d].EAdmit?) && MakeKey(es[d].m) == key
    && forall p :: d < p < n ==> !RegistersKey(es, p, key)
  }

  /** Among the first `n` events, a drain or a task of `key` followed its last registration. */
  ghost predicate UsedSince(es: seq<Event>, n: nat, key: Str) {
    exists d :: UsedAt(es, n, key, d)
  }

  // ----- Prepared means unused -----

  lemma StepKeepsPrepared(s: System, e: Event, k: Str)
    requires Inv(s) && Enabled(s, e) && k in Next(s, e).mgr.modules
    requires !(e.EPrepare? && Creates(s.mgr, e.m) && MakeKey(e.m) == k)
    requires !((e.EDrain? || e.EAdmit?) && MakeKey(e.m) == k)
    ensures k in s.mgr.modules
    ensures Next(s, e).mgr.modules[k].state == Prepared <==> s.mgr.modules[k].state == Prepared
  {
    hide Lease, MakeKey, TasksOf, Roomy, Next;
    StepKeepsIdentity(s, e, k);
    assert RecordOk(s, k);
    if KeyOf(s, e) != k { OthersUntouched(s, e, k); } else { OwnStepKeepsPrepared(s, e, k); }
  }

  lemma OwnStepKeepsPrepared(s: System, e: Event, k: Str)
    requires Inv(s) && Enabled(s, e) && k in s.mgr.modules && k in Next(s, e).mgr.modules && KeyOf(s, e) == k
    requires !(e.EPrepare? && Creates(s.mgr, e.m)) && !e.EDrain? && !e.EAdmit?
    ensures Next(s, e).mgr.modules[k].state == Prepared <==> s.mgr.modules[k].state == Prepared
  {
    hide Lease, MakeKey, TasksOf, Roomy;
    assert RecordOk(s, k);
    if e.EPrepare? && Named(e.m) { PrepareLive(s, e.m, e.gpu); }
  }

  /** A drain or a task leaves no record Prepared. */
  lemma UsedRecord(s: System, e: Event, k: Str)
    requires Inv(s) && (e.EDrain? || e.EAdmit?) && MakeKey(e.m) == k && k in Next(s, e).mgr.modules
    ensures Next(s, e).mgr.modules[k].state != Prepared
  {
    hide Lease, MakeKey, TasksOf, Roomy;
    if k in s.mgr.modules { assert RecordOk(s, k); }
  }

  lemma UsedSinceStep(es: seq<Event>, n: nat, key: Str)
    requires 0 < n <= |es|
    ensures RegistersKey(es, n - 1, key) ==> !UsedSince(es, n, key)
    ensures (es[n - 1].EDrain? || es[n - 1].EAdmit?) && MakeKey(es[n - 1].m) == key ==> UsedSince(es, n, key)
    ensures !RegistersKey(es, n - 1, key)
            && !((es[n - 1].EDrain? || es[n - 1].EAdmit?) && MakeKey(es[n - 1].m) == key) ==>
              (UsedSince(es, n, key) <==> UsedSince(es, n - 1, key))
  {
    assert RegistersKey(es, n - 1, key) ==> es[n - 1].EPrepare?;
    hide MakeKey, RegistersKey;
    var e := es[n - 1];
    if (e.EDrain? || e.EAdmit?) && MakeKey(e.m) == key {
      assert UsedAt(es, n, key, n - 1);
    } else if !RegistersKey(es, n - 1, key) {
      if UsedSince(es, n, key) {
        var d :| UsedAt(es, n, key, d);
        assert UsedAt(es, n - 1, key, d);
      }
      if UsedSince(es, n - 1, key) {
        var d :| UsedAt(es, n - 1, key, d);
        assert UsedAt(es, n, key, d);
      }
    }
  }

  /** After every run, a stored record is Prepared if and only if neither a drain nor a task of its key
      followed its last registration. */
  lemma {:induction false} PreparedIffUnused(es: seq<Event>, n: nat, key: Str)
    requires Legal(INITIAL, es) && n <= |es| && key in Before(es, n).mgr.modules
    ensures Before(es, n).mgr.modules[key].state == Prepared <==> !UsedSince(es, n, key)
    decreases n
  {
    NothingAtFirst(es);
    hide Exec, Inv, Next, Lease, MakeKey, Before, Prepare, Creates, UsedSince, Enabled, Legal;
    var s, e := Before(es, n - 1), es[n - 1];
    OneMore(es, n - 1);
    BeforeInv(es, n - 1);
    LegalStep(s, es[n - 1..]);
    UsedSinceStep(es, n, key);
    if RegistersKey(es, n - 1, key) {
      Registered(s, e.m, e.gpu);
    } else if (e.EDrain? || e.EAdmit?) && MakeKey(e.m) == key {
      UsedRecord(s, e, key);
    } else {
      StepKeepsPrepared(s, e, key);
      PreparedIffUnused(es, n - 1, key);
    }
  }

  // ----- the live record by history -----

  /** The state of a live record by what has happened since its registration. */
  ghost function StateBy(es: seq<Event>, k: Str): ModuleState {
    if DrainedSince(es, |es|, k) then (if InFlight(es, k) == {} then Stopped else Draining)
    else if UsedSince(es, |es|, k) then Active else Prepared
  }

  /** After every run, all of a live record: registration, state and count. */
  lemma LiveRecord(es: seq<Event>, k: Str) returns (p: nat)
    requires Legal(INITIAL, es) && Alive(es, k)
    ensures p < |es| && LastRegistration(es, k, p) && |InFlight(es, k)| < 0x1_0000_0000
    ensures Exec(INITIAL, es).mgr.modules[k] ==
            Record(es[p].m, StateBy(es, k), es[p].gpu, ReplyTo(es, p).lease, |InFlight(es, k)|)
  {
    InitialInv();
    RunInv(INITIAL, es);
    assert es[..|es|] == es;
    var s := Exec(INITIAL, es);
    assert RecordOk(s, k);
    assert InFlight(es, k) == TasksOf(s.tasks, k);
    hide Exec, Legal, Inv, MakeKey, Lease, DrainedSince, UsedSince, InFlight, TasksOf;
    p := RecordsComeFromPrepares(es, |es|, k);
    ClosedIffDrained(es, |es|, k);
    PreparedIffUnused(es, |es|, k);
    if |InFlight(es, k)| == 0 { assert InFlight(es, k) == {}; } else { assert InFlight(es, k) != {}; }
  }

  // ----- the replies -----

  /** The number of registrations a run has made. */
  function Registrations(es: seq<Event>): nat { |Exec(INITIAL, es).made| }

  lemma FewInFlight(es: seq<Event>, k: Str)
    requires Legal(INITIAL, es)
    ensures |InFlight(es, k)| < 0x1_0000_0000
  {
    InitialInv();
    RunInv(INITIAL, es);
    assert InFlight(es, k) == TasksOf(Exec(INITIAL, es).tasks, k);
  }

  /** After every run, what a prepare answers: a nameless module is rejected; a live module that was
      not drained is reported as it is; a drained one is refused as busy; any other is registered, with
      the GPU it was given and the lease of the next serial. */
  lemma PrepareAnswers(es: seq<Event>, m: Mod, gpu: i32) returns (p: nat)
    requires Legal(INITIAL, es)
    ensures |InFlight(es, MakeKey(m))| < 0x1_0000_0000
    ensures var g, k := Exec(INITIAL, es).mgr, MakeKey(m);
            var (g', r) := Prepare(g, m, gpu);
            var named := m.sandboxId != [] && m.moduleId != [] && m.version != [];
            && (!named ==> g' == g && r == Reply(Rejected, Unknown, -1, 0, []))
            && (Alive(es, k) ==> p < |es| && LastRegistration(es, k, p))
            && (named && Alive(es, k) && !DrainedSince(es, |es|, k) ==>
                  && g' == g
                  && r == Reply(Ok, StateBy(es, k), es[p].gpu, |InFlight(es, k)|, ReplyTo(es, p).lease))
            && (named && Alive(es, k) && DrainedSince(es, |es|, k) ==>
                  g' == g && r == Reply(Busy, StateBy(es, k), -1, 0, []))
            && (named && !Alive(es, k) ==>
                  var lease := Lease(m, (Registrations(es) + 1) % 0x1_0000_0000_0000_0000);
                  && r == Reply(Ok, Prepared, gpu, 0, lease)
                  && g'.modules == g.modules[k := Record(m, Prepared, gpu, lease, 0)])
  {
    InitialInv();
    RunInv(INITIAL, es);
    FewInFlight(es, MakeKey(m));
    p := 0;
    if Alive(es, MakeKey(m)) { p := LiveRecord(es, MakeKey(m)); }
    hide Exec, Legal, MakeKey, Lease, DrainedSince, UsedSince, InFlight, TasksOf, Roomy, RecordOk;
  }

  /** After every run, what a drain answers: a live module is closed, and its state, tasks in flight,
      GPU and lease are reported; any other is not found. */
  lemma DrainAnswers(es: seq<Event>, m: Mod) returns (p: nat)
    requires Legal(INITIAL, es)
    ensures |InFlight(es, MakeKey(m))| < 0x1_0000_0000
    ensures var g, k := Exec(INITIAL, es).mgr, MakeKey(m);
            var (g', r) := Drain(g, m);
            && (!Alive(es, k) ==> g' == g && r == Reply(NotFound, Unknown, -1, 0, []))
            && (Alive(es, k) ==>
                  var state := if InFlight(es, k) == {} then Stopped else Draining;
                  && p < |es| && LastRegistration(es, k, p)
                  && r == Reply(Ok, state, es[p].gpu, |InFlight(es, k)|, ReplyTo(es, p).lease)
                  && g' == Manager(g.modules[k := g.modules[k].(state := state)], g.nextLease))
  {
    FewInFlight(es, MakeKey(m));
    p := 0;
    if Alive(es, MakeKey(m)) {
      p := LiveRecord(es, MakeKey(m));
      NoneMeansEmpty(InFlight(es, MakeKey(m)));
    }
    hide Exec, Legal, MakeKey, Lease, DrainedSince, UsedSince, InFlight, TasksOf;
  }

  lemma NoneMeansEmpty(s: set<nat>)
    ensures |s| == 0 <==> s == {}
  {
  }

  /** After every run, what a release answers: a live module without tasks is erased and reported as
      Released; one with tasks is refused as busy and reported as it is; any other is not found. */
  lemma ReleaseAnswers(es: seq<Event>, m: Mod) returns (p: nat)
    requires Legal(INITIAL, es)
    ensures |InFlight(es, MakeKey(m))| < 0x1_0000_0000
    ensures var g, k := Exec(INITIAL, es).mgr, MakeKey(m);
            var (g', r) := Release(g, m);
            && (!Alive(es, k) ==> g' == g && r == Reply(NotFound, Unknown, -1, 0, []))
            && (Alive(es, k) ==> p < |es| && LastRegistration(es, k, p))
            && (Alive(es, k) && InFlight(es, k) == {} ==>
                  && r == Reply(Ok, Released, es[p].gpu, 0, ReplyTo(es, p).lease)
                  && g' == Manager(g.modules - {k}, g.nextLease))
            && (Alive(es, k) && InFlight(es, k) != {} ==>
                  && g' == g
                  && r == Reply(Busy, StateBy(es, k), es[p].gpu, |InFlight(es, k)|, ReplyTo(es, p).lease))
  {
    FewInFlight(es, MakeKey(m));
    p := 0;
    if Alive(es, MakeKey(m)) {
      p := LiveRecord(es, MakeKey(m));
      NoneMeansEmpty(InFlight(es, MakeKey(m)));
    }
    hide Exec, Legal, MakeKey, Lease, DrainedSince, UsedSince, InFlight, TasksOf;
  }

  /** After every run, what a query answers: all of a live module, or not found. */
  lemma QueryAnswers(es: seq<Event>, m: Mod) returns (p: nat)
    requires Legal(INITIAL, es)
    ensures |InFlight(es, MakeKey(m))| < 0x1_0000_0000
    ensures var g, k := Exec(INITIAL, es).mgr, MakeKey(m);
            var r := Query(g, m);
            && (!Alive(es, k) ==> r == Reply(NotFound, Unknown, -1, 0, []))
            && (Alive(es, k) ==>
                  && p < |es| && LastRegistration(es, k, p)
                  && r == Reply(Ok, StateBy(es, k), es[p].gpu, |InFlight(es, k)|, ReplyTo(es, p).lease))
  {
    FewInFlight(es, MakeKey(m));
    p := 0;
    if Alive(es, MakeKey(m)) { p := LiveRecord(es, MakeKey(m)); }
    hide Exec, Legal, MakeKey, Lease, DrainedSince, UsedSince, InFlight, TasksOf;
  }

  /** After every run, what a task is told: no such module; draining, or rejected, according to
      whether tasks are left in a drained one; otherwise it is admitted on the module's GPU, which
      makes the module Active with one task more. */
  lemma AdmitAnswers(es: seq<Event>, m: Mod) returns (p: nat)
    requires Legal(INITIAL, es)
    ensures |InFlight(es, MakeKey(m))| < 0x1_0000_0000
    ensures var g, k := Exec(INITIAL, es).mgr, MakeKey(m);
            var (g', a) := Admit(g, m);
            && (!Alive(es, k) ==> g' == g && a == ModuleNotFound)
            && (Alive(es, k) ==> p < |es| && LastRegistration(es, k, p))
            && (Alive(es, k) && DrainedSince(es, |es|, k) ==>
                  g' == g && a == if InFlight(es, k) == {} then TaskRejected else ModuleDraining)
            && (Alive(es, k) && !DrainedSince(es, |es|, k) ==>
                  var n := (|InFlight(es, k)| + 1) % 0x1_0000_0000;
                  && a == Admitted(es[p].gpu)
                  && g' == Manager(g.modules[k := g.modules[k].(state := Active, active := n)], g.nextLease))
  {
    FewInFlight(es, MakeKey(m));
    p := 0;
    if Alive(es, MakeKey(m)) {
      p := LiveRecord(es, MakeKey(m));
      NoneMeansEmpty(InFlight(es, MakeKey(m)));
    }
    hide Exec, Legal, MakeKey, Lease, DrainedSince, UsedSince, InFlight, TasksOf;
  }

  /** After every run, what the completion of a task in flight does: its module has one task less, and
      is Stopped if it was drained and this was the last. */
  lemma CompleteEffect(es: seq<Event>, t: nat)
    requires Legal(INITIAL, es) && t in Exec(INITIAL, es).tasks
    ensures 0 < |InFlight(es, Exec(INITIAL, es).tasks[t].key)| < 0x1_0000_0000
    ensures var s := Exec(INITIAL, es);
            var k := s.tasks[t].key;
            var n := |InFlight(es, k)| - 1;
            && Alive(es, k)
            && Complete(s.mgr, k) == Manager(
                 s.mgr.modules[k := s.mgr.modules[k].(
                   state := if DrainedSince(es, |es|, k) && n == 0 then Stopped else StateBy(es, k), active := n)],
                 s.mgr.nextLease)
  {
    CompletionFindsItsIncarnation(es, t);
    var s := Exec(INITIAL, es);
    var k := s.tasks[t].key;
    var p := LiveRecord(es, k);
    assert t in InFlight(es, k);
    hide Exec, Legal, MakeKey, Lease, DrainedSince, UsedSince, InFlight, TasksOf;
  }
}
