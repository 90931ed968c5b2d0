/**
  * Safe hotswap over whole interleaved runs: no release under a running task, no admission after
  * a drain, every incarnation only moves forward, and a drain ends in Stopped exactly when its
  * last task completes.
  */
module HotswapRuns {
  import opened Bytes
  import opened Names
  import opened Hotswap

  // ----- what every reachable state guarantees -----

  /** A completing task finds the very incarnation that admitted it: both guards of the second
      critical section of `handle_task` hold in every reachable state. */
  lemma CompletionFindsItsIncarnation(es: seq<Event>, t: nat)
    requires Legal(INITIAL, es) && t in Exec(INITIAL, es).tasks
    ensures var s := Exec(INITIAL, es);
            var x := s.tasks[t];
            && x.key in s.mgr.modules
            && s.mgr.modules[x.key].active > 0
            && x.key in s.born && s.born[x.key] == x.born < |s.made|
            && s.mgr.modules[x.key].lease == Lease(s.made[x.born], Serial(x.born))
  {
    InitialInv();
    RunInv(INITIAL, es);
    var s := Exec(INITIAL, es);
    var x := s.tasks[t];
    assert RecordOk(s, x.key);
    CompletedCount(s.tasks, t, x.key);
  }

  /** In every reachable state the counter is the number of tasks in flight, Prepared and
      Stopped records are idle, Draining ones are not, and Released is never stored. */
  lemma CountersAreExact(es: seq<Event>, key: Str)
    requires Legal(INITIAL, es) && key in Exec(INITIAL, es).mgr.modules
    ensures var s := Exec(INITIAL, es);
            var rec := s.mgr.modules[key];
            && rec.active == |TasksOf(s.tasks, key)|
            && rec.state in {Prepared, Active, Draining, Stopped}
            && (rec.state in {Prepared, Stopped} ==> rec.active == 0)
            && (rec.state == Draining ==> rec.active > 0)
  {
    InitialInv();
    RunInv(INITIAL, es);
    assert RecordOk(Exec(INITIAL, es), key);
  }

  /** `release_module` answers Ok exactly when the module is registered and no task runs in it;
      no drain is needed beforehand, and no acknowledgement token is looked at. */
  lemma ReleaseOkIff(s: System, m: Mod)
    requires Inv(s)
    ensures Release(s.mgr, m).1.status == Ok <==>
            MakeKey(m) in s.mgr.modules && forall t :: t in s.tasks ==> s.tasks[t].key != MakeKey(m)
  {
    var key := MakeKey(m);
    if key in s.mgr.modules {
      assert RecordOk(s, key);
      if |TasksOf(s.tasks, key)| == 0 { IdleHasNoTask(s.tasks, key); }
      assert (forall t :: t in s.tasks ==> s.tasks[t].key != key) ==> TasksOf(s.tasks, key) == {};
    }
  }

  // ----- a step touches one key -----

  /** The key an event acts on. */
  function KeyOf(s: System, e: Event): Str {
    match e
    case EAdmit(_, m) => MakeKey(m)
    case EComplete(t) => if t in s.tasks then s.tasks[t].key else []
    case _ => MakeKey(e.m)
  }

  function TasksIn(s: System, k: Str, b: nat): set<nat> {
    set t | t in s.tasks && s.tasks[t] == Ticket(k, b)
  }

  predicate SameAt(s: System, s': System, k: Str) {
    && (k in s.mgr.modules <==> k in s'.mgr.modules)
    && (k in s.mgr.modules ==> s.mgr.modules[k] == s'.mgr.modules[k])
    && (k in s.born <==> k in s'.born)
    && (k in s.born ==> s.born[k] == s'.born[k])
  }

  /** An event leaves every record but its own exactly as it was. */
  lemma OthersUntouched(s: System, e: Event, k: Str)
    requires Inv(s) && Enabled(s, e) && k != KeyOf(s, e)
    ensures SameAt(s, Next(s, e), k)
    ensures forall b :: TasksIn(Next(s, e), k, b) == TasksIn(s, k, b)
  {
    hide Lease, MakeKey, TasksOf, Roomy, RecordOk;
  }

  /** So for ids without ':' in the sandbox and module parts, operations on one module version
      never change another's record. */
  lemma ModulesIndependent(s: System, m: Mod, k: Mod, e: Event)
    requires Inv(s) && Enabled(s, e) && KeyOf(s, e) == MakeKey(m) && m != k
    requires COLON !in m.sandboxId && COLON !in m.moduleId && COLON !in k.sandboxId && COLON !in k.moduleId
    ensures SameAt(s, Next(s, e), MakeKey(k))
  {
    hide Next, Inv, Enabled, SameAt, MakeKey;
    if MakeKey(m) == MakeKey(k) { ColonFreeKeysInjective(m, k); }
    OthersUntouched(s, e, MakeKey(k));
  }

  /** Among modules that can be registered, one that is `Solo` and any other never change each
      other's record. */
  lemma SoloModulesIndependent(s: System, m: Mod, k: Mod, e: Event)
    requires Inv(s) && Enabled(s, e) && KeyOf(s, e) == MakeKey(m) && m != k
    requires Named(m) && Named(k) && (Solo(m) || Solo(k))
    ensures SameAt(s, Next(s, e), MakeKey(k))
  {
    hide Next, Inv, Enabled, SameAt, MakeKey;
    NamedKeyIsUnambiguousIff(m);
    NamedKeyIsUnambiguousIff(k);
    OthersUntouched(s, e, MakeKey(k));
  }

  // ----- serial numbers of incarnations are never reused -----

  lemma StepSerials(s: System, e: Event, k: Str)
    requires Inv(s)
    ensures s.made <= Next(s, e).made
    ensures k in Next(s, e).born ==>
              (k in s.born && Next(s, e).born[k] == s.born[k]) || Next(s, e).born[k] >= |s.made|
  {
    hide Lease, MakeKey, TasksOf, Roomy, RecordOk;
  }

  lemma {:induction false} RunSerials(s: System, es: seq<Event>, k: Str)
    requires Inv(s) && Legal(s, es)
    ensures s.made <= Exec(s, es).made
    ensures k in Exec(s, es).born ==>
              (k in s.born && Exec(s, es).born[k] == s.born[k]) || Exec(s, es).born[k] >= |s.made|
    decreases |es|
  {
    hide Next, Inv, Roomy, Enabled;
    if es != [] {
      StepSerials(s, es[0], k);
      StepInv(s, es[0]);
      RunSerials(Next(s, es[0]), es[1..], k);
    }
  }

  // ----- incarnations only move forward -----

  function Rank(st: ModuleState): nat {
    match st
    case Prepared => 1
    case Active => 2
    case Draining => 3
    case Stopped => 4
    case _ => 0
  }

  /** `k` is live with serial `b`. */
  predicate Lives(s: System, k: Str, b: nat) {
    k in s.born && k in s.mgr.modules && s.born[k] == b
  }

  /** `q` is a later snapshot of the same incarnation as `r`. */
  predicate Later(r: Record, q: Record) {
    q.mod == r.mod && q.lease == r.lease && q.gpu == r.gpu && Rank(r.state) <= Rank(q.state)
  }

  lemma StepForward(s: System, e: Event, k: Str, b: nat)
    requires Inv(s) && Enabled(s, e) && Lives(s, k, b) && Lives(Next(s, e), k, b)
    ensures Later(s.mgr.modules[k], Next(s, e).mgr.modules[k])
  {
    hide Next, Roomy, RecordOk, Enabled;
    if KeyOf(s, e) != k { OthersUntouched(s, e, k); }
    else if e.EAdmit? || e.EComplete? { TaskStepForward(s, e, k, b); }
    else { LifecycleStepForward(s, e, k, b); }
  }

  lemma TaskStepForward(s: System, e: Event, k: Str, b: nat)
    requires Inv(s) && Enabled(s, e) && Lives(s, k, b) && Lives(Next(s, e), k, b) && (e.EAdmit? || e.EComplete?)
    ensures Later(s.mgr.modules[k], Next(s, e).mgr.modules[k])
  {
    hide Lease, MakeKey, TasksOf, Roomy;
    assert RecordOk(s, k);
  }

  lemma LifecycleStepForward(s: System, e: Event, k: Str, b: nat)
    requires Inv(s) && Lives(s, k, b) && Lives(Next(s, e), k, b) && !e.EAdmit? && !e.EComplete?
    ensures Later(s.mgr.modules[k], Next(s, e).mgr.modules[k])
  {
    hide Lease, MakeKey, TasksOf, Roomy;
    assert RecordOk(s, k);
  }

  /** Over any run, an incarnation keeps its lease and GPU and only moves forward in
      Prepared < Active < Draining < Stopped. */
  lemma {:induction false} OnlyForward(s: System, es: seq<Event>, k: Str, b: nat)
    requires Inv(s) && Legal(s, es) && Lives(s, k, b) && Lives(Exec(s, es), k, b)
    ensures Later(s.mgr.modules[k], Exec(s, es).mgr.modules[k])
    decreases |es|
  {
    hide Next, Roomy, Enabled, RecordOk;
    if es != [] {
      var s1 := Next(s, es[0]);
      StepInv(s, es[0]);
      StillLives(s, es, k, b);
      StepForward(s, es[0], k, b);
      OnlyForward(s1, es[1..], k, b);
    }
  }

  /** An incarnation alive before and after a run was alive after its first step. */
  lemma StillLives(s: System, es: seq<Event>, k: Str, b: nat)
    requires Inv(s) && Legal(s, es) && es != [] && Lives(s, k, b) && Lives(Exec(s, es), k, b)
    ensures Lives(Next(s, es[0]), k, b)
  {
    hide Next, Roomy, Enabled, Legal;
    var s1 := Next(s, es[0]);
    LegalStep(s, es);
    StepInv(s, es[0]);
    StepSerials(s, es[0], k);
    RunSerials(s1, es[1..], k);
    assert RecordOk(s, k);
  }

  lemma LegalStep(s: System, es: seq<Event>)
    requires es != [] && Legal(s, es)
    ensures Enabled(s, es[0]) && Roomy(Next(s, es[0]).tasks) && Legal(Next(s, es[0]), es[1..])
    ensures Exec(s, es) == Exec(Next(s, es[0]), es[1..])
  {
  }

  // ----- nothing is admitted after a drain -----

  /** No task can enter incarnation `b` of `k` any more. */
  predicate Closed(s: System, k: Str, b: nat) {
    b < |s.made| && (Lives(s, k, b) ==> s.mgr.modules[k].state in {Draining, Stopped})
  }

  lemma StepClosed(s: System, e: Event, k: Str, b: nat)
    requires Inv(s) && Enabled(s, e) && Closed(s, k, b)
    ensures Closed(Next(s, e), k, b)
    ensures TasksIn(Next(s, e), k, b) <= TasksIn(s, k, b)
  {
    hide Next, RecordOk, TasksIn;
    if KeyOf(s, e) != k {
      OthersUntouched(s, e, k);
      StepSerials(s, e, k);
    } else {
      StaysClosed(s, e, k, b);
      NoneEnters(s, e, k, b);
    }
  }

  lemma StaysClosed(s: System, e: Event, k: Str, b: nat)
    requires Inv(s) && Enabled(s, e) && Closed(s, k, b) && KeyOf(s, e) == k
    ensures Closed(Next(s, e), k, b)
  {
    hide Lease, MakeKey, TasksOf, Roomy;
    assert k in s.born ==> RecordOk(s, k);
  }

  lemma NoneEnters(s: System, e: Event, k: Str, b: nat)
    requires Inv(s) && Enabled(s, e) && Closed(s, k, b) && KeyOf(s, e) == k
    ensures TasksIn(Next(s, e), k, b) <= TasksIn(s, k, b)
  {
    hide Lease, MakeKey, TasksOf, Roomy, RecordOk;
  }

  /** Once an incarnation is draining or stopped, no run ever admits another task to it: whatever
      tasks it holds later were already in it. Only releasing and preparing anew reopens the
      module, as a different incarnation. */
  lemma {:induction false} NoAdmissionAfterDrain(s: System, es: seq<Event>, k: Str, b: nat)
    requires Inv(s) && Legal(s, es) && Closed(s, k, b)
    ensures Closed(Exec(s, es), k, b)
    ensures TasksIn(Exec(s, es), k, b) <= TasksIn(s, k, b)
    decreases |es|
  {
    hide Next, Inv, Roomy, Enabled, Closed, TasksIn;
    if es != [] {
      LegalStep(s, es);
      StepClosed(s, es[0], k, b);
      StepInv(s, es[0]);
      NoAdmissionAfterDrain(Next(s, es[0]), es[1..], k, b);
    }
  }

  /** A successful drain closes the incarnation it answers for. */
  lemma DrainCloses(s: System, m: Mod)
    requires Inv(s) && Drain(s.mgr, m).1.status == Ok
    ensures var s' := Next(s, EDrain(m));
            && MakeKey(m) in s.born && Closed(s', MakeKey(m), s.born[MakeKey(m)])
            && s'.mgr.modules[MakeKey(m)].state == if TasksIn(s, MakeKey(m), s.born[MakeKey(m)]) == {} then Stopped else Draining
  {
    var key := MakeKey(m);
    assert RecordOk(s, key);
    LiveTasks(s, key);
  }

  /** In a reachable state, the tasks of a key are those of its live incarnation. */
  lemma LiveTasks(s: System, k: Str)
    requires Inv(s) && k in s.born
    ensures TasksOf(s.tasks, k) == TasksIn(s, k, s.born[k])
    ensures s.mgr.modules[k].active == |TasksIn(s, k, s.born[k])|
  {
    assert RecordOk(s, k);
    assert TasksOf(s.tasks, k) == TasksIn(s, k, s.born[k]);
  }

  // ----- a drain ends exactly with the last completion -----

  predicate CompletesIn(s: System, e: Event, k: Str, b: nat) {
    e.EComplete? && e.t in s.tasks && s.tasks[e.t] == Ticket(k, b)
  }

  /** How many tasks of incarnation `b` of `k` complete during the run. */
  function Completions(s: System, es: seq<Event>, k: Str, b: nat): nat
    decreases |es|
  {
    if es == [] then 0
    else (if CompletesIn(s, es[0], k, b) then 1 else 0) + Completions(Next(s, es[0]), es[1..], k, b)
  }

  lemma StepDraining(s: System, e: Event, k: Str, b: nat)
    requires Inv(s) && Enabled(s, e) && Lives(s, k, b) && s.mgr.modules[k].state == Draining
    ensures Lives(Next(s, e), k, b)
    ensures var n := s.mgr.modules[k].active;
            var rec := Next(s, e).mgr.modules[k];
            && rec.active == (if CompletesIn(s, e, k, b) then n - 1 else n)
            && rec.state == (if rec.active == 0 then Stopped else Draining)
  {
    if KeyOf(s, e) != k { OthersUntouched(s, e, k); return; }
    hide Lease, MakeKey, TasksOf, Roomy;
    assert RecordOk(s, k);
  }

  lemma NoneCompletes(s: System, e: Event, k: Str, b: nat)
    requires TasksIn(s, k, b) == {}
    ensures !CompletesIn(s, e, k, b)
  {
    assert forall t :: t in s.tasks && s.tasks[t] == Ticket(k, b) ==> t in TasksIn(s, k, b);
  }

  /** An incarnation without tasks that is closed completes nothing more. */
  lemma {:induction false} NothingLeft(s: System, es: seq<Event>, k: Str, b: nat)
    requires Inv(s) && Legal(s, es) && Closed(s, k, b) && TasksIn(s, k, b) == {}
    ensures Completions(s, es, k, b) == 0
    decreases |es|
  {
    hide Next, Inv, Roomy, Enabled, Closed;
    if es != [] {
      LegalStep(s, es);
      StepClosed(s, es[0], k, b);
      StepInv(s, es[0]);
      assert !CompletesIn(s, es[0], k, b) by { NoneCompletes(s, es[0], k, b); }
      NothingLeft(Next(s, es[0]), es[1..], k, b);
    }
  }

  /** A draining incarnation with `n` tasks, over any run: it never completes more than `n`; until
      then it stays registered, Draining, with the remaining count; from the `n`-th completion on
      it is Stopped for as long as it is registered. */
  lemma {:induction false} DrainProgress(s: System, es: seq<Event>, k: Str, b: nat)
    requires Inv(s) && Legal(s, es) && Lives(s, k, b) && s.mgr.modules[k].state == Draining
    ensures var n := s.mgr.modules[k].active;
            var c := Completions(s, es, k, b);
            var s' := Exec(s, es);
            && c <= n
            && (c < n ==> Lives(s', k, b) && s'.mgr.modules[k].state == Draining && s'.mgr.modules[k].active == n - c)
            && (c == n && Lives(s', k, b) ==> s'.mgr.modules[k].state == Stopped && s'.mgr.modules[k].active == 0)
    decreases |es|
  {
    hide Next, Roomy, Enabled, RecordOk, CompletesIn;
    DrainingBusy(s, k);
    if es != [] {
      LegalStep(s, es);
      var s1 := Next(s, es[0]);
      StepDraining(s, es[0], k, b);
      StepInv(s, es[0]);
      if s1.mgr.modules[k].active > 0 {
        DrainProgress(s1, es[1..], k, b);
      } else {
        StoppedForGood(s1, es[1..], k, b);
      }
    }
  }

  lemma DrainingBusy(s: System, k: Str)
    requires Inv(s) && k in s.born && s.mgr.modules[k].state == Draining
    ensures s.mgr.modules[k].active > 0
  {
    assert RecordOk(s, k);
  }

  lemma StoppedIsEmpty(s: System, k: Str, b: nat)
    requires Inv(s) && Lives(s, k, b)
    ensures Rank(s.mgr.modules[k].state) <= 4
    ensures s.mgr.modules[k].state == Stopped ==>
              s.mgr.modules[k].active == 0 && Closed(s, k, b) && TasksIn(s, k, b) == {}
  {
    assert RecordOk(s, k);
    LiveTasks(s, k);
  }

  lemma StoppedForGood(s: System, es: seq<Event>, k: Str, b: nat)
    requires Inv(s) && Legal(s, es) && Lives(s, k, b) && s.mgr.modules[k].state == Stopped
    ensures Completions(s, es, k, b) == 0
    ensures Lives(Exec(s, es), k, b) ==>
              Exec(s, es).mgr.modules[k].state == Stopped && Exec(s, es).mgr.modules[k].active == 0
  {
    hide Next, Inv, Roomy, Enabled, Legal, Exec, Completions, TasksIn, Closed;
    StoppedIsEmpty(s, k, b);
    NothingLeft(s, es, k, b);
    RunInv(s, es);
    if Lives(Exec(s, es), k, b) {
      OnlyForward(s, es, k, b);
      StoppedIsEmpty(Exec(s, es), k, b);
    }
  }

  /** The state becomes Stopped at the very step that is the last completion. */
  lemma StoppedAtLastCompletion(s: System, es: seq<Event>, t: nat, k: Str, b: nat)
    requires Inv(s) && Legal(s, es) && Lives(s, k, b) && s.mgr.modules[k].state == Draining
    requires Completions(s, es, k, b) == s.mgr.modules[k].active - 1
    requires CompletesIn(Exec(s, es), EComplete(t), k, b)
    ensures Lives(Next(Exec(s, es), EComplete(t)), k, b)
    ensures Next(Exec(s, es), EComplete(t)).mgr.modules[k].state == Stopped
  {
    hide Next, Roomy, RecordOk, Legal, Exec, Completions;
    DrainProgress(s, es, k, b);
    RunInv(s, es);
    StepDraining(Exec(s, es), EComplete(t), k, b);
  }

  // ----- leases -----

  /** The state in which event `p` of a run happens. */
  function Before(es: seq<Event>, p: nat): System
    requires p <= |es|
  {
    Exec(INITIAL, es[..p])
  }

  /** Event `p` of a run registers a new incarnation. */
  predicate Registers(es: seq<Event>, p: nat) {
    p < |es| && es[p].EPrepare? && Creates(Before(es, p).mgr, es[p].m)
  }

  /** The answer to the prepare that is event `p` of a run. */
  function ReplyTo(es: seq<Event>, p: nat): Reply
    requires p < |es| && es[p].EPrepare?
  {
    Prepare(Before(es, p).mgr, es[p].m, es[p].gpu).1
  }

  /** A legal run can be cut anywhere. */
  lemma {:induction false} SplitRun(s: System, es: seq<Event>, p: nat)
    requires p <= |es| && Legal(s, es)
    ensures Legal(s, es[..p]) && Legal(Exec(s, es[..p]), es[p..])
    ensures Exec(s, es) == Exec(Exec(s, es[..p]), es[p..])
    decreases p
  {
    hide Next, Enabled, Roomy;
    if p == 0 {
      assert es[..0] == [] && es[0..] == es;
    } else {
      SplitRun(Next(s, es[0]), es[1..], p - 1);
      assert es[..p][0] == es[0] && es[..p][1..] == es[1..][..p - 1] && es[1..][p - 1..] == es[p..];
    }
  }

  lemma BeforeInv(es: seq<Event>, p: nat)
    requires Legal(INITIAL, es) && p <= |es|
    ensures Inv(Before(es, p)) && Legal(Before(es, p), es[p..])
  {
    hide Inv, Legal, Exec;
    InitialInv();
    SplitRun(INITIAL, es, p);
    RunInv(INITIAL, es[..p]);
  }

  /** A registering prepare answers with the lease of the next serial number. */
  lemma RegisteredLease(s: System, m: Mod, gpu: i32)
    requires Inv(s) && Creates(s.mgr, m)
    ensures Prepare(s.mgr, m, gpu).1 == Reply(Ok, Prepared, gpu, 0, Lease(m, Serial(|s.made|)))
    ensures |Next(s, EPrepare(m, gpu)).made| == |s.made| + 1
  {
    hide Lease, MakeKey, Roomy, TasksOf, RecordOk, Serial;
  }

  /** Between two registrations of a run at least one incarnation is made. */
  lemma SerialsGrow(es: seq<Event>, p: nat, q: nat)
    requires Legal(INITIAL, es) && p < q < |es| && Registers(es, p)
    ensures |Before(es, p).made| < |Before(es, q).made|
  {
    hide Inv, Legal, Exec, Next, Creates;
    BeforeInv(es, p);
    BeforeInv(es, p + 1);
    RegisteredLease(Before(es, p), es[p].m, es[p].gpu);
    OneMore(es, p);
    SplitRun(INITIAL, es[..q], p + 1) by { SplitRun(INITIAL, es, q); }
    assert es[..q][..p + 1] == es[..p + 1];
    RunSerials(Before(es, p + 1), es[..q][p + 1..], []);
  }

  lemma OneMore(es: seq<Event>, p: nat)
    requires Legal(INITIAL, es) && p < |es|
    ensures Before(es, p + 1) == Next(Before(es, p), es[p])
  {
    hide Next, Enabled, Roomy;
    SplitRun(INITIAL, es, p + 1);
    SplitRun(INITIAL, es[..p + 1], p);
    assert es[..p + 1][..p] == es[..p] && es[..p + 1][p..] == [es[p]] && [es[p]][1..] == [];
    assert Exec(Before(es, p), [es[p]]) == Exec(Next(Before(es, p), es[p]), []);
  }

  /** Over every run, two prepares that register incarnations, whether or not these are still
      alive, answer with different leases unless 2^64 registrations lie between them. */
  lemma LeasesDistinct(es: seq<Event>, p: nat, q: nat)
    requires Legal(INITIAL, es) && p < q < |es| && Registers(es, p) && Registers(es, q)
    requires |Before(es, q).made| - |Before(es, p).made| < U64_RANGE
    ensures ReplyTo(es, p).status == Ok && ReplyTo(es, q).status == Ok
    ensures ReplyTo(es, p).lease != ReplyTo(es, q).lease
  {
    hide Inv, Legal, Exec, Lease, Creates, Prepare;
    var s, s' := Before(es, p), Before(es, q);
    BeforeInv(es, p);
    BeforeInv(es, q);
    SerialsGrow(es, p, q);
    RegisteredLease(s, es[p].m, es[p].gpu);
    RegisteredLease(s', es[q].m, es[q].gpu);
    SerialsDiffer(|s.made|, |s'.made|);
    if ReplyTo(es, p).lease == ReplyTo(es, q).lease {
      LeaseInjective(es[p].m, Serial(|s.made|), es[q].m, Serial(|s'.made|));
    }
  }

  lemma SerialsDiffer(i: nat, j: nat)
    requires i < j && j - i < U64_RANGE
    ensures Serial(i) != Serial(j)
  {
  }

  // ----- where records come from, and what a query tells -----

  /** Record `rec` of `key` is what the registering prepare at event `p` stored and answered. */
  predicate Origin(es: seq<Event>, p: nat, key: Str, rec: Record) {
    && Registers(es, p) && MakeKey(es[p].m) == key
    && rec.mod == es[p].m && rec.gpu == es[p].gpu == ReplyTo(es, p).gpu && rec.lease == ReplyTo(es, p).lease
  }

  /** The module, GPU and lease of key `k` are the same in `s'` as in `s`. */
  predicate SameIdentity(s: System, s': System, k: Str) {
    k in s'.mgr.modules ==>
      && k in s.mgr.modules
      && s'.mgr.modules[k].mod == s.mgr.modules[k].mod
      && s'.mgr.modules[k].gpu == s.mgr.modules[k].gpu
      && s'.mgr.modules[k].lease == s.mgr.modules[k].lease
  }

  /** Only a registering prepare gives a key its module, GPU and lease. */
  lemma StepKeepsIdentity(s: System, e: Event, k: Str)
    requires Inv(s) && !(e.EPrepare? && Creates(s.mgr, e.m) && MakeKey(e.m) == k)
    ensures SameIdentity(s, Next(s, e), k)
  {
    hide Lease, MakeKey, TasksOf, Roomy, RecordOk;
    match e
    case EPrepare(m, gpu) =>
      if Named(m) && MakeKey(m) in s.mgr.modules { PrepareLive(s, m, gpu); }
    case EDrain(m) => assert SameIdentity(s, Next(s, e), k);
    case ERelease(m) => assert SameIdentity(s, Next(s, e), k);
    case EAdmit(t, m) => assert SameIdentity(s, Next(s, e), k);
    case EComplete(t) => assert SameIdentity(s, Next(s, e), k);
  }

  /** After every run, each stored record has the module, the GPU and the lease that the last
      registering prepare of its key was given and answered; the manager never alters or invents them. */
  lemma {:induction false} RecordsComeFromPrepares(es: seq<Event>, n: nat, key: Str) returns (p: nat)
    requires Legal(INITIAL, es) && n <= |es| && key in Before(es, n).mgr.modules
    ensures p < n && Origin(es, p, key, Before(es, n).mgr.modules[key])
    ensures forall q :: p < q < n ==> !RegistersKey(es, q, key)
    decreases n
  {
    NothingAtFirst(es);
    hide Exec, Legal, Inv, Next, Lease, MakeKey, Before, Prepare, Creates;
    var s, e := Before(es, n - 1), es[n - 1];
    OneMore(es, n - 1);
    BeforeInv(es, n - 1);
    if e.EPrepare? && Creates(s.mgr, e.m) && MakeKey(e.m) == key {
      p := n - 1;
      Registered(s, e.m, e.gpu);
    } else {
      StepKeepsIdentity(s, e, key);
      p := RecordsComeFromPrepares(es, n - 1, key);
      assert !RegistersKey(es, n - 1, key);
    }
  }

  lemma NothingAtFirst(es: seq<Event>)
    ensures Before(es, 0).mgr.modules == map[]
  {
    assert es[..0] == [];
  }

  lemma Registered(s: System, m: Mod, gpu: i32)
    requires Creates(s.mgr, m)
    ensures var s' := Next(s, EPrepare(m, gpu));
            var r := Prepare(s.mgr, m, gpu).1;
            && MakeKey(m) in s'.mgr.modules && r.gpu == gpu
            && s'.mgr.modules[MakeKey(m)] == Record(m, Prepared, gpu, r.lease, 0)
  {
    hide Lease, MakeKey;
  }

  /** So if no prepare of a run is given a GPU outside -1 to n - 1, no record ever names one. */
  lemma GpusInRange(es: seq<Event>, n: int, key: Str)
    requires Legal(INITIAL, es) && key in Exec(INITIAL, es).mgr.modules
    requires forall p :: 0 <= p < |es| && es[p].EPrepare? ==> -1 <= es[p].gpu < n
    ensures -1 <= Exec(INITIAL, es).mgr.modules[key].gpu < n
  {
    hide Exec, Legal, MakeKey;
    assert es[..|es|] == es;
    var p := RecordsComeFromPrepares(es, |es|, key);
  }

  /** Event `p` of a run registers a new incarnation of `key`. */
  predicate RegistersKey(es: seq<Event>, p: nat, key: Str) {
    Registers(es, p) && MakeKey(es[p].m) == key
  }

  /** Among the first `n` events, event `d` drained `key` and none registered it since. */
  predicate DrainedAt(es: seq<Event>, n: nat, key: Str, d: nat) {
    && d < n <= |es| && es[d].EDrain? && MakeKey(es[d].m) == key
    && forall p :: d < p < n ==> !RegistersKey(es, p, key)
  }

  /** Among the first `n` events, a drain of `key` followed its last registration. */
  ghost predicate DrainedSince(es: seq<Event>, n: nat, key: Str) {
    exists d :: DrainedAt(es, n, key, d)
  }

  predicate IsClosed(st: ModuleState) { st in {Draining, Stopped} }

  /** Nothing but a drain closes a record, and nothing but a registration opens one. */
  lemma StepKeepsClosed(s: System, e: Event, k: Str)
    requires Inv(s) && Enabled(s, e) && k in Next(s, e).mgr.modules
    requires !(e.EPrepare? && Creates(s.mgr, e.m) && MakeKey(e.m) == k) && !(e.EDrain? && MakeKey(e.m) == k)
    ensures k in s.mgr.modules
    ensures IsClosed(Next(s, e).mgr.modules[k].state) <==> IsClosed(s.mgr.modules[k].state)
  {
    hide Lease, MakeKey, TasksOf, Roomy, Next;
    StepKeepsIdentity(s, e, k);
    assert RecordOk(s, k);
    if KeyOf(s, e) != k { OthersUntouched(s, e, k); } else { OwnStepKeepsClosed(s, e, k); }
  }

  lemma OwnStepKeepsClosed(s: System, e: Event, k: Str)
    requires Inv(s) && Enabled(s, e) && k in s.mgr.modules && k in Next(s, e).mgr.modules && KeyOf(s, e) == k
    requires !(e.EPrepare? && Creates(s.mgr, e.m)) && !e.EDrain?
    ensures IsClosed(Next(s, e).mgr.modules[k].state) <==> IsClosed(s.mgr.modules[k].state)
  {
    hide Lease, MakeKey, TasksOf, Roomy;
    assert RecordOk(s, k);
    if e.EPrepare? && Named(e.m) { PrepareLive(s, e.m, e.gpu); }
  }

  lemma DrainedRecord(s: System, m: Mod)
    requires Inv(s) && MakeKey(m) in Next(s, EDrain(m)).mgr.modules
    ensures IsClosed(Next(s, EDrain(m)).mgr.modules[MakeKey(m)].state)
  {
    hide Lease, MakeKey, TasksOf, Roomy;
    assert RecordOk(s, MakeKey(m));
  }

  lemma DrainedSinceStep(es: seq<Event>, n: nat, key: Str)
    requires 0 < n <= |es|
    ensures RegistersKey(es, n - 1, key) ==> !DrainedSince(es, n, key)
    ensures es[n - 1].EDrain? && MakeKey(es[n - 1].m) == key ==> DrainedSince(es, n, key)
    ensures !RegistersKey(es, n - 1, key) && !(es[n - 1].EDrain? && MakeKey(es[n - 1].m) == key) ==>
              (DrainedSince(es, n, key) <==> DrainedSince(es, n - 1, key))
  {
    assert RegistersKey(es, n - 1, key) ==> es[n - 1].EPrepare?;
    hide MakeKey, RegistersKey;
    if es[n - 1].EDrain? && MakeKey(es[n - 1].m) == key { assert DrainedAt(es, n, key, n - 1); }
    if !RegistersKey(es, n - 1, key) && !(es[n - 1].EDrain? && MakeKey(es[n - 1].m) == key) {
      if DrainedSince(es, n, key) {
        var d :| DrainedAt(es, n, key, d);
        assert DrainedAt(es, n - 1, key, d);
      }
      if DrainedSince(es, n - 1, key) {
        var d :| DrainedAt(es, n - 1, key, d);
        assert DrainedAt(es, n, key, d);
      }
    }
  }

  /** After every run, a stored record is Draining or Stopped if and only if a drain of its key
      followed its last registration. */
  lemma {:induction false} ClosedIffDrained(es: seq<Event>, n: nat, key: Str)
    requires Legal(INITIAL, es) && n <= |es| && key in Before(es, n).mgr.modules
    ensures IsClosed(Before(es, n).mgr.modules[key].state) <==> DrainedSince(es, n, key)
    decreases n
  {
    NothingAtFirst(es);
    hide Exec, Inv, Next, Lease, MakeKey, Before, Prepare, Creates, DrainedSince, IsClosed, Enabled, Legal;
    var s, e := Before(es, n - 1), es[n - 1];
    OneMore(es, n - 1);
    BeforeInv(es, n - 1);
    LegalStep(s, es[n - 1..]);
    DrainedSinceStep(es, n, key);
    if RegistersKey(es, n - 1, key) {
      Registered(s, e.m, e.gpu);
      assert !IsClosed(Prepared) by { OpenStates(); }
    } else if e.EDrain? && MakeKey(e.m) == key {
      DrainedRecord(s, e.m);
    } else {
      StepKeepsClosed(s, e, key);
      ClosedIffDrained(es, n - 1, key);
    }
  }

  lemma OpenStates()
    ensures !IsClosed(Prepared) && !IsClosed(Active)
  {
  }

  /** After every run, a query finds a module exactly while an incarnation of it is alive, and then
      reports the number of its tasks in flight, the lease it was registered with, and a state that
      is Draining or Stopped exactly if it was drained since, and which of them by its tasks. */
  lemma QueryIsExact(es: seq<Event>, m: Mod)
    requires Legal(INITIAL, es)
    ensures var s := Exec(INITIAL, es);
            var r, k := Query(s.mgr, m), MakeKey(m);
            && (r.status == Ok <==> k in s.born)
            && (r.status != Ok ==> r == Plain(NotFound, Unknown))
            && (r.status == Ok ==>
                  var b := s.born[k];
                  && b < |s.made| && MakeKey(s.made[b]) == k
                  && r.lease == Lease(s.made[b], Serial(b))
                  && r.active == |TasksIn(s, k, b)|
                  && (r.state == Draining <==> DrainedSince(es, |es|, k) && TasksIn(s, k, b) != {})
                  && (r.state == Stopped <==> DrainedSince(es, |es|, k) && TasksIn(s, k, b) == {})
                  && (r.state == Prepared ==> TasksIn(s, k, b) == {}))
  {
    InitialInv();
    RunInv(INITIAL, es);
    assert es[..|es|] == es;
    hide Exec, Legal, Lease, MakeKey, DrainedSince;
    var s, k := Exec(INITIAL, es), MakeKey(m);
    if k in s.born {
      assert RecordOk(s, k);
      LiveTasks(s, k);
      ClosedIffDrained(es, |es|, k);
    }
  }

  /** Preparing a module whose incarnation is still alive after any run changes nothing. Before a
      drain it returns the lease and GPU the incarnation has had all along; after one it is Busy. */
  lemma SameLeaseWhileLive(s: System, es: seq<Event>, m: Mod, b: nat, gpu: i32)
    requires Inv(s) && Legal(s, es) && Named(m)
    requires Lives(s, MakeKey(m), b) && Lives(Exec(s, es), MakeKey(m), b)
    ensures Next(Exec(s, es), EPrepare(m, gpu)) == Exec(s, es)
    ensures var was := s.mgr.modules[MakeKey(m)];
            var rec := Exec(s, es).mgr.modules[MakeKey(m)];
            var r := Prepare(Exec(s, es).mgr, m, gpu).1;
            && (r.status == Ok <==> rec.state in {Prepared, Active})
            && (r.status == Ok ==> r.lease == was.lease && r.gpu == was.gpu && r.active == rec.active)
            && (r.status != Ok ==> r == Plain(Busy, rec.state))
  {
    OnlyForward(s, es, MakeKey(m), b);
    RunInv(s, es);
    hide Exec, Legal, MakeKey, Next, Prepare, Inv;
    PrepareLive(Exec(s, es), m, gpu);
  }

  lemma PrepareLive(s: System, m: Mod, gpu: i32)
    requires Inv(s) && Named(m) && MakeKey(m) in s.mgr.modules
    ensures Next(s, EPrepare(m, gpu)) == s
    ensures var rec := s.mgr.modules[MakeKey(m)];
            Prepare(s.mgr, m, gpu).1 ==
              if rec.state in {Prepared, Active} then Details(Ok, rec) else Plain(Busy, rec.state)
  {
    hide Lease, MakeKey, Roomy, TasksOf;
    assert RecordOk(s, MakeKey(m));
  }
}
