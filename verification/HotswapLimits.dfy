/**
  * Where the guarantees of the hotswap protocol end: the 32-bit task counter overflows at 2^32
  * concurrent tasks, and module versions whose ids contain ':' can share a key. For both, when the
  * guarantee holds is stated exactly.
  */
module HotswapLimits {
  import opened Bytes
  import opened Names
  import opened Hotswap

  /** From a state in which all is well, admitting one more task keeps the counter exact if and only
      if fewer than 2^32 tasks are then in flight. */
  lemma CounterExactIff(s: System, t: nat, m: Mod)
    requires Inv(s) && t !in s.tasks && Admit(s.mgr, m).1.Admitted?
    ensures var s' := Next(s, EAdmit(t, m));
            s'.mgr.modules[MakeKey(m)].active == |TasksOf(s'.tasks, MakeKey(m))| <==>
            |TasksOf(s'.tasks, MakeKey(m))| < U32_RANGE
  {
    hide Lease, MakeKey, TasksOf;
    var key := MakeKey(m);
    assert RecordOk(s, key);
    AdmittedCount(s.tasks, t, Ticket(key, s.born[key]), key);
  }

  // ----- the counters over whole runs -----

  /** An interleaving without any bound on the tasks in flight. */
  predicate EnabledRun(s: System, es: seq<Event>)
    decreases |es|
  {
    es == [] || (Enabled(s, es[0]) && EnabledRun(Next(s, es[0]), es[1..]))
  }

  /** Every stored counter is the number of tasks in flight under its key. */
  predicate Exact(s: System) {
    forall key :: key in s.mgr.modules ==> s.mgr.modules[key].active == |TasksOf(s.tasks, key)|
  }

  predicate AlwaysExact(s: System, es: seq<Event>)
    decreases |es|
  {
    Exact(s) && (es == [] || AlwaysExact(Next(s, es[0]), es[1..]))
  }

  lemma InvIsExact(s: System)
    requires Inv(s)
    ensures Exact(s)
  {
    hide Lease, MakeKey, TasksOf, Roomy;
    forall key | key in s.mgr.modules ensures s.mgr.modules[key].active == |TasksOf(s.tasks, key)| {
      assert RecordOk(s, key);
    }
  }

  /** Only an admission can use up the room. */
  lemma RoomKept(s: System, e: Event)
    requires Inv(s) && Enabled(s, e) && !e.EAdmit?
    ensures Roomy(Next(s, e).tasks)
  {
    hide Lease, MakeKey, TasksOf, RecordOk;
    if e.EComplete? {
      forall key ensures |TasksOf(Next(s, e).tasks, key)| < U32_RANGE { CompletedCount(s.tasks, e.t, key); }
    }
  }

  /** After an admission, exact counters bound the tasks in flight. */
  lemma ExactIsRoomy(s: System, t: nat, m: Mod)
    requires Inv(s) && t !in s.tasks && Exact(Next(s, EAdmit(t, m)))
    ensures Roomy(Next(s, EAdmit(t, m)).tasks)
  {
    hide Lease, MakeKey, TasksOf, RecordOk;
    var s' := Next(s, EAdmit(t, m));
    forall key ensures |TasksOf(s'.tasks, key)| < U32_RANGE {
      if key !in s'.mgr.modules {
        NoStrayTasks(s, key);
        if t in s'.tasks { AdmittedCount(s.tasks, t, s'.tasks[t], key); }
      }
    }
  }

  lemma StepExactIff(s: System, e: Event)
    requires Inv(s) && Enabled(s, e)
    ensures Roomy(Next(s, e).tasks) <==> Exact(Next(s, e))
  {
    hide Next, Roomy, Exact, Inv;
    if e.EAdmit? { if Exact(Next(s, e)) { AdmitRoom(s, e); } } else { RoomKept(s, e); }
    if Roomy(Next(s, e).tasks) {
      StepInv(s, e);
      InvIsExact(Next(s, e));
    }
  }

  lemma AdmitRoom(s: System, e: Event)
    requires Inv(s) && Enabled(s, e) && e.EAdmit? && Exact(Next(s, e))
    ensures Roomy(Next(s, e).tasks)
  {
    hide Next, Roomy, Exact, Inv;
    ExactIsRoomy(s, e.t, e.m);
  }

  /** Over every run whatever, the counters are exact throughout if and only if at every moment
      fewer than 2^32 tasks were in flight per module version. */
  lemma {:induction false} AlwaysExactIff(s: System, es: seq<Event>)
    requires Inv(s) && EnabledRun(s, es)
    ensures AlwaysExact(s, es) <==> Legal(s, es)
    decreases |es|
  {
    hide Next, Roomy, Exact, Inv, Enabled;
    InvIsExact(s);
    if es != [] {
      StepExactIff(s, es[0]);
      if Roomy(Next(s, es[0]).tasks) {
        StepInv(s, es[0]);
        AlwaysExactIff(Next(s, es[0]), es[1..]);
      } else {
        assert !AlwaysExact(Next(s, es[0]), es[1..]);
      }
    }
  }

  lemma {:induction false} ExecAppend(s: System, es: seq<Event>, e: Event)
    ensures Exec(s, es + [e]) == Next(Exec(s, es), e)
    ensures Legal(s, es + [e]) <==>
            Legal(s, es) && Enabled(Exec(s, es), e) && Roomy(Next(Exec(s, es), e).tasks)
    decreases |es|
  {
    hide Next, Enabled, Roomy;
    if es == [] {
      assert es + [e] == [e];
      assert [e][1..] == [];
      assert Exec(s, [e]) == Exec(Next(s, e), []);
    } else {
      assert (es + [e])[1..] == es[1..] + [e] && (es + [e])[0] == es[0];
      ExecAppend(Next(s, es[0]), es[1..], e);
    }
  }

  /** Register `m`, then admit tasks 0 to n - 1. */
  function Fill(m: Mod, n: nat): seq<Event> {
    if n == 0 then [EPrepare(m, -1)] else Fill(m, n - 1) + [EAdmit(n - 1, m)]
  }

  ghost predicate Filled(s: System, m: Mod, n: nat) {
    && MakeKey(m) in s.mgr.modules && s.mgr.modules[MakeKey(m)].state in {Prepared, Active}
    && |TasksOf(s.tasks, MakeKey(m))| == n && (forall t :: t in s.tasks ==> s.tasks[t].key == MakeKey(m))
    && (forall t :: t in s.tasks <==> 0 <= t < n)
  }

  lemma FillStep(s: System, m: Mod, n: nat)
    requires Inv(s) && Filled(s, m, n) && n + 1 < U32_RANGE
    ensures Enabled(s, EAdmit(n, m)) && Roomy(Next(s, EAdmit(n, m)).tasks)
    ensures Filled(Next(s, EAdmit(n, m)), m, n + 1)
  {
    hide Lease, MakeKey, TasksOf, RecordOk;
    var x := Ticket(MakeKey(m), s.born[MakeKey(m)]);
    var after := s.tasks[n := x];
    assert Next(s, EAdmit(n, m)).tasks == after;
    forall key ensures |TasksOf(after, key)| < U32_RANGE {
      AdmittedCount(s.tasks, n, x, key);
      if key != MakeKey(m) { OtherTasks(s.tasks, MakeKey(m), key); }
    }
    AdmittedCount(s.tasks, n, x, MakeKey(m));
  }

  lemma OtherTasks(tasks: map<nat, Ticket>, k: Str, key: Str)
    requires key != k && forall t :: t in tasks ==> tasks[t].key == k
    ensures |TasksOf(tasks, key)| == 0
  {
    assert TasksOf(tasks, key) == {};
  }

  /** Any number of concurrent tasks below 2^32 is reached by a legal run. */
  lemma {:induction false} FillRuns(m: Mod, n: nat)
    requires Named(m) && n < U32_RANGE
    ensures Legal(INITIAL, Fill(m, n)) && Filled(Exec(INITIAL, Fill(m, n)), m, n)
    decreases n
  {
    hide Next, Enabled, Roomy, Filled, Exec, Legal, Inv;
    if n == 0 {
      FirstPrepare(m);
    } else {
      FillRuns(m, n - 1);
      InitialInv();
      RunInv(INITIAL, Fill(m, n - 1));
      FillStep(Exec(INITIAL, Fill(m, n - 1)), m, n - 1);
      ExecAppend(INITIAL, Fill(m, n - 1), EAdmit(n - 1, m));
    }
  }

  lemma FirstPrepare(m: Mod)
    requires Named(m)
    ensures Legal(INITIAL, [EPrepare(m, -1)]) && Filled(Exec(INITIAL, [EPrepare(m, -1)]), m, 0)
  {
    hide Lease, MakeKey;
    var e := EPrepare(m, -1);
    assert [e][1..] == [];
    assert forall key :: TasksOf(map[], key) == {};
    assert Exec(INITIAL, [e]) == Exec(Next(INITIAL, e), []) == Next(INITIAL, e);
    assert Legal(Next(INITIAL, e), []);
  }

  /** The state after one admission too many and a release. */
  predicate LostTask(s: System, t: nat, m: Mod) {
    var s1 := Next(s, EAdmit(t, m));
    var s2 := Next(s1, ERelease(m));
    && Enabled(s, EAdmit(t, m))
    && MakeKey(m) in s1.mgr.modules && s1.mgr.modules[MakeKey(m)].active == 0
    && Release(s1.mgr, m).1.status == Ok
    && MakeKey(m) !in s2.mgr.modules && t in s2.tasks && s2.tasks[t].key == MakeKey(m)
  }

  lemma FullLosesTask(s: System, t: nat, m: Mod)
    requires Inv(s) && MakeKey(m) in s.mgr.modules && s.mgr.modules[MakeKey(m)].state in {Prepared, Active}
    requires |TasksOf(s.tasks, MakeKey(m))| == U32_RANGE - 1 && t !in s.tasks
    ensures LostTask(s, t, m)
  {
    hide Lease, MakeKey, TasksOf, Roomy;
    assert RecordOk(s, MakeKey(m));
  }

  /** After 2^32 - 1 admissions of any one module version, one more admission makes its counter
      read zero, and a release then erases the record under all its running tasks. */
  lemma OverflowLosesTasks(m: Mod, n: nat)
    requires Named(m) && n == U32_RANGE - 1
    ensures Legal(INITIAL, Fill(m, n)) && LostTask(Exec(INITIAL, Fill(m, n)), n, m)
  {
    hide Fill, Exec, Legal, LostTask, Inv;
    InitialInv();
    FillRuns(m, n);
    RunInv(INITIAL, Fill(m, n));
    FullLosesTask(Exec(INITIAL, Fill(m, n)), n, m);
  }

  /** Once passed, the limit leaves the counter wrong: after one admission too many and one completion,
      2^32 - 1 tasks are in flight again and the counter reads zero. */
  lemma CounterStaysWrong(m: Mod, n: nat)
    requires Named(m) && n == U32_RANGE - 1
    ensures Legal(INITIAL, Fill(m, n))
    ensures var s1 := Next(Exec(INITIAL, Fill(m, n)), EAdmit(n, m));
            var s2 := Next(s1, EComplete(0));
            && Enabled(Exec(INITIAL, Fill(m, n)), EAdmit(n, m)) && Enabled(s1, EComplete(0))
            && |TasksOf(s2.tasks, MakeKey(m))| == U32_RANGE - 1
            && MakeKey(m) in s2.mgr.modules && s2.mgr.modules[MakeKey(m)].active == 0
  {
    hide Fill, Exec, Legal, Inv, Filled;
    InitialInv();
    FillRuns(m, n);
    RunInv(INITIAL, Fill(m, n));
    FilledThenWrong(Exec(INITIAL, Fill(m, n)), m, n);
  }

  lemma FilledThenWrong(s: System, m: Mod, n: nat)
    requires Inv(s) && Filled(s, m, n) && n == U32_RANGE - 1
    ensures var s1 := Next(s, EAdmit(n, m));
            var s2 := Next(s1, EComplete(0));
            && Enabled(s, EAdmit(n, m)) && Enabled(s1, EComplete(0))
            && |TasksOf(s2.tasks, MakeKey(m))| == U32_RANGE - 1
            && MakeKey(m) in s2.mgr.modules && s2.mgr.modules[MakeKey(m)].active == 0
  {
    hide Lease, MakeKey, TasksOf, Roomy;
    var key := MakeKey(m);
    assert RecordOk(s, key);
    var s1 := Next(s, EAdmit(n, m));
    assert 0 in s.tasks && n !in s.tasks;
    assert s1.tasks == s.tasks[n := Ticket(key, s.born[key])];
    AdmittedCount(s.tasks, n, Ticket(key, s.born[key]), key);
    CompletedCount(s1.tasks, 0, key);
  }

  /** Any registered module version with ':' in one of its ids shares its record with another triple
      of ids: draining the other stops it. Unless the module is `Solo`, the other can be registered
      itself, and preparing it then returns the lease of the first. */
  lemma CollidingModulesInterfere(m: Mod) returns (k: Mod)
    requires !ColonFree(m) && Named(m)
    ensures k != m && (!Solo(m) ==> Named(k))
    ensures var s := Next(INITIAL, EPrepare(m, -1));
            var s' := Next(s, EDrain(k));
            && MakeKey(m) in s.mgr.modules && s.mgr.modules[MakeKey(m)].state == Prepared
            && MakeKey(m) in s'.mgr.modules && s'.mgr.modules[MakeKey(m)].state == Stopped
            && (Named(k) ==> Prepare(s.mgr, k, -1) == (s.mgr, Details(Ok, s.mgr.modules[MakeKey(m)])))
  {
    if Solo(m) { k := OtherOwner(m); } else { k := NamedOwner(m); }
    hide MakeKey, Lease, Solo, ColonFree;
  }
}
