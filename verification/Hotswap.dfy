/**
  * The hotswap protocol of the WASM sandbox manager as a transition system. Each step is one
  * critical section of the code; any number of tasks run between their admission and their
  * completion, and any steps may interleave. The 32-bit task counter and the 64-bit lease
  * counter wrap as they do in the code.
  */
module Hotswap {
  import opened Bytes
  import opened Names

  datatype ModuleState = Unknown | Prepared | Active | Draining | Stopped | Released

  datatype Record = Record(mod: Mod, state: ModuleState, gpu: i32, lease: Str, active: u32)

  datatype Manager = Manager(modules: map<Str, Record>, nextLease: u64)

  datatype Status = Ok | Rejected | Failed | Busy | NotFound

  /** The informative part of a lifecycle response; the identifiers are echoed unchanged. */
  datatype Reply = Reply(status: Status, state: ModuleState, gpu: i32, active: u32, lease: Str)

  datatype Admission = Admitted(gpu: i32) | ModuleNotFound | ModuleDraining | TaskRejected

  function Plain(status: Status, state: ModuleState): Reply {
    Reply(status, state, -1, 0, [])
  }

  function Details(status: Status, rec: Record): Reply {
    Reply(status, rec.state, rec.gpu, rec.active, rec.lease)
  }

  // ----- the critical sections -----

  function NewRecord(g: Manager, m: Mod, gpu: i32): Record {
    Record(m, Prepared, gpu, Lease(m, g.nextLease), 0)
  }

  /** Whether `prepare_module` registers a new incarnation. */
  predicate Creates(g: Manager, m: Mod) {
    Named(m) && (MakeKey(m) !in g.modules || g.modules[MakeKey(m)].state in {Unknown, Released})
  }

  function Prepare(g: Manager, m: Mod, gpu: i32): (Manager, Reply) {
    var key := MakeKey(m);
    if !Named(m) then (g, Plain(Rejected, Unknown))
    else if key in g.modules && g.modules[key].state in {Prepared, Active} then
      (g, Details(Ok, g.modules[key]))
    else if key in g.modules && g.modules[key].state in {Draining, Stopped} then
      (g, Plain(Busy, g.modules[key].state))
    else
      var rec := NewRecord(g, m, gpu);
      (Manager(g.modules[key := rec], (g.nextLease + 1) % U64_RANGE), Details(Ok, rec))
  }

  function Drain(g: Manager, m: Mod): (Manager, Reply) {
    var key := MakeKey(m);
    if key !in g.modules || g.modules[key].state == Released then (g, Plain(NotFound, Unknown))
    else
      var rec := g.modules[key];
      var rec' := rec.(state := if rec.active == 0 then Stopped else Draining);
      (g.(modules := g.modules[key := rec']), Details(Ok, rec'))
  }

  function Release(g: Manager, m: Mod): (Manager, Reply) {
    var key := MakeKey(m);
    if key !in g.modules then (g, Plain(NotFound, Unknown))
    else
      var rec := g.modules[key];
      if rec.active > 0 then (g, Details(Busy, rec))
      else (g.(modules := g.modules - {key}), Reply(Ok, Released, rec.gpu, 0, rec.lease))
  }

  function Query(g: Manager, m: Mod): Reply {
    if MakeKey(m) in g.modules then Details(Ok, g.modules[MakeKey(m)]) else Plain(NotFound, Unknown)
  }

  /** The first critical section of `handle_task`. */
  function Admit(g: Manager, m: Mod): (Manager, Admission) {
    var key := MakeKey(m);
    if key !in g.modules then (g, ModuleNotFound)
    else
      var rec := g.modules[key];
      if rec.state == Draining then (g, ModuleDraining)
      else if rec.state in {Stopped, Released} then (g, TaskRejected)
      else (g.(modules := g.modules[key := rec.(state := Active, active := (rec.active + 1) % U32_RANGE)]),
            Admitted(rec.gpu))
  }

  /** The second critical section of `handle_task`, with both of its guards. */
  function Complete(g: Manager, key: Str): Manager {
    if key !in g.modules then g
    else
      var rec := g.modules[key];
      var left := if rec.active > 0 then rec.active - 1 else rec.active;
      var state := if rec.state == Draining && left == 0 then Stopped else rec.state;
      g.(modules := g.modules[key := rec.(state := state, active := left)])
  }

  // ----- the system: the manager, its incarnations and the tasks in flight -----

  /** An in-flight task remembers its key and the serial number of the incarnation it entered. */
  datatype Ticket = Ticket(key: Str, born: nat)

  /** `made` lists every incarnation ever created; `born` gives the serial of each live one. */
  datatype System = System(mgr: Manager, made: seq<Mod>, born: map<Str, nat>, tasks: map<nat, Ticket>)

  datatype Event =
    | EPrepare(m: Mod, gpu: i32)
    | EDrain(m: Mod)
    | ERelease(m: Mod)
    | EAdmit(t: nat, m: Mod)
    | EComplete(t: nat)

  const INITIAL: System := System(Manager(map[], 1), [], map[], map[])

  function TasksOf(tasks: map<nat, Ticket>, key: Str): set<nat> {
    set t | t in tasks && tasks[t].key == key
  }

  function Next(s: System, e: Event): System {
    match e
    case EPrepare(m, gpu) =>
      var s' := s.(mgr := Prepare(s.mgr, m, gpu).0);
      if Creates(s.mgr, m) then s'.(made := s.made + [m], born := s.born[MakeKey(m) := |s.made|]) else s'
    case EDrain(m) => s.(mgr := Drain(s.mgr, m).0)
    case ERelease(m) =>
      var g := Release(s.mgr, m).0;
      s.(mgr := g, born := map k | k in s.born && k in g.modules :: s.born[k])
    case EAdmit(t, m) =>
      var (g, a) := Admit(s.mgr, m);
      if a.Admitted? && MakeKey(m) in s.born
      then s.(mgr := g, tasks := s.tasks[t := Ticket(MakeKey(m), s.born[MakeKey(m)])])
      else s.(mgr := g)
    case EComplete(t) =>
      if t in s.tasks then s.(mgr := Complete(s.mgr, s.tasks[t].key), tasks := s.tasks - {t}) else s
  }

  /** A task is admitted under a fresh name and completes once. */
  predicate Enabled(s: System, e: Event) {
    match e
    case EAdmit(t, _) => t !in s.tasks
    case EComplete(t) => t in s.tasks
    case _ => true
  }

  /** Fewer than 2^32 tasks in flight per module version. */
  ghost predicate Roomy(tasks: map<nat, Ticket>) {
    forall key :: |TasksOf(tasks, key)| < U32_RANGE
  }

  function Exec(s: System, es: seq<Event>): System
    decreases |es|
  {
    if es == [] then s else Exec(Next(s, es[0]), es[1..])
  }

  /** An interleaving: every event is enabled and the counters never overflow. */
  ghost predicate Legal(s: System, es: seq<Event>)
    decreases |es|
  {
    es == [] || (Enabled(s, es[0]) && Roomy(Next(s, es[0]).tasks) && Legal(Next(s, es[0]), es[1..]))
  }

  function Serial(born: nat): u64 {
    (born + 1) % U64_RANGE
  }

  /** What every reachable state satisfies about one live record. */
  predicate RecordOk(s: System, key: Str)
    requires key in s.mgr.modules && key in s.born
  {
    var rec := s.mgr.modules[key];
    && key == MakeKey(rec.mod) && Named(rec.mod)
    && rec.active == |TasksOf(s.tasks, key)|
    && s.born[key] < |s.made| && s.made[s.born[key]] == rec.mod
    && rec.lease == Lease(rec.mod, Serial(s.born[key]))
    && rec.state in {Prepared, Active, Draining, Stopped}
    && (rec.state in {Prepared, Stopped} ==> rec.active == 0)
    && (rec.state == Draining ==> rec.active > 0)
  }

  ghost predicate Inv(s: System) {
    && s.mgr.modules.Keys == s.born.Keys
    && (forall key :: key in s.born ==> RecordOk(s, key))
    && (forall t :: t in s.tasks ==> s.tasks[t].key in s.born && s.born[s.tasks[t].key] == s.tasks[t].born)
    && s.mgr.nextLease == Serial(|s.made|)
    && Roomy(s.tasks)
  }

  // ----- the invariant -----

  lemma InitialInv()
    ensures Inv(INITIAL)
  {
    assert forall key :: TasksOf(map[], key) == {};
  }

  lemma AdmittedCount(tasks: map<nat, Ticket>, t: nat, x: Ticket, key: Str)
    requires t !in tasks
    ensures |TasksOf(tasks[t := x], key)| == |TasksOf(tasks, key)| + if x.key == key then 1 else 0
  {
    assert TasksOf(tasks[t := x], key) == TasksOf(tasks, key) + if x.key == key then {t} else {};
  }

  lemma CompletedCount(tasks: map<nat, Ticket>, t: nat, key: Str)
    requires t in tasks
    ensures |TasksOf(tasks - {t}, key)| == |TasksOf(tasks, key)| - if tasks[t].key == key then 1 else 0
    ensures tasks[t].key == key ==> |TasksOf(tasks, key)| > 0
  {
    if tasks[t].key == key { assert t in TasksOf(tasks, key); }
    assert TasksOf(tasks - {t}, key) == TasksOf(tasks, key) - if tasks[t].key == key then {t} else {};
  }

  lemma IdleHasNoTask(tasks: map<nat, Ticket>, key: Str)
    requires |TasksOf(tasks, key)| == 0
    ensures forall t :: t in tasks ==> tasks[t].key != key
  {
    assert TasksOf(tasks, key) == {};
    forall t | t in tasks ensures tasks[t].key != key { assert t !in TasksOf(tasks, key); }
  }

  lemma PrepareInv(s: System, m: Mod, gpu: i32)
    requires Inv(s)
    ensures Inv(Next(s, EPrepare(m, gpu)))
  {
    hide Lease, MakeKey, TasksOf, Roomy;
    if Creates(s.mgr, m) {
      var s' := Next(s, EPrepare(m, gpu));
      NotLive(s, m);
      NoStrayTasks(s, MakeKey(m));
      forall k | k in s'.born ensures RecordOk(s', k) { PreparedRecord(s, m, gpu, k); }
      SerialStep(|s.made|);
    }
  }

  lemma NotLive(s: System, m: Mod)
    requires Inv(s) && Creates(s.mgr, m)
    ensures MakeKey(m) !in s.born
  {
    hide Lease, MakeKey, TasksOf, Roomy;
    assert MakeKey(m) in s.born ==> RecordOk(s, MakeKey(m));
  }

  lemma PreparedRecord(s: System, m: Mod, gpu: i32, k: Str)
    requires Inv(s) && Creates(s.mgr, m) && k in Next(s, EPrepare(m, gpu)).born
    ensures Next(s, EPrepare(m, gpu)).mgr.modules.Keys == Next(s, EPrepare(m, gpu)).born.Keys
    ensures RecordOk(Next(s, EPrepare(m, gpu)), k)
  {
    hide Lease, MakeKey, TasksOf, Roomy;
    NotLive(s, m);
    NoStrayTasks(s, MakeKey(m));
    if k != MakeKey(m) { assert RecordOk(s, k); }
  }

  lemma SerialStep(n: nat)
    ensures (Serial(n) + 1) % U64_RANGE == Serial(n + 1)
  {
  }

  lemma NoStrayTasks(s: System, key: Str)
    requires Inv(s) && key !in s.born
    ensures |TasksOf(s.tasks, key)| == 0
  {
    assert TasksOf(s.tasks, key) == {};
  }

  lemma DrainInv(s: System, m: Mod)
    requires Inv(s)
    ensures Inv(Next(s, EDrain(m)))
  {
    hide Lease, MakeKey, TasksOf, Roomy;
    var s' := Next(s, EDrain(m));
    forall k | k in s'.born ensures RecordOk(s', k) { assert RecordOk(s, k); }
  }

  lemma ReleaseInv(s: System, m: Mod)
    requires Inv(s)
    ensures Inv(Next(s, ERelease(m)))
  {
    hide Lease, MakeKey, TasksOf, Roomy, RecordOk;
    var s' := Next(s, ERelease(m));
    var key := MakeKey(m);
    forall k | k in s'.born ensures RecordOk(s', k) { ReleasedRecord(s, m, k); }
    if key in s.born && s.mgr.modules[key].active == 0 { IdleKey(s, key); }
  }

  lemma ReleasedRecord(s: System, m: Mod, k: Str)
    requires Inv(s) && k in Next(s, ERelease(m)).born
    ensures k in Next(s, ERelease(m)).mgr.modules && RecordOk(Next(s, ERelease(m)), k)
  {
    hide Lease, MakeKey, TasksOf, Roomy;
    assert RecordOk(s, k);
  }

  lemma IdleKey(s: System, key: Str)
    requires Inv(s) && key in s.born && s.mgr.modules[key].active == 0
    ensures forall t :: t in s.tasks ==> s.tasks[t].key != key
  {
    hide Lease, MakeKey, TasksOf, Roomy;
    assert RecordOk(s, key);
    IdleHasNoTask(s.tasks, key);
  }

  lemma AdmitInv(s: System, t: nat, m: Mod)
    requires Inv(s) && t !in s.tasks && Roomy(Next(s, EAdmit(t, m)).tasks)
    ensures Inv(Next(s, EAdmit(t, m)))
  {
    hide Lease, MakeKey, TasksOf, Roomy, RecordOk;
    var s' := Next(s, EAdmit(t, m));
    if Admit(s.mgr, m).1.Admitted? {
      assert s'.mgr.modules.Keys == s'.born.Keys;
      forall k | k in s'.born ensures RecordOk(s', k) { AdmittedRecord(s, t, m, k); }
    }
  }

  lemma AdmittedRecord(s: System, t: nat, m: Mod, k: Str)
    requires Inv(s) && t !in s.tasks && Roomy(Next(s, EAdmit(t, m)).tasks)
    requires Admit(s.mgr, m).1.Admitted? && k in s.born
    ensures k in Next(s, EAdmit(t, m)).mgr.modules && RecordOk(Next(s, EAdmit(t, m)), k)
  {
    hide Lease, MakeKey, TasksOf;
    var s' := Next(s, EAdmit(t, m));
    assert |TasksOf(s'.tasks, k)| < U32_RANGE;
    hide Roomy;
    assert RecordOk(s, k) && s.mgr.modules.Keys == s.born.Keys && MakeKey(m) in s.born;
    hide Inv;
    AdmittedCount(s.tasks, t, s'.tasks[t], k);
  }

  lemma CompleteInv(s: System, t: nat)
    requires Inv(s) && t in s.tasks
    ensures Inv(Next(s, EComplete(t)))
  {
    hide Lease, MakeKey, TasksOf, RecordOk;
    var s' := Next(s, EComplete(t));
    forall k ensures |TasksOf(s'.tasks, k)| <= |TasksOf(s.tasks, k)| {
      CompletedCount(s.tasks, t, k);
    }
    forall k | k in s'.born ensures RecordOk(s', k) { CompletedRecord(s, t, k); }
  }

  lemma CompletedRecord(s: System, t: nat, k: Str)
    requires Inv(s) && t in s.tasks && k in s.born
    ensures k in Next(s, EComplete(t)).mgr.modules && RecordOk(Next(s, EComplete(t)), k)
  {
    hide Lease, MakeKey, TasksOf, Roomy;
    assert RecordOk(s, k);
    CompletedCount(s.tasks, t, k);
  }

  lemma StepInv(s: System, e: Event)
    requires Inv(s) && Enabled(s, e) && Roomy(Next(s, e).tasks)
    ensures Inv(Next(s, e))
  {
    match e
    case EPrepare(m, gpu) => PrepareInv(s, m, gpu);
    case EDrain(m) => DrainInv(s, m);
    case ERelease(m) => ReleaseInv(s, m);
    case EAdmit(t, m) => AdmitInv(s, t, m);
    case EComplete(t) => CompleteInv(s, t);
  }

  /** Every state of every interleaving satisfies the invariant. */
  lemma {:induction false} RunInv(s: System, es: seq<Event>)
    requires Inv(s) && Legal(s, es)
    ensures Inv(Exec(s, es))
    decreases |es|
  {
    if es != [] {
      StepInv(s, es[0]);
      RunInv(Next(s, es[0]), es[1..]);
    }
  }
}
