/**
  * `WasmSandboxManager` in the code's own form. Every method is one critical section (the lock is
  * held throughout), so each is one step of the transition system in `Hotswap`.
  */
module HotswapManager {
  import opened Bytes
  import opened Names
  import opened Hotswap

  /** The GPU a new registration gets: an explicit target is passed through unchecked. */
  function AssignGpu(target: i32, forceCpu: bool, hasSelector: bool, selected: i32): (gpu: i32)
    ensures target >= 0 ==> gpu == target
    ensures target < 0 && !forceCpu && hasSelector ==> gpu == selected
    ensures target < 0 && (forceCpu || !hasSelector) ==> gpu == -1
  {
    if target >= 0 then target else if forceCpu then -1 else if hasSelector then selected else -1
  }

  const PREPARE: byte := 1
  const DRAIN: byte := 2
  const RELEASE: byte := 3
  const QUERY: byte := 4

  /** The step that a lifecycle action takes; an action arrives as an unchecked byte. */
  function Lifecycle(g: Manager, action: byte, m: Mod, gpu: i32): (Manager, Reply) {
    if action == PREPARE then Prepare(g, m, gpu)
    else if action == DRAIN then Drain(g, m)
    else if action == RELEASE then Release(g, m)
    else if action == QUERY then (g, Query(g, m))
    else (g, Plain(Failed, Unknown))
  }

  class WasmSandboxManager {
    var modules: map<Str, Record>
    var nextLeaseId: u64
    var forceCpu: bool
    var hasSelector: bool

    ghost function State(): Manager
      reads this
    {
      Manager(modules, nextLeaseId)
    }

    constructor (forceCpu: bool, hasSelector: bool)
      ensures State() == INITIAL.mgr
      ensures this.forceCpu == forceCpu && this.hasSelector == hasSelector
    {
      modules, nextLeaseId := map[], 1;
      this.forceCpu, this.hasSelector := forceCpu, hasSelector;
    }

    method SetForceCpu(b: bool)
      modifies this
      ensures forceCpu == b && State() == old(State()) && hasSelector == old(hasSelector)
    {
      forceCpu := b;
    }

    /** `prepare_module`; `selected` is what the GPU selector would answer. */
    method PrepareModule(m: Mod, target: i32, selected: i32) returns (r: Reply)
      modifies this
      ensures (State(), r) == Prepare(old(State()), m, AssignGpu(target, old(forceCpu), old(hasSelector), selected))
      ensures forceCpu == old(forceCpu) && hasSelector == old(hasSelector)
    {
      if m.sandboxId == [] || m.moduleId == [] || m.version == [] { return Plain(Rejected, Unknown); }
      var key := MakeKey(m);
      if key in modules {
        var state := modules[key].state;
        if state == Prepared || state == Active { return Details(Ok, modules[key]); }
        if state == Draining || state == Stopped { return Plain(Busy, state); }
      }
      var gpu: i32 := -1;
      if target >= 0 {
        gpu := target;
      } else if forceCpu {
        gpu := -1;
      } else if hasSelector {
        gpu := selected;
      }
      var lease := Lease(m, nextLeaseId);
      nextLeaseId := (nextLeaseId + 1) % U64_RANGE;
      modules := modules[key := Record(m, Prepared, gpu, lease, 0)];
      r := Reply(Ok, Prepared, gpu, 0, lease);
    }

    method DrainModule(m: Mod) returns (r: Reply)
      modifies this
      ensures (State(), r) == Drain(old(State()), m)
      ensures forceCpu == old(forceCpu) && hasSelector == old(hasSelector)
    {
      var key := MakeKey(m);
      if key !in modules { return Plain(NotFound, Unknown); }
      var rec := modules[key];
      if rec.state == Released { return Plain(NotFound, Unknown); }
      rec := rec.(state := if rec.active == 0 then Stopped else Draining);
      modules := modules[key := rec];
      r := Reply(Ok, rec.state, rec.gpu, rec.active, rec.lease);
    }

    method ReleaseModule(m: Mod) returns (r: Reply)
      modifies this
      ensures (State(), r) == Release(old(State()), m)
      ensures forceCpu == old(forceCpu) && hasSelector == old(hasSelector)
    {
      var key := MakeKey(m);
      if key !in modules { return Plain(NotFound, Unknown); }
      var rec := modules[key];
      if rec.active > 0 {
        return Reply(Busy, rec.state, rec.gpu, rec.active, rec.lease);
      }
      r := Reply(Ok, Released, rec.gpu, 0, rec.lease);
      modules := modules - {key};
    }

    method QueryModule(m: Mod) returns (r: Reply)
      ensures r == Query(State(), m)
    {
      var key := MakeKey(m);
      if key !in modules { return Plain(NotFound, Unknown); }
      var rec := modules[key];
      r := Reply(Ok, rec.state, rec.gpu, rec.active, rec.lease);
    }

    /** `handle_lifecycle`: one critical section, chosen by the action. */
    method HandleLifecycle(action: byte, m: Mod, target: i32, selected: i32) returns (r: Reply)
      modifies this
      ensures (State(), r) ==
              Lifecycle(old(State()), action, m, AssignGpu(target, old(forceCpu), old(hasSelector), selected))
      ensures forceCpu == old(forceCpu) && hasSelector == old(hasSelector)
    {
      if action == PREPARE {
        r := PrepareModule(m, target, selected);
      } else if action == DRAIN {
        r := DrainModule(m);
      } else if action == RELEASE {
        r := ReleaseModule(m);
      } else if action == QUERY {
        r := QueryModule(m);
      } else {
        r := Plain(Failed, Unknown);
      }
    }

    /** `handle_task` before the computation. */
    method AdmitTask(m: Mod) returns (a: Admission)
      modifies this
      ensures (State(), a) == Admit(old(State()), m)
      ensures forceCpu == old(forceCpu) && hasSelector == old(hasSelector)
    {
      var key := MakeKey(m);
      if key !in modules { return ModuleNotFound; }
      var rec := modules[key];
      if rec.state == Draining { return ModuleDraining; }
      if rec.state == Stopped || rec.state == Released { return TaskRejected; }
      modules := modules[key := rec.(state := Active, active := (rec.active + 1) % U32_RANGE)];
      a := Admitted(rec.gpu);
    }

    /** `handle_task` after the computation. */
    method CompleteTask(key: Str)
      modifies this
      ensures State() == Complete(old(State()), key)
      ensures forceCpu == old(forceCpu) && hasSelector == old(hasSelector)
    {
      if key in modules {
        var rec := modules[key];
        if rec.active > 0 { rec := rec.(active := rec.active - 1); }
        if rec.state == Draining && rec.active == 0 { rec := rec.(state := Stopped); }
        modules := modules[key := rec];
      }
    }
  }
}
