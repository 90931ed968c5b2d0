/**
  * The service's mutable state in the code's own form. Each method is one critical section, and
  * refines the corresponding steps of `GpuService`.
  */
module GpuBroker {
  import opened Bytes
  import opened Broker
  import Topology
  import opened Placement
  import opened GpuService
  import opened Doubles
  import Dispatch

  /** Depths read from one snapshot of the counters. */
  function Snapshot(inflight: seq<nat>): Depths {
    (c: nat, g: nat) => if g < |inflight| then inflight[g] else 0
  }

  /** By the counters: `g` has no more in flight than home, fewer than the threshold if any GPU has, and
      otherwise the fewest of all, and is home if home has as few. */
  predicate WellChosen(counts: seq<nat>, threshold: nat, home: int, g: int)
    requires 0 <= home < |counts| && 0 <= g < |counts|
  {
    && counts[g] <= counts[home]
    && ((exists j :: 0 <= j < |counts| && counts[j] < threshold) ==> counts[g] < threshold)
    && ((forall j :: 0 <= j < |counts| ==> counts[j] >= threshold) ==>
          (forall j :: 0 <= j < |counts| ==> counts[g] <= counts[j]) && (counts[g] == counts[home] ==> g == home))
  }

  lemma ChosenByCounts(t: Topology.Topo, threshold: nat, home: nat, counts: seq<nat>, g: nat)
    requires Topology.Valid(t) && |counts| == t.n && home < t.n && Chosen(t, threshold, home, Snapshot(counts), g)
    ensures g < |counts| && WellChosen(counts, threshold, home, g)
  {
    ChosenIsGood(t, threshold, home, Snapshot(counts), g);
    hide Chosen;
    var d := Snapshot(counts);
    assert forall j :: 0 <= j < t.n ==> d(0, j) == counts[j];
  }

  class BrokerService {
    const placer: Placer
    const cap: nat
    const inflight: array<nat>
    var sources: map<Str, int>
    var nextId: i32

    constructor (placer: Placer, cap: nat)
      requires placer.Ok() && placer.rr == 0 && placer.affinity == map[]
      ensures this.placer == placer && this.cap == cap && fresh(inflight) && Ok()
      ensures View(None, map[]) == Initial(placer.topo.n, cap)
    {
      this.placer, this.cap := placer, cap;
      inflight := new nat[placer.topo.n](_ => 0);
      sources, nextId := map[], 1;
      new;
      assert inflight[..] == seq(placer.topo.n, _ => 0);
    }

    predicate Ok()
    {
      placer.Ok() && inflight.Length == placer.topo.n
    }

    /** The shared state together with where the threads stand. */
    ghost function View(lock: Option<nat>, pcs: map<nat, Pc>): Service
      reads this, placer, inflight
    {
      Service(placer.topo.n, cap, sources, nextId, placer.rr, placer.affinity, lock, inflight[..], pcs)
    }

    /** `get_or_assign_client_id`, run by thread `t` under `client_mutex_`. The id counter is a
        32-bit signed integer and the placer's counter a 64-bit unsigned one; both wrap. */
    method GetOrAssignClientId(source: Str, ghost t: nat, ghost pcs: map<nat, Pc>) returns (id: i32)
      requires Ok() && t in pcs && pcs[t] == Looking(source)
      requires forall s :: s in sources ==> -0x8000_0000 <= sources[s] <= MAX_ID
      modifies this, placer
      ensures inflight[..] == old(inflight[..])
      ensures source in old(sources) ==>
                View(None, pcs[t := Known(source, id)]) == Next(old(View(Some(t), pcs)), Hit(t))
      ensures source !in old(sources) && old(nextId) < MAX_ID && old(placer.rr) + 1 < U64_RANGE ==>
                var s1 := Next(old(View(Some(t), pcs)), Emplace(t));
                var s2 := Next(s1, TakeHome(t));
                View(None, pcs[t := Known(source, id)]) == Next(s2, StoreHome(t))
      ensures source in sources && sources[source] == id
    {
      if source in sources { return sources[source]; }
      id := nextId;
      nextId := if nextId == MAX_ID then -0x8000_0000 else nextId + 1;
      sources := sources[source := id];
      var home := placer.AssignHome(id);
      assert pcs[t := Emplaced(source, id)][t := Ticketed(source, id, home)][t := Known(source, id)]
             == pcs[t := Known(source, id)];
    }

    /** The placement of `run_on_gpu`, run by thread `t` while any thread may hold `client_mutex_`;
        `d` is what it reads of the counters, one lock at a time. */
    method PlaceClient(d: Depths, ghost lock: Option<nat>, ghost t: nat, ghost pcs: map<nat, Pc>, source: Str, id: i32)
      returns (gpu: nat)
      requires Ok() && t in pcs && pcs[t] == Known(source, id)
      modifies placer
      ensures gpu < placer.topo.n && placer.affinity == old(placer.affinity)
      ensures ChosenByReads(placer.topo, placer.threshold, old(placer.StartingHome(id)), d, gpu)
      ensures !Homeless(old(View(lock, pcs)), id) || old(placer.rr) + 1 < U64_RANGE ==>
                View(lock, pcs[t := Placed(source, id, gpu)]) == Next(old(View(lock, pcs)), Place(t, gpu))
    {
      hide ChosenByReads, WellPlaced, Steady;
      gpu := placer.Place(id, d);
    }

    /** The increment of `run_on_gpu`, undone at once when the GPU is at capacity. */
    method EnterGpu(gpu: nat, ghost lock: Option<nat>, ghost t: nat, ghost pcs: map<nat, Pc>) returns (admitted: bool)
      requires Ok() && gpu < inflight.Length && t in pcs && pcs[t].Placed? && pcs[t].gpu == gpu
      modifies inflight
      ensures View(lock, pcs[t := if admitted then Running(gpu) else Done]) == Next(old(View(lock, pcs)), Count(t))
      ensures admitted <==> old(inflight[gpu]) < cap
      ensures inflight[..] == if admitted then old(inflight[..])[gpu := old(inflight[gpu]) + 1] else old(inflight[..])
    {
      inflight[gpu] := inflight[gpu] + 1;
      admitted := true;
      if inflight[gpu] > cap {
        inflight[gpu] := inflight[gpu] - 1;
        admitted := false;
      }
      assert !admitted ==> inflight[..] == old(inflight[..]);
    }

    /** The guarded decrement, after the kernel returned or threw. */
    method LeaveGpu(gpu: nat, ghost lock: Option<nat>, ghost t: nat, ghost pcs: map<nat, Pc>)
      requires Ok() && gpu < inflight.Length && t in pcs && pcs[t] == Running(gpu)
      modifies inflight
      ensures View(lock, pcs[t := Done]) == Next(old(View(lock, pcs)), Finish(t))
      ensures old(inflight[gpu]) > 0 ==> inflight[..] == old(inflight[..])[gpu := old(inflight[gpu]) - 1]
    {
      if inflight[gpu] > 0 {
        inflight[gpu] := inflight[gpu] - 1;
      }
    }

    /** The first half of `run_on_gpu` when no other request runs meanwhile: the client id of the
        source and a placement on the counters as they stand. */
    method PlaceSource(source: Str, ghost t: nat) returns (gpu: nat)
      requires Ok()
      requires forall s :: s in sources ==> -0x8000_0000 <= sources[s] <= MAX_ID
      modifies this, placer
      ensures gpu < placer.topo.n && source in sources && inflight[..] == old(inflight[..])
      ensures var id := sources[source];
              id in placer.affinity && 0 <= placer.affinity[id] < placer.topo.n ==>
                Chosen(placer.topo, placer.threshold, placer.affinity[id], Snapshot(inflight[..]), gpu)
      ensures var id := sources[source];
              id in placer.affinity && 0 <= placer.affinity[id] < placer.topo.n ==>
                WellChosen(inflight[..], placer.threshold, placer.affinity[id], gpu)
    {
      var id := GetOrAssignClientId(source, t, map[t := Looking(source)]);
      hide Next;
      var d := Snapshot(inflight[..]);
      ghost var home := placer.StartingHome(id);
      gpu := PlaceClient(d, None, t, map[t := Known(source, id)], source, id);
      SteadyChoice(placer.topo, placer.threshold, home, d, gpu);
      ChosenByCounts(placer.topo, placer.threshold, home, inflight[..], gpu);
    }

    /** `run_on_gpu` when no other request runs meanwhile: placement and admission come from the
        service's own state, and the counters are as before whether or not the kernel throws. */
    method RunOnGpu(m: Request, input: seq<u64>, w: Dispatch.World, ghost t: nat) returns (r: Response)
      requires Ok() && placer.topo.n <= MAX_ID
      requires forall s :: s in sources ==> -0x8000_0000 <= sources[s] <= MAX_ID
      modifies this, placer, inflight
      ensures inflight[..] == old(inflight[..])
      ensures r.taskId == m.taskId && r.backend == Gpu && 0 <= r.gpu < inflight.Length
      ensures r.status == Rejected <==> old(inflight[r.gpu]) >= cap
      ensures r.status == TaskStatus.Ok <==> old(inflight[r.gpu]) < cap && w.gpu(input, r.gpu).Some?
      ensures r.result == if r.status == TaskStatus.Ok then Pack(w.gpu(input, r.gpu).value) else []
      ensures m.source in sources
      ensures var id := sources[m.source];
              id in placer.affinity && 0 <= placer.affinity[id] < placer.topo.n ==>
                Chosen(placer.topo, placer.threshold, placer.affinity[id], Snapshot(inflight[..]), r.gpu)
      ensures var id := sources[m.source];
              id in placer.affinity && 0 <= placer.affinity[id] < placer.topo.n ==>
                WellChosen(inflight[..], placer.threshold, placer.affinity[id], r.gpu)
    {
      hide Next, Chosen, Snapshot, WellChosen;
      var gpu := PlaceSource(m.source, t);
      ghost var counts := inflight[..];
      var admitted := EnterGpu(gpu, None, t, map[t := Placed(m.source, sources[m.source], gpu)]);
      r := Dispatch.RunOnGpu(m, input, w.(placement := Some(gpu), admitted := admitted));
      if admitted { LeaveGpu(gpu, None, t, map[t := Running(gpu)]); }
      assert inflight[..] == counts;
    }
  }
}
