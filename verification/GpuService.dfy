/**
  * Concurrent requests in the broker service: source-to-client affinity, home assignment,
  * placement and the per-GPU in-flight counters, as a transition system. Each step is what one
  * thread does inside one critical section or one atomic operation; any number of threads
  * interleave.
  */
module GpuService {
  import opened Bytes

  /** Where a request thread stands in `run_on_gpu`. */
  datatype Pc =
    | Start(source: Str)                            // before `get_or_assign_client_id`
    | Looking(source: Str)                          // holds `client_mutex_`
    | Emplaced(source: Str, id: int)                // holds it; id stored, no home taken yet
    | Ticketed(source: Str, id: int, home: int)     // holds it; home taken, not stored yet
    | Known(source: Str, id: int)                   // has a client id, lock released
    | Placed(source: Str, id: int, gpu: int)        // `place` answered, not counted yet
    | Running(gpu: int)                             // between increment and decrement
    | Done

  datatype Service = Service(
    n: nat, cap: nat,
    sources: map<Str, int>, nextId: int,            // source_to_client_, next_client_id_
    rr: nat, affinity: map<int, int>,               // the placer's counter and homes
    lock: Option<nat>,                              // owner of client_mutex_
    inflight: seq<nat>,                             // gpu_inflight_
    pcs: map<nat, Pc>)

  datatype Step =
    | Arrive(t: nat, source: Str)
    | Lock(t: nat)
    | Hit(t: nat)                    // the source is known: return its id, unlock
    | Emplace(t: nat)                // the source is new: allocate an id and store it
    | TakeHome(t: nat)               // `rr_counter_.fetch_add`
    | StoreHome(t: nat)              // store the home, unlock, return
    | Place(t: nat, gpu: nat)        // `place` answers some GPU in range
    | Leave(t: nat)                  // a GPU selector only asks for a placement
    | Count(t: nat)                  // increment, or reject at capacity
    | Finish(t: nat)                 // the kernel returned or threw: decrement

  const MAX_ID: int := 0x7FFF_FFFF

  predicate At(s: Service, t: nat) { t in s.pcs }

  /** Steps that can happen; neither counter wraps. */
  predicate Enabled(s: Service, e: Step) {
    match e
    case Arrive(t, _) => t !in s.pcs
    case Lock(t) => At(s, t) && s.pcs[t].Start? && s.lock == None
    case Hit(t) => At(s, t) && s.pcs[t].Looking? && s.pcs[t].source in s.sources
    case Emplace(t) => At(s, t) && s.pcs[t].Looking? && s.pcs[t].source !in s.sources && s.nextId < MAX_ID
    case TakeHome(t) => At(s, t) && s.pcs[t].Emplaced? && s.rr + 1 < U64_RANGE
    case StoreHome(t) => At(s, t) && s.pcs[t].Ticketed?
    case Place(t, gpu) => At(s, t) && s.pcs[t].Known? && gpu < s.n
    case Leave(t) => At(s, t) && s.pcs[t].Placed?
    case Count(t) => At(s, t) && s.pcs[t].Placed?
    case Finish(t) => At(s, t) && s.pcs[t].Running?
  }

  /** Whether `place` for this client would fall back to the round-robin counter. */
  predicate Homeless(s: Service, id: int) {
    id !in s.affinity || !(0 <= s.affinity[id] < s.n)
  }

  predicate WellShaped(s: Service) {
    s.n >= 1 && |s.inflight| == s.n
  }

  function Next(s: Service, e: Step): Service
    requires WellShaped(s) && Enabled(s, e)
  {
    match e
    case Arrive(t, source) => s.(pcs := s.pcs[t := Start(source)])
    case Lock(t) => s.(lock := Some(t), pcs := s.pcs[t := Looking(s.pcs[t].source)])
    case Hit(t) =>
      var source := s.pcs[t].source;
      s.(lock := None, pcs := s.pcs[t := Known(source, s.sources[source])])
    case Emplace(t) =>
      var source := s.pcs[t].source;
      s.(sources := s.sources[source := s.nextId], nextId := s.nextId + 1,
         pcs := s.pcs[t := Emplaced(source, s.nextId)])
    case TakeHome(t) =>
      s.(rr := s.rr + 1, pcs := s.pcs[t := Ticketed(s.pcs[t].source, s.pcs[t].id, s.rr % s.n)])
    case StoreHome(t) =>
      var p := s.pcs[t];
      s.(affinity := s.affinity[p.id := p.home], lock := None, pcs := s.pcs[t := Known(p.source, p.id)])
    case Place(t, gpu) =>
      var p := s.pcs[t];
      s.(rr := if Homeless(s, p.id) then s.rr + 1 else s.rr, pcs := s.pcs[t := Placed(p.source, p.id, gpu)])
    case Leave(t) => s.(pcs := s.pcs[t := Done])
    case Count(t) =>
      var g := s.pcs[t].gpu;
      if !(0 <= g < s.n) || s.inflight[g] + 1 > s.cap then s.(pcs := s.pcs[t := Done])
      else s.(inflight := s.inflight[g := s.inflight[g] + 1], pcs := s.pcs[t := Running(g)])
    case Finish(t) =>
      var g := s.pcs[t].gpu;
      if 0 <= g < s.n && s.inflight[g] > 0
      then s.(inflight := s.inflight[g := s.inflight[g] - 1], pcs := s.pcs[t := Done])
      else s.(pcs := s.pcs[t := Done])
  }

  // ----- the counters -----

  function RunningOn(pcs: map<nat, Pc>, g: int): set<nat> {
    set t | t in pcs && pcs[t] == Running(g)
  }

  predicate InRange(s: Service, p: Pc) {
    match p
    case Placed(_, _, gpu) => 0 <= gpu < s.n
    case Running(gpu) => 0 <= gpu < s.n
    case _ => true
  }

  ghost predicate CountersOk(s: Service) {
    && WellShaped(s)
    && (forall t :: t in s.pcs ==> InRange(s, s.pcs[t]))
    && (forall g :: 0 <= g < s.n ==> s.inflight[g] == |RunningOn(s.pcs, g)| && s.inflight[g] <= s.cap)
  }

  lemma MovedCount(pcs: map<nat, Pc>, t: nat, p: Pc, g: int)
    ensures |RunningOn(pcs[t := p], g)| + (if t in pcs && pcs[t] == Running(g) then 1 else 0) ==
            |RunningOn(pcs, g)| + (if p == Running(g) then 1 else 0)
  {
    var before, after := RunningOn(pcs, g), RunningOn(pcs[t := p], g);
    MovedSet(pcs, t, p, g);
    if t in before { assert before == (before - {t}) + {t}; } else { assert before == before - {t}; }
    if t in after { assert after == (after - {t}) + {t}; } else { assert after == after - {t}; }
  }

  lemma MovedSet(pcs: map<nat, Pc>, t: nat, p: Pc, g: int)
    ensures RunningOn(pcs[t := p], g) - {t} == RunningOn(pcs, g) - {t}
    ensures t in RunningOn(pcs, g) <==> t in pcs && pcs[t] == Running(g)
    ensures t in RunningOn(pcs[t := p], g) <==> p == Running(g)
  {
  }

  /** The counter guard before the decrement never fails. */
  lemma FinishGuard(s: Service, t: nat)
    requires CountersOk(s) && t in s.pcs && s.pcs[t].Running?
    ensures 0 <= s.pcs[t].gpu < s.n && s.inflight[s.pcs[t].gpu] > 0
  {
    assert InRange(s, s.pcs[t]);
    assert t in RunningOn(s.pcs, s.pcs[t].gpu);
  }

  lemma StepCounters(s: Service, e: Step)
    requires CountersOk(s) && Enabled(s, e)
    ensures CountersOk(Next(s, e))
  {
    hide RunningOn;
    var s' := Next(s, e);
    if e.Finish? { FinishGuard(s, e.t); }
    if e.Count? { assert InRange(s, s.pcs[e.t]); }
    forall g | 0 <= g < s.n ensures s'.inflight[g] == |RunningOn(s'.pcs, g)| && s'.inflight[g] <= s.cap {
      MovedCount(s.pcs, e.t, s'.pcs[e.t], g);
      assert s'.pcs == s.pcs[e.t := s'.pcs[e.t]];
    }
  }

  // ----- client ids and homes -----

  predicate Holds(p: Pc) {
    p.Looking? || p.Emplaced? || p.Ticketed?
  }

  /** Mutual exclusion on `client_mutex_`. */
  ghost predicate Exclusive(s: Service) {
    forall t :: (t in s.pcs && Holds(s.pcs[t])) <==> s.lock == Some(t)
  }

  /** What a thread may rely on at each point. */
  predicate ThreadOk(s: Service, p: Pc)
    requires s.n >= 1
  {
    match p
    case Emplaced(source, id) => source in s.sources && s.sources[source] == id && id !in s.affinity
    case Ticketed(source, id, home) =>
      source in s.sources && s.sources[source] == id && id !in s.affinity && s.rr >= 1 && home == (s.rr - 1) % s.n
    case Known(source, id) => source in s.sources && s.sources[source] == id && id in s.affinity
    case Placed(source, id, _) => source in s.sources && s.sources[source] == id && id in s.affinity
    case _ => true
  }

  /** The id the lock owner has allocated but not yet given a home. */
  function Pending(s: Service): Option<int> {
    if s.lock.Some? && s.lock.value in s.pcs && (s.pcs[s.lock.value].Emplaced? || s.pcs[s.lock.value].Ticketed?)
    then Some(s.pcs[s.lock.value].id) else None
  }

  predicate IsTicketed(s: Service) {
    s.lock.Some? && s.lock.value in s.pcs && s.pcs[s.lock.value].Ticketed?
  }

  function HomedOn(affinity: map<int, int>, g: int): set<int> {
    set c | c in affinity && affinity[c] == g
  }

  /** How many of the numbers 0 to m - 1 leave remainder `g` modulo `n`. */
  function Share(m: nat, n: nat, g: nat): nat
    requires n >= 1
  {
    m / n + if g < m % n then 1 else 0
  }

  ghost predicate IdsOk(s: Service) {
    && s.nextId >= 1
    && (forall src :: src in s.sources ==> 1 <= s.sources[src] < s.nextId)
    && (forall a, b :: a in s.sources && b in s.sources && s.sources[a] == s.sources[b] ==> a == b)
    && (forall src :: src in s.sources ==> s.sources[src] in s.affinity || Pending(s) == Some(s.sources[src]))
    && (forall c :: c in s.affinity ==> 1 <= c < s.nextId && 0 <= s.affinity[c] < s.n)
  }

  ghost predicate HomesOk(s: Service) {
    && s.n >= 1
    && s.rr == |s.affinity| + (if IsTicketed(s) then 1 else 0)
    && forall g :: 0 <= g < s.n ==> |HomedOn(s.affinity, g)| == Share(|s.affinity|, s.n, g)
  }

  /** Ids and homes follow the order in which sources arrive. */
  ghost predicate ArrivalOk(s: Service) {
    && s.n >= 1
    && s.nextId == 1 + |s.sources| == 1 + |s.affinity| + (if Pending(s).Some? then 1 else 0)
    && (Pending(s).Some? ==> Pending(s).value == s.nextId - 1)
    && forall c :: c in s.affinity ==> c >= 1 && s.affinity[c] == (c - 1) % s.n
  }

  ghost predicate ClientsOk(s: Service) {
    && WellShaped(s)
    && Exclusive(s)
    && (forall t :: t in s.pcs ==> ThreadOk(s, s.pcs[t]))
    && IdsOk(s)
    && HomesOk(s)
    && ArrivalOk(s)
  }

  /** A thread about to place always has an in-range home, so the round-robin fallback of `place`
      is never taken. */
  lemma NeverHomeless(s: Service, t: nat)
    requires ClientsOk(s) && t in s.pcs && s.pcs[t].Known?
    ensures !Homeless(s, s.pcs[t].id)
  {
    assert ThreadOk(s, s.pcs[t]);
  }

  lemma ShareStep(m: nat, n: nat, g: nat)
    requires n >= 1 && g < n
    ensures Share(m + 1, n, g) == Share(m, n, g) + if g == m % n then 1 else 0
  {
    var q, r := m / n, m % n;
    assert m == n * q + r;
    if r + 1 < n {
      DivModUnique(m + 1, n, q, r + 1);
    } else {
      assert n * (q + 1) == n * q + n;
      DivModUnique(m + 1, n, q + 1, 0);
    }
  }

  lemma StoredHome(affinity: map<int, int>, c: int, home: int, g: int)
    requires c !in affinity
    ensures |HomedOn(affinity[c := home], g)| == |HomedOn(affinity, g)| + if home == g then 1 else 0
    ensures |affinity[c := home]| == |affinity| + 1
  {
    assert HomedOn(affinity[c := home], g) == HomedOn(affinity, g) + if home == g then {c} else {};
  }

  lemma StoreHomes(s: Service, t: nat)
    requires ClientsOk(s) && Enabled(s, StoreHome(t))
    ensures HomesOk(Next(s, StoreHome(t)))
  {
    hide HomedOn, Share, ArrivalOk, IdsOk;
    var s' := Next(s, StoreHome(t));
    var p := s.pcs[t];
    assert ThreadOk(s, p) && Holds(p) && s.lock == Some(t);
    forall g | 0 <= g < s.n ensures |HomedOn(s'.affinity, g)| == Share(|s'.affinity|, s.n, g) {
      StoredHome(s.affinity, p.id, p.home, g);
      ShareStep(|s.affinity|, s.n, g);
    }
    StoredHome(s.affinity, p.id, p.home, 0);
  }

  lemma StepExclusive(s: Service, e: Step)
    requires ClientsOk(s) && Enabled(s, e)
    ensures Exclusive(Next(s, e))
  {
    hide ThreadOk, IdsOk, HomesOk, ArrivalOk;
    var s' := Next(s, e);
    if e.Lock? || e.Hit? || e.StoreHome? || e.Emplace? || e.TakeHome? {
      forall t ensures (t in s'.pcs && Holds(s'.pcs[t])) <==> s'.lock == Some(t) {
        assert (t in s.pcs && Holds(s.pcs[t])) <==> s.lock == Some(t);
        assert Holds(s.pcs[e.t]) ==> s.lock == Some(e.t);
      }
    } else {
      forall t ensures (t in s'.pcs && Holds(s'.pcs[t])) <==> s'.lock == Some(t) {
        assert (t in s.pcs && Holds(s.pcs[t])) <==> s.lock == Some(t);
      }
    }
  }

  /** What the stepping thread holds when it holds the lock. */
  lemma Owner(s: Service, e: Step)
    requires ClientsOk(s) && Enabled(s, e)
    ensures e.t in s.pcs ==> ThreadOk(s, s.pcs[e.t]) && (Holds(s.pcs[e.t]) ==> s.lock == Some(e.t))
    ensures s.lock.Some? ==> s.lock.value in s.pcs && Holds(s.pcs[s.lock.value])
  {
    hide IdsOk, HomesOk, ThreadOk, ArrivalOk;
  }

  lemma StepThreads(s: Service, e: Step, t: nat)
    requires ClientsOk(s) && Enabled(s, e) && t in Next(s, e).pcs
    ensures ThreadOk(Next(s, e), Next(s, e).pcs[t])
  {
    Owner(s, e);
    if t == e.t { OwnThread(s, e); } else { OtherThread(s, e, t); }
  }

  lemma OwnThread(s: Service, e: Step)
    requires ClientsOk(s) && Enabled(s, e)
    ensures ThreadOk(Next(s, e), Next(s, e).pcs[e.t])
  {
    hide HomesOk, Exclusive, ArrivalOk;
    Owner(s, e);
    if e.Hit? {
      PendingNone(s, e);
      assert s.sources[s.pcs[e.t].source] in s.affinity;
    }
  }

  lemma PendingNone(s: Service, e: Step)
    requires ClientsOk(s) && Enabled(s, e) && e.Hit?
    ensures Pending(s) == None
  {
    Owner(s, e);
  }

  lemma OtherThread(s: Service, e: Step, t: nat)
    requires ClientsOk(s) && Enabled(s, e) && t in s.pcs && t != e.t
    ensures ThreadOk(Next(s, e), s.pcs[t]) && Next(s, e).pcs[t] == s.pcs[t]
  {
    hide HomesOk, IdsOk, ArrivalOk;
    Owner(s, e);
    assert ThreadOk(s, s.pcs[t]);
    assert Holds(s.pcs[t]) ==> s.lock == Some(t);
    if e.Place? { NeverHomeless(s, e.t); }
  }

  /** How each step changes the id that is waiting for its home. */
  lemma StepPending(s: Service, e: Step)
    requires ClientsOk(s) && Enabled(s, e)
    ensures Pending(Next(s, e)) ==
            if e.Emplace? then Some(s.nextId) else if e.StoreHome? then None else Pending(s)
    ensures e.Emplace? ==> Pending(s) == None
    ensures e.StoreHome? ==> Pending(s) == Some(s.pcs[e.t].id)
  {
    hide HomesOk, IdsOk, ThreadOk, Exclusive, ArrivalOk;
    Owner(s, e);
  }

  lemma StepIds(s: Service, e: Step)
    requires ClientsOk(s) && Enabled(s, e)
    ensures IdsOk(Next(s, e))
  {
    hide HomesOk, Exclusive, Pending, ArrivalOk;
    Owner(s, e);
    StepPending(s, e);
    if e.StoreHome? { HomeInRange(s, e.t); }
  }

  lemma HomeInRange(s: Service, t: nat)
    requires ClientsOk(s) && t in s.pcs && s.pcs[t].Ticketed?
    ensures 0 <= s.pcs[t].home < s.n && s.pcs[t].source in s.sources && s.sources[s.pcs[t].source] == s.pcs[t].id
  {
    assert ThreadOk(s, s.pcs[t]);
  }

  lemma StepHomes(s: Service, e: Step)
    requires ClientsOk(s) && Enabled(s, e)
    ensures HomesOk(Next(s, e))
  {
    hide IdsOk, HomedOn, Share, ArrivalOk;
    if e.t in s.pcs {
      assert ThreadOk(s, s.pcs[e.t]);
      assert Holds(s.pcs[e.t]) ==> s.lock == Some(e.t);
    }
    if s.lock.Some? { assert s.lock.value in s.pcs && Holds(s.pcs[s.lock.value]); }
    if e.StoreHome? { StoreHomes(s, e.t); }
    if e.Place? { NeverHomeless(s, e.t); }
  }

  lemma StepArrival(s: Service, e: Step)
    requires ClientsOk(s) && Enabled(s, e)
    ensures ArrivalOk(Next(s, e))
  {
    hide Exclusive, Pending, IdsOk, HomesOk;
    Owner(s, e);
    StepPending(s, e);
    if e.Emplace? { assert |s.sources[s.pcs[e.t].source := s.nextId]| == |s.sources| + 1; }
    if e.StoreHome? {
      TicketIsNext(s, e.t);
      var p := s.pcs[e.t];
      assert |s.affinity[p.id := p.home]| == |s.affinity| + 1;
    }
  }

  /** The home a thread has taken is the one its id calls for. */
  lemma TicketIsNext(s: Service, t: nat)
    requires ClientsOk(s) && t in s.pcs && s.pcs[t].Ticketed?
    ensures var p := s.pcs[t];
            p.id == s.nextId - 1 == |s.affinity| + 1 && p.home == (p.id - 1) % s.n && p.id !in s.affinity
  {
    hide IdsOk, HomedOn, Share;
    assert Holds(s.pcs[t]) && s.lock == Some(t);
    assert ThreadOk(s, s.pcs[t]);
    assert IsTicketed(s) && Pending(s) == Some(s.pcs[t].id);
  }

  // ----- whole runs -----

  function Initial(n: nat, cap: nat): Service {
    Service(n, cap, map[], 1, 0, map[], None, seq(n, _ => 0), map[])
  }

  ghost predicate Inv(s: Service) {
    CountersOk(s) && ClientsOk(s)
  }

  lemma StepInv(s: Service, e: Step)
    requires Inv(s) && Enabled(s, e)
    ensures Inv(Next(s, e))
  {
    hide Exclusive, IdsOk, HomesOk, ThreadOk, CountersOk, ArrivalOk, Next, Enabled;
    StepCounters(s, e);
    StepExclusive(s, e);
    StepIds(s, e);
    StepHomes(s, e);
    StepArrival(s, e);
    StepShape(s, e);
    var s' := Next(s, e);
    forall t | t in s'.pcs ensures ThreadOk(s', s'.pcs[t]) { StepThreads(s, e, t); }
  }

  lemma StepShape(s: Service, e: Step)
    requires WellShaped(s) && Enabled(s, e)
    ensures WellShaped(Next(s, e)) && Next(s, e).n == s.n && Next(s, e).cap == s.cap
  {
  }

  lemma InitialInv(n: nat, cap: nat)
    requires n >= 1
    ensures Inv(Initial(n, cap))
  {
    var s := Initial(n, cap);
    assert forall g :: RunningOn(s.pcs, g) == {};
    assert forall g :: HomedOn(s.affinity, g) == {};
  }

  /** An interleaving from `s`: each step is enabled where it happens. */
  predicate Legal(s: Service, es: seq<Step>)
    requires WellShaped(s)
    decreases |es|
  {
    es == [] || (Enabled(s, es[0]) && (StepShape(s, es[0]); Legal(Next(s, es[0]), es[1..])))
  }

  function Exec(s: Service, es: seq<Step>): Service
    requires WellShaped(s) && Legal(s, es)
    decreases |es|
  {
    if es == [] then s else (StepShape(s, es[0]); Exec(Next(s, es[0]), es[1..]))
  }

  /** Every state of every interleaving satisfies the invariant; ids once assigned stay. */
  lemma {:induction false} RunInv(s: Service, es: seq<Step>)
    requires Inv(s) && Legal(s, es)
    ensures Inv(Exec(s, es)) && Exec(s, es).n == s.n && Exec(s, es).cap == s.cap
    ensures forall src :: src in s.sources ==>
              src in Exec(s, es).sources && Exec(s, es).sources[src] == s.sources[src]
    decreases |es|
  {
    assert WellShaped(s);
    hide Next, Enabled, Inv;
    if es != [] {
      StepInv(s, es[0]);
      StepShape(s, es[0]);
      KeepsIds(s, es[0]);
      RunInv(Next(s, es[0]), es[1..]);
    }
  }

  lemma KeepsIds(s: Service, e: Step)
    requires WellShaped(s) && Enabled(s, e)
    ensures forall src :: src in s.sources ==> src in Next(s, e).sources && Next(s, e).sources[src] == s.sources[src]
  {
  }

  /** In every reachable state the in-flight counter of a GPU is the number of requests between
      their increment and their decrement, and never exceeds the cap; when none is left it is zero. */
  lemma InflightExact(n: nat, cap: nat, es: seq<Step>, g: nat)
    requires n >= 1 && Legal(Initial(n, cap), es) && g < n
    ensures var s := Exec(Initial(n, cap), es);
            && |s.inflight| == n && s.inflight[g] == |RunningOn(s.pcs, g)| <= cap
            && ((forall t :: t in s.pcs ==> !s.pcs[t].Running?) ==> s.inflight[g] == 0)
  {
    InitialInv(n, cap);
    RunInv(Initial(n, cap), es);
    var s := Exec(Initial(n, cap), es);
    if forall t :: t in s.pcs ==> !s.pcs[t].Running? { assert RunningOn(s.pcs, g) == {}; }
  }

  /** In every reachable state a request about to be counted is admitted exactly when fewer than
      `cap` requests are running on its GPU; a refused one leaves every counter alone. */
  lemma AdmittedIffRoom(n: nat, cap: nat, es: seq<Step>, t: nat)
    requires n >= 1 && Legal(Initial(n, cap), es) && WellShaped(Exec(Initial(n, cap), es))
    requires Enabled(Exec(Initial(n, cap), es), Count(t))
    ensures var s := Exec(Initial(n, cap), es);
            var s', g := Next(s, Count(t)), s.pcs[t].gpu;
            && 0 <= g < n
            && (s'.pcs[t] == Running(g) <==> |RunningOn(s.pcs, g)| < cap)
            && (s'.pcs[t] != Running(g) ==> s'.pcs[t] == Done && s'.inflight == s.inflight)
  {
    InitialInv(n, cap);
    RunInv(Initial(n, cap), es);
    hide Exec, Legal, RunningOn, ClientsOk;
    var s := Exec(Initial(n, cap), es);
    assert InRange(s, s.pcs[t]);
  }

  /** In every reachable state the sources have exactly the ids 1 to m, one each, and client `c`
      is homed on GPU `(c - 1) mod n`. */
  lemma HomeByArrival(n: nat, cap: nat, es: seq<Step>, source: Str)
    requires n >= 1 && Legal(Initial(n, cap), es) && source in Exec(Initial(n, cap), es).sources
    ensures var s := Exec(Initial(n, cap), es);
            var c := s.sources[source];
            && 1 <= c <= |s.sources| == s.nextId - 1
            && (c in s.affinity || (s.lock.Some? && c == |s.sources|))
            && (c in s.affinity ==> s.affinity[c] == (c - 1) % n)
  {
    InitialInv(n, cap);
    RunInv(Initial(n, cap), es);
    hide Exec, Legal, CountersOk, HomesOk;
  }

  /** Ids follow arrival: over every run, a source that is new since `s` has a larger id than every
      source known in `s`. */
  lemma {:induction false} IdsByArrival(s: Service, es: seq<Step>, early: Str, late: Str)
    requires Inv(s) && Legal(s, es)
    requires early in s.sources && late !in s.sources && late in Exec(s, es).sources
    ensures early in Exec(s, es).sources && Exec(s, es).sources[early] == s.sources[early]
    ensures s.sources[early] < s.nextId <= Exec(s, es).sources[late]
    decreases |es|
  {
    assert WellShaped(s) && IdsOk(s);
    hide Next, Enabled, Inv;
    RunInv(s, es);
    if es != [] {
      var s' := Next(s, es[0]);
      StepInv(s, es[0]);
      StepShape(s, es[0]);
      KeepsIds(s, es[0]);
      NewId(s, es[0], late);
      if late in s'.sources {
        RunInv(s', es[1..]);
      } else {
        IdsByArrival(s', es[1..], early, late);
      }
    }
  }

  /** A step gives a new source the next id. */
  lemma NewId(s: Service, e: Step, source: Str)
    requires WellShaped(s) && Enabled(s, e) && source !in s.sources
    ensures source in Next(s, e).sources ==> Next(s, e).sources[source] == s.nextId
    ensures s.nextId <= Next(s, e).nextId
  {
  }

  /** Distinct sources have distinct ids, in every reachable state. */
  lemma IdsDistinct(n: nat, cap: nat, es: seq<Step>, a: Str, b: Str)
    requires n >= 1 && Legal(Initial(n, cap), es)
    requires a in Exec(Initial(n, cap), es).sources && b in Exec(Initial(n, cap), es).sources && a != b
    ensures Exec(Initial(n, cap), es).sources[a] != Exec(Initial(n, cap), es).sources[b]
  {
    InitialInv(n, cap);
    RunInv(Initial(n, cap), es);
  }

  /** No reachable placement uses the round-robin fallback. */
  lemma FallbackNeverTaken(n: nat, cap: nat, es: seq<Step>, t: nat, gpu: nat)
    requires n >= 1 && Legal(Initial(n, cap), es) && WellShaped(Exec(Initial(n, cap), es))
    requires Enabled(Exec(Initial(n, cap), es), Place(t, gpu))
    ensures Next(Exec(Initial(n, cap), es), Place(t, gpu)).rr == Exec(Initial(n, cap), es).rr
  {
    InitialInv(n, cap);
    RunInv(Initial(n, cap), es);
    NeverHomeless(Exec(Initial(n, cap), es), t);
  }

  /** Homes are balanced: after any run, exactly `Share` clients are homed on each GPU, so any two
      GPUs differ by at most one. */
  lemma HomesBalanced(n: nat, cap: nat, es: seq<Step>, g: nat, h: nat)
    requires n >= 1 && Legal(Initial(n, cap), es) && g < n && h < n
    ensures var a := Exec(Initial(n, cap), es).affinity;
            && |HomedOn(a, g)| == Share(|a|, n, g)
            && -1 <= |HomedOn(a, g)| - |HomedOn(a, h)| <= 1
  {
    InitialInv(n, cap);
    RunInv(Initial(n, cap), es);
    hide HomedOn;
    var a := Exec(Initial(n, cap), es).affinity;
    assert |HomedOn(a, g)| == Share(|a|, n, g) && |HomedOn(a, h)| == Share(|a|, n, h);
  }
}
