/** `Placer`: sticky homes and the three-tier placement decision. */
module Placement {
  import opened Bytes
  import opened Topology

  /** Queue depths as read during one placement: `d(c, g)` is what call number `c` reads for GPU
      `g`. Other threads may change depths between calls. */
  type Depths = (nat, nat) -> nat

  /** No depth changes while the placement runs. */
  ghost predicate Steady(d: Depths) {
    forall c, g :: d(c, g) == d(0, g)
  }

  /** Some GPU is below the backlog threshold. */
  predicate AnyBelow(d: Depths, n: nat, threshold: nat) {
    exists g :: 0 <= g < n && d(0, g) < threshold
  }

  /** The choice for a fixed snapshot, tier by tier. */
  ghost predicate Chosen(t: Topo, threshold: nat, home: nat, d: Depths, r: nat)
    requires Valid(t) && home < t.n
  {
    && r < t.n
    && (d(0, home) < threshold ==> r == home)
    && (d(0, home) >= threshold ==> forall p :: IsBest(t, home, false, p) && p >= 0 && d(0, p) < threshold ==> r == p)
    && (d(0, home) >= threshold && (forall p :: IsBest(t, home, false, p) && p >= 0 ==> d(0, p) >= threshold) ==>
          && (forall g :: 0 <= g < t.n ==> d(0, r) <= d(0, g))
          && (d(0, home) == d(0, r) ==> r == home)
          && (r != home ==> forall g :: 0 <= g < r ==> d(0, r) < d(0, g)))
  }

  /** What the scan of tier three reads for GPU `g`. */
  function Scan(d: Depths, g: nat): nat { d(2 + g, g) }

  /** Tier two applies: `p` is the best peer of home and was read below the threshold. */
  ghost predicate PeerTaken(t: Topo, threshold: nat, home: nat, d: Depths, p: int)
    requires Valid(t) && home < t.n
  {
    IsBest(t, home, false, p) && p >= 0 && d(1, p) < threshold
  }

  /** `r` is the first minimum of home's own reading and the readings of the scan. */
  ghost predicate FirstMinimum(n: nat, home: nat, d: Depths, r: nat) {
    && ((forall g :: 0 <= g < n ==> Scan(d, g) >= d(0, home)) ==> r == home)
    && (!(forall g :: 0 <= g < n ==> Scan(d, g) >= d(0, home)) ==>
          && r < n && Scan(d, r) < d(0, home)
          && (forall g :: 0 <= g < n ==> Scan(d, r) <= Scan(d, g))
          && (forall g :: 0 <= g < r ==> Scan(d, r) < Scan(d, g)))
  }

  /** The choice by what was read, tier by tier, for depths that may move between reads. */
  ghost predicate ChosenByReads(t: Topo, threshold: nat, home: nat, d: Depths, r: nat)
    requires Valid(t) && home < t.n
  {
    && r < t.n
    && (d(0, home) < threshold ==> r == home)
    && (d(0, home) >= threshold ==> forall p :: PeerTaken(t, threshold, home, d, p) ==> r == p)
    && (d(0, home) >= threshold && (forall p :: !PeerTaken(t, threshold, home, d, p)) ==>
          FirstMinimum(t.n, home, d, r))
  }

  /** When no depth moves, the choice by reads is the choice for the snapshot. */
  lemma SteadyChoice(t: Topo, threshold: nat, home: nat, d: Depths, r: nat)
    requires Valid(t) && home < t.n && ChosenByReads(t, threshold, home, d, r) && Steady(d)
    ensures Chosen(t, threshold, home, d, r)
  {
    forall p | IsBest(t, home, false, p) && p >= 0
      ensures PeerTaken(t, threshold, home, d, p) <==> d(0, p) < threshold
    {
      assert d(1, p) == d(0, p);
    }
    forall g: nat ensures Scan(d, g) == d(0, g) { assert d(2 + g, g) == d(0, g); }
    if d(0, home) >= threshold && forall p :: IsBest(t, home, false, p) && p >= 0 ==> d(0, p) >= threshold {
      assert FirstMinimum(t.n, home, d, r);
    }
  }

  /** The call whose reading decided the choice. */
  ghost function DecisiveRead(t: Topo, threshold: nat, home: nat, d: Depths, r: nat, peer: int): nat
    requires Valid(t) && home < t.n
  {
    if d(0, home) < threshold then 0
    else if PeerTaken(t, threshold, home, d, peer) then 1
    else if forall g :: 0 <= g < t.n ==> Scan(d, g) >= d(0, home) then 0
    else 2 + r
  }

  /** Some reading of the placement was below the threshold. */
  ghost predicate AnyReadBelow(t: Topo, threshold: nat, home: nat, d: Depths, peer: int)
    requires Valid(t) && home < t.n
  {
    || d(0, home) < threshold
    || PeerTaken(t, threshold, home, d, peer)
    || exists g :: 0 <= g < t.n && Scan(d, g) < threshold
  }

  /** Whatever moves in between, the chosen GPU was read no deeper than home, and it was read below
      the threshold if any reading the placement makes is. */
  lemma ReadsAreGood(t: Topo, threshold: nat, home: nat, d: Depths, r: nat, peer: int)
    requires Valid(t) && home < t.n && ChosenByReads(t, threshold, home, d, r)
    requires IsBest(t, home, false, peer)
    ensures d(DecisiveRead(t, threshold, home, d, r, peer), r) <= d(0, home)
    ensures AnyReadBelow(t, threshold, home, d, peer) ==>
              d(DecisiveRead(t, threshold, home, d, r, peer), r) < threshold
  {
    forall p | IsBest(t, home, false, p) ensures p == peer { BestIsUnique(t, home, false, p, peer); }
    if d(0, home) >= threshold && !PeerTaken(t, threshold, home, d, peer) {
      assert FirstMinimum(t.n, home, d, r);
      if !(forall g :: 0 <= g < t.n ==> Scan(d, g) >= d(0, home)) { assert d(2 + r, r) == Scan(d, r); }
    }
  }

  /** The scan of tier three. */
  method ScanAll(n: nat, home: nat, d: Depths) returns (r: nat)
    requires home < n
    ensures r < n && FirstMinimum(n, home, d, r)
  {
    r := home;
    var depth := d(0, home);
    var i := 0;
    while i < n
      invariant 0 <= i <= n && r < n && depth <= d(0, home)
      invariant forall g :: 0 <= g < i ==> depth <= Scan(d, g)
      invariant depth == d(0, home) ==> r == home
      invariant depth < d(0, home) ==> r < i && depth == Scan(d, r) && forall g :: 0 <= g < r ==> depth < Scan(d, g)
    {
      var x := d(2 + i, i);
      assert x == Scan(d, i);
      if x < depth { depth, r := x, i; }
      i := i + 1;
    }
  }

  /** `r` is never deeper than home, below the threshold whenever any GPU is, and otherwise a global
      minimum that keeps home on ties. */
  predicate WellPlaced(n: nat, threshold: nat, home: nat, d: Depths, r: nat) {
    && r < n && d(0, r) <= d(0, home)
    && (AnyBelow(d, n, threshold) ==> d(0, r) < threshold)
    && (!AnyBelow(d, n, threshold) ==>
          (forall g :: 0 <= g < n ==> d(0, r) <= d(0, g)) && (d(0, r) == d(0, home) ==> r == home))
  }

  /** For any topology and any fixed depths the choice is well placed. */
  lemma ChosenIsGood(t: Topo, threshold: nat, home: nat, d: Depths, r: nat)
    requires Valid(t) && home < t.n && Chosen(t, threshold, home, d, r)
    ensures WellPlaced(t.n, threshold, home, d, r)
  {
    var peer := BestExists(t, home, false);
    forall p | IsBest(t, home, false, p) ensures p == peer { BestIsUnique(t, home, false, p, peer); }
  }

  /** Where NVLink dominates, home has an NVLink peer and is backed up, tier two is the documented
      NVLink offload: to the best NVLink peer, if that is below the threshold. */
  lemma TierTwoIsNvlink(t: Topo, threshold: nat, home: nat, d: Depths, r: nat) returns (nv: int)
    requires Valid(t) && home < t.n && Chosen(t, threshold, home, d, r)
    requires NonNegative(t) && NvlinkDominates(t)
    requires exists j :: 0 <= j < t.n && Candidate(t, home, j, true)
    requires d(0, home) >= threshold
    ensures IsBest(t, home, true, nv) && 0 <= nv < t.n && t.kind[home][nv] == Nvlink
    ensures d(0, nv) < threshold ==> r == nv
  {
    var peer := BestExists(t, home, false);
    nv := BestExists(t, home, true);
    BestPeerIsNvlink(t, home, peer, nv);
  }

  class Placer {
    const topo: Topo
    const threshold: nat
    var rr: u64
    var affinity: map<int, int>

    predicate Ok()
    {
      Valid(topo)
    }

    constructor (topo: Topo, threshold: nat)
      ensures this.topo == topo && this.threshold == threshold && rr == 0 && affinity == map[]
    {
      this.topo, this.threshold := topo, threshold;
      rr, affinity := 0, map[];
    }

    /** The round-robin counter is a 64-bit unsigned integer. */
    method AssignHome(client: int) returns (home: int)
      requires Ok()
      modifies this
      ensures home == old(rr) % topo.n && rr == (old(rr) + 1) % U64_RANGE
      ensures affinity == old(affinity)[client := home]
    {
      home := rr % topo.n;
      rr := (rr + 1) % U64_RANGE;
      affinity := affinity[client := home];
    }

    method HomeOf(client: int) returns (home: int)
      ensures home == if client in affinity then affinity[client] else -1
    {
      home := if client in affinity then affinity[client] else -1;
    }

    method ReleaseClient(client: int)
      modifies this
      ensures affinity == old(affinity) - {client} && rr == old(rr)
    {
      affinity := affinity - {client};
    }

    /** The home `place` starts from: the client's own when it is in range, else the next one in
        round-robin order. */
    function StartingHome(client: int): nat
      requires Ok()
      reads this
    {
      if client in affinity && 0 <= affinity[client] < topo.n then affinity[client] else rr % topo.n
    }

    /** The three tiers. */
    method Tiers(client: int, d: Depths) returns (r: nat)
      requires Ok()
      modifies this
      ensures r < topo.n && affinity == old(affinity)
      ensures rr == if client in affinity && 0 <= affinity[client] < topo.n then old(rr) else (old(rr) + 1) % U64_RANGE
      ensures ChosenByReads(topo, threshold, old(StartingHome(client)), d, r)
    {
      var home := if client in affinity then affinity[client] else -1;
      if home < 0 || home >= topo.n {
        home := rr % topo.n;
        rr := (rr + 1) % U64_RANGE;
      }
      var homeDepth := d(0, home);
      if homeDepth < threshold { return home; }
      var peer := BestPeer(topo, home);
      hide IsBest, FirstMinimum;
      forall p | IsBest(topo, home, false, p) ensures p == peer { BestIsUnique(topo, home, false, p, peer); }
      if peer >= 0 && d(1, peer) < threshold {
        assert PeerTaken(topo, threshold, home, d, peer);
        return peer;
      }
      r := ScanAll(topo.n, home, d);
    }

    /** `place`, with what it is worth when no depth moves meanwhile. */
    method Place(client: int, d: Depths) returns (r: nat)
      requires Ok()
      modifies this
      ensures r < topo.n && affinity == old(affinity)
      ensures rr == if client in affinity && 0 <= affinity[client] < topo.n then old(rr) else (old(rr) + 1) % U64_RANGE
      ensures var home := if client in affinity && 0 <= affinity[client] < topo.n then affinity[client] else old(rr) % topo.n;
              && ChosenByReads(topo, threshold, home, d, r)
              && (Steady(d) ==> WellPlaced(topo.n, threshold, home, d, r))
    {
      r := Tiers(client, d);
      if Steady(d) {
        SteadyChoice(topo, threshold, old(StartingHome(client)), d, r);
        ChosenIsGood(topo, threshold, old(StartingHome(client)), d, r);
      }
    }
  }
}
