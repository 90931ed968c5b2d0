/** GPU interconnect topologies: how they are built and which peer is the best one. */
module Topology {
  import opened Bytes

  datatype Link = Self | Nvlink | Pcie | NoLink

  datatype Topo = Topo(n: nat, kind: seq<seq<Link>>, bw: seq<seq<int>>)

  predicate Square<T>(n: nat, m: seq<seq<T>>) {
    |m| == n && forall i :: 0 <= i < n ==> |m[i]| == n
  }

  predicate Valid(t: Topo) {
    t.n >= 1 && Square(t.n, t.kind) && Square(t.n, t.bw)
  }

  /** A candidate for the best peer of `g`, among NVLink peers only or among all reachable ones. */
  predicate Candidate(t: Topo, g: nat, j: nat, nvlinkOnly: bool)
    requires Valid(t) && g < t.n && j < t.n
  {
    j != g && if nvlinkOnly then t.kind[g][j] == Nvlink else t.kind[g][j] != NoLink
  }

  /** `r` is the first candidate of greatest non-negative bandwidth, or -1 if there is none. */
  predicate IsBest(t: Topo, g: nat, nvlinkOnly: bool, r: int)
    requires Valid(t) && g < t.n
  {
    if r == -1 then forall j :: 0 <= j < t.n && Candidate(t, g, j, nvlinkOnly) ==> t.bw[g][j] < 0
    else
      && 0 <= r < t.n && Candidate(t, g, r, nvlinkOnly) && t.bw[g][r] >= 0
      && (forall j :: 0 <= j < t.n && Candidate(t, g, j, nvlinkOnly) ==> t.bw[g][j] <= t.bw[g][r])
      && (forall j :: 0 <= j < r && Candidate(t, g, j, nvlinkOnly) ==> t.bw[g][j] < t.bw[g][r])
  }

  lemma BestIsUnique(t: Topo, g: nat, nvlinkOnly: bool, r: int, q: int)
    requires Valid(t) && g < t.n && IsBest(t, g, nvlinkOnly, r) && IsBest(t, g, nvlinkOnly, q)
    ensures r == q
  {
  }

  /** Every GPU has a best peer in this sense, -1 included. */
  lemma BestExists(t: Topo, g: nat, nvlinkOnly: bool) returns (best: int)
    requires Valid(t) && g < t.n
    ensures IsBest(t, g, nvlinkOnly, best)
  {
    best := -1;
    var j := 0;
    while j < t.n
      invariant 0 <= j <= t.n && -1 <= best < j
      invariant best != -1 ==> Candidate(t, g, best, nvlinkOnly) && t.bw[g][best] >= 0
      invariant forall k :: 0 <= k < j && Candidate(t, g, k, nvlinkOnly) ==>
                  t.bw[g][k] <= if best == -1 then -1 else t.bw[g][best]
      invariant forall k :: 0 <= k < best && Candidate(t, g, k, nvlinkOnly) ==> t.bw[g][k] < t.bw[g][best]
    {
      if Candidate(t, g, j, nvlinkOnly) && t.bw[g][j] > if best == -1 then -1 else t.bw[g][best] {
        best := j;
      }
      j := j + 1;
    }
  }

  method BestNvlinkPeer(t: Topo, g: int) returns (best: int)
    requires Valid(t)
    ensures 0 <= g < t.n ==> IsBest(t, g, true, best)
    ensures !(0 <= g < t.n) ==> best == -1
  {
    if g < 0 || g >= t.n { return -1; }
    best := -1;
    var score := -1;
    var j := 0;
    while j < t.n
      invariant 0 <= j <= t.n && -1 <= best < j
      invariant score == if best == -1 then -1 else t.bw[g][best]
      invariant best != -1 ==> Candidate(t, g, best, true) && score >= 0
      invariant forall k :: 0 <= k < j && Candidate(t, g, k, true) ==> t.bw[g][k] <= score
      invariant forall k :: 0 <= k < best && Candidate(t, g, k, true) ==> t.bw[g][k] < score
    {
      if j != g && t.kind[g][j] == Nvlink && t.bw[g][j] > score {
        score, best := t.bw[g][j], j;
      }
      j := j + 1;
    }
  }

  method BestPeer(t: Topo, g: int) returns (best: int)
    requires Valid(t)
    ensures 0 <= g < t.n ==> IsBest(t, g, false, best)
    ensures !(0 <= g < t.n) ==> best == -1
  {
    if g < 0 || g >= t.n { return -1; }
    best := -1;
    var score := -1;
    var j := 0;
    while j < t.n
      invariant 0 <= j <= t.n && -1 <= best < j
      invariant score == if best == -1 then -1 else t.bw[g][best]
      invariant best != -1 ==> Candidate(t, g, best, false) && score >= 0
      invariant forall k :: 0 <= k < j && Candidate(t, g, k, false) ==> t.bw[g][k] <= score
      invariant forall k :: 0 <= k < best && Candidate(t, g, k, false) ==> t.bw[g][k] < score
    {
      if j != g && t.kind[g][j] != NoLink && t.bw[g][j] > score {
        score, best := t.bw[g][j], j;
      }
      j := j + 1;
    }
  }

  // ----- the topologies the program builds -----

  /** What the CUDA runtime reports about a pair of devices. */
  datatype Probe = Probe(canAccess: bool, rankKnown: bool, perfRank: int, atomics: bool)

  /** Link kind and bandwidth hint of a pair of distinct devices. */
  function Classify(p: Probe): (Link, int) {
    if !p.canAccess then (NoLink, 0)
    else if !p.rankKnown then (Pcie, 10)
    else if p.perfRank == 0 && p.atomics then (Nvlink, 100)
    else if p.perfRank == 0 then (Nvlink, 90)
    else (Pcie, 10)
  }

  /** Every pair that is not NVLink has less bandwidth than any NVLink pair, and none is negative. */
  predicate NvlinkDominates(t: Topo)
    requires Valid(t)
  {
    forall g, j, k | 0 <= g < t.n && 0 <= j < t.n && 0 <= k < t.n && j != g && k != g ::
      t.kind[g][j] == Nvlink && t.kind[g][k] != Nvlink && t.kind[g][k] != NoLink ==>
        0 <= t.bw[g][k] < t.bw[g][j]
  }

  predicate NonNegative(t: Topo)
    requires Valid(t)
  {
    forall g, j :: 0 <= g < t.n && 0 <= j < t.n ==> t.bw[g][j] >= 0
  }

  method Matrix<T>(n: nat, x: T) returns (m: seq<seq<T>>)
    ensures Square(n, m)
    ensures forall i, j :: 0 <= i < n && 0 <= j < n ==> m[i][j] == x
  {
    var row := seq(n, _ => x);
    m := seq(n, _ => row);
  }

  method SetDiagonal<T>(n: nat, m: seq<seq<T>>, x: T) returns (r: seq<seq<T>>)
    requires Square(n, m)
    ensures Square(n, r)
    ensures forall i, j :: 0 <= i < n && 0 <= j < n ==> r[i][j] == if i == j then x else m[i][j]
  {
    r := m;
    var i := 0;
    while i < n
      invariant 0 <= i <= n && Square(n, r)
      invariant forall a, b :: 0 <= a < n && 0 <= b < n ==> r[a][b] == if a == b && a < i then x else m[a][b]
    {
      r := r[i := r[i][i := x]];
      i := i + 1;
    }
  }

  method Synthetic(n: int) returns (r: Option<Topo>)
    ensures r.Some? <==> n > 0
    ensures r.Some? ==> Valid(r.value) && r.value.n == n && NonNegative(r.value) && NvlinkDominates(r.value)
    ensures r.Some? ==> forall g, j :: 0 <= g < n && 0 <= j < n ==>
              (r.value.kind[g][j], r.value.bw[g][j]) == if g == j then (Self, 1000) else (Pcie, 10)
  {
    if n <= 0 { return None; }
    var kind := Matrix(n, Pcie);
    var bw := Matrix(n, 10);
    kind := SetDiagonal(n, kind, Self);
    bw := SetDiagonal(n, bw, 1000);
    return Some(Topo(n, kind, bw));
  }

  method Detect(n: int, probes: seq<seq<Probe>>) returns (r: Option<Topo>)
    requires n > 0 ==> Square(n, probes)
    ensures r.Some? <==> n > 0
    ensures r.Some? ==> Valid(r.value) && r.value.n == n && NonNegative(r.value) && NvlinkDominates(r.value)
    ensures r.Some? ==> forall g, j :: 0 <= g < n && 0 <= j < n ==>
              (r.value.kind[g][j], r.value.bw[g][j]) == if g == j then (Self, 1000) else Classify(probes[g][j])
    // Spelled out: what each kind of link takes, and the bandwidth that goes with it.
    ensures r.Some? ==> forall g, j :: 0 <= g < n && 0 <= j < n && g != j ==>
              var p := probes[g][j];
              && (r.value.kind[g][j] == Nvlink <==> p.canAccess && p.rankKnown && p.perfRank == 0)
              && (r.value.kind[g][j] == Pcie <==> p.canAccess && !(p.rankKnown && p.perfRank == 0))
              && (r.value.kind[g][j] == NoLink <==> !p.canAccess)
              && r.value.bw[g][j] == (match r.value.kind[g][j]
                                      case Nvlink => if p.atomics then 100 else 90
                                      case Pcie => 10
                                      case _ => 0)
  {
    if n <= 0 { return None; }
    var kind := Matrix(n, NoLink);
    var bw := Matrix(n, 0);
    kind := SetDiagonal(n, kind, Self);
    bw := SetDiagonal(n, bw, 1000);
    var i := 0;
    while i < n
      invariant 0 <= i <= n && Square(n, kind) && Square(n, bw)
      invariant forall g, j :: 0 <= g < n && 0 <= j < n && (g < i || g == j) ==>
                  (kind[g][j], bw[g][j]) == if g == j then (Self, 1000) else Classify(probes[g][j])
    {
      var krow, brow := kind[i], bw[i];
      var j := 0;
      while j < n
        invariant 0 <= j <= n && |krow| == n && |brow| == n
        invariant krow[i] == Self && brow[i] == 1000
        invariant forall k :: 0 <= k < j && k != i ==> (krow[k], brow[k]) == Classify(probes[i][k])
      {
        if i != j {
          var p := probes[i][j];
          if !p.canAccess {
            krow, brow := krow[j := NoLink], brow[j := 0];
          } else if !p.rankKnown {
            krow, brow := krow[j := Pcie], brow[j := 10];
          } else if p.perfRank == 0 && p.atomics {
            krow, brow := krow[j := Nvlink], brow[j := 100];
          } else if p.perfRank == 0 {
            krow, brow := krow[j := Nvlink], brow[j := 90];
          } else {
            krow, brow := krow[j := Pcie], brow[j := 10];
          }
        }
        j := j + 1;
      }
      kind, bw := kind[i := krow], bw[i := brow];
      i := i + 1;
    }
    return Some(Topo(n, kind, bw));
  }

  /** In every topology where NVLink dominates, a GPU with an NVLink peer has the same best peer
      and best NVLink peer, so offloading to the best peer is NVLink offloading. */
  lemma BestPeerIsNvlink(t: Topo, g: nat, r: int, q: int)
    requires Valid(t) && NonNegative(t) && NvlinkDominates(t) && g < t.n
    requires exists j :: 0 <= j < t.n && Candidate(t, g, j, true)
    requires IsBest(t, g, false, r) && IsBest(t, g, true, q)
    ensures r == q && 0 <= r < t.n && t.kind[g][r] == Nvlink
  {
    var j :| 0 <= j < t.n && Candidate(t, g, j, true);
    assert Candidate(t, g, j, false) && t.bw[g][j] >= 0;
    assert r != -1 && q != -1;
    assert t.bw[g][j] <= t.bw[g][r];
    assert t.kind[g][r] == Nvlink;
    assert Candidate(t, g, r, true) && Candidate(t, g, q, false);
  }
}
