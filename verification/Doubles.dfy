/** Packed arrays of big-endian binary64 patterns, the payload of the generic compute path. */
module Doubles {
  import opened Bytes

  function Pack(vs: seq<u64>): (s: Str)
    ensures |s| == 8 * |vs|
  {
    if vs == [] then [] else Pack(vs[..|vs| - 1]) + Be(vs[|vs| - 1], 8)
  }

  function Unpack(s: Str): (vs: seq<u64>)
    ensures |vs| == |s| / 8
  {
    seq(|s| / 8, i requires 0 <= i < |s| / 8 => BeVal(s[8 * i..8 * i + 8]))
  }

  lemma PackSnoc(vs: seq<u64>, v: u64)
    ensures Pack(vs + [v]) == Pack(vs) + Be(v, 8)
  {
    assert (vs + [v])[..|vs|] == vs;
  }

  lemma {:induction false} PackAt(vs: seq<u64>, i: nat)
    requires i < |vs|
    ensures Pack(vs)[8 * i..8 * i + 8] == Be(vs[i], 8)
    decreases |vs|
  {
    hide Be;
    var n := |vs| - 1;
    var a, b := Pack(vs[..n]), Be(vs[n], 8);
    assert Pack(vs) == a + b && |a| == 8 * n;
    if i < n {
      PackAt(vs[..n], i);
      assert (a + b)[8 * i..8 * i + 8] == a[8 * i..8 * i + 8];
    } else {
      assert (a + b)[8 * n..8 * n + 8] == b;
    }
  }

  lemma UnpackPack(vs: seq<u64>)
    ensures Unpack(Pack(vs)) == vs
  {
    hide Pack, BeVal, Be;
    forall i | 0 <= i < |vs| ensures Unpack(Pack(vs))[i] == vs[i] {
      PackAt(vs, i);
      WordRoundTrip(vs[i]);
    }
  }

  lemma WordRoundTrip(v: u64)
    ensures BeVal(Be(v, 8)) == v
  {
    BeValOfBe(v, 8);
    DivModUnique(v, Pow256(8), 0, v);
  }

  lemma {:induction false} PackUnpack(s: Str)
    requires |s| % 8 == 0
    ensures Pack(Unpack(s)) == s
    decreases |s|
  {
    hide BeVal, Be;
    if s != [] {
      var n := |s| - 8;
      var i := s[..n];
      PackUnpack(i);
      UnpackSnoc(s);
      PackSnoc(Unpack(i), BeVal(s[n..]));
      BeOfBeVal(s[n..]);
      assert s == i + s[n..];
    }
  }

  lemma UnpackSnoc(s: Str)
    requires |s| >= 8 && |s| % 8 == 0
    ensures Unpack(s) == Unpack(s[..|s| - 8]) + [BeVal(s[|s| - 8..])]
  {
    hide BeVal, Be;
    var n := |s| - 8;
    forall k | 0 <= k < n / 8 ensures Unpack(s)[k] == Unpack(s[..n])[k] {
      assert s[8 * k..8 * k + 8] == s[..n][8 * k..8 * k + 8];
    }
    assert s[n..n + 8] == s[n..];
  }

  lemma {:induction false} BeAt(v: nat, n: nat, b: nat)
    requires b < n
    ensures Be(v, n)[b] == Shr(v, n - 1 - b) % 256
    decreases n
  {
    if b < n - 1 { BeAt(v / 256, n - 1, b); }
  }

  /** `decode_payload_as_doubles`; `None` where it throws. */
  method DecodePayload(payload: Str) returns (r: Option<seq<u64>>)
    ensures r.Some? <==> |payload| % 8 == 0
    ensures r.Some? ==> r.value == Unpack(payload) && Pack(r.value) == payload
  {
    if |payload| % 8 != 0 { return None; }
    var values: seq<u64> := [];
    var i := 0;
    while i < |payload| / 8
      invariant 0 <= i <= |payload| / 8
      invariant values == Unpack(payload)[..i]
    {
      var bits := ReadUintAt(payload, 8 * i, 8);
      assert Unpack(payload)[..i + 1] == Unpack(payload)[..i] + [bits];
      values := values + [bits];
      i := i + 1;
    }
    assert values == Unpack(payload);
    PackUnpack(payload);
    return Some(values);
  }

  /** `encode_doubles_as_payload`: fill a buffer byte by byte. */
  method EncodePayload(values: seq<u64>) returns (payload: array<byte>)
    ensures fresh(payload) && payload[..] == Pack(values)
  {
    payload := new byte[8 * |values|];
    var i := 0;
    while i < |values|
      invariant 0 <= i <= |values|
      invariant payload[..8 * i] == Pack(values[..i])
    {
      var v := values[i];
      var b := 0;
      while b < 8
        invariant 0 <= b <= 8
        invariant payload[..8 * i] == Pack(values[..i])
        invariant forall k :: 0 <= k < b ==> payload[8 * i + k] == Be(v, 8)[k]
      {
        BeAt(v, 8, b);
        payload[8 * i + b] := Shr(v, 7 - b) % 256;
        b := b + 1;
      }
      assert payload[8 * i..8 * i + 8] == Be(v, 8);
      assert payload[..8 * (i + 1)] == payload[..8 * i] + payload[8 * i..8 * i + 8];
      PackSnoc(values[..i], v);
      assert values[..i + 1] == values[..i] + [v];
      i := i + 1;
    }
    assert values[..i] == values && payload[..8 * i] == payload[..];
  }
}
