/**
  * Byte strings and big-endian unsigned integers: the arithmetic every wire format of the
  * broker is built on.
  */
module Bytes {

  type byte = x: int | 0 <= x < 256
  type u16 = x: int | 0 <= x < 0x1_0000
  type u32 = x: int | 0 <= x < 0x1_0000_0000
  type u64 = x: int | 0 <= x < 0x1_0000_0000_0000_0000
  type i32 = x: int | -0x8000_0000 <= x < 0x8000_0000

  const U32_RANGE: int := 0x1_0000_0000
  const U64_RANGE: int := 0x1_0000_0000_0000_0000

  /** A byte string; `std::string` and `std::vector<uint8_t>` alike. */
  type Str = seq<byte>

  /** The bytes of an ASCII string. */
  function Ascii(s: string): (b: Str)
    ensures |b| == |s|
  {
    seq(|s|, i requires 0 <= i < |s| => s[i] as int % 256)
  }

  datatype Option<+T> = None | Some(value: T)

  function Pow256(n: nat): (p: nat)
    ensures p > 0
  {
    if n == 0 then 1 else 256 * Pow256(n - 1)
  }

  /** The low `n` bytes of `v`, most significant first. */
  function Be(v: nat, n: nat): (s: Str)
    ensures |s| == n
  {
    if n == 0 then [] else Be(v / 256, n - 1) + [v % 256]
  }

  /** The number a big-endian byte string denotes. */
  function BeVal(s: Str): (v: nat)
    ensures v < Pow256(|s|)
  {
    if s == [] then 0 else BeVal(s[..|s| - 1]) * 256 + s[|s| - 1]
  }

  lemma {:induction false} BeValOfBe(v: nat, n: nat)
    ensures BeVal(Be(v, n)) == v % Pow256(n)
    decreases n
  {
    if n > 0 {
      var s := Be(v, n);
      assert s[..n - 1] == Be(v / 256, n - 1);
      BeValOfBe(v / 256, n - 1);
      ModSplit(v, Pow256(n - 1));
    }
  }

  lemma {:induction false} BeOfBeVal(s: Str)
    ensures Be(BeVal(s), |s|) == s
    decreases |s|
  {
    if s != [] {
      var i := s[..|s| - 1];
      BeOfBeVal(i);
      assert BeVal(s) / 256 == BeVal(i) && BeVal(s) % 256 == s[|s| - 1];
      assert s == i + [s[|s| - 1]];
    }
  }

  lemma OneByte(b: byte)
    ensures Be(b, 1) == [b]
  {
  }

  /** `(v / 256) % p * 256 + v % 256 == v % (256 * p)`. */
  lemma ModSplit(v: nat, p: nat)
    requires p > 0
    ensures v / 256 % p * 256 + v % 256 == v % (256 * p)
  {
    var q, r := v / 256, v % 256;
    var qq, qr := q / p, q % p;
    assert v == (256 * p) * qq + (qr * 256 + r) by {
      assert q == p * qq + qr;
      assert 256 * (p * qq) == (256 * p) * qq;
    }
    assert 0 <= qr * 256 + r < 256 * p;
    DivModUnique(v, 256 * p, qq, qr * 256 + r);
  }

  lemma DivModUnique(v: nat, d: nat, q: nat, r: nat)
    requires d > 0 && r < d && v == d * q + r
    ensures v / d == q && v % d == r
  {
    var k := v / d - q;
    assert d * k == d * (v / d) - d * q == r - v % d;
    assert k < 1 by { assert k >= 1 ==> d * k >= d; }
    assert k > -1 by { assert k <= -1 ==> d * k + d <= 0; }
  }

  /** `v >> (8 * k)`. */
  function Shr(v: nat, k: nat): nat {
    if k == 0 then v else Shr(v / 256, k - 1)
  }

  lemma {:induction false} ShrStep(v: nat, k: nat)
    ensures Shr(v, k) / 256 == Shr(v, k + 1)
    decreases k
  {
    if k > 0 { ShrStep(v / 256, k - 1); }
  }

  /** `append_uint`, `put16`, `put32`, `put64`: push the low `n` bytes of `v`, high byte first. */
  method AppendUint(out: Str, v: nat, n: nat) returns (r: Str)
    ensures r == out + Be(v, n)
  {
    r := out;
    var i := n;
    while i > 0
      invariant 0 <= i <= n
      invariant r == out + Be(Shr(v, i), n - i)
    {
      ShrStep(v, i - 1);
      r := r + [Shr(v, i - 1) % 256];
      i := i - 1;
    }
  }

  /** The loop of `read_uint` and `read64`: shift in `n` bytes starting at `off`. */
  method ReadUintAt(s: Str, off: nat, n: nat) returns (v: nat)
    requires off + n <= |s|
    ensures v == BeVal(s[off..off + n])
  {
    v := 0;
    var i := 0;
    while i < n
      invariant 0 <= i <= n
      invariant v == BeVal(s[off..off + i])
    {
      assert s[off..off + i + 1][..i] == s[off..off + i];
      v := v * 256 + s[off + i];
      i := i + 1;
    }
  }

  /** `static_cast<uint32_t>(int32_t)`. */
  function ToU32(i: i32): u32 {
    if i >= 0 then i else i + U32_RANGE
  }

  /** `static_cast<int32_t>(uint32_t)`. */
  function ToI32(u: u32): i32 {
    if u < 0x8000_0000 then u else u - U32_RANGE
  }
}
