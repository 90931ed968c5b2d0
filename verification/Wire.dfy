/**
  * The building blocks shared by the length-prefixed formats (BRK1, WSM1, MED1, NXR1).
  *
  * `PutX(x, k)` is the encoding of `x` followed by the bytes `k`. `GetX(s)` reads one `x` off
  * the front of `s`. Every pair is lawful in both directions: whatever `GetX` accepts was
  * written by `PutX`, and whatever `PutX` writes of a representable `x` is read back.
  * The methods are the code's own forms: readers advance an offset into the frame, writers
  * append to the end of a vector.
  */
module Wire {
  import opened Bytes

  datatype Parsed<+T> = Fail | Got(value: T, rest: Str) {
    predicate IsFailure() { Fail? }
    function PropagateFailure<U>(): Parsed<U> requires Fail? { Fail }
    function Extract(): (T, Str) requires Got? { (value, rest) }
  }

  /** An unsigned integer of `n` bytes. */
  function PutUint(v: nat, n: nat, k: Str): Str {
    Be(v, n) + k
  }

  function GetUint(s: Str, n: nat): (r: Parsed<nat>)
    ensures r.Got? ==> r.value < Pow256(n) && s == PutUint(r.value, n, r.rest)
  {
    if |s| < n then Fail else
    BeOfBeVal(s[..n]);
    Got(BeVal(s[..n]), s[n..])
  }

  lemma GetPutUint(v: nat, n: nat, k: Str)
    requires v < Pow256(n)
    ensures GetUint(PutUint(v, n, k), n) == Got(v, k)
  {
    var s := PutUint(v, n, k);
    assert s[..n] == Be(v, n) && s[n..] == k;
    BeValOfBe(v, n);
    DivModUnique(v, Pow256(n), 0, v);
  }

  /** A byte string behind a length of `w` bytes: `w == 2` for strings, `w == 4` for blobs. */
  function PutSized(x: Str, w: nat, k: Str): Str {
    PutUint(|x|, w, x + k)
  }

  function GetSized(s: Str, w: nat, max: nat): (r: Parsed<Str>)
    ensures r.Got? ==> |r.value| <= max && |r.value| < Pow256(w) && s == PutSized(r.value, w, r.rest)
  {
    var (len, t) :- GetUint(s, w);
    if len > max || len > |t| then Fail else
    assert t == t[..len] + t[len..];
    Got(t[..len], t[len..])
  }

  lemma GetPutSized(x: Str, w: nat, max: nat, k: Str)
    requires |x| <= max && |x| < Pow256(w)
    ensures GetSized(PutSized(x, w, k), w, max) == Got(x, k)
  {
    GetPutUint(|x|, w, x + k);
    assert (x + k)[..|x|] == x && (x + k)[|x|..] == k;
  }

  lemma PutUintAppend(v: nat, n: nat, k: Str, t: Str)
    ensures PutUint(v, n, k) + t == PutUint(v, n, k + t)
  {
    assert (Be(v, n) + k) + t == Be(v, n) + (k + t);
  }

  lemma PutSizedAppend(x: Str, w: nat, k: Str, t: Str)
    ensures PutSized(x, w, k) + t == PutSized(x, w, k + t)
  {
    PutUintAppend(|x|, w, x + k, t);
    assert (x + k) + t == x + (k + t);
  }

  /** `take`: whether `need` bytes remain at `offset`. */
  predicate Take(need: nat, size: nat, offset: nat) {
    !(offset > size || need > size - offset)
  }

  method ReadUint(frame: Str, off: nat, n: nat) returns (ok: bool, v: nat, next: nat)
    requires off <= |frame|
    ensures ok <==> GetUint(frame[off..], n).Got?
    ensures ok ==> off <= next <= |frame| && GetUint(frame[off..], n) == Got(v, frame[next..])
  {
    ok, v, next := false, 0, off;
    if !Take(n, |frame|, off) { return; }
    v := ReadUintAt(frame, off, n);
    assert frame[off..][..n] == frame[off..off + n];
    ok, next := true, off + n;
  }

  /** `read_string` and `read_blob`. */
  method ReadSized(frame: Str, off: nat, w: nat, max: nat) returns (ok: bool, x: Str, next: nat)
    requires off <= |frame|
    ensures ok <==> GetSized(frame[off..], w, max).Got?
    ensures ok ==> off <= next <= |frame| && GetSized(frame[off..], w, max) == Got(x, frame[next..])
  {
    ok, x, next := false, [], off;
    var got, len, at := ReadUint(frame, off, w);
    if !got { return; }
    if len > max { return; }
    if !Take(len, |frame|, at) { return; }
    x := frame[at..at + len];
    assert frame[at..][..len] == x && frame[at..][len..] == frame[at + len..];
    ok, next := true, at + len;
  }

  /** A parse whose first elements `xs` are already known. */
  ghost function Prepend<T>(xs: seq<T>, p: Parsed<seq<T>>): Parsed<seq<T>> {
    match p
    case Fail => Fail
    case Got(v, rest) => Got(xs + v, rest)
  }

  method WriteUint(out: Str, v: nat, n: nat) returns (r: Str)
    ensures |r| == |out| + n
    ensures forall k {:trigger PutUint(v, n, k)} :: r + k == out + PutUint(v, n, k)
  {
    r := AppendUint(out, v, n);
  }

  /** The unconditional part of `append_string` and `append_blob`. */
  method WriteSized(out: Str, x: Str, w: nat) returns (r: Str)
    ensures |r| == |out| + w + |x|
    ensures forall k {:trigger PutSized(x, w, k)} :: r + k == out + PutSized(x, w, k)
  {
    r := WriteUint(out, |x|, w);
    ghost var lead := r;
    r := r + x;
    forall k ensures r + k == out + PutSized(x, w, k) {
      assert (lead + x) + k == lead + (x + k);
    }
  }

  /** A string within its limit and a 16-bit length. */
  predicate FitsStr(x: Str, max: nat) { |x| <= max && |x| < 0x1_0000 }

  /** A blob within its limit and a 32-bit length. */
  predicate FitsBlob(x: Str, max: nat) { |x| <= max && |x| < 0x1_0000_0000 }

  /** `append_string`. */
  method AppendStr(out: Str, x: Str, max: nat) returns (ok: bool, r: Str)
    ensures ok <==> FitsStr(x, max)
    ensures ok ==> forall k {:trigger PutSized(x, 2, k)} :: r + k == out + PutSized(x, 2, k)
  {
    if |x| > max || |x| > 0xFFFF { return false, out; }
    r := WriteSized(out, x, 2);
    ok := true;
  }

  /** `append_blob`. */
  method AppendBlob(out: Str, x: Str, max: nat) returns (ok: bool, r: Str)
    ensures ok <==> FitsBlob(x, max)
    ensures ok ==> forall k {:trigger PutSized(x, 4, k)} :: r + k == out + PutSized(x, 4, k)
  {
    if |x| > max || |x| > 0xFFFF_FFFF { return false, out; }
    r := WriteSized(out, x, 4);
    ok := true;
  }
}
