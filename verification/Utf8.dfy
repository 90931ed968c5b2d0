/**
  * The hand-written UTF-8 validator of the BRK2 decoder, proved to accept exactly the byte
  * strings that encode a sequence of Unicode scalar values.
  */
module Utf8 {
  import opened Bytes

  predicate IsScalar(cp: nat) {
    cp <= 0x10FFFF && !(0xD800 <= cp <= 0xDFFF)
  }

  type Scalar = cp: nat | IsScalar(cp)

  lemma SixBits(v: nat)
    ensures v == v / 64 * 64 + v % 64 && v % 64 < 64
  {
  }

  lemma SixBitsUnique(q: nat, r: nat)
    requires r < 64
    ensures (q * 64 + r) / 64 == q && (q * 64 + r) % 64 == r
  {
  }

  /** Section 3 of RFC 3629: the octets of one scalar value. */
  function EncodeScalar(cp: Scalar): (s: Str)
    ensures 1 <= |s| <= 4
  {
    var x := cp / 64;
    var y := x / 64;
    SixBits(cp);
    SixBits(x);
    SixBits(y);
    assert IsScalar(cp);
    if cp < 0x80 then [cp]
    else if cp < 0x800 then [0xC0 + x, 0x80 + cp % 64]
    else if cp < 0x1_0000 then [0xE0 + y, 0x80 + x % 64, 0x80 + cp % 64]
    else [0xF0 + y / 64, 0x80 + y % 64, 0x80 + x % 64, 0x80 + cp % 64]
  }

  function EncodeAll(cps: seq<Scalar>): Str {
    if cps == [] then [] else EncodeScalar(cps[0]) + EncodeAll(cps[1..])
  }

  ghost predicate IsUtf8(s: Str) {
    exists cps: seq<Scalar> :: EncodeAll(cps) == s
  }

  predicate IsTail(b: byte) {
    0x80 <= b <= 0xBF
  }

  /** Section 4 of RFC 3629: the productions UTF8-1, UTF8-2, UTF8-3 and UTF8-4. */
  predicate IsUtf8Char(s: Str) {
    match |s|
    case 1 => s[0] <= 0x7F
    case 2 => 0xC2 <= s[0] <= 0xDF && IsTail(s[1])
    case 3 =>
      && IsTail(s[2])
      && (|| (s[0] == 0xE0 && 0xA0 <= s[1] <= 0xBF)
          || (0xE1 <= s[0] <= 0xEC && IsTail(s[1]))
          || (s[0] == 0xED && 0x80 <= s[1] <= 0x9F)
          || (0xEE <= s[0] <= 0xEF && IsTail(s[1])))
    case 4 =>
      && IsTail(s[2]) && IsTail(s[3])
      && (|| (s[0] == 0xF0 && 0x90 <= s[1] <= 0xBF)
          || (0xF1 <= s[0] <= 0xF3 && IsTail(s[1]))
          || (s[0] == 0xF4 && 0x80 <= s[1] <= 0x8F))
    case _ => false
  }

  /** Payload bits of a lead octet, then six more bits for every continuation octet. */
  function CodePoint(lead: nat, tail: Str): nat {
    if tail == [] then lead else CodePoint(lead, tail[..|tail| - 1]) * 64 + tail[|tail| - 1] % 64
  }

  /** How many continuation octets the lead octet `c` announces; `None` for an impossible lead. */
  function Extra(c: byte): Option<nat> {
    if c <= 0x7F then Some(0)
    else if 0xC2 <= c <= 0xDF then Some(1)
    else if 0xE0 <= c <= 0xEF then Some(2)
    else if 0xF0 <= c <= 0xF4 then Some(3)
    else None
  }

  function LeadBits(c: byte, extra: nat): nat {
    if extra == 1 then c % 32 else if extra == 2 then c % 16 else c % 8
  }

  /** The validator's range test after the continuation loop. */
  predicate RangeOk(extra: nat, cp: nat) {
    !((extra == 1 && cp < 0x80) || (extra == 2 && cp < 0x800) || (extra == 3 && cp < 0x1_0000)
      || cp > 0x10FFFF || 0xD800 <= cp <= 0xDFFF)
  }

  lemma CodePointUnroll(lead: nat, t: Str)
    requires 1 <= |t| <= 3
    ensures |t| == 1 ==> CodePoint(lead, t) == lead * 64 + t[0] % 64
    ensures |t| == 2 ==> CodePoint(lead, t) == (lead * 64 + t[0] % 64) * 64 + t[1] % 64
    ensures |t| == 3 ==>
              CodePoint(lead, t) == ((lead * 64 + t[0] % 64) * 64 + t[1] % 64) * 64 + t[2] % 64
  {
    assert CodePoint(lead, []) == lead;
    assert t[..1] == [t[0]] && [t[0]][..0] == [];
    assert CodePoint(lead, [t[0]]) == lead * 64 + t[0] % 64;
    if |t| >= 2 {
      assert t[..2][..1] == [t[0]];
      assert CodePoint(lead, t[..2]) == CodePoint(lead, t[..1]) * 64 + t[1] % 64;
    }
    if |t| == 3 { assert t[..3] == t; } else { assert t[..|t|] == t; }
  }

  lemma RangeTest2(s: Str)
    requires |s| == 2 && Extra(s[0]) == Some(1) && IsTail(s[1])
    ensures RangeOk(1, CodePoint(LeadBits(s[0], 1), s[1..])) <==> IsUtf8Char(s)
  {
    CodePointUnroll(LeadBits(s[0], 1), s[1..]);
  }

  lemma RangeTest3(s: Str)
    requires |s| == 3 && Extra(s[0]) == Some(2) && IsTail(s[1]) && IsTail(s[2])
    ensures RangeOk(2, CodePoint(LeadBits(s[0], 2), s[1..])) <==> IsUtf8Char(s)
  {
    hide CodePoint;
    CodePointUnroll(LeadBits(s[0], 2), s[1..]);
  }

  lemma RangeTest4(s: Str)
    requires |s| == 4 && Extra(s[0]) == Some(3) && IsTail(s[1]) && IsTail(s[2]) && IsTail(s[3])
    ensures RangeOk(3, CodePoint(LeadBits(s[0], 3), s[1..])) <==> IsUtf8Char(s)
  {
    hide CodePoint;
    CodePointUnroll(LeadBits(s[0], 3), s[1..]);
  }

  /** Masking, shifting and range-checking decides exactly the grammar of RFC 3629. */
  lemma RangeTestIsGrammar(s: Str, extra: nat)
    requires s != [] && Extra(s[0]) == Some(extra) && extra >= 1 && |s| == extra + 1
    requires forall j :: 1 <= j < |s| ==> IsTail(s[j])
    ensures RangeOk(extra, CodePoint(LeadBits(s[0], extra), s[1..])) <==> IsUtf8Char(s)
  {
    hide CodePoint, RangeOk, IsUtf8Char, LeadBits;
    if extra == 1 { RangeTest2(s); } else if extra == 2 { RangeTest3(s); } else { RangeTest4(s); }
  }

  lemma CharShape(s: Str)
    requires IsUtf8Char(s)
    ensures s != [] && Extra(s[0]) == Some(|s| - 1)
    ensures forall j :: 1 <= j < |s| ==> IsTail(s[j])
  {
  }

  lemma ScalarEncodesToChar(cp: Scalar)
    ensures IsUtf8Char(EncodeScalar(cp))
  {
    SixBits(cp);
    SixBits(cp / 64);
    SixBits(cp / 64 / 64);
    assert IsScalar(cp);
  }

  function DecodeChar(s: Str): (cp: Scalar)
    requires IsUtf8Char(s)
  {
    var a: int := s[0];
    if |s| == 1 then a
    else
      var b: int := s[1] - 0x80;
      if |s| == 2 then (a - 0xC0) * 64 + b
      else
        var c: int := s[2] - 0x80;
        if |s| == 3 then ((a - 0xE0) * 64 + b) * 64 + c
        else (((a - 0xF0) * 64 + b) * 64 + c) * 64 + (s[3] - 0x80)
  }

  lemma CharDecodes(s: Str)
    requires IsUtf8Char(s)
    ensures EncodeScalar(DecodeChar(s)) == s
  {
    if |s| == 2 { SixBitsUnique(s[0] - 0xC0, s[1] - 0x80); }
    else if |s| == 3 { CharDecodes3(s); }
    else if |s| == 4 { CharDecodes4(s); }
  }

  lemma CharDecodes3(s: Str)
    requires IsUtf8Char(s) && |s| == 3
    ensures EncodeScalar(DecodeChar(s)) == s
  {
    var q: nat := (s[0] - 0xE0 as int) * 64 + (s[1] - 0x80);
    SixBitsUnique(q, s[2] - 0x80);
    SixBitsUnique(s[0] - 0xE0, s[1] - 0x80);
  }

  lemma CharDecodes4(s: Str)
    requires IsUtf8Char(s) && |s| == 4
    ensures EncodeScalar(DecodeChar(s)) == s
  {
    var p: nat := (s[0] - 0xF0 as int) * 64 + (s[1] - 0x80);
    var q := p * 64 + (s[2] - 0x80);
    SixBitsUnique(q, s[3] - 0x80);
    SixBitsUnique(p, s[2] - 0x80);
    SixBitsUnique(s[0] - 0xF0, s[1] - 0x80);
  }

  /** The grammar of section 4 and the encoding of section 3 describe the same octet strings. */
  lemma GrammarIsEncoding(s: Str)
    ensures IsUtf8Char(s) <==> exists cp: Scalar :: EncodeScalar(cp) == s
  {
    if IsUtf8Char(s) { CharDecodes(s); }
    forall cp: Scalar | EncodeScalar(cp) == s ensures IsUtf8Char(s) { ScalarEncodesToChar(cp); }
  }

  /** UTF-8 is self-delimiting: the first octet fixes the first character. */
  lemma Utf8Unfold(s: Str)
    requires s != []
    ensures IsUtf8(s) <==>
            && Extra(s[0]).Some?
            && 1 + Extra(s[0]).value <= |s|
            && IsUtf8Char(s[..1 + Extra(s[0]).value])
            && IsUtf8(s[1 + Extra(s[0]).value..])
  {
    if IsUtf8(s) {
      var cps: seq<Scalar> :| EncodeAll(cps) == s;
      var c := EncodeScalar(cps[0]);
      ScalarEncodesToChar(cps[0]);
      CharShape(c);
      assert s[0] == c[0] && s[..|c|] == c && s[|c|..] == EncodeAll(cps[1..]);
    }
    if Extra(s[0]).Some? && 1 + Extra(s[0]).value <= |s| {
      var n := 1 + Extra(s[0]).value;
      if IsUtf8Char(s[..n]) && IsUtf8(s[n..]) {
        CharDecodes(s[..n]);
        var rest: seq<Scalar> :| EncodeAll(rest) == s[n..];
        var cps: seq<Scalar> := [DecodeChar(s[..n])] + rest;
        assert cps[1..] == rest;
        assert EncodeAll(cps) == s[..n] + s[n..] == s;
      }
    }
  }

  /** The decoded scalar sequence is unique. */
  lemma {:induction false} EncodeAllInjective(a: seq<Scalar>, b: seq<Scalar>)
    requires EncodeAll(a) == EncodeAll(b)
    ensures a == b
    decreases |a|
  {
    if a == [] || b == [] {
    } else {
      var c, d := EncodeScalar(a[0]), EncodeScalar(b[0]);
      ScalarEncodesToChar(a[0]);
      ScalarEncodesToChar(b[0]);
      CharShape(c);
      CharShape(d);
      var s := EncodeAll(a);
      assert s[0] == c[0] == d[0];
      assert s[..|c|] == c == d;
      assert s[|c|..] == EncodeAll(a[1..]) == EncodeAll(b[1..]);
      EncodeAllInjective(a[1..], b[1..]);
      ScalarInjective(a[0], b[0]);
    }
  }

  lemma DecodeInverts(cp: Scalar)
    ensures IsUtf8Char(EncodeScalar(cp)) && DecodeChar(EncodeScalar(cp)) == cp
  {
    ScalarEncodesToChar(cp);
  }

  lemma ScalarInjective(a: Scalar, b: Scalar)
    requires EncodeScalar(a) == EncodeScalar(b)
    ensures a == b
  {
    ScalarEncodesToChar(a);
    DecodeInverts(a);
    DecodeInverts(b);
  }

  lemma EmptyIsUtf8()
    ensures IsUtf8([])
  {
    assert EncodeAll([]) == [];
  }

  lemma CodePointStep(lead: nat, tail: Str, d: byte)
    ensures CodePoint(lead, tail + [d]) == CodePoint(lead, tail) * 64 + d % 64
    ensures CodePoint(lead, []) == lead
  {
    assert (tail + [d])[..|tail|] == tail;
  }

  /** `valid_utf8`. The masks `c&0x1f`, `c&0x0f`, `c&0x07`, `d&0x3f` are remainders, and
      `(d&0xc0)!=0x80` is the negation of `IsTail(d)`. */
  method ValidUtf8(p: Str) returns (ok: bool)
    ensures ok <==> IsUtf8(p)
  {
    hide IsUtf8, CodePoint;
    var i := 0;
    assert p[0..] == p;
    while i < |p|
      invariant 0 <= i <= |p|
      invariant IsUtf8(p) <==> IsUtf8(p[i..])
    {
      ghost var start := i;
      Utf8Unfold(p[start..]);
      var c := p[i];
      i := i + 1;
      if c <= 0x7F {
        assert p[start..][..1] == [c] && p[start..][1..] == p[i..];
        continue;
      }
      var cp: int, extra: int := 0, 0;
      if 0xC2 <= c <= 0xDF { cp, extra := c % 32, 1; }
      else if 0xE0 <= c <= 0xEF { cp, extra := c % 16, 2; }
      else if 0xF0 <= c <= 0xF4 { cp, extra := c % 8, 3; }
      else { return false; }
      if extra > |p| - i { return false; }
      ghost var ch := p[start..][..1 + extra];
      CodePointStep(LeadBits(c, extra), [], 0);
      assert ch[1..1] == [];
      var j := 0;
      while j < extra
        invariant 0 <= j <= extra && i == start + 1 + j
        invariant forall k :: 1 <= k < 1 + j ==> IsTail(ch[k])
        invariant cp == CodePoint(LeadBits(c, extra), ch[1..1 + j])
      {
        var d := p[i];
        i := i + 1;
        assert d == ch[1 + j];
        if !(0x80 <= d < 0xC0) {
          assert !IsUtf8Char(ch) by { if IsUtf8Char(ch) { CharShape(ch); } }
          return false;
        }
        CodePointStep(LeadBits(c, extra), ch[1..1 + j], d);
        assert ch[1..2 + j] == ch[1..1 + j] + [d];
        cp := cp * 64 + d % 64;
        j := j + 1;
      }
      assert ch[1..1 + extra] == ch[1..];
      RangeTestIsGrammar(ch, extra);
      if (extra == 1 && cp < 0x80) || (extra == 2 && cp < 0x800) || (extra == 3 && cp < 0x1_0000)
         || cp > 0x10FFFF || 0xD800 <= cp <= 0xDFFF {
        return false;
      }
      assert p[start..][1 + extra..] == p[i..];
    }
    EmptyIsUtf8();
    assert p[i..] == [];
    return true;
  }
}
