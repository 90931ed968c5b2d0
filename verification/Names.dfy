/**
  * The two strings the hotswap manager builds: the map key of a module version and the lease
  * token of an incarnation. Which of them can collide, and exactly when.
  */
module Names {
  import opened Bytes

  const COLON: byte := 58
  const DASH: byte := 45

  datatype Mod = Mod(sandboxId: Str, moduleId: Str, version: Str)

  /** What `prepare_module` and both request decoders demand: no id is empty. */
  predicate Named(m: Mod) {
    m.sandboxId != [] && m.moduleId != [] && m.version != []
  }

  /** `make_key`. */
  function MakeKey(m: Mod): Str {
    m.sandboxId + [COLON] + m.moduleId + [COLON] + m.version
  }

  /** `std::to_string` of an unsigned integer. */
  function Decimal(n: nat): (s: Str)
    ensures s != [] && DASH !in s
  {
    if n < 10 then [48 + n] else Decimal(n / 10) + [48 + n % 10]
  }

  /** The token of the `n`-th lease: `lease-<sandbox>-<module>-<version>-<n>`. */
  function Lease(m: Mod, n: nat): Str {
    [108, 101, 97, 115, 101, DASH] + m.sandboxId + [DASH] + m.moduleId + [DASH] + m.version + [DASH] + Decimal(n)
  }

  // ----- lease tokens -----

  /** The number a string of decimal digits denotes. */
  function DigitsValue(s: Str): int {
    if s == [] then 0 else DigitsValue(s[..|s| - 1]) * 10 + s[|s| - 1] as int - 48
  }

  /** `Decimal` writes the digits of the number, without a leading zero unless it is zero. */
  lemma {:induction false} DecimalDenotes(n: nat)
    ensures DigitsValue(Decimal(n)) == n
    ensures forall i :: 0 <= i < |Decimal(n)| ==> 48 <= Decimal(n)[i] <= 57
    ensures n > 0 ==> Decimal(n)[0] != 48
    decreases n
  {
    if n >= 10 {
      DecimalDenotes(n / 10);
      assert Decimal(n)[..|Decimal(n)| - 1] == Decimal(n / 10);
    } else {
      assert Decimal(n)[..0] == [];
    }
  }

  /** A lease token spelled out. */
  lemma LeaseSpelled(m: Mod, n: nat)
    ensures Lease(m, n) ==
            Ascii("lease-") + m.sandboxId + Ascii("-") + m.moduleId + Ascii("-") + m.version + Ascii("-") + Decimal(n)
  {
    assert Ascii("lease-") == [108, 101, 97, 115, 101, 45];
    assert Ascii("-") == [45];
  }

  /** A module key spelled out. */
  lemma KeySpelled(m: Mod)
    ensures MakeKey(m) == m.sandboxId + Ascii(":") + m.moduleId + Ascii(":") + m.version
  {
    assert Ascii(":") == [58];
  }

  lemma {:induction false} DecimalInjective(n: nat, k: nat)
    requires Decimal(n) == Decimal(k)
    ensures n == k
    decreases n
  {
    var a, b := Decimal(n), Decimal(k);
    assert a[|a| - 1] == b[|b| - 1];
    if n >= 10 && k >= 10 {
      assert a[..|a| - 1] == Decimal(n / 10) && b[..|b| - 1] == Decimal(k / 10);
      DecimalInjective(n / 10, k / 10);
    }
  }

  /** The part behind the last separator is determined by the whole string. */
  lemma SplitLast(a: Str, d: Str, b: Str, e: Str, sep: byte)
    requires a + [sep] + d == b + [sep] + e && sep !in d && sep !in e
    ensures a == b && d == e
  {
    var s := a + [sep] + d;
    assert s[|a|] == sep && s[|b|] == sep;
    assert |a| == |b|;
    assert s[..|a|] == a && s[..|b|] == b && s[|a| + 1..] == d && s[|b| + 1..] == e;
  }

  /** Two tokens with different numbers differ, whatever identifiers they were made for. */
  lemma LeaseInjective(m: Mod, n: nat, m': Mod, n': nat)
    requires Lease(m, n) == Lease(m', n')
    ensures n == n'
  {
    var a := [108, 101, 97, 115, 101, DASH] + m.sandboxId + [DASH] + m.moduleId + [DASH] + m.version;
    var b := [108, 101, 97, 115, 101, DASH] + m'.sandboxId + [DASH] + m'.moduleId + [DASH] + m'.version;
    SplitLast(a, Decimal(n), b, Decimal(n'), DASH);
    DecimalInjective(n, n');
  }

  // ----- module keys -----

  lemma SplitFirst(a: Str, x: Str, b: Str, y: Str, sep: byte)
    requires a + [sep] + x == b + [sep] + y && sep !in a && sep !in b
    ensures a == b && x == y
  {
    var s := a + [sep] + x;
    assert s[|a|] == sep && s[|b|] == sep;
    assert |a| == |b|;
    assert s[..|a|] == a && s[..|b|] == b && s[|a| + 1..] == x && s[|b| + 1..] == y;
  }

  /** Sandbox and module ids without ':' never share a key with one another. */
  lemma ColonFreeKeysInjective(m: Mod, k: Mod)
    requires COLON !in m.sandboxId && COLON !in m.moduleId
    requires COLON !in k.sandboxId && COLON !in k.moduleId
    requires MakeKey(m) == MakeKey(k)
    ensures m == k
  {
    var x, y := m.moduleId + [COLON] + m.version, k.moduleId + [COLON] + k.version;
    assert MakeKey(m) == m.sandboxId + [COLON] + x && MakeKey(k) == k.sandboxId + [COLON] + y;
    SplitFirst(m.sandboxId, x, k.sandboxId, y, COLON);
    SplitFirst(m.moduleId, m.version, k.moduleId, k.version, COLON);
  }

  predicate ColonFree(m: Mod) {
    COLON !in m.sandboxId && COLON !in m.moduleId && COLON !in m.version
  }

  /** Among all triples of ids, empty ones included, a module version owns its key alone exactly when
      none of its three ids contains ':'. */
  lemma KeyIsUnambiguousIff(m: Mod)
    ensures (forall k :: MakeKey(k) == MakeKey(m) ==> k == m) <==> ColonFree(m)
  {
    if ColonFree(m) {
      forall k | MakeKey(k) == MakeKey(m) ensures k == m {
        KeyColons(k);
        KeyColons(m);
        ColonFreeKeysInjective(m, k);
      }
    } else {
      var k := OtherOwner(m);
    }
  }

  lemma KeyColons(m: Mod)
    ensures multiset(MakeKey(m))[COLON] ==
            2 + multiset(m.sandboxId)[COLON] + multiset(m.moduleId)[COLON] + multiset(m.version)[COLON]
    ensures ColonFree(m) <==> multiset(MakeKey(m))[COLON] == 2
  {
    assert forall s: Str :: COLON in s <==> COLON in multiset(s);
  }

  lemma CutAtColon(s: Str) returns (p: Str, q: Str)
    requires COLON in s
    ensures s == p + [COLON] + q
  {
    var i :| 0 <= i < |s| && s[i] == COLON;
    p, q := s[..i], s[i + 1..];
  }

  /** Another module version with the same key, when an id contains ':'. */
  lemma OtherOwner(m: Mod) returns (k: Mod)
    requires !ColonFree(m)
    ensures k != m && MakeKey(k) == MakeKey(m)
  {
    if COLON in m.sandboxId {
      var p, q := CutAtColon(m.sandboxId);
      k := Mod(p, q + [COLON] + m.moduleId, m.version);
      assert |k.sandboxId| < |m.sandboxId|;
    } else if COLON in m.moduleId {
      var p, q := CutAtColon(m.moduleId);
      k := Mod(m.sandboxId + [COLON] + p, q, m.version);
      assert |k.sandboxId| > |m.sandboxId|;
    } else {
      var p, q := CutAtColon(m.version);
      k := Mod(m.sandboxId, m.moduleId + [COLON] + p, q);
      assert |k.moduleId| > |m.moduleId|;
    }
  }

  // ----- keys among modules that can be registered -----

  /** No ':' sits where the key could be split differently into three non-empty ids. */
  predicate Solo(m: Mod)
    requires Named(m)
  {
    && COLON !in m.sandboxId[1..]
    && (COLON in m.moduleId ==> |m.moduleId| == 1)
    && COLON !in m.version[..|m.version| - 1]
  }

  /** Among modules that can be registered, `m` owns its key alone exactly when it is `Solo`. */
  lemma NamedKeyIsUnambiguousIff(m: Mod)
    requires Named(m)
    ensures (forall k :: Named(k) && MakeKey(k) == MakeKey(m) ==> k == m) <==> Solo(m)
  {
    if Solo(m) {
      forall k | Named(k) && MakeKey(k) == MakeKey(m) ensures k == m { SoloKey(m, k); }
    } else {
      var k := NamedOwner(m);
    }
  }

  /** Which id an inner byte of a key belongs to. */
  lemma KeyAt(m: Mod, p: nat)
    requires Named(m) && 1 <= p < |MakeKey(m)| - 1
    ensures var i, j := |m.sandboxId|, |m.sandboxId| + 1 + |m.moduleId|;
            && (p < i ==> MakeKey(m)[p] in m.sandboxId[1..])
            && (i < p < j ==> MakeKey(m)[p] in m.moduleId)
            && (p > j ==> MakeKey(m)[p] in m.version[..|m.version| - 1])
  {
    var i, j := |m.sandboxId|, |m.sandboxId| + 1 + |m.moduleId|;
    if p < i {
      assert MakeKey(m)[p] == m.sandboxId[1..][p - 1];
    } else if i < p < j {
      assert MakeKey(m)[p] == m.moduleId[p - i - 1];
    } else if p > j {
      assert MakeKey(m)[p] == m.version[..|m.version| - 1][p - j - 1];
    }
  }

  /** Inside the key of a `Solo` module, only the separators and a module id ":" are ':'. */
  lemma InnerColons(m: Mod, p: nat)
    requires Named(m) && Solo(m) && 1 <= p < |MakeKey(m)| - 1 && MakeKey(m)[p] == COLON
    ensures var i, j := |m.sandboxId|, |m.sandboxId| + 1 + |m.moduleId|;
            p == i || p == j || (|m.moduleId| == 1 && p == i + 1)
  {
    KeyAt(m, p);
  }

  lemma SoloKey(m: Mod, k: Mod)
    requires Named(m) && Solo(m) && Named(k) && MakeKey(k) == MakeKey(m)
    ensures k == m
  {
    var s := MakeKey(k);
    var p, q := |k.sandboxId|, |k.sandboxId| + 1 + |k.moduleId|;
    assert s[p] == COLON && s[q] == COLON;
    InnerColons(m, p);
    InnerColons(m, q);
    assert p == |m.sandboxId| && q == |m.sandboxId| + 1 + |m.moduleId|;
    SliceKey(m);
    SliceKey(k);
  }

  lemma SliceKey(m: Mod)
    ensures var s, p, q := MakeKey(m), |m.sandboxId|, |m.sandboxId| + 1 + |m.moduleId|;
            |s| == q + 1 + |m.version| && m == Mod(s[..p], s[p + 1..q], s[q + 1..])
  {
  }

  /** Another module with the same key that can be registered. */
  lemma NamedOwner(m: Mod) returns (k: Mod)
    requires Named(m) && !Solo(m)
    ensures Named(k) && k != m && MakeKey(k) == MakeKey(m)
  {
    hide MakeKey;
    if COLON in m.sandboxId[1..] {
      k := SandboxSplit(m);
    } else if COLON in m.moduleId && |m.moduleId| > 1 {
      k := ModuleSplit(m);
    } else {
      k := VersionSplit(m);
    }
  }

  lemma SandboxSplit(m: Mod) returns (k: Mod)
    requires Named(m) && COLON in m.sandboxId[1..]
    ensures Named(k) && k != m && MakeKey(k) == MakeKey(m)
  {
    var p, q := CutAtColon(m.sandboxId[1..]);
    assert m.sandboxId == [m.sandboxId[0]] + p + [COLON] + q;
    k := Mod([m.sandboxId[0]] + p, q + [COLON] + m.moduleId, m.version);
    assert |k.sandboxId| < |m.sandboxId|;
  }

  lemma ModuleSplit(m: Mod) returns (k: Mod)
    requires Named(m) && COLON in m.moduleId && |m.moduleId| > 1
    ensures Named(k) && k != m && MakeKey(k) == MakeKey(m)
  {
    var p, q := CutAtColon(m.moduleId);
    if q != [] {
      k := Mod(m.sandboxId + [COLON] + p, q, m.version);
      assert |k.sandboxId| > |m.sandboxId|;
    } else {
      k := Mod(m.sandboxId, p, [COLON] + m.version);
      assert |k.version| > |m.version|;
    }
  }

  lemma VersionSplit(m: Mod) returns (k: Mod)
    requires Named(m) && COLON in m.version[..|m.version| - 1]
    ensures Named(k) && k != m && MakeKey(k) == MakeKey(m)
  {
    var n := |m.version| - 1;
    var p, q := CutAtColon(m.version[..n]);
    assert m.version == p + [COLON] + q + [m.version[n]];
    k := Mod(m.sandboxId, m.moduleId + [COLON] + p, q + [m.version[n]]);
    assert |k.moduleId| > |m.moduleId|;
  }
}
