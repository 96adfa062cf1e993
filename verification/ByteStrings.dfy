/** Byte strings, their lexicographic order, and fixed-width integers.

    Every key comparison in the engine is `memcmp` on encoded bytes, so the
    order lemmas here carry the sorting arguments of all other modules.
 */
module ByteStrings {

  type byte = x: int | 0 <= x < 256

  type bytes = seq<byte>

  // ── Lexicographic order ───────────────────────────────────────────────────

  /** `a` sorts strictly before `b`, as `memcmp` with shorter-is-smaller. */
  predicate Less(a: bytes, b: bytes) {
    if b == [] then false
    else if a == [] then true
    else a[0] < b[0] || (a[0] == b[0] && Less(a[1..], b[1..]))
  }

  predicate AtMost(a: bytes, b: bytes) {
    !Less(b, a)
  }

  lemma {:induction false} LessIrreflexive(a: bytes)
    ensures !Less(a, a)
  {
    if a != [] { LessIrreflexive(a[1..]); }
  }

  lemma {:induction false} LessTransitive(a: bytes, b: bytes, c: bytes)
    requires Less(a, b) && Less(b, c)
    ensures Less(a, c)
  {
    if a != [] && b != [] && c != [] && a[0] == b[0] && b[0] == c[0] {
      LessTransitive(a[1..], b[1..], c[1..]);
    }
  }

  lemma {:induction false} LessTotal(a: bytes, b: bytes)
    ensures Less(a, b) || a == b || Less(b, a)
  {
    if a != [] && b != [] && a[0] == b[0] {
      LessTotal(a[1..], b[1..]);
      assert a == [a[0]] + a[1..] && b == [b[0]] + b[1..];
    }
  }

  lemma LessAsymmetric(a: bytes, b: bytes)
    requires Less(a, b)
    ensures !Less(b, a) && a != b
  {
    LessIrreflexive(a);
    if Less(b, a) { LessTransitive(a, b, a); }
  }

  lemma AtMostTransitive(a: bytes, b: bytes, c: bytes)
    requires AtMost(a, b) && AtMost(b, c)
    ensures AtMost(a, c)
  {
    LessTotal(a, b);
    if Less(c, a) && Less(a, b) { LessTransitive(c, a, b); }
  }

  lemma LessAtMost(a: bytes, b: bytes, c: bytes)
    requires (Less(a, b) && AtMost(b, c)) || (AtMost(a, b) && Less(b, c))
    ensures Less(a, c)
  {
    LessTotal(a, c);
    LessTotal(a, b);
    LessTotal(b, c);
    if Less(a, b) && Less(b, c) { LessTransitive(a, b, c); }
  }

  lemma AtMostLess(a: bytes, b: bytes)
    ensures AtMost(a, b) <==> Less(a, b) || a == b
  {
    LessTotal(a, b);
    LessIrreflexive(a);
    if Less(a, b) { LessAsymmetric(a, b); }
  }

  /** A common prefix does not affect the order. */
  lemma {:induction false} LessCommonPrefix(p: bytes, a: bytes, b: bytes)
    ensures Less(p + a, p + b) == Less(a, b)
  {
    if p == [] {
      assert p + a == a && p + b == b;
    } else {
      LessCommonPrefix(p[1..], a, b);
      assert (p + a)[1..] == p[1..] + a && (p + b)[1..] == p[1..] + b;
    }
  }

  /** Two equal-length strings that differ decide the order, whatever follows. */
  lemma {:induction false} LessEqualLength(a: bytes, b: bytes, x: bytes, y: bytes)
    requires |a| == |b| && a != b
    ensures Less(a + x, b + y) == Less(a, b)
  {
    assert a == [a[0]] + a[1..] && b == [b[0]] + b[1..];
    assert (a + x)[1..] == a[1..] + x && (b + y)[1..] == b[1..] + y;
    if a[0] == b[0] { LessEqualLength(a[1..], b[1..], x, y); }
  }

  /** A proper prefix sorts first. */
  lemma {:induction false} LessProperPrefix(a: bytes, b: bytes)
    requires a < b
    ensures Less(a, b)
  {
    if a != [] {
      LessProperPrefix(a[1..], b[1..]);
    }
  }

  // ── Fixed-width integers ──────────────────────────────────────────────────

  const U16: nat := 0x1_0000
  const U32: nat := 0x1_0000_0000
  const U64: nat := 0x1_0000_0000_0000_0000

  type u16 = x: int | 0 <= x < 0x1_0000
  type u32 = x: int | 0 <= x < 0x1_0000_0000
  type u64 = x: int | 0 <= x < 0x1_0000_0000_0000_0000

  function Pow256(w: nat): (p: nat)
    ensures p > 0
  {
    if w == 0 then 1 else 256 * Pow256(w - 1)
  }

  lemma Pow256Values()
    ensures Pow256(1) == 256 && Pow256(2) == U16 && Pow256(4) == U32 && Pow256(8) == U64
  {
  }

  /** The low `w` bytes of `n`, least significant first (`to_le_bytes`). */
  function ToLe(n: nat, w: nat): (s: bytes)
    ensures |s| == w
  {
    if w == 0 then [] else [n % 256] + ToLe(n / 256, w - 1)
  }

  function FromLe(s: bytes): nat {
    if s == [] then 0 else s[0] + 256 * FromLe(s[1..])
  }

  lemma {:induction false} LeRoundTrip(n: nat, w: nat)
    requires n < Pow256(w)
    ensures FromLe(ToLe(n, w)) == n
  {
    if w > 0 {
      assert n / 256 < Pow256(w - 1);
      LeRoundTrip(n / 256, w - 1);
      assert ToLe(n, w)[1..] == ToLe(n / 256, w - 1);
    }
  }

  lemma {:induction false} FromLeBound(s: bytes)
    ensures FromLe(s) < Pow256(|s|)
  {
    if s != [] { FromLeBound(s[1..]); }
  }

  lemma {:induction false} LeInverse(s: bytes)
    ensures ToLe(FromLe(s), |s|) == s
  {
    if s != [] {
      LeInverse(s[1..]);
      assert s == [s[0]] + s[1..];
    }
  }

  /** The low `w` bytes of `n`, most significant first (`to_be_bytes`). */
  function ToBe(n: nat, w: nat): (s: bytes)
    ensures |s| == w
  {
    if w == 0 then [] else ToBe(n / 256, w - 1) + [n % 256]
  }

  function FromBe(s: bytes): nat {
    if s == [] then 0 else 256 * FromBe(s[..|s| - 1]) + s[|s| - 1]
  }

  lemma {:induction false} BeRoundTrip(n: nat, w: nat)
    requires n < Pow256(w)
    ensures FromBe(ToBe(n, w)) == n
  {
    if w > 0 {
      assert n / 256 < Pow256(w - 1);
      BeRoundTrip(n / 256, w - 1);
      assert ToBe(n, w)[..w - 1] == ToBe(n / 256, w - 1);
    }
  }

  lemma {:induction false} BeInverse(s: bytes)
    ensures ToBe(FromBe(s), |s|) == s
  {
    if s != [] {
      BeInverse(s[..|s| - 1]);
      assert s == s[..|s| - 1] + [s[|s| - 1]];
    }
  }

  /** Big-endian is the encoding whose byte order is the numeric order. */
  lemma {:induction false} BeOrder(m: nat, n: nat, w: nat)
    requires m < Pow256(w) && n < Pow256(w)
    ensures Less(ToBe(m, w), ToBe(n, w)) <==> m < n
    ensures ToBe(m, w) == ToBe(n, w) <==> m == n
  {
    BeRoundTrip(m, w);
    BeRoundTrip(n, w);
    if w > 0 {
      var a, b := ToBe(m / 256, w - 1), ToBe(n / 256, w - 1);
      BeOrder(m / 256, n / 256, w - 1);
      if m / 256 == n / 256 {
        LessCommonPrefix(a, [m % 256], [n % 256]);
      } else {
        LessEqualLength(a, b, [m % 256], [n % 256]);
      }
    }
  }
}
