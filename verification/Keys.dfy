/** Primary-key and internal-key encoding (`types/key.rs`, `types/sequence.rs`).

    The engine never compares primary keys; it compares encoded bytes. What
    makes that sound is that the encoding of a key tuple, followed by any tail,
    sorts exactly as the tuple does. `TupleOrder` states this for every column
    type, and `InternalKeyOrder` adds the sequence tag: primary key ascending,
    then sequence number descending.
 */
module Keys {
  import opened Wrappers
  import opened ByteStrings
  import opened Arithmetic

  // ── Column types and values ───────────────────────────────────────────────

  datatype ColumnType = Boolean | Int32 | Int64 | Float | Double | FixedLen(n: nat) | ByteArray

  type int32 = x: int | -0x8000_0000 <= x < 0x8000_0000
  type int64 = x: int | -0x8000_0000_0000_0000 <= x < 0x8000_0000_0000_0000

  /** Floats are their IEEE 754 bit patterns. */
  datatype FieldValue =
    | BoolVal(b: bool)
    | Int32Val(i: int32)
    | Int64Val(l: int64)
    | FloatVal(f: u32)
    | DoubleVal(d: u64)
    | BytesVal(raw: bytes)

  const HALF32: nat := 0x8000_0000
  const HALF64: nat := 0x8000_0000_0000_0000
  const FRAC32: nat := 0x80_0000
  const FRAC64: nat := 0x10_0000_0000_0000

  /** Exponent bits all ones and a non-zero fraction. */
  predicate IsNan(bits: nat, half: nat, infinity: nat)
    requires half > 0
  {
    bits % half > infinity
  }

  const INF32: nat := 0x7F80_0000
  const INF64: nat := 0x7FF0_0000_0000_0000

  // ── Field encoding ────────────────────────────────────────────────────────

  /** A signed value as two's complement with the sign bit flipped. */
  function FlipSign(v: int, half: nat): nat
    requires 0 - half <= v < half
  {
    var unsigned := if v < 0 then v + 2 * half else v;
    if unsigned >= half then unsigned - half else unsigned + half
  }

  /** Negative floats flip every bit, the others only the sign bit. */
  function OrderPreserving(bits: nat, half: nat): (u: nat)
    requires bits < 2 * half
    ensures u < 2 * half
  {
    if bits >= half then 2 * half - 1 - bits else bits + half
  }

  /** Each 0x00 becomes 0x00 0xFF; the string ends with 0x00 0x00. */
  function Escape(s: bytes): bytes {
    if s == [] then [0, 0]
    else (if s[0] == 0 then [0, 255] else [s[0]]) + Escape(s[1..])
  }

  method EscapeByteArray(s: bytes, buf: bytes) returns (out: bytes)
    ensures out == buf + Escape(s)
  {
    out := buf;
    for i := 0 to |s|
      invariant out + Escape(s[i..]) == buf + Escape(s)
    {
      assert s[i..][1..] == s[i + 1..];
      out := if s[i] == 0 then out + [0, 255] else out + [s[i]];
    }
    assert s[|s|..] == [];
    out := out + [0, 0];
  }

  function EncodeField(v: FieldValue, t: ColumnType): Result<bytes> {
    match (v, t)
    case (BoolVal(b), Boolean) => Ok(if b then [1] else [0])
    case (Int32Val(i), Int32) => Ok(ToBe(FlipSign(i, HALF32), 4))
    case (Int64Val(l), Int64) => Ok(ToBe(FlipSign(l, HALF64), 8))
    case (FloatVal(f), Float) =>
      if IsNan(f, HALF32, INF32) then Err(InvalidArgument) else Ok(ToBe(OrderPreserving(f, HALF32), 4))
    case (DoubleVal(d), Double) =>
      if IsNan(d, HALF64, INF64) then Err(InvalidArgument) else Ok(ToBe(OrderPreserving(d, HALF64), 8))
    case (BytesVal(raw), FixedLen(n)) => if |raw| != n then Err(SchemaMismatch) else Ok(raw)
    case (BytesVal(raw), ByteArray) => Ok(Escape(raw))
    case _ => Err(SchemaMismatch)
  }

  function EncodeFields(vs: seq<FieldValue>, ts: seq<ColumnType>): Result<bytes>
    requires |vs| == |ts|
  {
    if vs == [] then Ok([])
    else
      var first :- EncodeField(vs[0], ts[0]);
      var rest :- EncodeFields(vs[1..], ts[1..]);
      Ok(first + rest)
  }

  /** `ts` are the column types of the primary key, in key order. */
  function EncodePk(vs: seq<FieldValue>, ts: seq<ColumnType>): Result<bytes> {
    if |vs| != |ts| then Err(InvalidArgument) else EncodeFields(vs, ts)
  }

  predicate ValidPk(vs: seq<FieldValue>, ts: seq<ColumnType>) {
    EncodePk(vs, ts).Ok?
  }

  // ── Which keys encode ─────────────────────────────────────────────────────

  /** All exponent bits are set and the fraction is not zero. */
  predicate NotANumber(bits: nat, frac: nat, exponents: nat)
    requires frac > 0 && exponents > 0
  {
    bits / frac % exponents == exponents - 1 && bits % frac != 0
  }

  /** The value is of the column's kind, of its length if it is fixed, and a
      number if it is a float. */
  predicate FitsColumn(v: FieldValue, t: ColumnType) {
    match t
    case Boolean => v.BoolVal?
    case Int32 => v.Int32Val?
    case Int64 => v.Int64Val?
    case Float => v.FloatVal? && !NotANumber(v.f, FRAC32, 256)
    case Double => v.DoubleVal? && !NotANumber(v.d, FRAC64, 2048)
    case FixedLen(n) => v.BytesVal? && |v.raw| == n
    case ByteArray => v.BytesVal?
  }

  /** Of a value that does not fit, NaN is told apart from a wrong kind or
      length. */
  function MisfitError(v: FieldValue, t: ColumnType): Error {
    if (v.FloatVal? && t.Float?) || (v.DoubleVal? && t.Double?) then InvalidArgument else SchemaMismatch
  }

  lemma FloatNan(bits: u32)
    ensures IsNan(bits, HALF32, INF32) <==> NotANumber(bits, FRAC32, 256)
  {
    var low := if bits >= HALF32 then bits - HALF32 else bits;
    assert bits % HALF32 == low;
    assert low / FRAC32 < 256 && bits / FRAC32 == if bits >= HALF32 then low / FRAC32 + 256 else low / FRAC32;
  }

  lemma DoubleNan(bits: u64)
    ensures IsNan(bits, HALF64, INF64) <==> NotANumber(bits, FRAC64, 2048)
  {
    var low := if bits >= HALF64 then bits - HALF64 else bits;
    assert bits % HALF64 == low;
    assert low / FRAC64 < 2048 && bits / FRAC64 == if bits >= HALF64 then low / FRAC64 + 2048 else low / FRAC64;
  }

  lemma FieldEncodes(v: FieldValue, t: ColumnType)
    ensures EncodeField(v, t).Ok? <==> FitsColumn(v, t)
    ensures EncodeField(v, t).Err? ==> EncodeField(v, t).error == MisfitError(v, t)
  {
    hide IsNan, NotANumber, Escape, ToBe, FlipSign, OrderPreserving;
    if v.FloatVal? { FloatNan(v.f); }
    if v.DoubleVal? { DoubleNan(v.d); }
  }

  /** A fitting value for every column. */
  predicate PkFits(vs: seq<FieldValue>, ts: seq<ColumnType>) {
    |vs| == |ts| && forall i :: 0 <= i < |vs| ==> FitsColumn(vs[i], ts[i])
  }

  /** A primary key encodes if and only if it has a fitting value for every column;
      otherwise the first that does not fit decides the error. */
  lemma PkEncodes(vs: seq<FieldValue>, ts: seq<ColumnType>)
    ensures ValidPk(vs, ts) <==> PkFits(vs, ts)
    ensures |vs| != |ts| ==> EncodePk(vs, ts) == Err(InvalidArgument)
    ensures forall i :: 0 <= i < |vs| == |ts| && FirstMisfit(vs, ts, i) ==>
              EncodePk(vs, ts) == Err(MisfitError(vs[i], ts[i]))
  {
    if |vs| == |ts| { FieldsEncode(vs, ts); }
  }

  ghost predicate FirstMisfit(vs: seq<FieldValue>, ts: seq<ColumnType>, i: nat)
    requires i < |vs| == |ts|
  {
    !FitsColumn(vs[i], ts[i]) && forall k :: 0 <= k < i ==> FitsColumn(vs[k], ts[k])
  }

  lemma {:induction false} FieldsEncode(vs: seq<FieldValue>, ts: seq<ColumnType>)
    requires |vs| == |ts|
    ensures EncodeFields(vs, ts).Ok? <==> forall i :: 0 <= i < |vs| ==> FitsColumn(vs[i], ts[i])
    ensures forall i :: 0 <= i < |vs| && FirstMisfit(vs, ts, i) ==>
              EncodeFields(vs, ts) == Err(MisfitError(vs[i], ts[i]))
  {
    hide EncodeField, FitsColumn, MisfitError;
    if vs != [] {
      FieldEncodes(vs[0], ts[0]);
      FieldsEncode(vs[1..], ts[1..]);
      assert forall i :: 0 < i < |vs| ==> vs[i] == vs[1..][i - 1] && ts[i] == ts[1..][i - 1];
      forall i | 0 <= i < |vs| && FirstMisfit(vs, ts, i)
        ensures EncodeFields(vs, ts) == Err(MisfitError(vs[i], ts[i]))
      {
        if i > 0 { assert FirstMisfit(vs[1..], ts[1..], i - 1); }
      }
    }
  }

  // ── Value order ───────────────────────────────────────────────────────────

  /** The numeric magnitude of an IEEE 754 bit pattern without its sign, in
      units of the smallest subnormal. */
  function Magnitude(m: nat, frac: nat): nat
    requires frac > 0
  {
    Scaled(m / frac, m % frac, frac)
  }

  function Scaled(exponent: nat, fraction: nat, frac: nat): nat {
    if exponent == 0 then fraction else (frac + fraction) * Pow2(exponent - 1)
  }

  function NumericValue(bits: nat, half: nat, frac: nat): int
    requires half > 0 && frac > 0
  {
    if bits >= half then 0 - Magnitude(bits - half, frac) else Magnitude(bits, frac)
  }

  /** Numeric order; the two zeros are told apart with -0 first. */
  predicate FloatLess(a: nat, b: nat, half: nat, frac: nat)
    requires half > 0 && frac > 0
  {
    var x, y := NumericValue(a, half, frac), NumericValue(b, half, frac);
    x < y || (x == y && a >= half && b < half)
  }

  predicate FieldLess(v: FieldValue, w: FieldValue) {
    match (v, w)
    case (BoolVal(a), BoolVal(b)) => !a && b
    case (Int32Val(a), Int32Val(b)) => a < b
    case (Int64Val(a), Int64Val(b)) => a < b
    case (FloatVal(a), FloatVal(b)) => FloatLess(a, b, HALF32, FRAC32)
    case (DoubleVal(a), DoubleVal(b)) => FloatLess(a, b, HALF64, FRAC64)
    case (BytesVal(a), BytesVal(b)) => Less(a, b)
    case _ => false
  }

  predicate PkLess(vs: seq<FieldValue>, ws: seq<FieldValue>) {
    vs != [] && ws != [] &&
    (FieldLess(vs[0], ws[0]) || (vs[0] == ws[0] && PkLess(vs[1..], ws[1..])))
  }

  // ── Order preservation ────────────────────────────────────────────────────

  lemma ScaledSuccessor(e: nat, f: nat, frac: nat)
    requires f < frac
    ensures f + 1 < frac ==> Scaled(e, f, frac) < Scaled(e, f + 1, frac)
    ensures f + 1 == frac ==> Scaled(e, f, frac) < Scaled(e + 1, 0, frac)
  {
    if e > 0 {
      var p := Pow2(e - 1);
      ProductGrows(frac + f, p);
      if f + 1 == frac {
        assert Scaled(e + 1, 0, frac) == frac * (2 * p) == (frac + frac) * p;
      }
    }
  }

  lemma MagnitudeSuccessor(m: nat, frac: nat)
    requires frac > 0
    ensures Magnitude(m, frac) < Magnitude(m + 1, frac)
  {
    var e, f := m / frac, m % frac;
    ScaledSuccessor(e, f, frac);
    assert m == e * frac + f;
    if f + 1 < frac {
      QuotientUnique(m + 1, frac, e, f + 1);
    } else {
      assert (e + 1) * frac == m + 1;
      QuotientUnique(m + 1, frac, e + 1, 0);
    }
  }

  lemma {:induction false} MagnitudeMonotone(a: nat, b: nat, frac: nat)
    requires frac > 0 && a < b
    ensures Magnitude(a, frac) < Magnitude(b, frac)
    decreases b
  {
    MagnitudeSuccessor(b - 1, frac);
    if a < b - 1 { MagnitudeMonotone(a, b - 1, frac); }
  }

  /** The bit twiddling sorts floats by numeric value. */
  lemma FloatOrder(a: nat, b: nat, half: nat, frac: nat)
    requires 0 < half && 0 < frac && a < 2 * half && b < 2 * half && a != b
    ensures OrderPreserving(a, half) != OrderPreserving(b, half)
    ensures OrderPreserving(a, half) < OrderPreserving(b, half) <==> FloatLess(a, b, half, frac)
  {
    var m, n := if a >= half then a - half else a, if b >= half then b - half else b;
    if m < n { MagnitudeMonotone(m, n, frac); }
    if n < m { MagnitudeMonotone(n, m, frac); }
    if m > 0 { MagnitudeMonotone(0, m, frac); }
    if n > 0 { MagnitudeMonotone(0, n, frac); }
  }

  /** A string that is a raw prefix of another sorts first, whatever follows. */
  lemma {:induction false} EscapeOrder(a: bytes, b: bytes, x: bytes, y: bytes)
    requires a != b
    ensures Less(Escape(a) + x, Escape(b) + y) <==> Less(a, b)
  {
    if a != [] && b != [] {
      var p := if a[0] == 0 then [0, 255] else [a[0]];
      if a[0] == b[0] {
        assert a == [a[0]] + a[1..] && b == [b[0]] + b[1..];
        EscapeOrder(a[1..], b[1..], x, y);
        LessCommonPrefix(p, Escape(a[1..]) + x, Escape(b[1..]) + y);
        assert Escape(a) + x == p + (Escape(a[1..]) + x);
        assert Escape(b) + y == p + (Escape(b[1..]) + y);
      }
    } else {
      TerminatorFirst(if a == [] then b else a, if a == [] then x else y, if a == [] then y else x);
    }
  }

  lemma TerminatorFirst(s: bytes, x: bytes, y: bytes)
    requires s != []
    ensures Less(Escape([]) + x, Escape(s) + y)
    ensures !Less(Escape(s) + y, Escape([]) + x)
  {
    var l, r := Escape([]) + x, Escape(s) + y;
    assert l[0] == 0 && l[1] == 0;
    if s[0] == 0 {
      assert r[0] == 0 && r[1] == 255;
      assert l[1..][0] == 0 && r[1..][0] == 255;
    }
  }

  /** One field decides the order of two keys that differ in it. */
  lemma FieldOrder(v: FieldValue, w: FieldValue, t: ColumnType, x: bytes, y: bytes)
    requires v != w && EncodeField(v, t).Ok? && EncodeField(w, t).Ok?
    ensures Less(EncodeField(v, t).value + x, EncodeField(w, t).value + y) <==> FieldLess(v, w)
  {
    Pow256Values();
    match t
    case Boolean =>
    case Int32 => NumberOrder(FlipSign(v.i, HALF32), FlipSign(w.i, HALF32), 4, x, y);
    case Int64 => NumberOrder(FlipSign(v.l, HALF64), FlipSign(w.l, HALF64), 8, x, y);
    case Float =>
      FloatOrder(v.f, w.f, HALF32, FRAC32);
      NumberOrder(OrderPreserving(v.f, HALF32), OrderPreserving(w.f, HALF32), 4, x, y);
    case Double =>
      FloatOrder(v.d, w.d, HALF64, FRAC64);
      NumberOrder(OrderPreserving(v.d, HALF64), OrderPreserving(w.d, HALF64), 8, x, y);
    case FixedLen(n) => LessEqualLength(v.raw, w.raw, x, y);
    case ByteArray => EscapeOrder(v.raw, w.raw, x, y);
  }

  lemma NumberOrder(m: nat, n: nat, w: nat, x: bytes, y: bytes)
    requires m != n && m < Pow256(w) && n < Pow256(w)
    ensures Less(ToBe(m, w) + x, ToBe(n, w) + y) <==> m < n
  {
    BeOrder(m, n, w);
    LessEqualLength(ToBe(m, w), ToBe(n, w), x, y);
  }

  /** Encoded key tuples sort as the tuples do, whatever bytes follow them. */
  lemma {:induction false} TupleOrder(vs: seq<FieldValue>, ws: seq<FieldValue>, ts: seq<ColumnType>, x: bytes, y: bytes)
    requires ValidPk(vs, ts) && ValidPk(ws, ts) && vs != ws
    ensures Less(EncodePk(vs, ts).value + x, EncodePk(ws, ts).value + y) <==> PkLess(vs, ws)
  {
    hide EncodeField, FieldLess, Less;
    if vs != [] {
      var a, b := EncodeField(vs[0], ts[0]).value, EncodeField(ws[0], ts[0]).value;
      var c, d := EncodeFields(vs[1..], ts[1..]).value, EncodeFields(ws[1..], ts[1..]).value;
      assert EncodePk(vs, ts).value + x == a + (c + x);
      assert EncodePk(ws, ts).value + y == b + (d + y);
      if vs[0] == ws[0] {
        assert vs == [vs[0]] + vs[1..] && ws == [ws[0]] + ws[1..];
        TupleOrder(vs[1..], ws[1..], ts[1..], x, y);
        LessCommonPrefix(a, c + x, d + y);
        FieldLessIrreflexive(vs[0]);
      } else {
        FieldOrder(vs[0], ws[0], ts[0], c + x, d + y);
      }
    }
  }

  /** Comparing encoded keys is comparing the tuples. */
  lemma EncodedLess(vs: seq<FieldValue>, ws: seq<FieldValue>, ts: seq<ColumnType>)
    requires ValidPk(vs, ts) && ValidPk(ws, ts)
    ensures Less(EncodePk(vs, ts).value, EncodePk(ws, ts).value) <==> PkLess(vs, ws)
    ensures EncodePk(vs, ts) == EncodePk(ws, ts) <==> vs == ws
  {
    hide EncodePk, Less;
    var a, b := EncodePk(vs, ts).value, EncodePk(ws, ts).value;
    LessIrreflexive(a);
    PkLessIrreflexive(vs);
    assert a + [] == a && b + [] == b;
    if vs != ws {
      TupleOrder(vs, ws, ts, [], []);
      TupleOrder(ws, vs, ts, [], []);
      PkLessTotal(vs, ws, ts);
    }
  }

  lemma {:induction false} PkLessIrreflexive(vs: seq<FieldValue>)
    ensures !PkLess(vs, vs)
  {
    hide FieldLess;
    if vs != [] {
      FieldLessIrreflexive(vs[0]);
      PkLessIrreflexive(vs[1..]);
    }
  }

  /** Different keys of one table are ordered one way or the other. */
  lemma {:induction false} PkLessTotal(vs: seq<FieldValue>, ws: seq<FieldValue>, ts: seq<ColumnType>)
    requires ValidPk(vs, ts) && ValidPk(ws, ts) && vs != ws
    ensures PkLess(vs, ws) || PkLess(ws, vs)
  {
    hide EncodeField, FieldLess;
    if vs[0] == ws[0] {
      assert vs == [vs[0]] + vs[1..] && ws == [ws[0]] + ws[1..];
      PkLessTotal(vs[1..], ws[1..], ts[1..]);
    } else {
      FieldLessTotal(vs[0], ws[0], ts[0]);
    }
  }

  lemma FieldLessTotal(v: FieldValue, w: FieldValue, t: ColumnType)
    requires EncodeField(v, t).Ok? && EncodeField(w, t).Ok? && v != w
    ensures FieldLess(v, w) || FieldLess(w, v)
  {
    hide Escape, ToBe;
    match t
    case Float =>
      FloatOrder(v.f, w.f, HALF32, FRAC32);
      FloatOrder(w.f, v.f, HALF32, FRAC32);
    case Double =>
      FloatOrder(v.d, w.d, HALF64, FRAC64);
      FloatOrder(w.d, v.d, HALF64, FRAC64);
    case FixedLen(_) => LessTotal(v.raw, w.raw);
    case ByteArray => LessTotal(v.raw, w.raw);
    case _ =>
  }

  lemma FieldLessIrreflexive(v: FieldValue)
    ensures !FieldLess(v, v)
  {
    if v.BytesVal? { LessIrreflexive(v.raw); }
  }

  // ── User keys ─────────────────────────────────────────────────────────────

  /** `k` is the encoding of some primary key of the table. */
  ghost predicate IsUserKey(k: bytes, ts: seq<ColumnType>) {
    exists vs :: EncodePk(vs, ts) == Ok(k)
  }

  /** Distinct user keys decide the order of anything that starts with them. */
  lemma UserKeyOrder(j: bytes, k: bytes, ts: seq<ColumnType>, x: bytes, y: bytes)
    requires IsUserKey(j, ts) && IsUserKey(k, ts) && j != k
    ensures Less(j + x, k + y) <==> Less(j, k)
  {
    var vs :| EncodePk(vs, ts) == Ok(j);
    var ws :| EncodePk(ws, ts) == Ok(k);
    TupleOrder(vs, ws, ts, x, y);
    TupleOrder(vs, ws, ts, [], []);
    assert j + [] == j && k + [] == k;
  }

  /** No user key is a proper prefix of another, so comparing a prefix of the
      stored key identifies the primary key. */
  lemma UserKeysPrefixFree(j: bytes, k: bytes, ts: seq<ColumnType>)
    requires IsUserKey(j, ts) && IsUserKey(k, ts) && j <= k
    ensures j == k
  {
    if j != k {
      var t := k[|j|..];
      UserKeyOrder(j, k, ts, t + [0], []);
      assert j + (t + [0]) == k + [0] && k + [] == k;
      LessProperPrefix(j, k);
      LessProperPrefix(k, k + [0]);
      LessAsymmetric(k, k + [0]);
    }
  }

  /** Only a key made of zero-width columns encodes to nothing. */
  predicate ZeroWidth(ts: seq<ColumnType>) {
    forall i :: 0 <= i < |ts| ==> ts[i] == FixedLen(0)
  }

  lemma {:induction false} EmptyUserKey(vs: seq<FieldValue>, ts: seq<ColumnType>)
    requires ValidPk(vs, ts)
    ensures EncodePk(vs, ts).value == [] <==> ZeroWidth(ts)
  {
    if vs != [] {
      EmptyUserKey(vs[1..], ts[1..]);
      assert ts == [ts[0]] + ts[1..];
      var a := EncodeField(vs[0], ts[0]).value;
      assert a == [] <==> ts[0] == FixedLen(0);
    }
  }

  // ── Internal keys ─────────────────────────────────────────────────────────

  datatype Op = Delete | Put

  const SEQNUM_MAX: nat := 0xFF_FFFF_FFFF_FFFF

  function OpByte(op: Op): byte {
    if op == Put then 1 else 0
  }

  /** `(SEQNUM_MAX - seq) << 8 | op`, big-endian. */
  function Tag(seqno: nat, op: Op): (s: bytes)
    requires seqno <= SEQNUM_MAX
    ensures |s| == 8
  {
    ToBe((SEQNUM_MAX - seqno) * 256 + OpByte(op), 8)
  }

  /** A version of a row: user key, sequence number and operation. */
  datatype InternalKey = InternalKey(uk: bytes, seqno: nat, op: Op)

  function EncodeIkey(k: InternalKey): bytes
    requires k.seqno <= SEQNUM_MAX
  {
    k.uk + Tag(k.seqno, k.op)
  }

  function UserKeyOf(raw: bytes): bytes
    requires |raw| >= 8
  {
    raw[..|raw| - 8]
  }

  function SeqOf(raw: bytes): int
    requires |raw| >= 8
  {
    SEQNUM_MAX - FromBe(raw[|raw| - 8..]) / 256
  }

  function OpOf(raw: bytes): Option<Op>
    requires |raw| >= 8
  {
    match raw[|raw| - 1]
    case 0 => Some(Delete)
    case 1 => Some(Put)
    case _ => None
  }

  /** Newer versions of a user key come first. */
  predicate VersionLess(j: InternalKey, k: InternalKey) {
    Less(j.uk, k.uk) ||
    (j.uk == k.uk && (j.seqno > k.seqno || (j.seqno == k.seqno && j.op == Delete && k.op == Put)))
  }

  lemma TagOrder(s: nat, o: Op, t: nat, p: Op)
    requires s <= SEQNUM_MAX && t <= SEQNUM_MAX
    ensures Less(Tag(s, o), Tag(t, p)) <==> s > t || (s == t && o == Delete && p == Put)
  {
    Pow256Values();
    BeOrder((SEQNUM_MAX - s) * 256 + OpByte(o), (SEQNUM_MAX - t) * 256 + OpByte(p), 8);
  }

  /** Byte order of stored keys: user key ascending, then newest first. */
  lemma InternalKeyOrder(j: InternalKey, k: InternalKey, ts: seq<ColumnType>)
    requires IsUserKey(j.uk, ts) && IsUserKey(k.uk, ts)
    requires j.seqno <= SEQNUM_MAX && k.seqno <= SEQNUM_MAX
    ensures Less(EncodeIkey(j), EncodeIkey(k)) <==> VersionLess(j, k)
  {
    if j.uk == k.uk {
      LessCommonPrefix(j.uk, Tag(j.seqno, j.op), Tag(k.seqno, k.op));
      TagOrder(j.seqno, j.op, k.seqno, k.op);
      LessIrreflexive(j.uk);
    } else {
      UserKeyOrder(j.uk, k.uk, ts, Tag(j.seqno, j.op), Tag(k.seqno, k.op));
    }
  }

  /** The three parts of an internal key can be read back. */
  lemma IkeyRoundTrip(k: InternalKey)
    requires k.seqno <= SEQNUM_MAX
    ensures UserKeyOf(EncodeIkey(k)) == k.uk
    ensures SeqOf(EncodeIkey(k)) == k.seqno
    ensures OpOf(EncodeIkey(k)) == Some(k.op)
  {
    var raw, n := EncodeIkey(k), (SEQNUM_MAX - k.seqno) * 256 + OpByte(k.op);
    Pow256Values();
    BeRoundTrip(n, 8);
    assert raw[|raw| - 8..] == ToBe(n, 8);
    assert raw[|raw| - 1] == ToBe(n, 8)[7] == n % 256;
  }

  // ── Decoding ──────────────────────────────────────────────────────────────

  /** Inverse of `Escape`: the unescaped bytes and the number consumed. */
  function Unescape(s: bytes): (r: Result<(bytes, nat)>)
    ensures r.Ok? ==> r.value.1 <= |s|
  {
    if s == [] then Err(Corruption)
    else if s[0] == 0 then
      if |s| == 1 then Err(Corruption)
      else if s[1] == 0 then Ok(([], 2))
      else if s[1] == 255 then
        var rest :- Unescape(s[2..]);
        Ok(([0] + rest.0, rest.1 + 2))
      else Err(Corruption)
    else
      var rest :- Unescape(s[1..]);
      Ok(([s[0]] + rest.0, rest.1 + 1))
  }

  ghost predicate UnescapeContinues(s: bytes, i: nat, got: bytes)
    requires i <= |s|
  {
    var whole, rest := Unescape(s), Unescape(s[i..]);
    if rest.Err? then whole == rest
    else whole.Ok? && whole.value.0 == got + rest.value.0 && whole.value.1 == rest.value.1 + i
  }

  method UnescapeByteArray(s: bytes) returns (r: Result<(bytes, nat)>)
    ensures r == Unescape(s)
  {
    var got: bytes := [];
    var i := 0;
    assert s[0..] == s;
    while true
      invariant 0 <= i <= |s|
      invariant UnescapeContinues(s, i, got)
      decreases |s| - i
    {
      if i >= |s| { return Err(Corruption); }
      if s[i] == 0 {
        if i + 1 >= |s| { return Err(Corruption); }
        if s[i + 1] == 255 {
          assert s[i..][2..] == s[i + 2..];
          got := got + [0];
          i := i + 2;
        } else if s[i + 1] == 0 {
          assert got + [] == got;
          return Ok((got, i + 2));
        } else {
          return Err(Corruption);
        }
      } else {
        assert s[i..][1..] == s[i + 1..];
        got := got + [s[i]];
        i := i + 1;
      }
    }
  }

  function DecodeField(s: bytes, t: ColumnType): (r: Result<(FieldValue, nat)>)
    ensures r.Ok? ==> r.value.1 <= |s|
  {
    match t
    case Boolean => if |s| < 1 then Err(Corruption) else Ok((BoolVal(s[0] != 0), 1))
    case Int32 =>
      if |s| < 4 then Err(Corruption) else
      FromBeBound(s[..4], 4);
      Ok((Int32Val(FromBe(s[..4]) - HALF32), 4))
    case Int64 =>
      if |s| < 8 then Err(Corruption) else
      FromBeBound(s[..8], 8);
      Ok((Int64Val(FromBe(s[..8]) - HALF64), 8))
    case Float =>
      if |s| < 4 then Err(Corruption) else
      FromBeBound(s[..4], 4);
      Ok((FloatVal(UndoFloat(FromBe(s[..4]), HALF32)), 4))
    case Double =>
      if |s| < 8 then Err(Corruption) else
      FromBeBound(s[..8], 8);
      Ok((DoubleVal(UndoFloat(FromBe(s[..8]), HALF64)), 8))
    case FixedLen(n) => if |s| < n then Err(Corruption) else Ok((BytesVal(s[..n]), n))
    case ByteArray =>
      var u :- Unescape(s);
      Ok((BytesVal(u.0), u.1))
  }

  /** The float branch of `decode_field`: sign bit clear flips the sign bit,
      sign bit set flips every bit. */
  function UndoFloat(u: nat, half: nat): nat
    requires u < 2 * half
  {
    if u < half then u + half else 2 * half - 1 - u
  }

  lemma FromBeBound(s: bytes, w: nat)
    requires |s| == w && (w == 4 || w == 8)
    ensures w == 4 ==> FromBe(s) < U32
    ensures w == 8 ==> FromBe(s) < U64
  {
    Pow256Values();
    FromBeBelow(s);
  }

  lemma {:induction false} FromBeBelow(s: bytes)
    ensures FromBe(s) < Pow256(|s|)
  {
    if s != [] { FromBeBelow(s[..|s| - 1]); }
  }

  function DecodeFields(s: bytes, ts: seq<ColumnType>): Result<(seq<FieldValue>, nat)>
    decreases |ts|
  {
    if ts == [] then Ok(([], 0))
    else
      var first :- DecodeField(s, ts[0]);
      var rest :- DecodeFields(s[first.1..], ts[1..]);
      Ok(([first.0] + rest.0, first.1 + rest.1))
  }

  function DecodePk(s: bytes, ts: seq<ColumnType>): Result<seq<FieldValue>> {
    var fields :- DecodeFields(s, ts);
    if fields.1 != |s| then Err(Corruption) else Ok(fields.0)
  }

  /** What decoding an encoded field gives back: floats keep their sign but
      get their magnitude bits complemented. */
  function SeenAs(v: FieldValue): FieldValue {
    match v
    case FloatVal(f) =>
      FloatVal(if f < HALF32 then HALF32 - 1 - f else HALF32 + (HALF32 - 1 - (f - HALF32)))
    case DoubleVal(d) =>
      DoubleVal(if d < HALF64 then HALF64 - 1 - d else HALF64 + (HALF64 - 1 - (d - HALF64)))
    case _ => v
  }

  lemma {:induction false} UnescapeEscape(s: bytes, rest: bytes)
    ensures Unescape(Escape(s) + rest) == Ok((s, |Escape(s)|))
  {
    var e := Escape(s) + rest;
    if s != [] {
      UnescapeEscape(s[1..], rest);
      assert e[if s[0] == 0 then 2 else 1..] == Escape(s[1..]) + rest;
      assert s == [s[0]] + s[1..];
    }
  }

  lemma FieldRoundTrip(v: FieldValue, t: ColumnType, rest: bytes)
    requires EncodeField(v, t).Ok?
    ensures DecodeField(EncodeField(v, t).value + rest, t) == Ok((SeenAs(v), |EncodeField(v, t).value|))
  {
    var e := EncodeField(v, t).value;
    Pow256Values();
    assert (e + rest)[..|e|] == e;
    match t
    case Boolean =>
    case Int32 => BeRoundTrip(FlipSign(v.i, HALF32), 4);
    case Int64 => BeRoundTrip(FlipSign(v.l, HALF64), 8);
    case Float => BeRoundTrip(OrderPreserving(v.f, HALF32), 4);
    case Double => BeRoundTrip(OrderPreserving(v.d, HALF64), 8);
    case FixedLen(n) =>
    case ByteArray => UnescapeEscape(v.raw, rest);
  }

  function SeenAll(vs: seq<FieldValue>): (ws: seq<FieldValue>)
    ensures |ws| == |vs|
    ensures forall i :: 0 <= i < |vs| ==> ws[i] == SeenAs(vs[i])
  {
    if vs == [] then [] else [SeenAs(vs[0])] + SeenAll(vs[1..])
  }

  lemma {:induction false} FieldsRoundTrip(vs: seq<FieldValue>, ts: seq<ColumnType>, rest: bytes)
    requires ValidPk(vs, ts)
    ensures DecodeFields(EncodePk(vs, ts).value + rest, ts) == Ok((SeenAll(vs), |EncodePk(vs, ts).value|))
  {
    hide EncodeField, DecodeField, SeenAs;
    if vs != [] {
      var a, c := EncodeField(vs[0], ts[0]).value, EncodeFields(vs[1..], ts[1..]).value;
      FieldRoundTrip(vs[0], ts[0], c + rest);
      FieldsRoundTrip(vs[1..], ts[1..], rest);
      assert EncodePk(vs, ts).value + rest == a + (c + rest);
      assert (a + (c + rest))[|a|..] == c + rest;
    }
  }

  predicate NoFloats(ts: seq<ColumnType>) {
    forall i :: 0 <= i < |ts| ==> !ts[i].Float? && !ts[i].Double?
  }

  /** `decode` inverts `encode` exactly for keys without float columns. With a
      Float or Double column it succeeds but returns a different key. */
  lemma PkRoundTrip(vs: seq<FieldValue>, ts: seq<ColumnType>)
    requires ValidPk(vs, ts)
    ensures DecodePk(EncodePk(vs, ts).value, ts).Ok?
    ensures DecodePk(EncodePk(vs, ts).value, ts) == Ok(vs) <==> NoFloats(ts)
  {
    hide EncodeFields, DecodeFields;
    var e := EncodePk(vs, ts).value;
    FieldsRoundTrip(vs, ts, []);
    assert e + [] == e;
    forall i | 0 <= i < |ts|
      ensures EncodeField(vs[i], ts[i]).Ok?
      ensures SeenAs(vs[i]) == vs[i] <==> !ts[i].Float? && !ts[i].Double?
    {
      FieldsValid(vs, ts, i);
    }
    if NoFloats(ts) {
      assert SeenAll(vs) == vs;
    } else {
      var i :| 0 <= i < |ts| && (ts[i].Float? || ts[i].Double?);
      assert SeenAll(vs)[i] != vs[i];
    }
  }

  lemma {:induction false} FieldsValid(vs: seq<FieldValue>, ts: seq<ColumnType>, i: nat)
    requires ValidPk(vs, ts) && i < |ts|
    ensures EncodeField(vs[i], ts[i]).Ok?
  {
    if i > 0 { FieldsValid(vs[1..], ts[1..], i - 1); }
  }

  /** A concrete key that does not survive: the float 1.0 reads back as the
      largest float below 4.0. */
  lemma FloatKeyNotRecovered()
    ensures DecodePk(EncodePk([FloatVal(0x3F80_0000)], [Float]).value, [Float]) == Ok([FloatVal(0x407F_FFFF)])
  {
    var vs, ts := [FloatVal(0x3F80_0000)], [Float];
    assert EncodeFields(vs[1..], ts[1..]) == Ok([]);
    assert ValidPk(vs, ts);
    FieldsRoundTrip(vs, ts, []);
    assert EncodePk(vs, ts).value + [] == EncodePk(vs, ts).value;
    assert SeenAll(vs) == [SeenAs(vs[0])];
  }
}
