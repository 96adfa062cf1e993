/** The bytes of encoded keys (`types/key.rs`), and what decoding accepts. */
module KeyLayout {
  import opened Wrappers
  import opened ByteStrings
  import opened Keys

  // ── Encoding ──────────────────────────────────────────────────────────────

  /** How many of the first `n` bytes are zero. */
  function Zeros(s: bytes, n: nat): nat
    requires n <= |s|
  {
    if n == 0 then 0 else Zeros(s, n - 1) + if s[n - 1] == 0 then 1 else 0
  }

  lemma {:induction false} ZerosTail(s: bytes, n: nat)
    requires 0 < n <= |s|
    ensures Zeros(s, n) == (if s[0] == 0 then 1 else 0) + Zeros(s[1..], n - 1)
  {
    if n > 1 { ZerosTail(s, n - 1); }
  }

  /** Byte `i` stands behind the bytes before it and one 0xFF for each zero among
      them; a zero has its own 0xFF after it. */
  ghost predicate EscapedAt(s: bytes, e: bytes, i: nat)
    requires i < |s|
  {
    var at := i + Zeros(s, i);
    at + 1 < |e| && e[at] == s[i] && (s[i] == 0 ==> e[at + 1] == 255)
  }

  function EscapedByte(b: byte): bytes {
    if b == 0 then [0, 255] else [b]
  }

  lemma EscapedLater(s: bytes, rest: bytes, i: nat)
    requires 0 < i < |s| && EscapedAt(s[1..], rest, i - 1)
    ensures EscapedAt(s, EscapedByte(s[0]) + rest, i)
  {
    ZerosTail(s, i);
    hide Zeros;
    var at := i - 1 + Zeros(s[1..], i - 1);
    assert s[1..][i - 1] == s[i];
    assert (EscapedByte(s[0]) + rest)[|EscapedByte(s[0])| + at] == rest[at];
  }

  lemma EscapedFirst(s: bytes, rest: bytes)
    requires s != [] && |rest| >= 2
    ensures EscapedAt(s, EscapedByte(s[0]) + rest, 0)
  {
  }

  lemma EscapeFirst(s: bytes)
    requires s != []
    ensures Escape(s) == EscapedByte(s[0]) + Escape(s[1..])
  {
  }

  /** Nothing else is in between, and two zeros end the string. */
  lemma {:induction false} EscapeLayout(s: bytes)
    ensures |Escape(s)| == |s| + Zeros(s, |s|) + 2
    ensures Escape(s)[|Escape(s)| - 2..] == [0, 0]
    ensures forall i :: 0 <= i < |s| ==> EscapedAt(s, Escape(s), i)
  {
    if s == [] {
      assert Escape(s) == [0, 0] && Zeros(s, 0) == 0;
    } else {
      EscapeFirst(s);
      EscapeLayout(s[1..]);
      ZerosTail(s, |s|);
      hide Escape, Zeros, EscapedAt;
      var head, rest := EscapedByte(s[0]), Escape(s[1..]);
      assert (head + rest)[|head| + |rest| - 2..] == rest[|rest| - 2..];
      forall i | 0 <= i < |s|
        ensures EscapedAt(s, head + rest, i)
      {
        if i == 0 { EscapedFirst(s, rest); } else { EscapedLater(s, rest, i); }
      }
    }
  }

  /** One byte for a boolean; offset binary for integers; the sign bit flipped for
      floats that have it clear and all bits for the others; raw bytes. */
  predicate LaidOut(v: FieldValue, t: ColumnType, e: bytes) {
    match t
    case Boolean => v.BoolVal? && e == [if v.b then 1 else 0]
    case Int32 => v.Int32Val? && |e| == 4 && FromBe(e) == v.i + 0x8000_0000
    case Int64 => v.Int64Val? && |e| == 8 && FromBe(e) == v.l + 0x8000_0000_0000_0000
    case Float =>
      v.FloatVal? && |e| == 4 &&
      FromBe(e) == if v.f < 0x8000_0000 then v.f + 0x8000_0000 else 0xFFFF_FFFF - v.f
    case Double =>
      v.DoubleVal? && |e| == 8 &&
      FromBe(e) == if v.d < 0x8000_0000_0000_0000 then v.d + 0x8000_0000_0000_0000 else 0xFFFF_FFFF_FFFF_FFFF - v.d
    case FixedLen(n) => v.BytesVal? && |e| == n && e == v.raw
    case ByteArray => v.BytesVal? && e == Escape(v.raw)
  }

  lemma FieldLayout(v: FieldValue, t: ColumnType)
    requires FitsColumn(v, t)
    ensures EncodeField(v, t).Ok? && LaidOut(v, t, EncodeField(v, t).value)
  {
    hide NotANumber, IsNan, ToBe, FromBe, Escape;
    FieldEncodes(v, t);
    Pow256Values();
    match t
    case Int32 => BeRoundTrip(FlipSign(v.i, HALF32), 4);
    case Int64 => BeRoundTrip(FlipSign(v.l, HALF64), 8);
    case Float => BeRoundTrip(OrderPreserving(v.f, HALF32), 4);
    case Double => BeRoundTrip(OrderPreserving(v.d, HALF64), 8);
    case _ =>
  }

  /** The tag after the user key: 56 bits of inverted sequence number, then the
      operation. */
  lemma TagLayout(k: InternalKey)
    requires k.seqno <= 0xFF_FFFF_FFFF_FFFF
    ensures EncodeIkey(k)[..|k.uk|] == k.uk && |EncodeIkey(k)| == |k.uk| + 8
    ensures FromBe(EncodeIkey(k)[|k.uk|..]) == (0xFF_FFFF_FFFF_FFFF - k.seqno) * 256 + if k.op == Put then 1 else 0
  {
    hide ToBe, FromBe;
    Pow256Values();
    assert EncodeIkey(k)[|k.uk|..] == Tag(k.seqno, k.op);
    BeRoundTrip((SEQNUM_MAX - k.seqno) * 256 + OpByte(k.op), 8);
  }

  // ── Decoding ──────────────────────────────────────────────────────────────

  /** Unescaping accepts exactly escaped strings, whatever follows them. */
  lemma {:induction false} UnescapeIff(s: bytes, v: bytes, n: nat)
    ensures Unescape(s) == Ok((v, n)) <==> n <= |s| && s[..n] == Escape(v)
    ensures Unescape(s).Err? ==> Unescape(s).error == Corruption
    decreases |s|
  {
    if n <= |s| && s[..n] == Escape(v) {
      assert s == Escape(v) + s[n..];
      UnescapeEscape(v, s[n..]);
    }
    Unescaped(s);
  }

  lemma {:induction false} Unescaped(s: bytes)
    ensures Unescape(s).Ok? ==> s[..Unescape(s).value.1] == Escape(Unescape(s).value.0)
    ensures Unescape(s).Err? ==> Unescape(s).error == Corruption
    decreases |s|
  {
    if |s| >= 2 && s[0] == 0 {
      if s[1] == 255 {
        Unescaped(s[2..]);
        if Unescape(s[2..]).Ok? { TakeFront(s, 2, Unescape(s[2..]).value.1); }
      }
    } else if s != [] {
      Unescaped(s[1..]);
      if Unescape(s[1..]).Ok? { TakeFront(s, 1, Unescape(s[1..]).value.1); }
    }
  }

  lemma TakeFront(s: bytes, a: nat, b: nat)
    requires a + b <= |s|
    ensures s[..a + b] == s[..a] + s[a..][..b]
  {
  }

  /** Columns whose values have one encoding each; a boolean is read from any
      byte, and floats are not read back. */
  predicate OneEncoding(t: ColumnType) {
    t.Int32? || t.Int64? || t.FixedLen? || t.ByteArray?
  }

  lemma FieldDecodes(s: bytes, t: ColumnType, v: FieldValue, n: nat)
    requires OneEncoding(t)
    ensures DecodeField(s, t) == Ok((v, n)) <==> n <= |s| && EncodeField(v, t) == Ok(s[..n])
    ensures DecodeField(s, t).Err? ==> DecodeField(s, t).error == Corruption
  {
    if n <= |s| && EncodeField(v, t) == Ok(s[..n]) {
      assert s == s[..n] + s[n..];
      FieldRoundTrip(v, t, s[n..]);
    }
    match t
    case ByteArray => if v.BytesVal? { UnescapeIff(s, v.raw, n); } else { UnescapeIff(s, [], 0); }
    case Int32 => if |s| >= 4 { WordBack(s[..4], HALF32); }
    case Int64 => if |s| >= 8 { WordBack(s[..8], HALF64); }
    case FixedLen(_) =>
  }

  /** Big-endian offset binary has one byte string for each number. */
  lemma WordBack(e: bytes, half: nat)
    requires (|e| == 4 && half == HALF32) || (|e| == 8 && half == HALF64)
    ensures FromBe(e) < 2 * half && ToBe(FlipSign(FromBe(e) - half, half), |e|) == e
  {
    hide ToBe, FromBe;
    Pow256Values();
    FromBeBound(e, |e|);
    BeInverse(e);
  }

  /** A key without booleans and floats decodes to a tuple if and only if it is
      that tuple's encoding. */
  lemma DecodeIff(s: bytes, ts: seq<ColumnType>, vs: seq<FieldValue>)
    requires forall i :: 0 <= i < |ts| ==> OneEncoding(ts[i])
    ensures DecodePk(s, ts) == Ok(vs) <==> EncodePk(vs, ts) == Ok(s)
  {
    hide EncodeFields, DecodeFields;
    if EncodePk(vs, ts) == Ok(s) {
      PkRoundTrip(vs, ts);
    }
    if DecodePk(s, ts) == Ok(vs) {
      FieldsBack(s, ts);
      assert s[..|s|] == s;
    }
  }

  lemma {:induction false} FieldsBack(s: bytes, ts: seq<ColumnType>)
    requires forall i :: 0 <= i < |ts| ==> OneEncoding(ts[i])
    ensures var r := DecodeFields(s, ts);
            r.Ok? ==> r.value.1 <= |s| && |r.value.0| == |ts| && EncodeFields(r.value.0, ts) == Ok(s[..r.value.1])
    decreases |ts|
  {
    hide DecodeField, EncodeField;
    if ts != [] && DecodeField(s, ts[0]).Ok? {
      var (v, n) := DecodeField(s, ts[0]).value;
      FieldDecodes(s, ts[0], v, n);
      FieldsBack(s[n..], ts[1..]);
      if DecodeFields(s[n..], ts[1..]).Ok? {
        TakeFront(s, n, DecodeFields(s[n..], ts[1..]).value.1);
      }
    }
  }

  /** Whatever the columns: bytes that do not decode are corrupt. */
  lemma {:induction false} DecodeErrors(s: bytes, ts: seq<ColumnType>)
    ensures DecodeFields(s, ts).Err? ==> DecodeFields(s, ts).error == Corruption
    ensures DecodePk(s, ts).Err? ==> DecodePk(s, ts).error == Corruption
    decreases |ts|
  {
    if ts != [] {
      if ts[0].ByteArray? { Unescaped(s); }
      assert DecodeField(s, ts[0]).Err? ==> DecodeField(s, ts[0]).error == Corruption;
      hide DecodeField;
      if DecodeField(s, ts[0]).Ok? { DecodeErrors(s[DecodeField(s, ts[0]).value.1..], ts[1..]); }
    }
  }
}
