/** Deletion vectors and their Puffin encoding (`iceberg/deletion_vector.rs`).

    The blob envelope follows the "deletion-vector-v1" blob type of the Apache
    Iceberg Puffin specification: length, magic, 64-bit roaring data, CRC-32.
    The roaring serialization, the CRC and the footer text are parameters.
 */
module DeletionVector {
  import opened Wrappers
  import opened ByteStrings
  import opened Table

  /** Row positions below 2^32. */
  type Bitmap = set<u32>

  /** Library code: 32-bit roaring in portable format, CRC-32, and the JSON
      footer for a data file, snapshot and bitmap. */
  datatype Codec = Codec(
    serialize: Bitmap -> bytes,
    deserialize: bytes -> Result<Bitmap>,
    crc: bytes -> u32,
    footer: (DataPath, nat, Bitmap) -> bytes)

  ghost predicate Faithful(codec: Codec) {
    forall dv: Bitmap :: codec.deserialize(codec.serialize(dv)) == Ok(dv)
  }

  const PUFFIN_MAGIC: bytes := [0x50, 0x46, 0x41, 0x31]
  const DV_MAGIC: bytes := [0xD1, 0xD3, 0x39, 0x64]

  /** One 32-bit bitmap under key 0, in 64-bit roaring format. */
  function Roaring64(codec: Codec, dv: Bitmap): bytes {
    ToLe(1, 8) + ToLe(0, 4) + codec.serialize(dv)
  }

  function InnerLen(codec: Codec, dv: Bitmap): nat {
    4 + |Roaring64(codec, dv)| + 4
  }

  function Blob(codec: Codec, dv: Bitmap): bytes {
    var body := DV_MAGIC + Roaring64(codec, dv);
    ToBe(InnerLen(codec, dv), 4) + body + ToBe(codec.crc(body), 4)
  }

  datatype PuffinEncoded = PuffinEncoded(file: bytes, blobOffset: nat, blobLength: nat)

  /** The two length fields can hold their values. */
  predicate Encodable(codec: Codec, path: DataPath, snapshot: nat, dv: Bitmap) {
    InnerLen(codec, dv) < U32 && |codec.footer(path, snapshot, dv)| < 0x8000_0000
  }

  function PuffinFile(codec: Codec, path: DataPath, snapshot: nat, dv: Bitmap): bytes {
    var footer := codec.footer(path, snapshot, dv);
    PUFFIN_MAGIC + Blob(codec, dv) + footer + ToLe(|footer|, 4) + PUFFIN_MAGIC
  }

  /** The file and the exact byte range of the blob inside it. */
  method EncodePuffin(codec: Codec, path: DataPath, snapshot: nat, dv: Bitmap) returns (r: Result<PuffinEncoded>)
    ensures r.Ok? <==> Encodable(codec, path, snapshot, dv)
    ensures r.Ok? ==> r.value == PuffinEncoded(PuffinFile(codec, path, snapshot, dv), 4, |Blob(codec, dv)|)
    ensures r.Err? ==> r.error == Iceberg
  {
    var roaring := ToLe(1, 8) + ToLe(0, 4) + codec.serialize(dv);
    var inner := |DV_MAGIC| + |roaring| + 4;
    if inner >= U32 { return Err(Iceberg); }
    var crc := codec.crc(DV_MAGIC + roaring);
    var blob := ToBe(inner, 4);
    blob := blob + (DV_MAGIC + roaring);
    blob := blob + ToBe(crc, 4);
    var footer := codec.footer(path, snapshot, dv);
    if |footer| >= 0x8000_0000 { return Err(Iceberg); }
    var buf := PUFFIN_MAGIC;
    buf := buf + blob;
    buf := buf + footer;
    buf := buf + ToLe(|footer|, 4);
    buf := buf + PUFFIN_MAGIC;
    r := Ok(PuffinEncoded(buf, |PUFFIN_MAGIC|, |blob|));
  }

  /** `decode_dv_blob`. */
  function DecodeBlob(codec: Codec, blob: bytes): Result<Bitmap> {
    if |blob| < 12 then Err(Corruption)
    else if 4 + FromBe(blob[..4]) != |blob| then Err(Corruption)
    else if blob[4..8] != DV_MAGIC then Err(Corruption)
    else
      var crcAt := |blob| - 4;
      if codec.crc(blob[4..crcAt]) != FromBe(blob[crcAt..]) then Err(Corruption)
      else DecodeRoaring64(codec, blob[8..crcAt])
  }

  function DecodeRoaring64(codec: Codec, data: bytes): Result<Bitmap> {
    if |data| < 8 then Err(Corruption)
    else if FromLe(data[..8]) == 0 then Ok({})
    else if FromLe(data[..8]) > 1 then Err(Corruption)
    else if |data| < 12 || FromLe(data[8..12]) != 0 then Err(Corruption)
    else
      match codec.deserialize(data[12..])
      case Ok(dv) => Ok(dv)
      case Err(_) => Err(Corruption)
  }

  lemma Roaring64RoundTrip(codec: Codec, dv: Bitmap)
    requires Faithful(codec)
    ensures DecodeRoaring64(codec, Roaring64(codec, dv)) == Ok(dv)
  {
    hide ToLe, FromLe;
    var data := Roaring64(codec, dv);
    Pow256Values();
    LeRoundTrip(1, 8);
    LeRoundTrip(0, 4);
    assert data[..8] == ToLe(1, 8) && data[8..12] == ToLe(0, 4) && data[12..] == codec.serialize(dv);
  }

  /** Reading the recorded byte range of the file gives back the bitmap. */
  lemma BlobRoundTrip(codec: Codec, path: DataPath, snapshot: nat, dv: Bitmap)
    requires Faithful(codec) && Encodable(codec, path, snapshot, dv)
    ensures 4 + |Blob(codec, dv)| <= |PuffinFile(codec, path, snapshot, dv)|
    ensures PuffinFile(codec, path, snapshot, dv)[4..4 + |Blob(codec, dv)|] == Blob(codec, dv)
    ensures DecodeBlob(codec, Blob(codec, dv)) == Ok(dv)
  {
    hide ToBe, FromBe, Roaring64, DecodeRoaring64;
    var blob, data := Blob(codec, dv), Roaring64(codec, dv);
    var n, crc := InnerLen(codec, dv), codec.crc(DV_MAGIC + data);
    assert PuffinFile(codec, path, snapshot, dv)[4..4 + |blob|] == blob;
    Pow256Values();
    BeRoundTrip(n, 4);
    BeRoundTrip(crc, 4);
    assert blob[..4] == ToBe(n, 4);
    assert blob[4..|blob| - 4] == DV_MAGIC + data;
    assert blob[4..8] == blob[4..|blob| - 4][..4] == DV_MAGIC;
    assert blob[8..|blob| - 4] == blob[4..|blob| - 4][4..] == data;
    assert blob[|blob| - 4..] == ToBe(crc, 4);
    Roaring64RoundTrip(codec, dv);
  }

  // ── The format, byte by byte ──────────────────────────────────────────────

  /** One bitmap under key 0, with the roaring library's bytes after the header. */
  lemma Roaring64Layout(codec: Codec, dv: Bitmap)
    ensures Roaring64(codec, dv) == [1, 0, 0, 0, 0, 0, 0, 0, 0, 0, 0, 0] + codec.serialize(dv)
  {
    hide ToLe;
    Zeros();
  }

  /** Length, magic, data and checksum, each where the specification puts it. */
  lemma BlobLayout(codec: Codec, dv: Bitmap)
    requires |codec.serialize(dv)| + 20 < U32
    ensures var blob := Blob(codec, dv);
            |blob| == |codec.serialize(dv)| + 24 && FromBe(blob[..4]) == |blob| - 4 &&
            blob[4..8] == [0xD1, 0xD3, 0x39, 0x64] && blob[8..20] == [1, 0, 0, 0, 0, 0, 0, 0, 0, 0, 0, 0] &&
            blob[20..|blob| - 4] == codec.serialize(dv) &&
            FromBe(blob[|blob| - 4..]) == codec.crc(blob[4..|blob| - 4])
  {
    hide ToBe, FromBe, Roaring64;
    Roaring64Layout(codec, dv);
    var blob, data := Blob(codec, dv), Roaring64(codec, dv);
    var n, crc := InnerLen(codec, dv), codec.crc(DV_MAGIC + data);
    Pow256Values();
    BeRoundTrip(n, 4);
    BeRoundTrip(crc, 4);
    assert blob[..4] == ToBe(n, 4);
    assert blob[4..|blob| - 4] == DV_MAGIC + data;
    assert blob[4..8] == blob[4..|blob| - 4][..4] == DV_MAGIC;
    assert blob[8..20] == blob[4..|blob| - 4][4..16] == data[..12];
    assert blob[20..|blob| - 4] == blob[4..|blob| - 4][16..] == data[12..];
    assert blob[|blob| - 4..] == ToBe(crc, 4);
  }

  /** Magic, blob, footer, the footer's length and magic again. */
  lemma PuffinLayout(codec: Codec, path: DataPath, snapshot: nat, dv: Bitmap)
    requires Encodable(codec, path, snapshot, dv)
    ensures var file, blob, footer := PuffinFile(codec, path, snapshot, dv), Blob(codec, dv),
            codec.footer(path, snapshot, dv);
            |file| == |blob| + |footer| + 12 && file[..4] == file[|file| - 4..] == [0x50, 0x46, 0x41, 0x31] &&
            file[4..4 + |blob|] == blob && file[4 + |blob|..|file| - 8] == footer &&
            FromLe(file[|file| - 8..|file| - 4]) == |footer|
  {
    hide ToLe, FromLe, Blob;
    var file, blob, footer := PuffinFile(codec, path, snapshot, dv), Blob(codec, dv), codec.footer(path, snapshot, dv);
    Pow256Values();
    LeRoundTrip(|footer|, 4);
    assert file[4..4 + |blob|] == blob;
    assert file[4 + |blob|..|file| - 8] == footer;
    assert file[|file| - 8..|file| - 4] == ToLe(|footer|, 4);
    assert file[|file| - 4..] == PUFFIN_MAGIC;
  }

  /** What fits: 20 bytes around the bitmap in 32 bits, and the footer in 31. */
  lemma EncodableIs(codec: Codec, path: DataPath, snapshot: nat, dv: Bitmap)
    ensures Encodable(codec, path, snapshot, dv) <==>
            |codec.serialize(dv)| + 20 < 0x1_0000_0000 && |codec.footer(path, snapshot, dv)| < 0x8000_0000
  {
    Roaring64Layout(codec, dv);
  }

  /** The bytes between magic and checksum hold the bitmap: no bitmaps at all, or
      one under key 0. */
  ghost predicate Holds(codec: Codec, data: bytes, dv: Bitmap) {
    (|data| >= 8 && data[..8] == [0, 0, 0, 0, 0, 0, 0, 0] && dv == {}) ||
    (|data| >= 12 && data[..12] == [1, 0, 0, 0, 0, 0, 0, 0, 0, 0, 0, 0] && codec.deserialize(data[12..]) == Ok(dv))
  }

  lemma RoaringAccepted(codec: Codec, data: bytes, dv: Bitmap)
    ensures DecodeRoaring64(codec, data) == Ok(dv) <==> Holds(codec, data, dv)
    ensures DecodeRoaring64(codec, data).Err? ==> DecodeRoaring64(codec, data).error == Corruption
  {
    hide ToLe, FromLe;
    if |data| >= 8 {
      EightBytes(data[..8]);
      if |data| >= 12 {
        FourBytes(data[8..12]);
        assert data[..12] == data[..8] + data[8..12];
      }
    }
  }

  lemma EightBytes(s: bytes)
    requires |s| == 8
    ensures FromLe(s) == 0 <==> s == [0, 0, 0, 0, 0, 0, 0, 0]
    ensures FromLe(s) == 1 <==> s == [1, 0, 0, 0, 0, 0, 0, 0]
  {
    LeInverse(s);
    Zeros();
  }

  lemma FourBytes(s: bytes)
    requires |s| == 4
    ensures FromLe(s) == 0 <==> s == [0, 0, 0, 0]
  {
    LeInverse(s);
    Zeros();
  }

  lemma {:induction false} ZeroLe(w: nat)
    ensures forall i :: 0 <= i < w ==> ToLe(0, w)[i] == 0
  {
    if w > 0 { ZeroLe(w - 1); }
  }

  lemma Zeros()
    ensures ToLe(0, 4) == [0, 0, 0, 0] && FromLe([0, 0, 0, 0]) == 0
    ensures ToLe(0, 8) == [0, 0, 0, 0, 0, 0, 0, 0] && FromLe([0, 0, 0, 0, 0, 0, 0, 0]) == 0
    ensures ToLe(1, 8) == [1, 0, 0, 0, 0, 0, 0, 0] && FromLe([1, 0, 0, 0, 0, 0, 0, 0]) == 1
  {
    assert ToLe(1, 8) == [1] + ToLe(0, 7);
    hide ToLe, FromLe;
    ZeroLe(4);
    ZeroLe(7);
    ZeroLe(8);
    Pow256Values();
    LeRoundTrip(0, 4);
    LeRoundTrip(0, 8);
    LeRoundTrip(1, 8);
  }

  /** A blob is accepted as `dv` if and only if its length field counts the rest,
      its magic and checksum are right and the data between holds `dv`. */
  lemma AcceptedIff(codec: Codec, blob: bytes, dv: Bitmap)
    ensures DecodeBlob(codec, blob) == Ok(dv) <==>
            |blob| >= 12 && FromBe(blob[..4]) == |blob| - 4 && blob[4..8] == [0xD1, 0xD3, 0x39, 0x64] &&
            FromBe(blob[|blob| - 4..]) == codec.crc(blob[4..|blob| - 4]) && Holds(codec, blob[8..|blob| - 4], dv)
    ensures DecodeBlob(codec, blob).Err? ==> DecodeBlob(codec, blob).error == Corruption
  {
    hide FromBe, DecodeRoaring64, Holds;
    if |blob| >= 12 { RoaringAccepted(codec, blob[8..|blob| - 4], dv); }
  }
}
