/** The page index's file format, byte by byte (`parquet/kv_index.rs`): a 24-byte
    header, front-coded entries, and the offsets of the restart points. */
module KvIndexLayout {
  import opened ByteStrings
  import opened Arithmetic
  import opened KvIndex

  /** Version 1, the number of entries, the interval, the size of the entries and
      the number of restart points, one for every `interval` entries begun. */
  lemma HeaderLayout(es: seq<Entry>, interval: nat)
    requires 0 < interval < U32 && Representable(es, interval)
    ensures
      var buf := Encoded(es, interval);
      |buf| >= 24 && buf[..4] == [1, 0, 0, 0] && U32At(buf, 4) == |es| && U32At(buf, 8) == interval &&
      U32At(buf, 12) == Offset(es, interval, |es|) && U32At(buf, 16) == CeilDiv(|es|, interval) &&
      buf[20..24] == [0, 0, 0, 0] &&
      |buf| == 24 + Offset(es, interval, |es|) + 4 * CeilDiv(|es|, interval)
  {
    hide U32At, EntriesBytes, Restarts, RestartTable, CeilDiv;
    HeaderReads(es, interval);
    CountsFit(es, interval, |es|);
    RestartsAre(es, interval, |es|);
    ZeroWord();
    hide ToLe;
    var buf, size, count := Encoded(es, interval), Offset(es, interval, |es|), |Restarts(es, interval, |es|)|;
    var h := Header(|es|, interval, size, count);
    assert buf[..24] == h;
    assert h[..4] == [1, 0, 0, 0] && h[20..24] == ToLe(0, 4);
    assert buf[..4] == buf[..24][..4] && buf[20..24] == buf[..24][20..24];
  }

  lemma ZeroWord()
    ensures ToLe(0, 4) == [0, 0, 0, 0]
  {
    assert ToLe(0, 2) == [0, 0];
    assert ToLe(0, 4) == [0, 0] + ToLe(0, 2);
  }

  /** Restart point `k` is the offset of entry `k * interval`. */
  lemma RestartLayout(es: seq<Entry>, interval: nat, k: nat)
    requires 0 < interval < U32 && Representable(es, interval) && k < CeilDiv(|es|, interval)
    ensures
      var buf, at := Encoded(es, interval), 24 + Offset(es, interval, |es|) + 4 * k;
      at + 4 <= |buf| && k * interval < |es| && U32At(buf, at) == Offset(es, interval, k * interval)
  {
    hide U32At, EntriesBytes, Restarts, CeilDiv, Encoded, Multiple;
    CountsFit(es, interval, |es|);
    RestartsAre(es, interval, |es|);
    MultipleIsProduct(k, interval);
    OffsetsRise(es, interval, k * interval, |es|);
    TableReads(es, interval, k);
  }

  lemma {:induction false} OffsetsRise(es: seq<Entry>, interval: nat, i: nat, n: nat)
    requires interval > 0 && i <= n <= |es|
    ensures Offset(es, interval, i) <= Offset(es, interval, n)
    decreases n
  {
    hide Offset;
    if i < n {
      OffsetsRise(es, interval, i, n - 1);
      OffsetGrows(es, interval, n - 1);
    }
  }

  /** `n` is the length of the longest common prefix. */
  predicate Longest(a: bytes, b: bytes, n: nat) {
    n <= |a| && n <= |b| && a[..n] == b[..n] && (n < |a| && n < |b| ==> a[n] != b[n])
  }

  lemma {:induction false} SharedIsLongest(a: bytes, b: bytes)
    ensures Longest(a, b, SharedLen(a, b))
  {
    if a != [] && b != [] && a[0] == b[0] {
      SharedIsLongest(a[1..], b[1..]);
    }
  }

  /** The entry from `at` up to `end`: how much it shares with its predecessor, the
      length of the rest, the rest, and the page's offset, size and first row. */
  predicate EntryAt(buf: bytes, at: nat, end: nat, shared: nat, e: Entry) {
    shared <= |e.key| && end == at + 24 + |e.key| - shared <= |buf| &&
    U16At(buf, at) == shared && U16At(buf, at + 2) == |e.key| - shared && buf[at + 4..end - 20] == e.key[shared..] &&
    U64At(buf, end - 20) == e.loc.pageOffset && U32At(buf, end - 12) == e.loc.pageSize &&
    U64At(buf, end - 8) == e.loc.firstRow
  }

  /** Entries follow one another, and each shares nothing with its predecessor at a
      restart point and otherwise all it can. */
  lemma EntryLayout(es: seq<Entry>, interval: nat, i: nat) returns (shared: nat)
    requires 0 < interval < U32 && Buildable(es) && i < |es| < U32
    ensures EntryAt(Encoded(es, interval), 24 + Offset(es, interval, i), 24 + Offset(es, interval, i + 1), shared,
                    es[i])
    ensures i % interval == 0 ==> shared == 0
    ensures i % interval != 0 ==> i > 0 && Longest(es[i - 1].key, es[i].key, shared)
  {
    hide Encoded, SharedAt, Offset, EntryAt;
    shared := SharedAt(es, interval, i);
    EntryPlaced(es, interval, i);
    SharedRule(es, interval, i);
  }

  lemma EntryPlaced(es: seq<Entry>, interval: nat, i: nat)
    requires interval > 0 && Buildable(es) && i < |es|
    ensures EntryAt(Encoded(es, interval), 24 + Offset(es, interval, i), 24 + Offset(es, interval, i + 1),
                    SharedAt(es, interval, i), es[i])
  {
    hide Encoded, U16At, U32At, U64At, EntriesBytes, EntryBytes, SharedAt;
    EntryInside(es, interval, i);
    EntryReads(Encoded(es, interval), HEADER + Offset(es, interval, i), SharedAt(es, interval, i), es[i]);
    BuiltLoc(es, interval, i);
  }

  lemma SharedRule(es: seq<Entry>, interval: nat, i: nat)
    requires interval > 0 && i < |es| < U32
    ensures i % interval == 0 ==> SharedAt(es, interval, i) == 0
    ensures i % interval != 0 ==> i > 0 && Longest(es[i - 1].key, es[i].key, SharedAt(es, interval, i))
  {
    hide SharedLen, Longest;
    assert i % U32 == i;
    if i > 0 { SharedIsLongest(es[i - 1].key, es[i].key); }
  }
}
