/** Rows, versions of rows, and the parameters fixed for one table. */
module Table {
  import opened Wrappers
  import opened ByteStrings
  import opened Keys

  datatype Row = Row(fields: seq<Option<FieldValue>>)

  /** A stored version of a row: its internal key and a payload. */
  datatype Stored<+T> = Stored(key: InternalKey, val: T)

  /** Data files store rows. */
  type Rec = Stored<Row>

  /** A data file's path: its directory and the name without `.parquet`. */
  datatype DataPath = DataPath(dir: string, stem: string)

  /** What does not change over the life of a table: the primary-key column
      types and the hash of the bloom filters, of which nothing is assumed. */
  datatype Env = Env(keyTypes: seq<ColumnType>, hash: bytes -> u64)

  ghost predicate ValidKey(env: Env, k: InternalKey) {
    IsUserKey(k.uk, env.keyTypes) && k.seqno <= SEQNUM_MAX
  }

  ghost predicate AllValid<T>(env: Env, rows: seq<Stored<T>>) {
    forall i :: 0 <= i < |rows| ==> ValidKey(env, rows[i].key)
  }

  /** Sorted by user key, newest version first, as the stored bytes are. */
  ghost predicate Sorted<T>(rows: seq<Stored<T>>) {
    forall i, j :: 0 <= i < j < |rows| ==> VersionLess(rows[i].key, rows[j].key)
  }

  lemma SortedUserKeys<T>(rows: seq<Stored<T>>, i: nat, j: nat)
    requires Sorted(rows) && i <= j < |rows|
    ensures AtMost(rows[i].key.uk, rows[j].key.uk)
  {
    LessIrreflexive(rows[i].key.uk);
    AtMostLess(rows[i].key.uk, rows[j].key.uk);
    if i < j { assert VersionLess(rows[i].key, rows[j].key); }
  }

  /** Versions of one user key are adjacent. */
  lemma SortedContiguous<T>(rows: seq<Stored<T>>, i: nat, j: nat, k: nat)
    requires Sorted(rows) && i <= j <= k < |rows| && rows[i].key.uk == rows[k].key.uk
    ensures rows[j].key.uk == rows[i].key.uk
  {
    SortedUserKeys(rows, i, j);
    SortedUserKeys(rows, j, k);
    AtMostLess(rows[i].key.uk, rows[j].key.uk);
  }

  /** Being sorted in this sense is being sorted by encoded key. */
  lemma SortedIsByteOrder<T>(env: Env, rows: seq<Stored<T>>)
    requires AllValid(env, rows)
    ensures Sorted(rows) <==>
            forall i, j :: 0 <= i < j < |rows| ==>
              ValidKey(env, rows[i].key) && ValidKey(env, rows[j].key) &&
              Less(EncodeIkey(rows[i].key), EncodeIkey(rows[j].key))
  {
    forall i, j | 0 <= i < j < |rows|
      ensures VersionLess(rows[i].key, rows[j].key) <==> Less(EncodeIkey(rows[i].key), EncodeIkey(rows[j].key))
    {
      InternalKeyOrder(rows[i].key, rows[j].key, env.keyTypes);
    }
  }
}
