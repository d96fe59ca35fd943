/**
  The native write batch and `BatchIterator`, which flattens a batch into the
  stride-4 array `batch_iterate` returns: `[op, key, value, null]` per entry.

  The engine's `WriteBatch` is an ordered log of records, each tagged with
  its column family; `batch_put`, `batch_del` and `batch_merge` append to it
  and `batch_clear` empties it.
 */
module Batch {
  import opened Wrappers
  import opened Bytes

  /** The id of the default column family, used when no `column` option is given. */
  const DefaultColumn: nat := 0

  /** One record of the engine's write batch. */
  datatype Record =
    | PutRecord(cf: nat, key: Bytes, value: Bytes)
    | DeleteRecord(cf: nat, key: Bytes)
    | MergeRecord(cf: nat, key: Bytes, value: Bytes)
    | LogDataRecord(blob: Bytes)

  type WriteBatch = seq<Record>

  /** The column family a write goes to: the option's, or the default one for `nullptr`. */
  function ColumnOf(column: Option<nat>): nat {
    column.GetOr(DefaultColumn)
  }

  /** `batch_put`. */
  function Put(b: WriteBatch, key: Bytes, value: Bytes, column: Option<nat>): WriteBatch {
    b + [PutRecord(ColumnOf(column), key, value)]
  }

  /** `batch_del`. */
  function Delete(b: WriteBatch, key: Bytes, column: Option<nat>): WriteBatch {
    b + [DeleteRecord(ColumnOf(column), key)]
  }

  /** `batch_merge`. */
  function Merge(b: WriteBatch, key: Bytes, value: Bytes, column: Option<nat>): WriteBatch {
    b + [MergeRecord(ColumnOf(column), key, value)]
  }

  /** `WriteBatch::Count`, what `batch_count` returns: the updates, not the log blobs. */
  function Count(b: WriteBatch): nat {
    if b == [] then 0
    else Count(b[..|b| - 1]) + (if b[|b| - 1].LogDataRecord? then 0 else 1)
  }

  /** Each of `batch_put`, `batch_del` and `batch_merge` adds exactly one to `batch_count`. */
  lemma CountWrites(b: WriteBatch, key: Bytes, value: Bytes, column: Option<nat>)
    ensures Count(Put(b, key, value, column)) == Count(b) + 1
    ensures Count(Delete(b, key, column)) == Count(b) + 1
    ensures Count(Merge(b, key, value, column)) == Count(b) + 1
  {
    assert Put(b, key, value, column)[..|b|] == b;
    assert Delete(b, key, column)[..|b|] == b;
    assert Merge(b, key, value, column)[..|b|] == b;
  }

  // ---------------------------------------------------------------- BatchIterator

  datatype Op = PutOp | DeleteOp | MergeOp | DataOp

  /** `BatchEntry`: the operation and whichever of key and value were captured. */
  datatype BatchEntry = BatchEntry(op: Op, key: Option<Bytes>, val: Option<Bytes>)

  /** The options of `batch_iterate`; a missing `column` means every column family. */
  datatype IterateOptions = IterateOptions(keys: bool, values: bool, data: bool, column: Option<nat>)

  /** What `batch_iterate` uses when an option is not given. */
  const IterateDefaults := IterateOptions(true, true, true, None)

  /** The record passes the handler's filter: its column family for updates, the `data` flag for blobs. */
  predicate Kept(r: Record, o: IterateOptions) {
    if r.LogDataRecord? then o.data else o.column.None? || o.column.value == r.cf
  }

  /**
    The handler callbacks `PutCF`, `DeleteCF`, `MergeCF` and `LogData`: the
    entry a record adds to the cache, if any.
   */
  function Handle(r: Record, o: IterateOptions): (e: Option<BatchEntry>)
    ensures e.Some? <==> Kept(r, o)
    ensures e.Some? ==> Describes(e.value, r, o)
  {
    match r
    case PutRecord(cf, key, value) =>
      if o.column.Some? && o.column.value != cf then None
      else Some(BatchEntry(PutOp, if o.keys then Some(key) else None, if o.values then Some(value) else None))
    case DeleteRecord(cf, key) =>
      if o.column.Some? && o.column.value != cf then None
      else Some(BatchEntry(DeleteOp, if o.keys then Some(key) else None, None))
    case MergeRecord(cf, key, value) =>
      if o.column.Some? && o.column.value != cf then None
      else Some(BatchEntry(MergeOp, if o.keys then Some(key) else None, if o.values then Some(value) else None))
    case LogDataRecord(blob) =>
      if !o.data then None else Some(BatchEntry(DataOp, None, Some(blob)))
  }

  /** `batch.Iterate(this)`: the cache the handler fills, in batch order. */
  function Collect(b: WriteBatch, o: IterateOptions): (r: seq<BatchEntry>)
    ensures |r| <= |b|
  {
    if b == [] then []
    else
      var e := Handle(b[|b| - 1], o);
      Collect(b[..|b| - 1], o) + (if e.Some? then [e.value] else [])
  }

  /** One slot of the flattened array. */
  datatype Cell =
    | Name(text: string) // "put", "del", "merge" or "data"
    | Buf(bytes: Bytes)
    | Absent            // an entry without that field
    | Null              // the column slot, always null

  function OpName(op: Op): string {
    match op
    case PutOp => "put"
    case DeleteOp => "del"
    case MergeOp => "merge"
    case DataOp => "data"
  }

  function FieldCell(f: Option<Bytes>): Cell {
    if f.Some? then Buf(f.value) else Absent
  }

  /** The four slots `n * 4 + 0 .. 3` of entry `n`. */
  function EntryCells(e: BatchEntry): seq<Cell> {
    [Name(OpName(e.op)), FieldCell(e.key), FieldCell(e.val), Null]
  }

  /** The array `Iterate` fills: `4 * n` slots for `n` cached entries. */
  function Flatten(es: seq<BatchEntry>): (r: seq<Cell>)
    ensures |r| == 4 * |es|
    ensures forall n :: 0 <= n < |es| ==> r[4 * n..4 * n + 4] == EntryCells(es[n])
  {
    if es == [] then []
    else
      var rest := Flatten(es[1..]);
      var r := EntryCells(es[0]) + rest;
      assert forall n :: 1 <= n < |es| ==> r[4 * n..4 * n + 4] == rest[4 * (n - 1)..4 * (n - 1) + 4];
      r
  }

  /** `batch_iterate`. */
  function Iterate(b: WriteBatch, o: IterateOptions): (r: seq<Cell>)
    ensures |r| % 4 == 0 && |r| <= 4 * |b|
  {
    Flatten(Collect(b, o))
  }

  // ---------------------------------------------------------------- what the flattening keeps

  /** The records the handler keeps, in batch order. */
  function KeptRecords(b: WriteBatch, o: IterateOptions): (r: WriteBatch)
    ensures |r| <= |b|
  {
    if b == [] then []
    else KeptRecords(b[..|b| - 1], o) + (if Kept(b[|b| - 1], o) then [b[|b| - 1]] else [])
  }

  /** The kept records are exactly the records of the batch that pass the filter. */
  lemma {:induction false} KeptRecordsMembers(b: WriteBatch, o: IterateOptions)
    ensures forall x :: x in KeptRecords(b, o) <==> x in b && Kept(x, o)
    decreases |b|
  {
    if b != [] {
      var init := b[..|b| - 1];
      KeptRecordsMembers(init, o);
      assert b == init + [b[|b| - 1]];
    }
  }

  /**
    The cache holds one entry per kept record, in batch order, with the
    record's operation; its key exactly when `keys` is on (never for a blob);
    its value exactly when `values` is on and the record is a put or merge,
    and always the blob of a log record.
   */
  lemma {:induction false} CollectEntries(b: WriteBatch, o: IterateOptions)
    ensures var es := Collect(b, o);
            var ks := KeptRecords(b, o);
            && |es| == |ks|
            && forall n :: 0 <= n < |es| ==> Describes(es[n], ks[n], o)
    decreases |b|
  {
    if b != [] {
      CollectEntries(b[..|b| - 1], o);
    }
  }

  /** `e` is the entry the handler makes for `r` under `o`. */
  predicate Describes(e: BatchEntry, r: Record, o: IterateOptions) {
    && e.op == (match r case PutRecord(_, _, _) => PutOp case DeleteRecord(_, _) => DeleteOp
                        case MergeRecord(_, _, _) => MergeOp case LogDataRecord(_) => DataOp)
    && (if r.LogDataRecord? then e.key.None? else e.key == (if o.keys then Some(r.key) else None))
    && e.val == (match r
                 case PutRecord(_, _, v) => if o.values then Some(v) else None
                 case MergeRecord(_, _, v) => if o.values then Some(v) else None
                 case DeleteRecord(_, _) => None
                 case LogDataRecord(blob) => Some(blob))
  }

  /**
    With no column filter the array has one group per record, except that
    log blobs are dropped when `data` is off; for a batch built only by
    `batch_put`, `batch_del` and `batch_merge` that is `batch_count` groups.
   */
  lemma {:induction false} IterateLength(b: WriteBatch, o: IterateOptions)
    requires o.column.None?
    ensures o.data ==> |Iterate(b, o)| == 4 * |b|
    ensures !o.data ==> |Iterate(b, o)| == 4 * Count(b)
    decreases |b|
  {
    if b != [] {
      IterateLength(b[..|b| - 1], o);
    }
  }

  /** The record a full entry stands for, in column family `cf`. */
  function Restore(e: BatchEntry, cf: nat): Record {
    match e.op
    case PutOp => PutRecord(cf, e.key.GetOr([]), e.val.GetOr([]))
    case DeleteOp => DeleteRecord(cf, e.key.GetOr([]))
    case MergeOp => MergeRecord(cf, e.key.GetOr([]), e.val.GetOr([]))
    case DataOp => LogDataRecord(e.val.GetOr([]))
  }

  function RestoreAll(es: seq<BatchEntry>, cf: nat): (r: WriteBatch)
    ensures |r| == |es|
    ensures forall n :: 0 <= n < |es| ==> r[n] == Restore(es[n], cf)
  {
    if es == [] then [] else [Restore(es[0], cf)] + RestoreAll(es[1..], cf)
  }

  /** Every update of `b` is in column family `cf`. */
  predicate InColumn(b: WriteBatch, cf: nat) {
    forall n :: 0 <= n < |b| && !b[n].LogDataRecord? ==> b[n].cf == cf
  }

  /**
    With the default options the flattening loses nothing but the column
    family: the entries of a single-column batch give back the batch itself.
   */
  lemma RestoreCollect(b: WriteBatch, cf: nat)
    requires InColumn(b, cf)
    ensures RestoreAll(Collect(b, IterateDefaults), cf) == b
  {
    CollectEntries(b, IterateDefaults);
    KeptAll(b, IterateDefaults);
  }

  lemma {:induction false} KeptAll(b: WriteBatch, o: IterateOptions)
    requires forall n :: 0 <= n < |b| ==> Kept(b[n], o)
    ensures KeptRecords(b, o) == b
    decreases |b|
  {
    if b != [] {
      var init := b[..|b| - 1];
      KeptAll(init, o);
      assert init + [b[|b| - 1]] == b;
    }
  }
}
