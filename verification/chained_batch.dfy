/**
  `ChainedBatch`, the JavaScript wrapper around a native write batch:
  argument checks for `put`, `del` and `merge`, string-to-Buffer conversion,
  the option defaults of `toArray`, and the stride-4 decoding of its
  iterator.
 */
module ChainedBatch {
  import opened Wrappers
  import opened Bytes
  import opened Batch
  import opened Js

  /** The `code` of the `ModuleError` thrown. */
  datatype ErrorCode = InvalidKey | InvalidValue

  /** The options object a write receives; `undefined` or `null` is replaced by `{}`. */
  datatype WriteOptions = WriteOptions(column: Option<nat>)

  /** The native call a successful `_put`, `_del` or `_merge` makes. */
  datatype NativeCall =
    | PutCall(key: JsValue, value: JsValue, options: WriteOptions)
    | DelCall(key: JsValue, options: WriteOptions)
    | MergeCall(key: JsValue, value: JsValue, options: WriteOptions)

  /** UTF-8 bytes of one Unicode scalar value. */
  function CharUtf8(c: char): (r: Bytes)
    ensures 1 <= |r| <= 4
    ensures (c as int < 0x80) <==> |r| == 1
  {
    var n := c as int;
    if n < 0x80 then [n]
    else if n < 0x800 then [0xC0 + n / 64, 0x80 + n % 64]
    else if n < 0x10000 then [0xE0 + n / 4096, 0x80 + (n / 64) % 64, 0x80 + n % 64]
    else [0xF0 + n / 262144, 0x80 + (n / 4096) % 64, 0x80 + (n / 64) % 64, 0x80 + n % 64]
  }

  /** `Buffer.from(s)`: the UTF-8 encoding of the string. */
  function Utf8(s: string): (r: Bytes)
    ensures |s| <= |r| <= 4 * |s|
  {
    if s == [] then [] else CharUtf8(s[0]) + Utf8(s[1..])
  }

  /** A string of ASCII characters becomes the buffer of its character codes. */
  lemma {:induction false} Utf8Ascii(s: string)
    requires forall i :: 0 <= i < |s| ==> s[i] as int < 0x80
    ensures |Utf8(s)| == |s|
    ensures forall i :: 0 <= i < |s| ==> Utf8(s)[i] == s[i] as int
  {
    if s != [] {
      Utf8Ascii(s[1..]);
      assert Utf8(s) == [s[0] as int] + Utf8(s[1..]);
    }
  }

  /** `typeof v === 'string' ? Buffer.from(v) : v`. */
  function ToBuffer(v: JsValue): (r: JsValue)
    ensures v.Str? ==> r == Buffer(Utf8(v.s))
    ensures !v.Str? ==> r == v
  {
    if v.Str? then Buffer(Utf8(v.s)) else v
  }

  /** `options ?? EMPTY`. */
  function OrEmpty(options: Option<WriteOptions>): WriteOptions {
    options.GetOr(WriteOptions(None))
  }

  /** `_put`: the key is checked first, then the value, before any native call. */
  function Put(key: JsValue, value: JsValue, options: Option<WriteOptions>): (r: Result<NativeCall, ErrorCode>)
    ensures r == Err(InvalidKey) <==> Nullish(key)
    ensures r == Err(InvalidValue) <==> !Nullish(key) && Nullish(value)
    ensures r.Ok? ==> r.value == PutCall(ToBuffer(key), ToBuffer(value), OrEmpty(options))
  {
    if Nullish(key) then Err(InvalidKey)
    else if Nullish(value) then Err(InvalidValue)
    else Ok(PutCall(ToBuffer(key), ToBuffer(value), OrEmpty(options)))
  }

  /** `_del`: only the key is checked. */
  function Del(key: JsValue, options: Option<WriteOptions>): (r: Result<NativeCall, ErrorCode>)
    ensures r.Err? <==> Nullish(key)
    ensures r.Err? ==> r.error == InvalidKey
    ensures r.Ok? ==> r.value == DelCall(ToBuffer(key), OrEmpty(options))
  {
    if Nullish(key) then Err(InvalidKey)
    else Ok(DelCall(ToBuffer(key), OrEmpty(options)))
  }

  /** `_merge`: the same checks as `_put`. */
  function Merge(key: JsValue, value: JsValue, options: Option<WriteOptions>): (r: Result<NativeCall, ErrorCode>)
    ensures r == Err(InvalidKey) <==> Nullish(key)
    ensures r == Err(InvalidValue) <==> !Nullish(key) && Nullish(value)
    ensures r.Ok? ==> r.value == MergeCall(ToBuffer(key), ToBuffer(value), OrEmpty(options))
  {
    if Nullish(key) then Err(InvalidKey)
    else if Nullish(value) then Err(InvalidValue)
    else Ok(MergeCall(ToBuffer(key), ToBuffer(value), OrEmpty(options)))
  }

  /** A string or a Buffer reaches the native side as bytes; the conversion of anything else is not modelled. */
  function NativeBytes(v: JsValue): Option<Bytes> {
    match v
    case Str(s) => Some(Utf8(s))
    case Buffer(b) => Some(b)
    case _ => None
  }

  /** The native call applied to the batch, when its arguments are buffers. */
  function Apply(b: WriteBatch, call: NativeCall): Option<WriteBatch> {
    match call
    case PutCall(k, v, o) =>
      if k.Buffer? && v.Buffer? then Some(Batch.Put(b, k.bytes, v.bytes, o.column)) else None
    case DelCall(k, o) =>
      if k.Buffer? then Some(Batch.Delete(b, k.bytes, o.column)) else None
    case MergeCall(k, v, o) =>
      if k.Buffer? && v.Buffer? then Some(Batch.Merge(b, k.bytes, v.bytes, o.column)) else None
  }

  /**
    A `put` of a string or Buffer key and value appends one put record with
    their bytes to the native batch, in the option's column family, and adds
    one to `length`; `del` and `merge` likewise.
   */
  lemma WritesAppend(b: WriteBatch, key: JsValue, value: JsValue, options: Option<WriteOptions>)
    requires NativeBytes(key).Some? && NativeBytes(value).Some?
    ensures var col := ColumnOf(OrEmpty(options).column);
            var k := NativeBytes(key).value;
            var v := NativeBytes(value).value;
            && Apply(b, Put(key, value, options).value) == Some(b + [PutRecord(col, k, v)])
            && Apply(b, Del(key, options).value) == Some(b + [DeleteRecord(col, k)])
            && Apply(b, Merge(key, value, options).value) == Some(b + [MergeRecord(col, k, v)])
            && Count(b + [PutRecord(col, k, v)]) == Count(b) + 1
  {
    CountWrites(b, NativeBytes(key).value, NativeBytes(value).value, OrEmpty(options).column);
  }

  // ---------------------------------------------------------------- toArray and the iterator

  /** The options a caller passes to `toArray`; a missing property is `None`. */
  datatype ArrayOptions = ArrayOptions(keys: Option<bool>, values: Option<bool>, data: Option<bool>, column: Option<nat>)

  /** `{ keys: true, values: true, data: true, ...options }`, with `undefined` spreading nothing. */
  function ToArrayOptions(options: Option<ArrayOptions>): (r: IterateOptions)
    ensures options.None? ==> r == IterateDefaults
    ensures options.Some? ==>
              && r.keys == options.value.keys.GetOr(true)
              && r.values == options.value.values.GetOr(true)
              && r.data == options.value.data.GetOr(true)
              && r.column == options.value.column
  {
    var o := options.GetOr(ArrayOptions(None, None, None, None));
    IterateOptions(o.keys.GetOr(true), o.values.GetOr(true), o.data.GetOr(true), o.column)
  }

  function ToArray(b: WriteBatch, options: Option<ArrayOptions>): seq<Cell> {
    Iterate(b, ToArrayOptions(options))
  }

  /**
    `toArray()` without options is `batch_iterate` with every field and no
    column filter; turning `keys` off empties every key slot, and turning
    `values` off empties the value slot of every entry except log blobs,
    whose data `LogData` always captures.
   */
  lemma {:induction false} ToArrayFields(b: WriteBatch, o: ArrayOptions)
    ensures ToArray(b, None) == Iterate(b, IterateDefaults)
    ensures var rows := ToArray(b, Some(o));
            && (o.keys == Some(false) ==> forall n :: 0 <= n < |rows| / 4 ==> rows[4 * n + 1] == Absent)
            && (o.values == Some(false) ==>
                  forall n :: 0 <= n < |rows| / 4 ==> rows[4 * n] != Name("data") ==> rows[4 * n + 2] == Absent)
  {
    var io := ToArrayOptions(Some(o));
    var es := Collect(b, io);
    var rows := ToArray(b, Some(o));
    CollectEntries(b, io);
    var ks := KeptRecords(b, io);
    assert |rows| == 4 * |es| && |rows| / 4 == |es|;
    forall n | 0 <= n < |es|
      ensures rows[4 * n] == Name(OpName(es[n].op))
      ensures o.keys == Some(false) ==> rows[4 * n + 1] == Absent
      ensures o.values == Some(false) && es[n].op != DataOp ==> rows[4 * n + 2] == Absent
    {
      var cells := rows[4 * n .. 4 * n + 4];
      assert cells == EntryCells(es[n]);
      assert rows[4 * n] == cells[0] && rows[4 * n + 1] == cells[1] && rows[4 * n + 2] == cells[2];
      DescribedCells(es[n], ks[n], io);
    }
  }

  /** The key and value slots of an entry whose fields the options turned off. */
  lemma DescribedCells(e: BatchEntry, r: Record, o: IterateOptions)
    requires Describes(e, r, o)
    ensures !o.keys ==> EntryCells(e)[1] == Absent
    ensures !o.values && e.op != DataOp ==> EntryCells(e)[2] == Absent
  {
  }

  /** One item the iterator yields; a slot past the end of the array reads as `None`. */
  datatype Item = Item(kind: Option<Cell>, key: Option<Cell>, value: Option<Cell>)

  function At(rows: seq<Cell>, n: nat): Option<Cell> {
    if n < |rows| then Some(rows[n]) else None
  }

  /** `for (let n = 0; n < rows.length; n += 4) yield { type: rows[n], key: rows[n + 1], value: rows[n + 2] }`. */
  function Items(rows: seq<Cell>): (r: seq<Item>)
    ensures |r| == (|rows| + 3) / 4
    decreases |rows|
  {
    if rows == [] then []
    else
      var rest := if |rows| <= 4 then [] else rows[4..];
      [Item(At(rows, 0), At(rows, 1), At(rows, 2))] + Items(rest)
  }

  /** The item an entry's four slots decode to: its operation, key and value, without the column slot. */
  function ItemOf(e: BatchEntry): Item {
    Item(Some(Name(OpName(e.op))), Some(FieldCell(e.key)), Some(FieldCell(e.val)))
  }

  /** Decoding the flattened entries yields one item per entry, in order. */
  lemma {:induction false} ItemsFlatten(es: seq<BatchEntry>)
    ensures |Items(Flatten(es))| == |es|
    ensures forall n :: 0 <= n < |es| ==> Items(Flatten(es))[n] == ItemOf(es[n])
    decreases |es|
  {
    if es != [] {
      var rows := Flatten(es);
      assert rows[0..4] == EntryCells(es[0]);
      assert rows == EntryCells(es[0]) + Flatten(es[1..]);
      assert Items(rows) == [ItemOf(es[0])] + Items(Flatten(es[1..]));
      ItemsFlatten(es[1..]);
    }
  }

  /**
    Iterating a chained batch yields `toArray().length / 4` items, one per
    cached entry in batch order; with the default options a single-column
    batch is recovered record for record.
   */
  lemma IterateBatch(b: WriteBatch, options: Option<ArrayOptions>)
    ensures var rows := ToArray(b, options);
            var es := Collect(b, ToArrayOptions(options));
            && |Items(rows)| == |rows| / 4 == |es|
            && forall n :: 0 <= n < |es| ==> Items(rows)[n] == ItemOf(es[n])
  {
    ItemsFlatten(Collect(b, ToArrayOptions(options)));
  }

  /** The operation a type string names. */
  function OpOfName(text: string): (r: Option<Op>)
    ensures r.Some? ==> OpName(r.value) == text
  {
    if text == "put" then Some(PutOp)
    else if text == "del" then Some(DeleteOp)
    else if text == "merge" then Some(MergeOp)
    else if text == "data" then Some(DataOp)
    else None
  }

  /** A yielded `key` or `value`: the bytes of a buffer, nothing otherwise. */
  function Field(c: Option<Cell>): Option<Bytes> {
    if c.Some? && c.value.Buf? then Some(c.value.bytes) else None
  }

  /** The record a yielded item describes, in column family `cf`. */
  function ItemRecord(it: Item, cf: nat): Option<Record> {
    if it.kind.Some? && it.kind.value.Name? && OpOfName(it.kind.value.text).Some? then
      Some(Restore(BatchEntry(OpOfName(it.kind.value.text).value, Field(it.key), Field(it.value)), cf))
    else None
  }

  lemma ItemRecordOf(e: BatchEntry, cf: nat)
    ensures ItemRecord(ItemOf(e), cf) == Some(Restore(e, cf))
  {
    assert OpOfName(OpName(e.op)) == Some(e.op);
  }

  /**
    Iterating a batch with the default `toArray` options yields one item per
    record, and reading each item back gives the record, in batch order,
    when every update is in one column family.
   */
  lemma IterateRecovers(b: WriteBatch, cf: nat)
    requires InColumn(b, cf)
    ensures |Items(ToArray(b, None))| == |b|
    ensures forall n :: 0 <= n < |b| ==> ItemRecord(Items(ToArray(b, None))[n], cf) == Some(b[n])
  {
    var es := Collect(b, IterateDefaults);
    var items := Items(ToArray(b, None));
    IterateBatch(b, None);
    RestoreCollect(b, cf);
    assert |es| == |b|;
    forall n | 0 <= n < |b|
      ensures ItemRecord(items[n], cf) == Some(b[n])
    {
      assert items[n] == ItemOf(es[n]);
      ItemRecordOf(es[n], cf);
      assert RestoreAll(es, cf)[n] == Restore(es[n], cf);
    }
  }

  // ---------------------------------------------------------------- _write

  /** What the callback receives on the next tick. */
  datatype Callback<E> = Callback(error: Option<E>)

  /**
    `_write`: the native write's failure is caught and handed to the callback;
    the call itself never throws.
   */
  function Write<E>(native: Outcome<E>): (r: Callback<E>)
    ensures r.error.Some? <==> native.Fail?
    ensures native.Fail? ==> r.error.value == native.error
  {
    match native
    case Pass => Callback(None)
    case Fail(e) => Callback(Some(e))
  }
}
