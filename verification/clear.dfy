/**
  `db_clear`: deleting the keys of one column family inside a range.

  With `limit` equal to -1 the native side issues one range delete over
  `[begin, end)`. With any other limit it walks a `BaseIterator` over a
  snapshot and deletes the keys it visits, in chunks of about 16 KiB of key
  bytes, each chunk written as one batch.
 */
module Clear {
  import opened Wrappers
  import opened Bytes
  import opened Bounds
  import opened Engine
  import opened Cursor

  /** The options `db_clear` reads. */
  datatype ClearOptions = ClearOptions(range: RangeOptions, reverse: bool, limit: int)

  /** A chunk ends once more than this many key bytes have been read. */
  const ChunkBytes: nat := 16 * 1024

  /**
    The range path: a range delete over the span, issued only when its begin
    sorts strictly below its end. It removes exactly the keys the options
    admit, except that without an upper option the keys starting with a
    million 0xFF bytes survive.
   */
  function ClearRange(t: Table, o: RangeOptions): (r: Table)
    ensures forall e :: e in r <==>
              e in t && !(Admits(o, e.key) && (o.lte.None? && o.lt.None? ==> !PastFill(e.key)))
  {
    var s := ClearSpan(o);
    assert forall k :: InSpan(s, k) <==>
             (Admits(o, k) && (o.lte.None? && o.lt.None? ==> !PastFill(k))) by {
      forall k ensures InSpan(s, k) <==>
          (Admits(o, k) && (o.lte.None? && o.lt.None? ==> !PastFill(k))) {
        ClearSpanMatchesOptions(o, k);
      }
    }
    if Less(s.begin, s.end) then DeleteSpan(t, s)
    else
      assert forall k :: !InSpan(s, k) by {
        forall k ensures !InSpan(s, k) {
          EmptySpan(s, k);
        }
      }
      t
  }

  /**
    The iterator of the limit path: a `BaseIterator` over the options' range
    with the caller's limit, positioned by `SeekToRange`. Only keys are read.
   */
  function Scan(t: Table, o: ClearOptions): (c: Cursor)
    ensures InPlace(c) && c.idx == 0 && c.count == 0 && c.view.limit == o.limit
    ensures forall e :: e in c.view.entries <==> e in t && Admits(o.range, e.key)
  {
    SeekToRange(Open(t, IteratorOptions(o.range, o.reverse, true, false, o.limit, 0)))
  }

  /** One chunk of the limit path: the cursor after it, the keys deleted, the key bytes read. */
  datatype Chunk = Chunk(cursor: Cursor, keys: seq<Bytes>, bytes: nat)

  /**
    The inner loop: while at most 16 KiB have been read, the iterator is valid
    and `Increment` lets the key through, delete the current key and step.
    A failing `Increment` still bumps the counter.
   */
  function Gather(c: Cursor, keys: seq<Bytes>, bytes: nat): (r: Chunk)
    requires InPlace(c)
    ensures InPlace(r.cursor) && SameConfig(c, r.cursor)
    ensures c.idx <= r.cursor.idx && |r.keys| == |keys| + (r.cursor.idx - c.idx)
    ensures r.bytes >= bytes && (r.bytes != bytes ==> r.cursor.idx > c.idx)
    ensures r.cursor.idx > c.idx && c.view.entries[c.idx].key != [] ==> r.bytes > bytes
    decreases |c.view.entries| - c.idx
  {
    if bytes <= ChunkBytes && Valid(c) then
      if Increment(c).0 then
        var k := c.view.entries[c.idx].key;
        Gather(Next(Increment(c).1), keys + [k], bytes + |k|)
      else Chunk(Increment(c).1, keys, bytes)
    else Chunk(c, keys, bytes)
  }

  /**
    The outer loop as written: gather a chunk, stop when it read no key bytes,
    otherwise write it and go on. A chunk holding only the empty key reads no
    bytes, so it is dropped unwritten.
   */
  function RoundsAsWritten(c: Cursor, written: seq<Bytes>): (r: seq<Bytes>)
    requires InPlace(c)
    ensures |written| <= |r| && r[..|written|] == written
    decreases |c.view.entries| - c.idx
  {
    var ch := Gather(c, [], 0);
    if ch.bytes == 0 then written
    else
      var r := RoundsAsWritten(ch.cursor, written + ch.keys);
      assert r[..|written|] == (r[..|written + ch.keys|])[..|written|];
      r
  }

  /** The outer loop stopping on a chunk that deleted no key, rather than one that read no bytes. */
  function Rounds(c: Cursor, written: seq<Bytes>): seq<Bytes>
    requires InPlace(c)
    decreases |c.view.entries| - c.idx
  {
    var ch := Gather(c, [], 0);
    if ch.keys == [] then written else Rounds(ch.cursor, written + ch.keys)
  }

  /** `db_clear` as written: the range path for -1, the iterator path for any other limit. */
  function ClearAsWritten(t: Table, o: ClearOptions): (r: Table)
    ensures forall e :: e in r ==> e in t
  {
    if o.limit == -1 then ClearRange(t, o.range)
    else DeleteKeys(t, RoundsAsWritten(Scan(t, o), []))
  }

  /** `db_clear` with every visited chunk written. */
  function Clear(t: Table, o: ClearOptions): (r: Table)
    ensures forall e :: e in r ==> e in t
  {
    if o.limit == -1 then ClearRange(t, o.range)
    else DeleteKeys(t, Rounds(Scan(t, o), []))
  }

  // ---------------------------------------------------------------- what the limit path deletes

  /** Where the iterator path stops: the end of the entries, or the limit when one is set. */
  function Quota(c: Cursor): (r: nat)
    ensures r <= |c.view.entries|
  {
    if c.view.limit < 0 then |c.view.entries| else Min(|c.view.entries|, c.view.limit)
  }

  /** The counter has admitted exactly the keys before the position, and no more than the limit. */
  predicate Counted(c: Cursor) {
    && InPlace(c)
    && (c.view.limit >= 0 ==> c.idx <= c.view.limit && Min(c.count, c.view.limit) == c.idx)
  }

  /** The keys of `s[a..b]`, front to back. */
  function KeysFrom(s: seq<Entry>, a: nat, b: nat): (r: seq<Bytes>)
    requires a <= b <= |s|
    ensures |r| == b - a
    decreases b - a
  {
    if a == b then [] else [s[a].key] + KeysFrom(s, a + 1, b)
  }

  lemma {:induction false} KeysFromJoin(s: seq<Entry>, a: nat, b: nat, c: nat)
    requires a <= b <= c <= |s|
    ensures KeysFrom(s, a, b) + KeysFrom(s, b, c) == KeysFrom(s, a, c)
    decreases b - a
  {
    if a < b {
      KeysFromJoin(s, a + 1, b, c);
    }
  }

  lemma {:induction false} KeysFromIsKeys(s: seq<Entry>, a: nat, b: nat)
    requires a <= b <= |s|
    ensures KeysFrom(s, a, b) == Keys(s[a..b])
    decreases b - a
  {
    if a < b {
      KeysFromIsKeys(s, a + 1, b);
      assert s[a..b][1..] == s[a + 1..b];
    }
  }

  /**
    The counter stays in step with the position through a chunk, which never
    passes the quota; a chunk that starts under the byte budget and deletes
    nothing starts at the quota.
   */
  lemma {:induction false} GatherCounted(c: Cursor, keys: seq<Bytes>, bytes: nat)
    requires Counted(c)
    ensures var r := Gather(c, keys, bytes);
            && Counted(r.cursor)
            && r.cursor.idx <= Quota(c)
            && (bytes <= ChunkBytes && r.cursor.idx == c.idx ==> c.idx == Quota(c))
    decreases |c.view.entries| - c.idx
  {
    if bytes <= ChunkBytes && Valid(c) && Increment(c).0 {
      var k := c.view.entries[c.idx].key;
      var c2 := Next(Increment(c).1);
      assert c2.view == c.view && c2.idx == c.idx + 1;
      assert c.view.limit >= 0 ==> c.count == c.idx && c2.count == c.idx + 1;
      GatherCounted(c2, keys + [k], bytes + |k|);
      assert Gather(c, keys, bytes) == Gather(c2, keys + [k], bytes + |k|);
    } else if bytes <= ChunkBytes && Valid(c) {
      assert Gather(c, keys, bytes) == Chunk(Increment(c).1, keys, bytes);
    } else {
      assert Gather(c, keys, bytes) == Chunk(c, keys, bytes);
    }
  }

  /** A chunk deletes the keys from the position onwards, in iteration order. */
  lemma {:induction false} GatherKeys(c: Cursor, keys: seq<Bytes>, bytes: nat)
    requires InPlace(c)
    ensures var r := Gather(c, keys, bytes);
            r.keys == keys + KeysFrom(c.view.entries, c.idx, r.cursor.idx)
    decreases |c.view.entries| - c.idx
  {
    if bytes <= ChunkBytes && Valid(c) && Increment(c).0 {
      var k := c.view.entries[c.idx].key;
      var c2 := Next(Increment(c).1);
      GatherKeys(c2, keys + [k], bytes + |k|);
      assert Gather(c, keys, bytes) == Gather(c2, keys + [k], bytes + |k|);
    }
  }

  /** The fixed outer loop deletes every key from the position up to the quota, in iteration order. */
  lemma {:induction false} RoundsKeys(c: Cursor, written: seq<Bytes>)
    requires Counted(c)
    ensures Rounds(c, written) == written + KeysFrom(c.view.entries, c.idx, Quota(c))
    decreases |c.view.entries| - c.idx
  {
    var s := c.view.entries;
    var ch := Gather(c, [], 0);
    GatherCounted(c, [], 0);
    GatherKeys(c, [], 0);
    var m := ch.cursor.idx;
    assert ch.cursor.view == c.view;
    if ch.keys == [] {
      assert m == c.idx;
      assert Rounds(c, written) == written;
    } else {
      RoundsKeys(ch.cursor, written + ch.keys);
      assert Quota(ch.cursor) == Quota(c);
      KeysFromJoin(s, c.idx, m, Quota(c));
      assert Rounds(c, written) == Rounds(ch.cursor, written + ch.keys);
    }
  }

  /** Two entries of a table with the same key are the same entry. */
  lemma KeyDeterminesEntry(t: Table, a: Entry, b: Entry)
    requires a in t && b in t && a.key == b.key
    ensures a == b
  {
    var i :| 0 <= i < |t| && t[i] == a;
    var j :| 0 <= j < |t| && t[j] == b;
    if i < j || j < i {
      LessIrreflexive(a.key);
    }
  }

  /** The entries of a table left after deleting the keys of some of its own entries. */
  lemma DeleteEntries(t: Table, gone: seq<Entry>)
    requires forall e :: e in gone ==> e in t
    ensures forall e :: e in DeleteKeys(t, Keys(gone)) <==> e in t && e !in gone
  {
    forall e | e in t && e.key in Keys(gone)
      ensures e in gone
    {
      var i :| 0 <= i < |gone| && Keys(gone)[i] == e.key;
      KeyDeterminesEntry(t, e, gone[i]);
    }
  }

  /**
    The iterator path removes exactly the first `limit` in-range entries in
    iteration order (all of them when the limit is negative or larger than
    their number), and nothing else.
   */
  lemma ClearLimited(t: Table, o: ClearOptions)
    requires o.limit != -1
    ensures var c := Scan(t, o);
            forall e :: e in Clear(t, o) <==> e in t && e !in c.view.entries[..Quota(c)]
  {
    var c := Scan(t, o);
    RoundsKeys(c, []);
    KeysFromIsKeys(c.view.entries, 0, Quota(c));
    assert c.view.entries[0..Quota(c)] == c.view.entries[..Quota(c)];
    forall e | e in c.view.entries[..Quota(c)] ensures e in t {
      assert e in c.view.entries;
    }
    DeleteEntries(t, c.view.entries[..Quota(c)]);
  }

  /** A negative limit other than -1 also clears the whole range, key by key. */
  lemma ClearUnlimited(t: Table, o: ClearOptions)
    requires o.limit < -1
    ensures forall e :: e in Clear(t, o) <==> e in t && !Admits(o.range, e.key)
  {
    ClearLimited(t, o);
    var c := Scan(t, o);
    assert c.view.entries[..Quota(c)] == c.view.entries;
  }

  /** A limit of zero clears nothing. */
  lemma ClearNone(t: Table, o: ClearOptions)
    requires o.limit == 0
    ensures Clear(t, o) == t
  {
    ClearLimited(t, o);
    var r := Clear(t, o);
    assert forall e :: e in r <==> e in t;
    AscendingSameElements(r, t);
  }

  /** Two ascending sequences with the same elements are equal. */
  lemma {:induction false} AscendingSameElements(a: Table, b: Table)
    requires forall e :: e in a <==> e in b
    ensures a == b
    decreases |a| + |b|
  {
    if a != [] {
      assert a[0] in b;
    }
    if b != [] {
      assert b[0] in a;
    }
    if a != [] && b != [] {
      if a[0] != b[0] {
        assert a[0] in b && b[0] in a;
        var i :| 0 <= i < |b| && b[i] == a[0];
        var j :| 0 <= j < |a| && a[j] == b[0];
        assert Less(a[0].key, a[j].key) || j == 0;
        assert Less(b[0].key, b[i].key) || i == 0;
        LessAsymmetric(a[0].key, b[0].key);
      }
      var a1: Table := a[1..];
      var b1: Table := b[1..];
      forall e ensures e in a1 <==> e in b1 {
        if e in a1 {
          var i :| 1 <= i < |a| && a[i] == e;
          assert Less(a[0].key, e.key);
          if e == b[0] {
            LessIrreflexive(e.key);
          }
          assert e in b;
        }
        if e in b1 {
          var i :| 1 <= i < |b| && b[i] == e;
          assert Less(b[0].key, e.key);
          if e == a[0] {
            LessIrreflexive(e.key);
          }
          assert e in a;
        }
      }
      AscendingSameElements(a1, b1);
    }
  }

  // ---------------------------------------------------------------- the empty key

  /**
    Where no entry has the empty key every nonempty chunk reads some bytes,
    so the loop as written deletes the same keys.
   */
  lemma {:induction false} RoundsAgree(c: Cursor, written: seq<Bytes>)
    requires InPlace(c)
    requires forall e :: e in c.view.entries ==> e.key != []
    ensures RoundsAsWritten(c, written) == Rounds(c, written)
    decreases |c.view.entries| - c.idx
  {
    var ch := Gather(c, [], 0);
    if ch.keys != [] {
      assert c.view.entries[c.idx] in c.view.entries;
      RoundsAgree(ch.cursor, written + ch.keys);
    }
  }

  lemma ClearAgrees(t: Table, o: ClearOptions)
    requires forall e :: e in t ==> e.key != []
    ensures ClearAsWritten(t, o) == Clear(t, o)
  {
    if o.limit != -1 {
      RoundsAgree(Scan(t, o), []);
    }
  }

  /**
    A table holding only the empty key, cleared with limit 1: the key is in
    range and within the limit, yet the loop as written leaves it in place.
   */
  lemma EmptyKeySurvives()
    ensures var t: Table := [Entry([], [1])];
            var o := ClearOptions(RangeOptions(None, None, None, None), false, 1);
            && Admits(o.range, []) && Entry([], [1]) in ClearAsWritten(t, o)
            && Clear(t, o) == []
  {
    var t: Table := [Entry([], [1])];
    var o := ClearOptions(RangeOptions(None, None, None, None), false, 1);
    var c := Scan(t, o);
    assert c.view.entries == t;
    var ch := Gather(c, [], 0);
    assert Increment(c).0;
    assert ch.keys == [[]] && ch.bytes == 0;
    assert RoundsAsWritten(c, []) == [];
    ClearLimited(t, o);
    AscendingSameElements(Clear(t, o), []);
  }
}
