/**
  The native iterator (`BaseIterator` / `Iterator`) over a snapshot of one
  column family, and the batch fetch `iterator_nextv`.

  The engine iterator only ever moves in one direction (`Next` steps backwards
  when `reverse` is set), so the cursor is an index into the in-range entries
  laid out in iteration order: ascending keys, or descending keys in reverse.
  An index at the end of that sequence is an invalid (exhausted) iterator.
 */
module Cursor {
  import opened Wrappers
  import opened Bytes
  import opened Bounds
  import opened Engine
  import opened ResultBuffer

  /** The options `iterator_init` reads. */
  datatype IteratorOptions = IteratorOptions(
    range: RangeOptions,
    reverse: bool,
    keys: bool,
    values: bool,
    limit: int,
    highWaterMarkBytes: int)   // read as an `int32_t`, handed on as a `size_t`

  /** The conversion of a signed value to a 64-bit `size_t`: negative values wrap around. */
  function SizeT(n: int): (r: nat)
    ensures r < 0x1_0000_0000_0000_0000
    ensures 0 <= n < 0x1_0000_0000_0000_0000 ==> r == n
    ensures -0x1_0000_0000_0000_0000 <= n < 0 ==> r == n + 0x1_0000_0000_0000_0000
  {
    n % 0x1_0000_0000_0000_0000
  }

  /** What a cursor iterates over and how: fixed when the iterator is created. */
  datatype View = View(
    entries: seq<Entry>,    // the snapshot's in-range entries, in iteration order
    bounds: Bounds,
    reverse: bool,
    keys: bool,
    values: bool,
    limit: int,             // negative: no limit
    highWaterMark: nat)

  datatype Cursor = Cursor(
    view: View,
    count: nat,             // `count_`, bumped by every `Increment` while limited
    seeked: bool,           // `DidSeek()`: the engine iterator exists
    idx: nat,               // position in `view.entries`; `|view.entries|` is invalid
    first: bool)            // `first_`: the next fetch must not step first

  /** The cursor's standing invariant. */
  predicate Wf(c: Cursor) {
    && InPlace(c)
    && (if c.view.reverse then Descending(c.view.entries) else Ascending(c.view.entries))
    && (forall e :: e in c.view.entries ==> InBounds(c.view.bounds, e.key))
  }

  /** The position is inside the entries or just past them. */
  predicate InPlace(c: Cursor) {
    c.idx <= |c.view.entries|
  }

  predicate Valid(c: Cursor) {
    c.idx < |c.view.entries|
  }

  /** `iterator_init`: a fresh cursor over the table's entries inside the options' range. */
  function Open(t: Table, o: IteratorOptions): (c: Cursor)
    ensures Wf(c)
    ensures forall e :: e in c.view.entries <==> e in t && Admits(o.range, e.key)
    ensures c.idx == 0 && c.first && !c.seeked && c.count == 0
    ensures c.view.limit == o.limit && c.view.keys == o.keys && c.view.values == o.values
    ensures c.view.highWaterMark == SizeT(o.highWaterMarkBytes)
  {
    var b := MakeBounds(o.range);
    var view := Within(t, b);
    assert forall e: Entry :: InBounds(b, e.key) <==> Admits(o.range, e.key) by {
      forall e: Entry ensures InBounds(b, e.key) <==> Admits(o.range, e.key) {
        BoundsMatchOptions(o.range, e.key);
      }
    }
    var entries := if o.reverse then Reverse(view) else view;
    assert forall e :: e in entries <==> e in view by {
      forall e ensures e in entries <==> e in view {
        if e in view {
          var i :| 0 <= i < |view| && view[i] == e;
          if o.reverse {
            assert entries[|view| - 1 - i] == e;
          }
        }
      }
    }
    Cursor(View(entries, b, o.reverse, o.keys, o.values, o.limit, SizeT(o.highWaterMarkBytes)), 0, false, 0, true)
  }

  /** `SeekToRange`: the first entry in iteration order (`SeekToFirst`, or `SeekToLast` in reverse). */
  function SeekToRange(c: Cursor): (r: Cursor)
    ensures InPlace(r) && r.seeked && r.view == c.view && r.count == c.count && r.first == c.first
    ensures Valid(r) <==> |c.view.entries| > 0
  {
    c.(seeked := true, idx := 0)
  }

  /**
    After `SeekToRange` the cursor sits on the least key in range (the greatest
    in reverse): every other entry comes after it in iteration order.
   */
  lemma SeekToRangeFirst(c: Cursor)
    requires Wf(c)
    ensures var r := SeekToRange(c);
            && Wf(r)
            && (Valid(r) ==> forall e :: e in r.view.entries ==>
                  e == r.view.entries[r.idx] || Before(r, r.view.entries[r.idx].key, e.key))
  {
  }

  /** Key `a` comes strictly before key `b` in the cursor's direction. */
  predicate Before(c: Cursor, a: Bytes, b: Bytes) {
    if c.view.reverse then Less(b, a) else Less(a, b)
  }

  /** The entry is at or past `target` in the cursor's direction. */
  predicate Reached(reverse: bool, key: Bytes, target: Bytes) {
    if reverse then LessEq(key, target) else LessEq(target, key)
  }

  /** Linear search for the first entry from `i` on that has reached `target`. */
  function FirstReached(s: seq<Entry>, reverse: bool, target: Bytes, i: nat): (r: nat)
    requires i <= |s|
    ensures i <= r <= |s|
    ensures forall j :: i <= j < r ==> !Reached(reverse, s[j].key, target)
    ensures r < |s| ==> Reached(reverse, s[r].key, target)
    decreases |s| - i
  {
    if i == |s| then i
    else if Reached(reverse, s[i].key, target) then i
    else FirstReached(s, reverse, target, i + 1)
  }

  /** The target lies outside the bounds: at or above the upper one, or below the lower one. */
  predicate OutOfRange(b: Bounds, target: Bytes) {
    (b.upper.Some? && !Less(target, b.upper.value)) || (b.lower.Some? && Less(target, b.lower.value))
  }

  /**
    `Iterator::Seek`: an out-of-range target leaves the cursor invalid (the
    source does `SeekToLast` then `Next`); otherwise the cursor lands on the
    first entry at or after the target (at or before it in reverse), and the
    next fetch starts there.
   */
  function Seek(c: Cursor, target: Bytes): (r: Cursor)
    requires Wf(c)
    ensures Wf(r) && r.seeked && r.first && r.view.entries == c.view.entries
    ensures OutOfRange(c.view.bounds, target) ==> !Valid(r)
    ensures !OutOfRange(c.view.bounds, target) ==>
              && (Valid(r) ==> Reached(c.view.reverse, r.view.entries[r.idx].key, target))
              && (forall j :: 0 <= j < r.idx ==> !Reached(c.view.reverse, r.view.entries[j].key, target))
  {
    var r := c.(seeked := true, first := true);
    if OutOfRange(c.view.bounds, target) then r.(idx := |c.view.entries|)
    else r.(idx := FirstReached(c.view.entries, c.view.reverse, target, 0))
  }

  /**
    After an in-range seek the cursor sits on the least key at or above the
    target (the greatest key at or below it in reverse), and is invalid only
    when no such key exists.
   */
  lemma SeekPositions(c: Cursor, target: Bytes)
    requires Wf(c) && !OutOfRange(c.view.bounds, target)
    ensures var r := Seek(c, target);
            && (Valid(r) ==> forall e :: e in r.view.entries && Reached(c.view.reverse, e.key, target) ==>
                  e == r.view.entries[r.idx] || Before(r, r.view.entries[r.idx].key, e.key))
            && (!Valid(r) ==> forall e :: e in r.view.entries ==> !Reached(c.view.reverse, e.key, target))
  {
    var r := Seek(c, target);
    forall e | e in r.view.entries && Reached(c.view.reverse, e.key, target)
      ensures Valid(r) && (e == r.view.entries[r.idx] || Before(r, r.view.entries[r.idx].key, e.key))
    {
      var j :| 0 <= j < |r.view.entries| && r.view.entries[j] == e;
      assert j >= r.idx;
      if j > r.idx {
        assert Before(r, r.view.entries[r.idx].key, e.key);
      }
    }
  }

  /** `Increment`: unlimited cursors always succeed; limited ones bump the counter first. */
  function Increment(c: Cursor): (r: (bool, Cursor))
    ensures r.0 <==> (c.view.limit < 0 || c.count < c.view.limit)
    ensures SameConfig(c, r.1) && r.1.seeked == c.seeked && r.1.idx == c.idx && r.1.first == c.first
    ensures c.view.limit < 0 ==> r.1.count == c.count
    ensures c.view.limit >= 0 ==> r.1.count == c.count + 1
    ensures c.view.limit >= 0 ==> Min(r.1.count, c.view.limit) == Min(c.count, c.view.limit) + (if r.0 then 1 else 0)
  {
    if c.view.limit < 0 then (true, c)
    else (c.count + 1 <= c.view.limit, c.(count := c.count + 1))
  }

  function Min(a: int, b: int): int {
    if a < b then a else b
  }

  function Max(a: int, b: int): int {
    if a < b then b else a
  }

  /** Apply `Increment` `n` times, counting the successes. */
  function Increments(c: Cursor, n: nat): (nat, Cursor)
    decreases n
  {
    if n == 0 then (0, c)
    else
      var (ok, c1) := Increment(c);
      var (k, c2) := Increments(c1, n - 1);
      (k + (if ok then 1 else 0), c2)
  }

  /** A cursor with limit `L` lets at most `L` increments through over its whole life. */
  lemma {:induction false} IncrementsBounded(c: Cursor, n: nat)
    requires c.view.limit >= 0
    ensures Increments(c, n).0 + Min(c.count, c.view.limit) <= c.view.limit
    ensures Increments(c, n).1.view.limit == c.view.limit
    decreases n
  {
    if n > 0 {
      IncrementsBounded(Increment(c).1, n - 1);
    }
  }

  /** `Next`, which steps backwards in reverse; an exhausted cursor stays exhausted. */
  function Next(c: Cursor): Cursor {
    c.(idx := if c.idx < |c.view.entries| then c.idx + 1 else c.idx)
  }

  /** The move at the top of each round of the fetch loop: `Next`, except on the first round. */
  function Step(c: Cursor): (r: Cursor)
    ensures SameConfig(c, r) && r.seeked == c.seeked && r.count == c.count && !r.first
    ensures InPlace(c) ==> InPlace(r) && (Valid(r) ==> r.idx == Start(c))
  {
    if c.first then c.(first := false) else Next(c)
  }

  /** The slots `push` receives for one row, by the `keys` and `values` flags. */
  function RowSlot(e: Entry, keys: bool, values: bool): seq<Option<Bytes>> {
    if keys && values then [Some(e.key), Some(e.value)]
    else if keys then [Some(e.key), None]
    else if values then [None, Some(e.value)]
    else []
  }

  function RowSlots(rows: seq<Entry>, keys: bool, values: bool): (r: seq<Option<Bytes>>)
    ensures |r| == (if keys || values then 2 * |rows| else 0)
  {
    if rows == [] then []
    else RowSlots(rows[..|rows| - 1], keys, values) + RowSlot(rows[|rows| - 1], keys, values)
  }

  /** The bytes one row adds to `bytesRead`. */
  function RowBytes(e: Entry, keys: bool, values: bool): nat {
    (if keys then |e.key| else 0) + (if values then |e.value| else 0)
  }

  /** `bytesRead`: the lengths of every present slot pushed. */
  function BytesRead(rows: seq<Entry>, keys: bool, values: bool): nat {
    if rows == [] then 0
    else BytesRead(rows[..|rows| - 1], keys, values) + RowBytes(rows[|rows| - 1], keys, values)
  }

  /** Where the next fetch reads from: the current entry, or the one after it. */
  function Start(c: Cursor): (r: nat)
    requires InPlace(c)
    ensures c.idx <= r <= |c.view.entries|
  {
    if c.first || c.idx == |c.view.entries| then c.idx else c.idx + 1
  }

  /** The limit has been used up: `Increment` will fail from now on. */
  predicate LimitHit(c: Cursor) {
    c.view.limit >= 0 && c.count >= c.view.limit
  }

  /** A cursor every later fetch finds finished with no rows. */
  predicate Done(c: Cursor) {
    !c.first && (c.idx == |c.view.entries| || LimitHit(c))
  }

  /** Every fetch from here on reports finished with no rows. */
  predicate Finished(c: Cursor) {
    c.seeked && Done(c)
  }

  /** The rows a complete drain delivers: every in-range entry, or the first `limit` of them. */
  function Quota(c: Cursor): (r: nat)
    ensures r <= |c.view.entries|
    ensures c.view.limit >= 0 ==> r <= c.view.limit
  {
    if c.view.limit >= 0 then Min(c.view.limit, |c.view.entries|) else |c.view.entries|
  }

  /** The number of sizes pushed for `n` rows: two per row, or none when neither field is selected. */
  function Pushed(n: nat, keys: bool, values: bool): nat {
    if keys || values then 2 * n else 0
  }

  /** The early exit of the fetch loop, on the rows visited so far: too many bytes read, or `count` rows pushed. */
  predicate Stop(c: Cursor, count: nat, rows: seq<Entry>) {
    || BytesRead(rows, c.view.keys, c.view.values) > c.view.highWaterMark
    || Pushed(|rows|, c.view.keys, c.view.values) / 2 >= count
  }

  /** Two cursors over the same entries with the same options. */
  predicate SameConfig(a: Cursor, b: Cursor) {
    a.view == b.view
  }

  /**
    One round trip of the fetch loop: the cursor after it, the end of the
    visited rows (an index into the entries), and `finished`.
   */
  datatype Fetch = Fetch(cursor: Cursor, end: nat, finished: bool)

  /**
    The loop of `iterator_nextv` with its running `bytesRead` and number of
    pushed sizes: step (unless this is the first round), stop as finished on an
    invalid cursor or a failed `Increment`, push the row, and stop unfinished
    once too many bytes were read or `count` rows pushed. `from` is where the
    fetch began; the rows visited run from there to the returned `end`.
   */
  function Fill(c: Cursor, count: nat, from: nat, bytes: nat, pushed: nat): (r: Fetch)
    requires InPlace(c) && from <= Start(c)
    ensures SameConfig(c, r.cursor) && r.cursor.seeked == c.seeked && InPlace(r.cursor)
    ensures Start(c) <= r.end <= |c.view.entries|
    decreases |c.view.entries| - c.idx, c.first
  {
    var c1 := Step(c);
    if !Valid(c1) then Fetch(c1, Start(c), true)
    else if !Increment(c1).0 then Fetch(Increment(c1).1, Start(c), true)
    else
      var e := c1.view.entries[c1.idx];
      var bytes' := bytes + RowBytes(e, c.view.keys, c.view.values);
      var pushed' := pushed + |RowSlot(e, c.view.keys, c.view.values)|;
      if bytes' > c.view.highWaterMark || pushed' / 2 >= count then Fetch(Increment(c1).1, c1.idx + 1, false)
      else Fill(Increment(c1).1, count, from, bytes', pushed')
  }

  /** Every visited row passed `Increment`, and nothing else did. */
  lemma {:induction false} FillLimit(c: Cursor, count: nat, from: nat, bytes: nat, pushed: nat)
    requires InPlace(c) && from <= Start(c)
    ensures var r := Fill(c, count, from, bytes, pushed);
            && (c.view.limit < 0 ==> r.cursor.count == c.count)
            && (c.view.limit >= 0 ==> Min(r.cursor.count, c.view.limit) == Min(c.count, c.view.limit) + (r.end - Start(c)))
    decreases |c.view.entries| - c.idx, c.first
  {
    var c1 := Step(c);
    if Valid(c1) && Increment(c1).0 {
      var c2 := Increment(c1).1;
      var e := c1.view.entries[c1.idx];
      var bytes' := bytes + RowBytes(e, c.view.keys, c.view.values);
      var pushed' := pushed + |RowSlot(e, c.view.keys, c.view.values)|;
      if !(bytes' > c.view.highWaterMark || pushed' / 2 >= count) {
        FillLimit(c2, count, from, bytes', pushed');
        assert Fill(c, count, from, bytes, pushed) == Fill(c2, count, from, bytes', pushed');
      }
    }
  }

  /** `bytesRead` over the rows `s[from .. till]`, counted by position. */
  function BytesBetween(s: seq<Entry>, from: nat, till: nat, keys: bool, values: bool): nat
    requires from <= till <= |s|
    decreases till
  {
    if till == from then 0 else BytesBetween(s, from, till - 1, keys, values) + RowBytes(s[till - 1], keys, values)
  }

  lemma {:induction false} BytesBetweenRead(s: seq<Entry>, from: nat, till: nat, keys: bool, values: bool)
    requires from <= till <= |s|
    ensures BytesBetween(s, from, till, keys, values) == BytesRead(s[from .. till], keys, values)
    decreases till
  {
    if till > from {
      BytesBetweenRead(s, from, till - 1, keys, values);
      assert s[from .. till][..till - 1 - from] == s[from .. till - 1];
    }
  }

  /** A finished loop leaves the cursor exhausted or out of limit. */
  lemma {:induction false} FillFinished(c: Cursor, count: nat, from: nat, bytes: nat, pushed: nat)
    requires InPlace(c) && from <= Start(c)
    ensures var r := Fill(c, count, from, bytes, pushed);
            r.finished ==> Done(r.cursor)
    decreases |c.view.entries| - c.idx, c.first
  {
    var c1 := Step(c);
    if Valid(c1) && Increment(c1).0 {
      var c2 := Increment(c1).1;
      var e := c1.view.entries[c1.idx];
      var bytes' := bytes + RowBytes(e, c.view.keys, c.view.values);
      var pushed' := pushed + |RowSlot(e, c.view.keys, c.view.values)|;
      if !(bytes' > c.view.highWaterMark || pushed' / 2 >= count) {
        FillFinished(c2, count, from, bytes', pushed');
        assert Fill(c, count, from, bytes, pushed) == Fill(c2, count, from, bytes', pushed');
      }
    }
  }

  /** A finished loop visited every row up to the end of the entries, or used up the limit. */
  lemma {:induction false} FillFinishedAt(c: Cursor, count: nat, from: nat, bytes: nat, pushed: nat)
    requires InPlace(c) && from <= Start(c)
    ensures var r := Fill(c, count, from, bytes, pushed);
            r.finished ==> r.end == |c.view.entries| || LimitHit(r.cursor)
    decreases |c.view.entries| - c.idx, c.first
  {
    var c1 := Step(c);
    if Valid(c1) && Increment(c1).0 {
      var c2 := Increment(c1).1;
      var e := c1.view.entries[c1.idx];
      var bytes' := bytes + RowBytes(e, c.view.keys, c.view.values);
      var pushed' := pushed + |RowSlot(e, c.view.keys, c.view.values)|;
      if !(bytes' > c.view.highWaterMark || pushed' / 2 >= count) {
        FillFinishedAt(c2, count, from, bytes', pushed');
        assert Fill(c, count, from, bytes, pushed) == Fill(c2, count, from, bytes', pushed');
      }
    }
  }

  /** An unfinished loop leaves the cursor on the last row it visited. */
  lemma {:induction false} FillStoppedAt(c: Cursor, count: nat, from: nat, bytes: nat, pushed: nat)
    requires InPlace(c) && from <= Start(c)
    ensures var r := Fill(c, count, from, bytes, pushed);
            !r.finished ==> Start(c) < r.end && Valid(r.cursor) && !r.cursor.first && r.cursor.idx + 1 == r.end
    decreases |c.view.entries| - c.idx, c.first
  {
    var c1 := Step(c);
    if Valid(c1) && Increment(c1).0 {
      var c2 := Increment(c1).1;
      var e := c1.view.entries[c1.idx];
      var bytes' := bytes + RowBytes(e, c.view.keys, c.view.values);
      var pushed' := pushed + |RowSlot(e, c.view.keys, c.view.values)|;
      if !(bytes' > c.view.highWaterMark || pushed' / 2 >= count) {
        FillStoppedAt(c2, count, from, bytes', pushed');
        assert Fill(c, count, from, bytes, pushed) == Fill(c2, count, from, bytes', pushed');
      }
    }
  }

  /** An unfinished loop stopped on its own rule: the visited rows meet `Stop`. */
  lemma {:induction false} FillStopped(c: Cursor, count: nat, from: nat, bytes: nat, pushed: nat)
    requires InPlace(c) && from <= Start(c)
    requires bytes == BytesBetween(c.view.entries, from, Start(c), c.view.keys, c.view.values)
    requires pushed == Pushed(Start(c) - from, c.view.keys, c.view.values)
    ensures var r := Fill(c, count, from, bytes, pushed);
            !r.finished ==> StopsAt(c, count, from, r.end)
    decreases |c.view.entries| - c.idx, c.first
  {
    var c1 := Step(c);
    if Valid(c1) && Increment(c1).0 {
      var c2 := Increment(c1).1;
      var e := c1.view.entries[c1.idx];
      var bytes' := bytes + RowBytes(e, c.view.keys, c.view.values);
      var pushed' := pushed + |RowSlot(e, c.view.keys, c.view.values)|;
      StepTotals(c, from, bytes, pushed);
      if bytes' > c.view.highWaterMark || pushed' / 2 >= count {
        assert Fill(c, count, from, bytes, pushed).end == Start(c) + 1;
        assert StopsAt(c, count, from, Start(c) + 1);
      } else {
        FillStopped(c2, count, from, bytes', pushed');
        assert Fill(c, count, from, bytes, pushed) == Fill(c2, count, from, bytes', pushed');
      }
    } else {
      assert Fill(c, count, from, bytes, pushed).finished;
    }
  }

  /** The stop rule of the loop on the rows `entries[from .. end]`. */
  predicate StopsAt(c: Cursor, count: nat, from: nat, end: nat)
    requires from <= end <= |c.view.entries|
  {
    || BytesBetween(c.view.entries, from, end, c.view.keys, c.view.values) > c.view.highWaterMark
    || Pushed(end - from, c.view.keys, c.view.values) / 2 >= count
  }

  /** The running totals after the row the next round visits. */
  lemma StepTotals(c: Cursor, from: nat, bytes: nat, pushed: nat)
    requires InPlace(c) && from <= Start(c) < |c.view.entries|
    requires bytes == BytesBetween(c.view.entries, from, Start(c), c.view.keys, c.view.values)
    requires pushed == Pushed(Start(c) - from, c.view.keys, c.view.values)
    ensures var e := c.view.entries[Start(c)];
            && BytesBetween(c.view.entries, from, Start(c) + 1, c.view.keys, c.view.values) == bytes + RowBytes(e, c.view.keys, c.view.values)
            && Pushed(Start(c) + 1 - from, c.view.keys, c.view.values) == pushed + |RowSlot(e, c.view.keys, c.view.values)|
  {
  }

  /** With a field selected (or `count` 0), the loop stops at `count` rows, or one row when `count` is 0. */
  lemma {:induction false} FillCap(c: Cursor, count: nat, from: nat, bytes: nat, pushed: nat)
    requires InPlace(c) && from <= Start(c)
    requires c.view.keys || c.view.values || count == 0
    requires pushed == Pushed(Start(c) - from, c.view.keys, c.view.values)
    requires Start(c) - from < Max(count, 1)
    ensures Fill(c, count, from, bytes, pushed).end - from <= Max(count, 1)
    decreases |c.view.entries| - c.idx, c.first
  {
    var c1 := Step(c);
    if Valid(c1) && Increment(c1).0 {
      var c2 := Increment(c1).1;
      var e := c1.view.entries[c1.idx];
      var bytes' := bytes + RowBytes(e, c.view.keys, c.view.values);
      var pushed' := pushed + |RowSlot(e, c.view.keys, c.view.values)|;
      if !(bytes' > c.view.highWaterMark || pushed' / 2 >= count) {
        FillCap(c2, count, from, bytes', pushed');
        assert Fill(c, count, from, bytes, pushed) == Fill(c2, count, from, bytes', pushed');
      }
    }
  }

  /** The cursor a fetch starts from: seeked to the range on first use. */
  function Prepared(c: Cursor): (r: Cursor)
    requires InPlace(c)
    ensures InPlace(r) && r.seeked && SameConfig(c, r)
    ensures c.seeked ==> r == c
  {
    if !c.seeked then SeekToRange(c) else c
  }

  /** The worker half of `iterator_nextv`: the cursor after the loop, the rows visited, `finished`. */
  datatype Visited = Visited(cursor: Cursor, rows: seq<Entry>, finished: bool)

  /** `rows` are the entries of `s` from position `n` on, without gaps. */
  predicate RunFrom(s: seq<Entry>, n: nat, rows: seq<Entry>) {
    n + |rows| <= |s| && rows == s[n .. n + |rows|]
  }

  /**
    The loop of `iterator_nextv(count)`: seek to the start of the range on
    first use, then visit rows in iteration order until the cursor runs out,
    the limit is used up, `count` rows have been pushed, or more than the
    high-water mark of bytes have been read.
   */
  function Visit(c: Cursor, count: nat): (r: Visited)
    requires InPlace(c)
    ensures InPlace(r.cursor) && r.cursor.seeked && SameConfig(c, r.cursor)
    ensures RunFrom(c.view.entries, Start(Prepared(c)), r.rows)
  {
    var c0 := Prepared(c);
    var f := Fill(c0, count, Start(c0), 0, 0);
    Visited(f.cursor, c.view.entries[Start(c0) .. f.end], f.finished)
  }

  /**
    A fetch visits at most `count` rows (one when `count` is 0) whenever it
    pushes anything per row, and every row it visits uses up one unit of the
    limit.
   */
  lemma VisitCounts(c: Cursor, count: nat)
    requires InPlace(c)
    ensures var r := Visit(c, count);
            && (c.view.keys || c.view.values || count == 0 ==> |r.rows| <= Max(count, 1))
            && (c.view.limit >= 0 ==> Min(r.cursor.count, c.view.limit) == Min(c.count, c.view.limit) + |r.rows|)
            && (c.view.limit < 0 ==> r.cursor.count == c.count)
  {
    var c0 := Prepared(c);
    FillLimit(c0, count, Start(c0), 0, 0);
    if c.view.keys || c.view.values || count == 0 {
      FillCap(c0, count, Start(c0), 0, 0);
    }
  }

  /**
    A fetch that is not finished stopped on its own rule, on a valid cursor
    whose current entry is the last row visited; a finished one leaves the
    cursor exhausted or out of limit.
   */
  lemma VisitEnd(c: Cursor, count: nat)
    requires InPlace(c)
    ensures var r := Visit(c, count);
            && (r.finished ==> Done(r.cursor))
            && (r.finished ==> Start(Prepared(c)) + |r.rows| == |c.view.entries| || LimitHit(r.cursor))
            && (!r.finished ==> && |r.rows| > 0 && Stop(c, count, r.rows)
                                && Valid(r.cursor) && !r.cursor.first
                                && r.cursor.idx + 1 == Start(Prepared(c)) + |r.rows|)
  {
    var c0 := Prepared(c);
    FillFinished(c0, count, Start(c0), 0, 0);
    FillFinishedAt(c0, count, Start(c0), 0, 0);
    FillStoppedAt(c0, count, Start(c0), 0, 0);
    FillStopped(c0, count, Start(c0), 0, 0);
    BytesBetweenRead(c.view.entries, Start(c0), Fill(c0, count, Start(c0), 0, 0).end, c.view.keys, c.view.values);
  }

  /** A finished cursor stays finished and yields no more rows. */
  lemma DoneStaysDone(c: Cursor, count: nat)
    requires InPlace(c) && c.seeked && Done(c)
    ensures Visit(c, count).rows == [] && Visit(c, count).finished
  {
  }

  /** What `iterator_nextv` hands its callback, plus the cursor it leaves behind. */
  datatype NextResult = NextResult(cursor: Cursor, buffers: Encoded, finished: bool)

  /**
    `iterator_nextv(count)`: run the loop and push every visited row's
    selected fields. The buffers read back as the visited rows' slots, key
    before value, in iteration order.
   */
  function NextV(c: Cursor, count: nat): (r: NextResult)
    requires InPlace(c)
    ensures var v := Visit(c, count);
            && r.cursor == v.cursor && r.finished == v.finished
            && Decode(r.buffers.sizes, r.buffers.data) == Some(RowSlots(v.rows, c.view.keys, c.view.values))
    ensures |r.buffers.data| % 8 == 0
  {
    var v := Visit(c, count);
    DecodeEncode(RowSlots(v.rows, c.view.keys, c.view.values));
    NextResult(v.cursor, Encode(RowSlots(v.rows, c.view.keys, c.view.values)), v.finished)
  }

  /** The cursor state `n` rows into its life. */
  predicate Progress(c: Cursor, n: nat) {
    && InPlace(c)
    && n <= |c.view.entries|
    && (c.view.limit >= 0 ==> Min(c.count, c.view.limit) == n)
    && (!c.seeked ==> c.idx == 0 && c.first && n == 0)
    && (c.seeked ==> Done(c) || (Start(c) == n && (c.first || Valid(c))))
  }

  /** A cursor `n` rows into its life that is finished has delivered its whole quota. */
  predicate Complete(c: Cursor, n: nat) {
    Finished(c) ==> n == Quota(c)
  }

  /** Fetch repeatedly, with the given `count` per call, collecting every row. */
  function Drain(c: Cursor, counts: seq<nat>): (r: (seq<Entry>, Cursor))
    requires InPlace(c)
    ensures InPlace(r.1)
    decreases |counts|
  {
    if counts == [] then ([], c)
    else
      var f := Visit(c, counts[0]);
      var rest := Drain(f.cursor, counts[1..]);
      (f.rows + rest.0, rest.1)
  }

  /** Fetching from a cursor `n` rows into its life continues at entry `n`. */
  lemma VisitProgress(c: Cursor, n: nat, count: nat)
    requires Progress(c, n)
    ensures var f := Visit(c, count);
            RunFrom(c.view.entries, n, f.rows) && Progress(f.cursor, n + |f.rows|)
  {
    var f := Visit(c, count);
    VisitCounts(c, count);
    VisitEnd(c, count);
    if c.seeked && Done(c) {
      DoneStaysDone(c, count);
    } else {
      assert Start(Prepared(c)) == n;
    }
  }

  /**
    A fetch that reports finished completes the quota: together with the rows
    before it, it has delivered every in-range entry, or the first `limit`.
   */
  lemma VisitComplete(c: Cursor, n: nat, count: nat)
    requires Progress(c, n) && Complete(c, n)
    ensures var f := Visit(c, count);
            && (f.finished ==> n + |f.rows| == Quota(c))
            && Complete(f.cursor, n + |f.rows|)
  {
    VisitProgress(c, n, count);
    VisitCounts(c, count);
    VisitEnd(c, count);
    if Finished(c) {
      DoneStaysDone(c, count);
    }
  }

  lemma RunJoin(s: seq<Entry>, n: nat, a: seq<Entry>, b: seq<Entry>, whole: seq<Entry>)
    requires RunFrom(s, n, a) && RunFrom(s, n + |a|, b) && whole == a + b
    ensures RunFrom(s, n, whole)
  {
    assert s[n .. n + |a|] + s[n + |a| .. n + |a| + |b|] == s[n .. n + |a| + |b|];
  }

  /** One fetch of `Drain`: the rows it adds continue the run at `n`. */
  lemma DrainStep(c: Cursor, n: nat, counts: seq<nat>)
    requires Progress(c, n) && counts != []
    ensures var f := Visit(c, counts[0]);
            && Drain(c, counts).0 == f.rows + Drain(f.cursor, counts[1..]).0
            && RunFrom(c.view.entries, n, f.rows)
            && Progress(f.cursor, n + |f.rows|)
            && f.cursor.view.entries == c.view.entries && f.cursor.view.limit == c.view.limit
  {
    VisitProgress(c, n, counts[0]);
  }

  lemma {:induction false} DrainFrom(c: Cursor, n: nat, counts: seq<nat>)
    requires Progress(c, n)
    ensures RunFrom(c.view.entries, n, Drain(c, counts).0)
    decreases |counts|
  {
    if counts != [] {
      DrainStep(c, n, counts);
      var f := Visit(c, counts[0]);
      var rest := Drain(f.cursor, counts[1..]).0;
      DrainFrom(f.cursor, n + |f.rows|, counts[1..]);
      RunJoin(c.view.entries, n, f.rows, rest, Drain(c, counts).0);
    }
  }

  /** A cursor `n` rows into its life has at most `limit - n` rows left to give. */
  lemma {:induction false} DrainLimit(c: Cursor, n: nat, counts: seq<nat>)
    requires Progress(c, n) && c.view.limit >= 0
    ensures n + |Drain(c, counts).0| <= c.view.limit
    decreases |counts|
  {
    if counts != [] {
      DrainStep(c, n, counts);
      var f := Visit(c, counts[0]);
      DrainLimit(f.cursor, n + |f.rows|, counts[1..]);
    }
  }

  /** The cursor a drain leaves behind is as far into its life as the rows it delivered. */
  lemma {:induction false} DrainProgress(c: Cursor, n: nat, counts: seq<nat>)
    requires Progress(c, n) && Complete(c, n)
    ensures var (rows, d) := Drain(c, counts);
            Progress(d, n + |rows|) && Complete(d, n + |rows|) && Quota(d) == Quota(c)
    decreases |counts|
  {
    if counts != [] {
      DrainStep(c, n, counts);
      VisitComplete(c, n, counts[0]);
      var f := Visit(c, counts[0]);
      DrainProgress(f.cursor, n + |f.rows|, counts[1..]);
    }
  }

  /** A fetch that reports finished leaves the cursor finished. */
  lemma FinishedAfterFinish(c: Cursor, count: nat)
    requires InPlace(c)
    ensures Visit(c, count).finished ==> Finished(Visit(c, count).cursor)
  {
    VisitEnd(c, count);
  }

  /** Once finished, any further fetches deliver nothing and leave the cursor finished. */
  lemma {:induction false} DrainAfterFinish(c: Cursor, counts: seq<nat>)
    requires InPlace(c) && Finished(c)
    ensures Drain(c, counts).0 == [] && Finished(Drain(c, counts).1)
    decreases |counts|
  {
    if counts != [] {
      var f := Visit(c, counts[0]);
      DoneStaysDone(c, counts[0]);
      FinishedAfterFinish(c, counts[0]);
      DrainAfterFinish(f.cursor, counts[1..]);
    }
  }

  /** If any fetch of a drain reports finished, the drain ends finished. */
  lemma {:induction false} DrainFinishes(c: Cursor, counts: seq<nat>, i: nat)
    requires InPlace(c) && i < |counts|
    requires Visit(Drain(c, counts[..i]).1, counts[i]).finished
    ensures Finished(Drain(c, counts).1)
    decreases i
  {
    var f := Visit(c, counts[0]);
    if i == 0 {
      assert Drain(c, counts[..0]).1 == c;
      FinishedAfterFinish(c, counts[0]);
      DrainAfterFinish(f.cursor, counts[1..]);
    } else {
      assert counts[..i][0] == counts[0] && counts[..i][1..] == counts[1..][..i - 1];
      assert Drain(c, counts[..i]).1 == Drain(f.cursor, counts[1..][..i - 1]).1;
      DrainFinishes(f.cursor, counts[1..], i - 1);
    }
  }

  /**
    Over any sequence of fetches, a fresh cursor delivers the in-range entries
    in iteration order without gaps or repeats, and never more than `limit` of
    them when a limit is set; once a fetch has reported finished, the rows
    delivered are all of them, or the first `limit` of them.
   */
  lemma DrainInOrder(t: Table, o: IteratorOptions, counts: seq<nat>)
    ensures var c := Open(t, o);
            var rows := Drain(c, counts).0;
            && |rows| <= |c.view.entries|
            && rows == c.view.entries[..|rows|]
            && (o.limit >= 0 ==> |rows| <= o.limit)
            && (Finished(Drain(c, counts).1) ==>
                  |rows| == (if o.limit >= 0 then Min(o.limit, |c.view.entries|) else |c.view.entries|))
  {
    var c := Open(t, o);
    assert Progress(c, 0) && Complete(c, 0);
    DrainFrom(c, 0, counts);
    DrainProgress(c, 0, counts);
    if o.limit >= 0 {
      DrainLimit(c, 0, counts);
    }
  }
}
