/**
  The two-buffer result format shared by `iterator_nextv` and `db_get_many`:
  a `sizes` list with one entry per slot (the slot's length, or -1 when the
  slot is absent) and one `data` buffer holding every present slot's bytes,
  each followed by zero padding up to the next multiple of 8.
 */
module ResultBuffer {
  import opened Wrappers
  import opened Bytes
  import opened Engine

  /** `n | 0x7` on a natural number: the three low bits set. */
  function Or7(n: nat): nat {
    n - n % 8 + 7
  }

  /** `n & 0x7 ? (n | 0x7) + 1 : n`, the rounding used for sizes and padding. */
  function RoundUp8(n: nat): (r: nat)
    ensures r % 8 == 0
    ensures n <= r < n + 8
  {
    if n % 8 != 0 then Or7(n) + 1 else n
  }

  /** `RoundUp8(n)` is the least multiple of 8 that is at least `n`. */
  lemma RoundUp8Least(n: nat, m: nat)
    requires m % 8 == 0 && n <= m
    ensures RoundUp8(n) <= m
  {
  }

  function Zeros(n: nat): (r: Bytes)
    ensures |r| == n
    ensures forall i :: 0 <= i < n ==> r[i] == 0
  {
    seq(n, _ => 0)
  }

  /** What the callback receives: the size list and the data buffer. */
  datatype Encoded = Encoded(sizes: seq<int>, data: Bytes)

  const Empty := Encoded([], [])

  /** The size entry of one slot. */
  function SizeOf(slot: Option<Bytes>): int {
    if slot.Some? then |slot.value| else -1
  }

  /** A present slot's bytes followed by its padding; nothing for an absent slot. */
  function Chunk(slot: Option<Bytes>): (r: Bytes)
    ensures |r| % 8 == 0
    ensures slot.Some? ==> |r| == RoundUp8(|slot.value|) && r[..|slot.value|] == slot.value
    ensures slot.None? ==> r == []
  {
    if slot.Some? then slot.value + Zeros(RoundUp8(|slot.value|) - |slot.value|) else []
  }

  /** `if (data.size() & 0x7) data.resize((data.size() | 0x7) + 1)`: zero-pad to a multiple of 8. */
  function Pad(d: Bytes): (r: Bytes)
    ensures r == d + Zeros(RoundUp8(|d|) - |d|)
  {
    if |d| % 8 != 0 then d + Zeros(Or7(|d|) + 1 - |d|) else d
  }

  /** Rounding up past an aligned prefix only rounds the rest. */
  lemma RoundUp8Shift(a: nat, n: nat)
    requires a % 8 == 0
    ensures RoundUp8(a + n) == a + RoundUp8(n)
  {
    var k := a / 8;
    assert a == 8 * k;
    assert (a + n) % 8 == n % 8;
    assert (a + n) - (a + n) % 8 == a + (n - n % 8);
  }

  /**
    The `push` lambda: record the slot's size, copy its bytes and pad the whole
    buffer with zeros to a multiple of 8.
   */
  function Push(e: Encoded, slot: Option<Bytes>): (r: Encoded)
    ensures r.sizes == e.sizes + [SizeOf(slot)]
    ensures slot.None? ==> r.data == e.data
    ensures slot.Some? ==> |r.data| % 8 == 0
    ensures |e.data| % 8 == 0 ==> r.data == e.data + Chunk(slot)
  {
    if slot.Some? then
      var d := e.data + slot.value;
      assert |e.data| % 8 == 0 ==> Pad(d) == e.data + Chunk(slot) by {
        if |e.data| % 8 == 0 {
          RoundUp8Shift(|e.data|, |slot.value|);
        }
      }
      Encoded(e.sizes + [|slot.value|], Pad(d))
    else
      Encoded(e.sizes + [-1], e.data)
  }

  /** Pushing every slot in order, as both native loops do. */
  function Encode(slots: seq<Option<Bytes>>): (r: Encoded)
    ensures |r.sizes| == |slots|
    ensures forall i :: 0 <= i < |slots| ==> r.sizes[i] == SizeOf(slots[i])
    ensures |r.data| % 8 == 0
  {
    if slots == [] then Empty
    else Push(Encode(slots[..|slots| - 1]), slots[|slots| - 1])
  }

  /** Every present slot's chunk, in slot order. */
  function Chunks(slots: seq<Option<Bytes>>): Bytes {
    if slots == [] then [] else Chunk(slots[0]) + Chunks(slots[1..])
  }

  lemma {:induction false} ChunksAppend(slots: seq<Option<Bytes>>, s: Option<Bytes>)
    ensures Chunks(slots + [s]) == Chunks(slots) + Chunk(s)
    decreases |slots|
  {
    if slots == [] {
      assert [] + [s] == [s];
    } else {
      assert (slots + [s])[1..] == slots[1..] + [s];
      ChunksAppend(slots[1..], s);
    }
  }

  /** The data buffer is exactly the slots' chunks laid end to end. */
  lemma {:induction false} EncodeData(slots: seq<Option<Bytes>>)
    ensures Encode(slots).data == Chunks(slots)
    decreases |slots|
  {
    if slots != [] {
      var init := slots[..|slots| - 1];
      EncodeData(init);
      ChunksAppend(init, slots[|slots| - 1]);
      assert init + [slots[|slots| - 1]] == slots;
    }
  }

  /**
    Reading the two buffers back, slot by slot: -1 is an absent slot, and a
    size `n` takes `n` bytes and skips the padding after them.
   */
  function Decode(sizes: seq<int>, data: Bytes): Option<seq<Option<Bytes>>> {
    if sizes == [] then Some([])
    else if sizes[0] == -1 then
      match Decode(sizes[1..], data)
      case Some(rest) => Some([None] + rest)
      case None => None
    else if 0 <= sizes[0] && RoundUp8(sizes[0]) <= |data| then
      match Decode(sizes[1..], data[RoundUp8(sizes[0])..])
      case Some(rest) => Some([Some(data[..sizes[0]])] + rest)
      case None => None
    else None
  }

  /** The size list of `slots`, front to back. */
  function Sizes(slots: seq<Option<Bytes>>): (r: seq<int>)
    ensures |r| == |slots|
    ensures forall i :: 0 <= i < |slots| ==> r[i] == SizeOf(slots[i])
  {
    if slots == [] then [] else [SizeOf(slots[0])] + Sizes(slots[1..])
  }

  lemma {:induction false} DecodeChunks(slots: seq<Option<Bytes>>)
    ensures Decode(Sizes(slots), Chunks(slots)) == Some(slots)
    decreases |slots|
  {
    if slots != [] {
      DecodeChunks(slots[1..]);
      assert Sizes(slots)[1..] == Sizes(slots[1..]);
      var c := Chunk(slots[0]);
      assert Chunks(slots) == c + Chunks(slots[1..]);
      assert [slots[0]] + slots[1..] == slots;
      if slots[0].Some? {
        var v := slots[0].value;
        assert Sizes(slots)[0] == |v|;
        assert Chunks(slots)[RoundUp8(|v|)..] == Chunks(slots[1..]);
        assert Chunks(slots)[..|v|] == v;
        assert Decode(Sizes(slots), Chunks(slots))
            == Some([Some(v)] + slots[1..]);
      } else {
        assert Sizes(slots)[0] == -1;
        assert Chunks(slots) == Chunks(slots[1..]);
        assert Decode(Sizes(slots), Chunks(slots)) == Some([None] + slots[1..]);
      }
    }
  }

  /** Decoding what the native side encodes gives back every slot, in order. */
  lemma DecodeEncode(slots: seq<Option<Bytes>>)
    ensures Decode(Encode(slots).sizes, Encode(slots).data) == Some(slots)
  {
    EncodeData(slots);
    DecodeChunks(slots);
    assert Encode(slots).sizes == Sizes(slots);
  }

  // ---------------------------------------------------------------- db_get_many

  /** One `MultiGet` outcome: a value, or a status other than OK with an empty value. */
  datatype ReadResult = Found(value: Bytes) | Missing

  function ValueSize(l: ReadResult): nat {
    if l.Found? then |l.value| else 0
  }

  /** The bytes `db_get_many` reserves: every value size rounded up to a multiple of 8. */
  function Estimate(ls: seq<ReadResult>): nat {
    if ls == [] then 0 else RoundUp8(ValueSize(ls[0])) + Estimate(ls[1..])
  }

  function Slot(l: ReadResult): Option<Bytes> {
    if l.Found? then Some(l.value) else None
  }

  function Slots(ls: seq<ReadResult>): (r: seq<Option<Bytes>>)
    ensures |r| == |ls|
    ensures forall i :: 0 <= i < |ls| ==> r[i] == Slot(ls[i])
  {
    if ls == [] then [] else [Slot(ls[0])] + Slots(ls[1..])
  }

  /** The worker half of `db_get_many`: one pushed slot per looked-up key. */
  function GetMany(ls: seq<ReadResult>): (r: Encoded)
    ensures |r.sizes| == |ls|
    ensures forall i :: 0 <= i < |ls| ==> (r.sizes[i] == -1 <==> ls[i].Missing?)
    ensures forall i :: 0 <= i < |ls| && ls[i].Found? ==> r.sizes[i] == |ls[i].value|
    ensures |r.data| % 8 == 0
  {
    Encode(Slots(ls))
  }

  lemma {:induction false} EstimateIsChunks(ls: seq<ReadResult>)
    ensures Estimate(ls) == |Chunks(Slots(ls))|
    decreases |ls|
  {
    if ls != [] {
      EstimateIsChunks(ls[1..]);
      assert Slots(ls)[1..] == Slots(ls[1..]);
    }
  }

  /** The reservation `db_get_many` makes is exactly the size of the data it then writes. */
  lemma EstimateExact(ls: seq<ReadResult>)
    ensures Estimate(ls) == |GetMany(ls).data|
  {
    EstimateIsChunks(ls);
    EncodeData(Slots(ls));
  }

  /** The engine's answers for a list of keys read from one table. */
  function MultiGet(t: Table, keys: seq<Bytes>): (r: seq<ReadResult>)
    ensures |r| == |keys|
    ensures forall i :: 0 <= i < |keys| ==>
              (r[i].Found? <==> Lookup(t, keys[i]).Some?) &&
              (r[i].Found? ==> r[i].value == Lookup(t, keys[i]).value)
  {
    if keys == [] then []
    else
      var l := Lookup(t, keys[0]);
      [if l.Some? then Found(l.value) else Missing] + MultiGet(t, keys[1..])
  }

  /**
    Reading back the `db_get_many` buffers for keys looked up in a table gives
    one slot per key, in key order: the stored value, or nothing where the key
    is absent.
   */
  lemma GetManyPositional(t: Table, keys: seq<Bytes>)
    ensures var r := GetMany(MultiGet(t, keys));
            && Decode(r.sizes, r.data).Some?
            && |Decode(r.sizes, r.data).value| == |keys|
            && forall i :: 0 <= i < |keys| ==> Decode(r.sizes, r.data).value[i] == Lookup(t, keys[i])
  {
    DecodeEncode(Slots(MultiGet(t, keys)));
  }
}
