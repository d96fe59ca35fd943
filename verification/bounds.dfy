/**
  Range options (`lt`, `lte`, `gt`, `gte`) and the half-open key interval the
  native iterator and `db_clear` build from them.
 */
module Bounds {
  import opened Wrappers
  import opened Bytes

  /** The four range options as the caller passes them; any may be missing. */
  datatype RangeOptions = RangeOptions(
    lt: Option<Bytes>,
    lte: Option<Bytes>,
    gt: Option<Bytes>,
    gte: Option<Bytes>)

  /** An inclusive lower bound and an exclusive upper bound, either optional. */
  datatype Bounds = Bounds(lower: Option<Bytes>, upper: Option<Bytes>)

  /** The caller's meaning of the options: `lte` wins over `lt`, `gte` over `gt`. */
  predicate Admits(o: RangeOptions, k: Bytes) {
    && (if o.lte.Some? then LessEq(k, o.lte.value)
        else if o.lt.Some? then Less(k, o.lt.value)
        else true)
    && (if o.gte.Some? then LessEq(o.gte.value, k)
        else if o.gt.Some? then Less(o.gt.value, k)
        else true)
  }

  /** The exclusive upper bound of the `BaseIterator` constructor. */
  function UpperBound(o: RangeOptions): Option<Bytes> {
    if o.lte.Some? then Some(o.lte.value + [0])
    else o.lt
  }

  /** The inclusive lower bound of the `BaseIterator` constructor. */
  function LowerBound(o: RangeOptions): Option<Bytes> {
    if o.gte.Some? then o.gte
    else if o.gt.Some? then Some(o.gt.value + [0])
    else None
  }

  function MakeBounds(o: RangeOptions): Bounds {
    Bounds(LowerBound(o), UpperBound(o))
  }

  predicate AboveLower(b: Bounds, k: Bytes) {
    b.lower.None? || LessEq(b.lower.value, k)
  }

  predicate BelowUpper(b: Bounds, k: Bytes) {
    b.upper.None? || Less(k, b.upper.value)
  }

  /** A key lies inside the bounds the engine iterator is given. */
  predicate InBounds(b: Bounds, k: Bytes) {
    AboveLower(b, k) && BelowUpper(b, k)
  }

  /**
    The exclusive upper bound admits exactly the keys the upper options ask
    for: at or below `lte` when it is given, else strictly below `lt`.
   */
  lemma UpperBoundAdmits(o: RangeOptions, k: Bytes)
    ensures o.lte.Some? ==> (BelowUpper(MakeBounds(o), k) <==> LessEq(k, o.lte.value))
    ensures o.lte.None? && o.lt.Some? ==> (BelowUpper(MakeBounds(o), k) <==> Less(k, o.lt.value))
    ensures o.lte.None? && o.lt.None? ==> BelowUpper(MakeBounds(o), k)
  {
    if o.lte.Some? {
      BelowSuccessor(k, o.lte.value);
    }
  }

  /**
    The inclusive lower bound admits exactly the keys the lower options ask
    for: at or above `gte` when it is given, else strictly above `gt`.
   */
  lemma LowerBoundAdmits(o: RangeOptions, k: Bytes)
    ensures o.gte.Some? ==> (AboveLower(MakeBounds(o), k) <==> LessEq(o.gte.value, k))
    ensures o.gte.None? && o.gt.Some? ==> (AboveLower(MakeBounds(o), k) <==> Less(o.gt.value, k))
    ensures o.gte.None? && o.gt.None? ==> AboveLower(MakeBounds(o), k)
  {
    if o.gte.None? && o.gt.Some? {
      SuccessorAtOrBelow(o.gt.value, k);
    }
  }

  /** The bounds admit a key exactly when the caller's options do. */
  lemma BoundsMatchOptions(o: RangeOptions, k: Bytes)
    ensures InBounds(MakeBounds(o), k) <==> Admits(o, k)
  {
    UpperBoundAdmits(o, k);
    LowerBoundAdmits(o, k);
  }

  /** Number of 0xFF bytes `db_clear` uses as the end of an unbounded range. */
  const ClearFillLength: nat := 1_000_000

  /** The `[begin, end)` pair `db_clear` hands to a range delete when `limit` is -1. */
  datatype Span = Span(begin: Bytes, end: Bytes)

  function ClearSpan(o: RangeOptions): Span {
    var begin :=
      if o.gte.Some? then o.gte.value
      else if o.gt.Some? then o.gt.value + [0]
      else [];
    var end :=
      if o.lte.Some? then o.lte.value + [0]
      else if o.lt.Some? then o.lt.value
      else Fill(ClearFillLength);
    Span(begin, end)
  }

  /** `k` starts with the million 0xFF bytes that end an unbounded clear. */
  predicate PastFill(k: Bytes) {
    IsPrefix(Fill(ClearFillLength), k)
  }

  predicate InSpan(s: Span, k: Bytes) {
    LessEq(s.begin, k) && Less(k, s.end)
  }

  /**
    The range delete of `db_clear` covers exactly the keys the options admit,
    except that without an upper option it stops short of keys that start with
    a million 0xFF bytes.
   */
  lemma ClearSpanMatchesOptions(o: RangeOptions, k: Bytes)
    ensures InSpan(ClearSpan(o), k) <==>
              (Admits(o, k) && (o.lte.None? && o.lt.None? ==> !PastFill(k)))
  {
    var s := ClearSpan(o);
    if o.lte.Some? {
      BelowSuccessor(k, o.lte.value);
    } else if o.lt.None? {
      BelowFill(k, ClearFillLength);
    }
    if o.gte.None? && o.gt.Some? {
      SuccessorAtOrBelow(o.gt.value, k);
    } else if o.gte.None? {
      if k != [] {
        assert Less([], k);
      }
    }
  }

  /** When the begin of the span does not sort below its end, the span holds no key. */
  lemma EmptySpan(s: Span, k: Bytes)
    requires !Less(s.begin, s.end)
    ensures !InSpan(s, k)
  {
    if InSpan(s, k) {
      LessEqLess(s.begin, k, s.end);
    }
  }
}
