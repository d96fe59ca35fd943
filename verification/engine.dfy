/**
  The storage engine seen from the binding: one column family is an ordered map
  from byte strings to byte strings, written as a strictly ascending sequence of
  entries. Only the operations the binding relies on are defined here.
 */
module Engine {
  import opened Wrappers
  import opened Bytes
  import opened Bounds

  datatype Entry = Entry(key: Bytes, value: Bytes)

  predicate Ascending(s: seq<Entry>) {
    forall i, j :: 0 <= i < j < |s| ==> Less(s[i].key, s[j].key)
  }

  predicate Descending(s: seq<Entry>) {
    forall i, j :: 0 <= i < j < |s| ==> Less(s[j].key, s[i].key)
  }

  /** The contents of one column family, in key order. */
  type Table = s: seq<Entry> | Ascending(s) witness []

  function Keys(s: seq<Entry>): (r: seq<Bytes>)
    ensures |r| == |s|
    ensures forall i :: 0 <= i < |s| ==> r[i] == s[i].key
  {
    if s == [] then [] else [s[0].key] + Keys(s[1..])
  }

  /** The entries whose keys lie inside `b`, in the order of `s`. */
  function Within(s: seq<Entry>, b: Bounds): (r: seq<Entry>)
    ensures forall e :: e in r <==> e in s && InBounds(b, e.key)
    ensures Ascending(s) ==> Ascending(r)
    ensures |r| <= |s|
  {
    if s == [] then []
    else
      var rest := Within(s[1..], b);
      assert forall e :: e in s <==> e == s[0] || e in s[1..];
      if InBounds(b, s[0].key) then
        assert Ascending(s) ==> forall e :: e in rest ==> Less(s[0].key, e.key) by {
          if Ascending(s) {
            forall e | e in rest ensures Less(s[0].key, e.key) {
              var j :| 1 <= j < |s| && s[j] == e;
            }
          }
        }
        [s[0]] + rest
      else rest
  }

  /** The same entries in the opposite order. */
  function Reverse(s: seq<Entry>): (r: seq<Entry>)
    ensures |r| == |s|
    ensures forall i :: 0 <= i < |s| ==> r[i] == s[|s| - 1 - i]
  {
    if s == [] then [] else Reverse(s[1..]) + [s[0]]
  }

  lemma ReverseDescends(s: seq<Entry>)
    requires Ascending(s)
    ensures Descending(Reverse(s))
  {
  }

  /** The value stored under `k`, the outcome of a point read. */
  function Lookup(t: Table, k: Bytes): (r: Option<Bytes>)
    ensures r.Some? <==> exists e :: e in t && e.key == k
    ensures r.Some? ==> Entry(k, r.value) in t
  {
    if t == [] then None
    else if t[0].key == k then Some(t[0].value)
    else
      var rest: Table := t[1..];
      assert forall e :: e in t <==> e == t[0] || e in rest;
      Lookup(rest, k)
  }

  /** The table after a range delete of `[s.begin, s.end)`. */
  function DeleteSpan(t: Table, s: Span): (r: Table)
    ensures forall e :: e in r <==> e in t && !InSpan(s, e.key)
  {
    if t == [] then []
    else
      var rest: Table := t[1..];
      var tail := DeleteSpan(rest, s);
      assert forall e :: e in t <==> e == t[0] || e in rest;
      if InSpan(s, t[0].key) then tail
      else
        assert forall e :: e in tail ==> Less(t[0].key, e.key) by {
          forall e | e in tail ensures Less(t[0].key, e.key) {
            var j :| 1 <= j < |t| && t[j] == e;
          }
        }
        [t[0]] + tail
  }

  /** The table after deleting each key of `ks`. */
  function DeleteKeys(t: Table, ks: seq<Bytes>): (r: Table)
    ensures forall e :: e in r <==> e in t && e.key !in ks
  {
    if t == [] then []
    else
      var rest: Table := t[1..];
      var tail := DeleteKeys(rest, ks);
      assert forall e :: e in t <==> e == t[0] || e in rest;
      if t[0].key in ks then tail
      else
        assert forall e :: e in tail ==> Less(t[0].key, e.key) by {
          forall e | e in tail ensures Less(t[0].key, e.key) {
            var j :| 1 <= j < |t| && t[j] == e;
          }
        }
        [t[0]] + tail
  }
}
