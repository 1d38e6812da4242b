/**
 * Ordering history records by timestamp, in either direction. This is the
 * `ORDER BY timestamp ASC|DESC` of the derived repository queries and the
 * `sorted(comparing(getTimestamp).reversed())` step of the history listing.
 * The sort is an insertion sort; its contract states only the order and
 * that it is a permutation.
 */
module Ordering {
  import opened Entities

  /** `a` may come before `b`: oldest first, or newest first. */
  predicate Precedes(a: HistoryRecord, b: HistoryRecord, newestFirst: bool) {
    if newestFirst then a.timestamp >= b.timestamp else a.timestamp <= b.timestamp
  }

  predicate Sorted(s: seq<HistoryRecord>, newestFirst: bool) {
    forall i, j :: 0 <= i < j < |s| ==> Precedes(s[i], s[j], newestFirst)
  }

  /** Puts `x` before the first element it may precede. */
  function Insert(x: HistoryRecord, s: seq<HistoryRecord>, newestFirst: bool): (r: seq<HistoryRecord>)
    ensures multiset(r) == multiset(s) + multiset{x}
  {
    if s == [] then [x]
    else if Precedes(x, s[0], newestFirst) then [x] + s
    else
      assert s == [s[0]] + s[1..];
      [s[0]] + Insert(x, s[1..], newestFirst)
  }

  /** Inserting into a sorted sequence keeps it sorted. */
  lemma {:induction false} InsertKeepsSorted(x: HistoryRecord, s: seq<HistoryRecord>, newestFirst: bool)
    requires Sorted(s, newestFirst)
    ensures Sorted(Insert(x, s, newestFirst), newestFirst)
  {
    if s != [] && !Precedes(x, s[0], newestFirst) {
      InsertKeepsSorted(x, s[1..], newestFirst);
      var rest := Insert(x, s[1..], newestFirst);
      forall y | y in rest ensures Precedes(s[0], y, newestFirst) {
        assert y in multiset(rest);
        if y != x {
          assert y in s[1..];
        }
      }
    }
  }

  /** Sorts by timestamp: the result is a permutation of `s` in the requested order. */
  function SortByTimestamp(s: seq<HistoryRecord>, newestFirst: bool): (r: seq<HistoryRecord>)
    ensures Sorted(r, newestFirst)
    ensures multiset(r) == multiset(s)
  {
    if s == [] then []
    else
      assert s == [s[0]] + s[1..];
      var rest := SortByTimestamp(s[1..], newestFirst);
      InsertKeepsSorted(s[0], rest, newestFirst);
      Insert(s[0], rest, newestFirst)
  }
}
