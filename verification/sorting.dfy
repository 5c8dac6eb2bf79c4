/** Ordering a sequence by an integer key, the model of a queryset `order_by`.
    A descending order is an ascending order on the negated key. */
module Sorting {
  import opened Seqs

  /** Keys never decrease along `s`. */
  ghost predicate SortedByKey<T>(s: seq<T>, key: T -> int) {
    forall i, j | 0 <= i < j < |s| :: key(s[i]) <= key(s[j])
  }

  /** Puts `x` into the sorted `s` before the first element whose key is not smaller. */
  function Insert<T(==,!new)>(x: T, s: seq<T>, key: T -> int): (r: seq<T>)
    requires SortedByKey(s, key)
    ensures SortedByKey(r, key)
    ensures multiset(r) == multiset(s) + multiset{x}
    ensures |r| == |s| + 1
    ensures forall y :: y in r <==> y == x || y in s
  {
    if |s| == 0 then [x]
    else if key(x) <= key(s[0]) then [x] + s
    else
      var rest := Insert(x, s[1..], key);
      assert s == [s[0]] + s[1..];
      HeadIsLeast(s, key);
      [s[0]] + rest
  }

  /** The head of a sorted sequence has the least key. */
  lemma HeadIsLeast<T>(s: seq<T>, key: T -> int)
    requires SortedByKey(s, key)
    requires |s| > 0
    ensures forall y | y in s[1..] :: key(s[0]) <= key(y)
  {
    forall y | y in s[1..] ensures key(s[0]) <= key(y) {
      var k :| 0 <= k < |s[1..]| && s[1..][k] == y;
      assert s[k + 1] == y;
    }
  }

  /** Insertion sort by `key`: the same elements, keys ascending. */
  function SortByKey<T(==,!new)>(s: seq<T>, key: T -> int): (r: seq<T>)
    ensures SortedByKey(r, key)
    ensures multiset(r) == multiset(s)
    ensures |r| == |s|
    ensures forall x :: x in r <==> x in s
  {
    if |s| == 0 then []
    else
      assert s == [s[0]] + s[1..];
      Insert(s[0], SortByKey(s[1..], key), key)
  }

  /** Inserting an element with a new key keeps keys distinct. */
  lemma {:induction false} InsertKeepsKeysDistinct<T(!new), K>(x: T, s: seq<T>, sortKey: T -> int, key: T -> K)
    requires SortedByKey(s, sortKey)
    requires KeysDistinct(s, key)
    requires forall y | y in s :: key(y) != key(x)
    ensures KeysDistinct(Insert(x, s, sortKey), key)
  {
    if |s| == 0 {
    } else if sortKey(x) <= sortKey(s[0]) {
      ConsKeysDistinct(x, s, key);
    } else {
      TailKeysDistinct(s, key);
      TailSorted(s, sortKey);
      assert forall y | y in s[1..] :: y in s;
      InsertKeepsKeysDistinct(x, s[1..], sortKey, key);
      ConsKeysDistinct(s[0], Insert(x, s[1..], sortKey), key);
    }
  }

  /** Sorting keeps keys distinct. */
  lemma {:induction false} SortKeepsKeysDistinct<T(!new), K>(s: seq<T>, sortKey: T -> int, key: T -> K)
    requires KeysDistinct(s, key)
    ensures KeysDistinct(SortByKey(s, sortKey), key)
  {
    if |s| > 0 {
      TailKeysDistinct(s, key);
      SortKeepsKeysDistinct(s[1..], sortKey, key);
      InsertKeepsKeysDistinct(s[0], SortByKey(s[1..], sortKey), sortKey, key);
    }
  }

  /** A filter of a sorted sequence is sorted. */
  lemma {:induction false} FilterKeepsSorted<T(!new)>(s: seq<T>, p: T -> bool, key: T -> int)
    requires SortedByKey(s, key)
    ensures SortedByKey(Filter(s, p), key)
  {
    if |s| > 0 {
      TailSorted(s, key);
      FilterKeepsSorted(s[1..], p, key);
      if p(s[0]) {
        ConsSorted(s[0], Filter(s[1..], p), key);
      }
    }
  }

  /** The tail of a sorted sequence is sorted, and its head has the least key. */
  lemma TailSorted<T>(s: seq<T>, key: T -> int)
    requires SortedByKey(s, key)
    requires |s| > 0
    ensures SortedByKey(s[1..], key)
    ensures forall y | y in s[1..] :: key(s[0]) <= key(y)
  {
    forall i, j | 0 <= i < j < |s[1..]| ensures key(s[1..][i]) <= key(s[1..][j]) {
      assert s[1..][i] == s[i + 1] && s[1..][j] == s[j + 1];
    }
    HeadIsLeast(s, key);
  }

  /** An element whose key is at most every key of the sorted `s` may go in front. */
  lemma ConsSorted<T>(x: T, s: seq<T>, key: T -> int)
    requires SortedByKey(s, key)
    requires forall y | y in s :: key(x) <= key(y)
    ensures SortedByKey([x] + s, key)
  {
    var r := [x] + s;
    forall i, j | 0 <= i < j < |r| ensures key(r[i]) <= key(r[j]) {
      assert r[j] == s[j - 1] && r[j] in s;
      if i > 0 {
        assert r[i] == s[i - 1];
      }
    }
  }
}
