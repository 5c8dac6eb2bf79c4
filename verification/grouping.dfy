/** Group-by counting, the model of `.values(field).annotate(count=Count("id"))`:
    one row per key that occurs, carrying the number of occurrences. */
module Grouping {
  import opened Seqs
  import opened Sorting

  datatype Row<K> = Row(key: K, count: nat)

  /** No two rows share a key, so the rows read as a dictionary. */
  ghost predicate DistinctKeys<K>(rows: seq<Row<K>>) {
    KeysDistinct(rows, RowKey)
  }

  function RowKey<K>(r: Row<K>): K {
    r.key
  }

  /** One row per key of `keys` that occurs in `xs`, in the order of `keys`; keys
      that do not occur get no row (no zero-filling). */
  function Group<K(==,!new)>(xs: seq<K>, keys: seq<K>): (rows: seq<Row<K>>)
    ensures forall r | r in rows :: r.key in keys && r.count >= 1 && r.count == Count(xs, r.key)
    ensures forall k | k in keys && k in xs :: Row(k, Count(xs, k)) in rows
    ensures NoDuplicates(keys) ==> DistinctKeys(rows)
  {
    if |keys| == 0 then []
    else
      var n := Count(xs, keys[0]);
      var rest := Group(xs, keys[1..]);
      assert keys == [keys[0]] + keys[1..];
      assert NoDuplicates(keys) ==> NoDuplicates(keys[1..]) && keys[0] !in keys[1..] by {
        if NoDuplicates(keys) {
          forall i, j | 0 <= i < j < |keys[1..]| ensures keys[1..][i] != keys[1..][j] {
            assert keys[1..][i] == keys[i + 1] && keys[1..][j] == keys[j + 1];
          }
        }
      }
      if n > 0 then
        assert forall i | 1 <= i < |[Row(keys[0], n)] + rest| :: ([Row(keys[0], n)] + rest)[i] in rest;
        [Row(keys[0], n)] + rest
      else rest
  }

  /** Total of the counts of `rows`. */
  function SumRows<K>(rows: seq<Row<K>>): nat {
    if |rows| == 0 then 0 else rows[0].count + SumRows(rows[1..])
  }

  /** Total number of occurrences in `xs` of the keys in `keys`. */
  function SumOver<K(==)>(xs: seq<K>, keys: seq<K>): nat {
    if |keys| == 0 then 0 else Count(xs, keys[0]) + SumOver(xs, keys[1..])
  }

  lemma {:induction false} GroupSumIsSumOver<K(!new)>(xs: seq<K>, keys: seq<K>)
    ensures SumRows(Group(xs, keys)) == SumOver(xs, keys)
  {
    if |keys| > 0 {
      GroupSumIsSumOver(xs, keys[1..]);
      var n := Count(xs, keys[0]);
      var rest := Group(xs, keys[1..]);
      if n > 0 {
        assert ([Row(keys[0], n)] + rest)[1..] == rest;
      }
    }
  }

  lemma {:induction false} SumOverCons<K>(x: K, xs: seq<K>, keys: seq<K>)
    ensures SumOver([x] + xs, keys) == Count(keys, x) + SumOver(xs, keys)
  {
    if |keys| > 0 {
      SumOverCons(x, xs, keys[1..]);
      assert ([x] + xs)[1..] == xs;
    }
  }

  /** When the keys are distinct and cover every element, the counts add up to |xs|. */
  lemma {:induction false} SumOverCovering<K>(xs: seq<K>, keys: seq<K>)
    requires NoDuplicates(keys)
    requires forall x | x in xs :: x in keys
    ensures SumOver(xs, keys) == |xs|
  {
    if |xs| == 0 {
      ZeroSumOver(xs, keys);
    } else {
      assert xs == [xs[0]] + xs[1..];
      SumOverCons(xs[0], xs[1..], keys);
      CountInDistinct(keys, xs[0]);
      SumOverCovering(xs[1..], keys);
    }
  }

  lemma {:induction false} ZeroSumOver<K>(xs: seq<K>, keys: seq<K>)
    requires |xs| == 0
    ensures SumOver(xs, keys) == 0
  {
    if |keys| > 0 {
      ZeroSumOver(xs, keys[1..]);
    }
  }

  /** Grouping over a duplicate-free key list that covers every element partitions
      `xs`: the row counts sum to |xs|. */
  lemma GroupPartitions<K(!new)>(xs: seq<K>, keys: seq<K>)
    requires NoDuplicates(keys)
    requires forall x | x in xs :: x in keys
    ensures SumRows(Group(xs, keys)) == |xs|
  {
    GroupSumIsSumOver(xs, keys);
    SumOverCovering(xs, keys);
  }

  lemma {:induction false} SumRowsInsert<K(!new)>(x: Row<K>, rows: seq<Row<K>>, key: Row<K> -> int)
    requires SortedByKey(rows, key)
    ensures SumRows(Insert(x, rows, key)) == x.count + SumRows(rows)
  {
    if |rows| > 0 && key(x) > key(rows[0]) {
      SumRowsInsert(x, rows[1..], key);
      assert ([rows[0]] + Insert(x, rows[1..], key))[1..] == Insert(x, rows[1..], key);
    } else if |rows| > 0 {
      assert ([x] + rows)[1..] == rows;
    }
  }

  /** Reordering the rows does not change their total. */
  lemma {:induction false} SumRowsSorted<K(!new)>(rows: seq<Row<K>>, key: Row<K> -> int)
    ensures SumRows(SortByKey(rows, key)) == SumRows(rows)
  {
    if |rows| > 0 {
      SumRowsSorted(rows[1..], key);
      SumRowsInsert(rows[0], SortByKey(rows[1..], key), key);
    }
  }
}
