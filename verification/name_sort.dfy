/** lodash `sortBy(rows, "name")` over the rows `search` returns, where a row
    is a client or `undefined`. lodash compares the `name` values with
    `compareAscending` (strings by `<`, `undefined` after every string) and
    breaks ties by original position, so the sort is stable. */
module NameSort {
  import opened Wrappers
  import opened Strings
  import opened Clients

  /** The value the `"name"` iteratee yields for a row. */
  datatype SortKey = Named(name: string) | Undefined

  function KeyOf(row: Option<Client>): SortKey {
    match row
    case Some(c) => Named(c.name)
    case None => Undefined
  }

  /** `compareAscending(a, b) < 0`. */
  predicate KeyLess(a: SortKey, b: SortKey) {
    match a
    case Undefined => false
    case Named(x) => b.Undefined? || Less(x, b.name)
  }

  /** `compareAscending(a, b) <= 0`. */
  predicate KeyLe(a: SortKey, b: SortKey) {
    !KeyLess(b, a)
  }

  lemma KeyLessIrreflexive(a: SortKey)
    ensures !KeyLess(a, a)
  {
    if a.Named? {
      LessIrreflexive(a.name);
    }
  }

  lemma KeyLessAsymmetric(a: SortKey, b: SortKey)
    requires KeyLess(a, b)
    ensures !KeyLess(b, a)
  {
    if a.Named? && b.Named? && KeyLess(b, a) {
      LessTransitive(a.name, b.name, a.name);
      LessIrreflexive(a.name);
    }
  }

  lemma KeyLeTransitive(a: SortKey, b: SortKey, c: SortKey)
    requires KeyLe(a, b) && KeyLe(b, c)
    ensures KeyLe(a, c)
  {
    if c.Named? && KeyLess(c, a) {
      var x, y, z := a.name, b.name, c.name;
      if y != z {
        LessTotal(y, z);
        LessTransitive(y, z, x);
      }
      if x != y {
        LessTotal(x, y);
      }
    }
  }

  /** Adjacent rows are in order. */
  predicate Ordered(rows: seq<Option<Client>>) {
    forall i :: 0 <= i < |rows| - 1 ==> KeyLe(KeyOf(rows[i]), KeyOf(rows[i + 1]))
  }

  /** Every row is in order with every later row. */
  ghost predicate SortedByName(rows: seq<Option<Client>>) {
    forall i, j :: 0 <= i < j < |rows| ==> KeyLe(KeyOf(rows[i]), KeyOf(rows[j]))
  }

  lemma {:induction false} OrderedIsSorted(rows: seq<Option<Client>>)
    requires Ordered(rows)
    ensures SortedByName(rows)
    decreases |rows|
  {
    if |rows| > 1 {
      var tail := rows[1..];
      assert Ordered(tail) by {
        forall i | 0 <= i < |tail| - 1
          ensures KeyLe(KeyOf(tail[i]), KeyOf(tail[i + 1]))
        {
          assert tail[i] == rows[i + 1] && tail[i + 1] == rows[i + 2];
        }
      }
      OrderedIsSorted(tail);
      forall i, j | 0 <= i < j < |rows|
        ensures KeyLe(KeyOf(rows[i]), KeyOf(rows[j]))
      {
        if i == 0 && j > 1 {
          assert rows[1] == tail[0] && rows[j] == tail[j - 1];
          KeyLeTransitive(KeyOf(rows[0]), KeyOf(rows[1]), KeyOf(rows[j]));
        } else if i > 0 {
          assert rows[i] == tail[i - 1] && rows[j] == tail[j - 1];
        }
      }
    }
  }

  /** Places `row` before the first row of `rows` that is not strictly
      smaller, so it precedes every row with an equal key. */
  function Insert(row: Option<Client>, rows: seq<Option<Client>>): (r: seq<Option<Client>>)
    requires Ordered(rows)
    ensures |r| == |rows| + 1 && Ordered(r)
    ensures multiset(r) == multiset(rows) + multiset{row}
    ensures r[0] == row || (|rows| > 0 && r[0] == rows[0])
    decreases |rows|
  {
    if |rows| == 0 then [row]
    else if KeyLess(KeyOf(rows[0]), KeyOf(row)) then
      KeyLessAsymmetric(KeyOf(rows[0]), KeyOf(row));
      var t := Insert(row, rows[1..]);
      assert rows == [rows[0]] + rows[1..];
      [rows[0]] + t
    else
      [row] + rows
  }

  /** `sortBy(rows, "name")`: a stable insertion sort, earlier rows going
      first among equal keys. */
  function SortByName(rows: seq<Option<Client>>): (r: seq<Option<Client>>)
    ensures |r| == |rows|
    ensures multiset(r) == multiset(rows)
    ensures Ordered(r) && SortedByName(r)
    decreases |rows|
  {
    if |rows| == 0 then []
    else
      var r := Insert(rows[0], SortByName(rows[1..]));
      assert rows == [rows[0]] + rows[1..];
      OrderedIsSorted(r);
      r
  }

  /** The rows whose key is `k`, in their relative order. */
  function WithKey(rows: seq<Option<Client>>, k: SortKey): seq<Option<Client>>
    decreases |rows|
  {
    if |rows| == 0 then []
    else (if KeyOf(rows[0]) == k then [rows[0]] else []) + WithKey(rows[1..], k)
  }

  lemma {:induction false} InsertWithKey(row: Option<Client>, rows: seq<Option<Client>>, k: SortKey)
    requires Ordered(rows)
    ensures WithKey(Insert(row, rows), k)
         == (if KeyOf(row) == k then [row] else []) + WithKey(rows, k)
    decreases |rows|
  {
    if |rows| == 0 {
    } else if KeyLess(KeyOf(rows[0]), KeyOf(row)) {
      var t := Insert(row, rows[1..]);
      assert Insert(row, rows) == [rows[0]] + t;
      assert ([rows[0]] + t)[1..] == t;
      InsertWithKey(row, rows[1..], k);
      if KeyOf(row) == k {
        KeyLessIrreflexive(k);
      }
    } else {
      assert ([row] + rows)[1..] == rows;
    }
  }

  /** Stability: for every key, the rows carrying it keep their relative
      order, so sorting only moves rows past rows with other keys. */
  lemma {:induction false} SortByNameIsStable(rows: seq<Option<Client>>, k: SortKey)
    ensures WithKey(SortByName(rows), k) == WithKey(rows, k)
    decreases |rows|
  {
    if |rows| > 0 {
      SortByNameIsStable(rows[1..], k);
      InsertWithKey(rows[0], SortByName(rows[1..]), k);
    }
  }
}
