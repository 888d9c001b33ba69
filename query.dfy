/** Option and Result, and the relational building blocks the handlers' SQL statements use
    over tables held as sequences of rows: WHERE (Filter), SUM (Sum), ORDER BY ... DESC
    (SortDesc) and LIMIT (Limit). */
module Query {

  datatype Option<+T> = None | Some(value: T)

  datatype Result<+T, +E> = Success(value: T) | Failure(error: E)

  /** The rows of `s` that satisfy `p`, in their original order. */
  function Filter<T(!new)>(s: seq<T>, p: T -> bool): (r: seq<T>)
    ensures |r| <= |s|
    ensures forall x :: x in r <==> x in s && p(x)
  {
    if s == [] then [] else (if p(s[0]) then [s[0]] else []) + Filter(s[1..], p)
  }

  /** Filtering a sequence with a first row decides that row and filters the rest. */
  lemma FilterCons<T(!new)>(x: T, s: seq<T>, p: T -> bool)
    ensures Filter([x] + s, p) == (if p(x) then [x] else []) + Filter(s, p)
  {
    assert ([x] + s)[0] == x && ([x] + s)[1..] == s;
  }

  lemma {:induction false} FilterAppend<T(!new)>(a: seq<T>, b: seq<T>, p: T -> bool)
    ensures Filter(a + b, p) == Filter(a, p) + Filter(b, p)
  {
    if a == [] {
      assert a + b == b;
    } else {
      var x, rest := a[0], a[1..];
      var head := if p(x) then [x] else [];
      calc {
        Filter(a + b, p);
        { assert a + b == [x] + (rest + b); }
        Filter([x] + (rest + b), p);
        { FilterCons(x, rest + b, p); }
        head + Filter(rest + b, p);
        { FilterAppend(rest, b, p); }
        head + (Filter(rest, p) + Filter(b, p));
        (head + Filter(rest, p)) + Filter(b, p);
        { FilterCons(x, rest, p); assert a == [x] + rest; }
        Filter(a, p) + Filter(b, p);
      }
    }
  }

  /** A filter that rejects nothing is the identity. */
  lemma {:induction false} FilterKeepsAll<T(!new)>(s: seq<T>, p: T -> bool)
    requires forall x :: x in s ==> p(x)
    ensures Filter(s, p) == s
  {
    if s != [] {
      assert forall x :: x in s[1..] ==> x in s;
      FilterKeepsAll(s[1..], p);
    }
  }

  /** A filter that keeps nothing yields no rows. */
  lemma FilterKeepsNone<T(!new)>(s: seq<T>, p: T -> bool)
    requires forall x :: x in s ==> !p(x)
    ensures Filter(s, p) == []
  {
  }

  /** Sum of `f` over the rows of `s` (SQL SUM, or a JavaScript reduce from 0). */
  function Sum<T>(s: seq<T>, f: T -> int): int
  {
    if s == [] then 0 else f(s[0]) + Sum(s[1..], f)
  }

  lemma {:induction false} SumAppend<T>(a: seq<T>, b: seq<T>, f: T -> int)
    ensures Sum(a + b, f) == Sum(a, f) + Sum(b, f)
  {
    if a != [] {
      assert (a + b)[0] == a[0];
      assert (a + b)[1..] == a[1..] + b;
      SumAppend(a[1..], b, f);
    } else {
      assert a + b == b;
    }
  }

  /** JavaScript `s.reduce((acc, x) => acc + f(x), acc)`: a running total, left to right. */
  function Reduce<T>(s: seq<T>, f: T -> int, acc: int): int
  {
    if s == [] then acc else Reduce(s[1..], f, acc + f(s[0]))
  }

  /** The running total ends at its start value plus the sum. */
  lemma {:induction false} ReduceIsSum<T>(s: seq<T>, f: T -> int, acc: int)
    ensures Reduce(s, f, acc) == acc + Sum(s, f)
  {
    if s != [] {
      ReduceIsSum(s[1..], f, acc + f(s[0]));
    }
  }

  /** `f` on the rows that satisfy `p`, 0 on the others. */
  function Where<T>(p: T -> bool, f: T -> int): T -> int
  {
    (x: T) => if p(x) then f(x) else 0
  }

  /** Summing the filtered rows is summing every row with the rejected ones counted as 0. */
  lemma {:induction false} SumFilter<T(!new)>(s: seq<T>, p: T -> bool, f: T -> int)
    ensures Sum(Filter(s, p), f) == Sum(s, Where(p, f))
  {
    if s != [] {
      SumFilter(s[1..], p, f);
      SumAppend(if p(s[0]) then [s[0]] else [], Filter(s[1..], p), f);
    }
  }

  /** Replacing the row at `k` by `x` changes the filtered sum and count by exactly what
      the old and new rows contribute. */
  lemma FilterReplace<T(!new)>(s: seq<T>, k: nat, x: T, p: T -> bool, f: T -> int)
    requires k < |s|
    ensures Sum(Filter(s[k := x], p), f) ==
              Sum(Filter(s, p), f) - (if p(s[k]) then f(s[k]) else 0) + (if p(x) then f(x) else 0)
    ensures |Filter(s[k := x], p)| ==
              |Filter(s, p)| - (if p(s[k]) then 1 else 0) + (if p(x) then 1 else 0)
  {
    var a, b := s[..k], s[k + 1..];
    assert s == (a + [s[k]]) + b;
    assert s[k := x] == (a + [x]) + b;
    assert Filter([s[k]], p) == if p(s[k]) then [s[k]] else [];
    assert Filter([x], p) == if p(x) then [x] else [];
    FilterAppend(a + [s[k]], b, p);
    FilterAppend(a, [s[k]], p);
    FilterAppend(a + [x], b, p);
    FilterAppend(a, [x], p);
    SumAppend(Filter(a, p) + Filter([s[k]], p), Filter(b, p), f);
    SumAppend(Filter(a, p), Filter([s[k]], p), f);
    SumAppend(Filter(a, p) + Filter([x], p), Filter(b, p), f);
    SumAppend(Filter(a, p), Filter([x], p), f);
  }

  /** Splitting rows by a predicate splits their sum. */
  lemma {:induction false} SumPartition<T(!new)>(s: seq<T>, p: T -> bool, q: T -> bool, f: T -> int)
    requires forall x :: q(x) == !p(x)
    ensures Sum(s, f) == Sum(Filter(s, p), f) + Sum(Filter(s, q), f)
  {
    if s != [] {
      SumPartition(s[1..], p, q, f);
      var head := if p(s[0]) then [s[0]] else [];
      var rest := Filter(s[1..], p);
      SumAppend(head, rest, f);
      SumAppend(if q(s[0]) then [s[0]] else [], Filter(s[1..], q), f);
    }
  }

  /** No two rows of `s` share a key. */
  predicate Distinct<T, K(==)>(s: seq<T>, key: T -> K)
  {
    forall i, j :: 0 <= i < j < |s| ==> key(s[i]) != key(s[j])
  }

  /** Deleting rows never makes two remaining rows share a key. */
  lemma {:induction false} FilterDistinct<T(!new), K>(s: seq<T>, p: T -> bool, key: T -> K)
    requires Distinct(s, key)
    ensures Distinct(Filter(s, p), key)
  {
    if s != [] {
      FilterDistinct(s[1..], p, key);
      var rest := Filter(s[1..], p);
      forall y | y in rest
        ensures key(y) != key(s[0])
      {
        var j :| 0 <= j < |s[1..]| && s[1..][j] == y;
        assert s[j + 1] == y;
      }
    }
  }

  /** The joined rows one row yields: its combination with its match, or none. */
  function JoinedRow<T, K, V, R>(x: T, table: map<K, V>, key: T -> K, view: (T, V) -> R): seq<R>
  {
    if key(x) in table then [view(x, table[key(x)])] else []
  }

  /** The inner join of `rows` with a table: each row whose `key` is in the table, in row
      order, combined with its match by `view`; a row without a match is dropped. */
  function InnerJoin<T(!new), K, V, R(!new)>(rows: seq<T>, table: map<K, V>, key: T -> K, view: (T, V) -> R)
    : (r: seq<R>)
    ensures |r| <= |rows|
    ensures forall x :: x in rows && key(x) in table ==> view(x, table[key(x)]) in r
    ensures forall y :: y in r ==> exists x :: x in rows && key(x) in table && y == view(x, table[key(x)])
  {
    if rows == [] then []
    else
      var x := rows[0];
      var rest := InnerJoin(rows[1..], table, key, view);
      assert forall x' :: x' in rows <==> x' == x || x' in rows[1..];
      JoinedRow(x, table, key, view) + rest
  }

  /** Joining a sequence with a first row joins that row and then the rest. */
  lemma InnerJoinCons<T(!new), K, V, R(!new)>(x: T, s: seq<T>, table: map<K, V>, key: T -> K, view: (T, V) -> R)
    ensures InnerJoin([x] + s, table, key, view) == JoinedRow(x, table, key, view) + InnerJoin(s, table, key, view)
  {
    assert ([x] + s)[0] == x && ([x] + s)[1..] == s;
  }

  /** The join works row by row: joining two runs of rows is joining each and
      concatenating, so every matched row yields exactly one joined row, in place. */
  lemma {:induction false} InnerJoinAppend<T(!new), K, V, R(!new)>(
    a: seq<T>, b: seq<T>, table: map<K, V>, key: T -> K, view: (T, V) -> R)
    ensures InnerJoin(a + b, table, key, view) == InnerJoin(a, table, key, view) + InnerJoin(b, table, key, view)
  {
    if a == [] {
      assert a + b == b;
    } else {
      var x, rest := a[0], a[1..];
      var head := JoinedRow(x, table, key, view);
      calc {
        InnerJoin(a + b, table, key, view);
        { assert a + b == [x] + (rest + b); }
        InnerJoin([x] + (rest + b), table, key, view);
        { InnerJoinCons(x, rest + b, table, key, view); }
        head + InnerJoin(rest + b, table, key, view);
        { InnerJoinAppend(rest, b, table, key, view); }
        head + (InnerJoin(rest, table, key, view) + InnerJoin(b, table, key, view));
        (head + InnerJoin(rest, table, key, view)) + InnerJoin(b, table, key, view);
        { InnerJoinCons(x, rest, table, key, view); assert a == [x] + rest; }
        InnerJoin(a, table, key, view) + InnerJoin(b, table, key, view);
      }
    }
  }

  /** Keys never increase from left to right. */
  predicate SortedDesc<T>(s: seq<T>, key: T -> int)
  {
    forall i, j :: 0 <= i < j < |s| ==> key(s[i]) >= key(s[j])
  }

  /** `x` placed before the first row whose key is not larger than its own. */
  function Insert<T>(x: T, s: seq<T>, key: T -> int): (r: seq<T>)
    ensures |r| == |s| + 1
    ensures multiset(r) == multiset(s) + multiset{x}
  {
    if s == [] || key(x) >= key(s[0]) then [x] + s
    else
      assert s == [s[0]] + s[1..];
      [s[0]] + Insert(x, s[1..], key)
  }

  /** Inserting into a sorted sequence keeps it sorted, and puts either `x` or the old
      first row first. */
  lemma {:induction false} InsertSorted<T>(x: T, s: seq<T>, key: T -> int)
    requires SortedDesc(s, key)
    ensures SortedDesc(Insert(x, s, key), key)
    ensures Insert(x, s, key)[0] == x || (s != [] && Insert(x, s, key)[0] == s[0])
  {
    var r := Insert(x, s, key);
    if s == [] || key(x) >= key(s[0]) {
      assert r == [x] + s;
      forall i, j | 0 <= i < j < |r| ensures key(r[i]) >= key(r[j]) {
        if i == 0 {
          assert r[j] == s[j - 1];
          assert key(s[0]) >= key(s[j - 1]) || j == 1;
        } else {
          assert r[i] == s[i - 1] && r[j] == s[j - 1];
        }
      }
    } else {
      var rest := s[1..];
      assert SortedDesc(rest, key) by {
        forall i, j | 0 <= i < j < |rest| ensures key(rest[i]) >= key(rest[j]) {
          assert rest[i] == s[i + 1] && rest[j] == s[j + 1];
        }
      }
      InsertSorted(x, rest, key);
      var tail := Insert(x, rest, key);
      assert r == [s[0]] + tail;
      assert key(s[0]) >= key(tail[0]) by {
        if tail[0] != x {
          assert tail[0] == s[1];
        }
      }
      forall i, j | 0 <= i < j < |r| ensures key(r[i]) >= key(r[j]) {
        assert r[j] == tail[j - 1];
        if i == 0 {
          assert key(tail[0]) >= key(tail[j - 1]) || j == 1;
        } else {
          assert r[i] == tail[i - 1];
        }
      }
    }
  }

  /** The rows of `s` reordered by `key`, largest first (ORDER BY key DESC). */
  function SortDesc<T>(s: seq<T>, key: T -> int): (r: seq<T>)
    ensures |r| == |s|
    ensures multiset(r) == multiset(s)
    ensures SortedDesc(r, key)
  {
    if s == [] then []
    else
      assert s == [s[0]] + s[1..];
      var sorted := SortDesc(s[1..], key);
      InsertSorted(s[0], sorted, key);
      Insert(s[0], sorted, key)
  }

  /** Two orderings of the same rows hold the same rows. */
  lemma SameRows<T>(a: seq<T>, b: seq<T>)
    requires multiset(a) == multiset(b)
    ensures forall x :: x in a <==> x in b
  {
    forall x ensures x in a <==> x in b {
      assert x in a <==> x in multiset(a);
      assert x in b <==> x in multiset(b);
    }
  }

  /** The first `n` rows of `s`, or all of them when there are fewer (SQL LIMIT). */
  function Limit<T>(s: seq<T>, n: nat): (r: seq<T>)
    ensures |r| == if |s| < n then |s| else n
    ensures r <= s
    ensures multiset(r) <= multiset(s)
  {
    if |s| <= n then s
    else
      assert s == s[..n] + s[n..];
      s[..n]
  }

  /** A prefix of a sorted sequence is sorted and holds only rows of the sequence. */
  lemma LimitOfSorted<T>(s: seq<T>, key: T -> int, n: nat)
    requires SortedDesc(s, key)
    ensures SortedDesc(Limit(s, n), key)
    ensures forall x :: x in Limit(s, n) ==> x in s
  {
    var r := Limit(s, n);
    assert forall i :: 0 <= i < |r| ==> r[i] == s[i];
  }

  /** Sorting and then keeping the first `n` rows keeps the `n` largest keys: every row
      left out has a key no greater than every row kept. */
  lemma LimitKeepsLargest<T>(s: seq<T>, key: T -> int, n: nat)
    ensures var kept := Limit(SortDesc(s, key), n);
            forall y, x :: y in multiset(s) - multiset(kept) && x in kept ==> key(y) <= key(x)
  {
    var sorted := SortDesc(s, key);
    PrefixKeepsLargest(s, sorted, Limit(sorted, n), key);
  }

  /** A prefix of a sorted reordering of `s` keeps rows no smaller than those it leaves. */
  lemma PrefixKeepsLargest<T>(s: seq<T>, sorted: seq<T>, kept: seq<T>, key: T -> int)
    requires multiset(sorted) == multiset(s) && SortedDesc(sorted, key) && kept <= sorted
    ensures forall y, x :: y in multiset(s) - multiset(kept) && x in kept ==> key(y) <= key(x)
  {
    var rest := sorted[|kept|..];
    assert sorted == kept + rest;
    Leftover(s, kept, rest);
    SortedSplit(kept, rest, key);
    forall y, x | y in multiset(s) - multiset(kept) && x in kept
      ensures key(y) <= key(x)
    {
      assert y in multiset(rest);
    }
  }

  /** What a prefix leaves of a reordering of `s` is the rest of it. */
  lemma Leftover<T>(s: seq<T>, kept: seq<T>, rest: seq<T>)
    requires multiset(s) == multiset(kept + rest)
    ensures multiset(s) - multiset(kept) == multiset(rest)
  {
    assert multiset(kept + rest) == multiset(kept) + multiset(rest);
  }

  /** In a sorted sequence, no row of a tail has a larger key than a row before it. */
  lemma SortedSplit<T>(kept: seq<T>, rest: seq<T>, key: T -> int)
    requires SortedDesc(kept + rest, key)
    ensures forall y, x :: y in rest && x in kept ==> key(y) <= key(x)
  {
    var t := kept + rest;
    forall y, x | y in rest && x in kept
      ensures key(y) <= key(x)
    {
      var j :| 0 <= j < |rest| && rest[j] == y;
      var i :| 0 <= i < |kept| && kept[i] == x;
      assert t[i] == x && t[|kept| + j] == y;
    }
  }
}
