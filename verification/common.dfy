/** Small shared vocabulary: optional values, an order-preserving filter and a
    descending sort by an integer key. The handlers use the filter for SQL
    WHERE/HAVING clauses and the sort for ORDER BY ... DESC. */
module Common {

  /** A value that may be absent (a missing JSON field, a NULL, a NaN). */
  datatype Option<+T> = None | Some(value: T)

  /** The elements of `xs` that satisfy `p`, in their original order. */
  function Filter<T>(xs: seq<T>, p: T -> bool): (r: seq<T>)
    ensures |r| <= |xs|
    ensures forall i :: 0 <= i < |r| ==> r[i] in xs && p(r[i])
    ensures forall i :: 0 <= i < |xs| && p(xs[i]) ==> xs[i] in r
    ensures multiset(r) <= multiset(xs)
  {
    if |xs| == 0 then []
    else
      var rest := Filter(xs[1..], p);
      var r := if p(xs[0]) then [xs[0]] + rest else rest;
      FilterStep(xs, p, rest, r);
      r
  }

  /** The step of Filter: what holds of the filtered tail carries over to
      the whole list, with its head kept exactly when it satisfies `p`. */
  lemma FilterStep<T>(xs: seq<T>, p: T -> bool, rest: seq<T>, r: seq<T>)
    requires |xs| > 0
    requires forall i :: 0 <= i < |rest| ==> rest[i] in xs[1..] && p(rest[i])
    requires forall i :: 1 <= i < |xs| && p(xs[i]) ==> xs[i] in rest
    requires multiset(rest) <= multiset(xs[1..])
    requires r == if p(xs[0]) then [xs[0]] + rest else rest
    ensures forall i :: 0 <= i < |r| ==> r[i] in xs && p(r[i])
    ensures forall i :: 0 <= i < |xs| && p(xs[i]) ==> xs[i] in r
    ensures multiset(r) <= multiset(xs)
  {
    forall i | 0 <= i < |r|
      ensures r[i] in xs && p(r[i])
    {
      if !p(xs[0]) || i > 0 {
        var k := if p(xs[0]) then i - 1 else i;
        assert r[i] == rest[k];
        InTail(xs, rest[k]);
      }
    }
    forall i | 0 <= i < |xs| && p(xs[i])
      ensures xs[i] in r
    {
      if i > 0 {
        assert xs[i] in rest;
      }
    }
    assert multiset(xs) == multiset{xs[0]} + multiset(xs[1..]) by {
      assert xs == [xs[0]] + xs[1..];
    }
  }

  lemma InTail<T>(xs: seq<T>, y: T)
    requires |xs| > 0 && y in xs[1..]
    ensures y in xs
  {
    var k :| 0 <= k < |xs[1..]| && xs[1..][k] == y;
    assert xs[k + 1] == y;
  }

  /** Filtering distributes over concatenation. */
  lemma {:induction false} FilterAppend<T>(xs: seq<T>, ys: seq<T>, p: T -> bool)
    ensures Filter(xs + ys, p) == Filter(xs, p) + Filter(ys, p)
  {
    if |xs| == 0 {
      assert xs + ys == ys;
    } else {
      assert (xs + ys)[1..] == xs[1..] + ys;
      FilterAppend(xs[1..], ys, p);
    }
  }

  /** `xs` is ordered from the largest key to the smallest. */
  predicate SortedDesc<T>(xs: seq<T>, key: T -> int) {
    forall i, j :: 0 <= i < j < |xs| ==> key(xs[i]) >= key(xs[j])
  }

  /** Inserts `x` into the descending list `xs` in front of the first element
      whose key is not greater than `x`'s. */
  function InsertDesc<T>(x: T, xs: seq<T>, key: T -> int): (r: seq<T>)
    requires SortedDesc(xs, key)
    ensures SortedDesc(r, key)
    ensures multiset(r) == multiset(xs) + multiset{x}
    ensures |r| == |xs| + 1
  {
    if |xs| == 0 then [x]
    else if key(x) >= key(xs[0]) then [x] + xs
    else
      var rest := InsertDesc(x, xs[1..], key);
      assert xs == [xs[0]] + xs[1..];
      ConsSorted(xs, x, rest, key);
      [xs[0]] + rest
  }

  /** The head of a descending list is not smaller than any later element. */
  lemma HeadDominates<T>(xs: seq<T>, key: T -> int, y: T)
    requires SortedDesc(xs, key) && |xs| > 0 && y in multiset(xs[1..])
    ensures key(xs[0]) >= key(y)
  {
    var k :| 0 <= k < |xs[1..]| && xs[1..][k] == y;
    assert xs[k + 1] == y;
  }

  /** The step of InsertDesc that keeps the head of `xs` in front. */
  lemma ConsSorted<T>(xs: seq<T>, x: T, rest: seq<T>, key: T -> int)
    requires SortedDesc(xs, key) && |xs| > 0 && key(x) < key(xs[0])
    requires SortedDesc(rest, key) && multiset(rest) == multiset(xs[1..]) + multiset{x}
    ensures SortedDesc([xs[0]] + rest, key)
  {
    var r := [xs[0]] + rest;
    forall i, j | 0 <= i < j < |r|
      ensures key(r[i]) >= key(r[j])
    {
      assert r[j] == rest[j - 1];
      if i == 0 {
        assert rest[j - 1] in multiset(rest);
        if rest[j - 1] != x {
          HeadDominates(xs, key, rest[j - 1]);
        }
      } else {
        assert r[i] == rest[i - 1];
      }
    }
  }

  /** A permutation of `xs` ordered by descending key: the model of
      `ORDER BY key DESC`, where rows with equal keys may come in any order. */
  function SortDesc<T>(xs: seq<T>, key: T -> int): (r: seq<T>)
    ensures SortedDesc(r, key)
    ensures multiset(r) == multiset(xs)
    ensures |r| == |xs|
  {
    if |xs| == 0 then []
    else
      assert xs == [xs[0]] + xs[1..];
      InsertDesc(xs[0], SortDesc(xs[1..], key), key)
  }

  /** Sorting keeps exactly the elements it was given. */
  lemma SortDescMembers<T>(xs: seq<T>, key: T -> int, x: T)
    ensures x in SortDesc(xs, key) <==> x in xs
  {
    var r := SortDesc(xs, key);
    assert x in r <==> x in multiset(r);
    assert x in xs <==> x in multiset(xs);
  }

  /** No two elements of `xs` share a key. */
  predicate UniqueBy<T>(xs: seq<T>, id: T -> int) {
    forall i, j :: 0 <= i < j < |xs| ==> id(xs[i]) != id(xs[j])
  }

  lemma {:induction false} UniqueCountsAtMostOne<T>(xs: seq<T>, id: T -> int, x: T)
    requires UniqueBy(xs, id)
    ensures multiset(xs)[x] <= 1
  {
    if |xs| > 0 {
      assert xs == [xs[0]] + xs[1..];
      UniqueCountsAtMostOne(xs[1..], id, x);
      if xs[0] == x {
        assert x !in xs[1..];
      }
    }
  }

  lemma TwoPositionsCountTwice<T>(ys: seq<T>, i: int, j: int)
    requires 0 <= i < j < |ys| && ys[i] == ys[j]
    ensures multiset(ys)[ys[i]] >= 2
  {
    assert ys == ys[..j] + [ys[j]] + ys[j + 1..];
    assert ys[i] in ys[..j];
  }

  /** Reordering or dropping elements keeps keys distinct. */
  lemma UniqueBySubMultiset<T>(xs: seq<T>, ys: seq<T>, id: T -> int)
    requires UniqueBy(xs, id)
    requires multiset(ys) <= multiset(xs)
    ensures UniqueBy(ys, id)
  {
    forall i, j | 0 <= i < j < |ys|
      ensures id(ys[i]) != id(ys[j])
    {
      if ys[i] == ys[j] {
        TwoPositionsCountTwice(ys, i, j);
        UniqueCountsAtMostOne(xs, id, ys[i]);
      } else {
        assert ys[i] in multiset(xs) && ys[j] in multiset(xs);
        var a :| 0 <= a < |xs| && xs[a] == ys[i];
        var b :| 0 <= b < |xs| && xs[b] == ys[j];
        assert a != b;
        if a < b {
          assert id(xs[a]) != id(xs[b]);
        } else {
          assert id(xs[b]) != id(xs[a]);
        }
      }
    }
  }
}
