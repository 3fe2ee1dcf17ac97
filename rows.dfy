/** Row-set operations that the SQL queries of the core are built from:
    WHERE (a filter that keeps table order), ORDER BY ... DESC, and
    LIMIT/OFFSET. */
module Rows {

  /** The rows of `s` that satisfy `p`, in their original order. */
  function Filter<T(!new)>(s: seq<T>, p: T -> bool): (r: seq<T>)
    ensures |r| <= |s|
    ensures forall x :: x in r ==> x in s && p(x)
    ensures forall x :: x in s && p(x) ==> x in r
    ensures multiset(r) <= multiset(s)
  {
    if |s| == 0 then []
    else
      assert s == [s[0]] + s[1..];
      if p(s[0]) then [s[0]] + Filter(s[1..], p) else Filter(s[1..], p)
  }

  /** Filtering by two predicates that agree on every row gives the same rows. */
  lemma {:induction false} FilterCongruent<T(!new)>(s: seq<T>, p: T -> bool, q: T -> bool)
    requires forall x :: p(x) == q(x)
    ensures Filter(s, p) == Filter(s, q)
    decreases |s|
  {
    if |s| > 0 {
      FilterCongruent(s[1..], p, q);
    }
  }

  /** Filtering a concatenation filters each part. */
  lemma {:induction false} FilterOfAppend<T(!new)>(s: seq<T>, t: seq<T>, p: T -> bool)
    ensures Filter(s + t, p) == Filter(s, p) + Filter(t, p)
    decreases |s|
  {
    if |s| > 0 {
      assert (s + t)[1..] == s[1..] + t;
      FilterOfAppend(s[1..], t, p);
    } else {
      assert s + t == t;
    }
  }

  /** Non-increasing in `key`: newest first when `key` is a timestamp. */
  ghost predicate SortedDesc<T>(s: seq<T>, key: T -> int)
  {
    forall i, j :: 0 <= i < j < |s| ==> key(s[i]) >= key(s[j])
  }

  /** Places `x` in front of the first row with a smaller key. */
  function Insert<T(!new)>(x: T, s: seq<T>, key: T -> int): (r: seq<T>)
    ensures |r| == |s| + 1
    ensures multiset(r) == multiset(s) + multiset{x}
    ensures forall y :: y in r <==> y == x || y in s
  {
    if |s| == 0 || key(x) >= key(s[0]) then [x] + s
    else
      assert s == [s[0]] + s[1..];
      [s[0]] + Insert(x, s[1..], key)
  }

  /** Inserting into a sorted sequence keeps it sorted. */
  lemma {:induction false} InsertSorted<T(!new)>(x: T, s: seq<T>, key: T -> int)
    requires SortedDesc(s, key)
    ensures SortedDesc(Insert(x, s, key), key)
    decreases |s|
  {
    var r := Insert(x, s, key);
    if |s| == 0 || key(x) >= key(s[0]) {
      forall i, j | 0 <= i < j < |r| ensures key(r[i]) >= key(r[j]) {
        if i == 0 {
          assert r[j] == s[j - 1];
          assert key(s[0]) >= key(s[j - 1]);
        } else {
          assert r[i] == s[i - 1] && r[j] == s[j - 1];
        }
      }
    } else {
      var t := Insert(x, s[1..], key);
      InsertSorted(x, s[1..], key);
      assert r == [s[0]] + t;
      forall i, j | 0 <= i < j < |r| ensures key(r[i]) >= key(r[j]) {
        if i == 0 {
          assert r[j] == t[j - 1] && r[j] in t;
          if r[j] != x {
            assert r[j] in s[1..];
            var k :| 0 <= k < |s[1..]| && s[1..][k] == r[j];
            assert s[k + 1] == r[j];
          }
        } else {
          assert r[i] == t[i - 1] && r[j] == t[j - 1];
        }
      }
    }
  }

  /** ORDER BY key DESC, with ties broken in table order (a stable sort).
      This fixes one order of tied rows, the same on every query; the
      database itself promises no particular order for them. */
  function SortDesc<T(!new)>(s: seq<T>, key: T -> int): (r: seq<T>)
    ensures |r| == |s|
    ensures multiset(r) == multiset(s)
    ensures forall y :: y in r <==> y in s
    ensures SortedDesc(r, key)
  {
    if |s| == 0 then []
    else
      assert s == [s[0]] + s[1..];
      var t := SortDesc(s[1..], key);
      InsertSorted(s[0], t, key);
      Insert(s[0], t, key)
  }

  /** No two rows share a key: each row's key differs from every later
      row's. */
  ghost predicate KeysDistinct<T>(s: seq<T>, key: T -> int)
    decreases |s|
  {
    |s| == 0 || ((forall y :: y in s[1..] ==> key(y) != key(s[0])) && KeysDistinct(s[1..], key))
  }

  /** Distinct keys, position by position. */
  lemma {:induction false} KeysDistinctAt<T>(s: seq<T>, key: T -> int)
    requires KeysDistinct(s, key)
    ensures forall i, j :: 0 <= i < j < |s| ==> key(s[i]) != key(s[j])
    decreases |s|
  {
    if |s| > 0 {
      KeysDistinctAt(s[1..], key);
      forall i, j | 0 <= i < j < |s| ensures key(s[i]) != key(s[j]) {
        assert s[j] == s[1..][j - 1];
        if i > 0 {
          assert s[i] == s[1..][i - 1];
        }
      }
    }
  }

  /** Keys that differ position by position are distinct. */
  lemma {:induction false} KeysDistinctFromAt<T>(s: seq<T>, key: T -> int)
    requires forall i, j :: 0 <= i < j < |s| ==> key(s[i]) != key(s[j])
    ensures KeysDistinct(s, key)
    decreases |s|
  {
    if |s| > 0 {
      forall i, j | 0 <= i < j < |s[1..]| ensures key(s[1..][i]) != key(s[1..][j]) {
        assert s[1..][i] == s[i + 1] && s[1..][j] == s[j + 1];
      }
      KeysDistinctFromAt(s[1..], key);
      forall y | y in s[1..] ensures key(y) != key(s[0]) {
        var j :| 0 <= j < |s[1..]| && s[1..][j] == y;
        assert y == s[j + 1];
      }
    }
  }

  /** A predicate no row satisfies keeps no row. */
  lemma {:induction false} FilterNone<T(!new)>(s: seq<T>, p: T -> bool)
    requires forall x :: x in s ==> !p(x)
    ensures Filter(s, p) == []
    decreases |s|
  {
    if |s| > 0 {
      assert forall x :: x in s[1..] ==> x in s;
      FilterNone(s[1..], p);
    }
  }

  /** Filtering keeps keys distinct. */
  lemma {:induction false} FilterKeysDistinct<T(!new)>(s: seq<T>, p: T -> bool, key: T -> int)
    requires KeysDistinct(s, key)
    ensures KeysDistinct(Filter(s, p), key)
    decreases |s|
  {
    if |s| > 0 {
      FilterKeysDistinct(s[1..], p, key);
      var t := Filter(s[1..], p);
      if p(s[0]) {
        assert Filter(s, p) == [s[0]] + t;
        assert ([s[0]] + t)[1..] == t;
      }
    }
  }

  /** Inserting, by `order`, a row whose key no other row has keeps keys
      distinct. */
  lemma {:induction false} InsertKeysDistinct<T(!new)>(x: T, s: seq<T>, order: T -> int, key: T -> int)
    requires KeysDistinct(s, key)
    requires forall y :: y in s ==> key(y) != key(x)
    ensures KeysDistinct(Insert(x, s, order), key)
    decreases |s|
  {
    if |s| == 0 || order(x) >= order(s[0]) {
      assert ([x] + s)[1..] == s;
    } else {
      var t := Insert(x, s[1..], order);
      assert forall y :: y in s[1..] ==> y in s;
      InsertKeysDistinct(x, s[1..], order, key);
      assert ([s[0]] + t)[1..] == t;
    }
  }

  /** Sorting by `order` keeps distinct keys distinct. */
  lemma {:induction false} SortDescKeysDistinct<T(!new)>(s: seq<T>, order: T -> int, key: T -> int)
    requires KeysDistinct(s, key)
    ensures KeysDistinct(SortDesc(s, order), key)
    decreases |s|
  {
    if |s| > 0 {
      SortDescKeysDistinct(s[1..], order, key);
      InsertKeysDistinct(s[0], SortDesc(s[1..], order), order, key);
    }
  }

  function Min(a: int, b: int): int { if a <= b then a else b }

  /** OFFSET offset LIMIT limit: the rows from position `offset` on, at
      most `limit` of them; none when `offset` is past the end. */
  function Window<T>(s: seq<T>, offset: nat, limit: nat): (r: seq<T>)
    ensures |r| <= limit
    ensures offset >= |s| ==> r == []
    ensures offset < |s| ==> r == s[offset..Min(offset + limit, |s|)]
  {
    if offset >= |s| then [] else s[offset..Min(offset + limit, |s|)]
  }

  /** A window of a sorted sequence is sorted and holds rows of it only. */
  lemma WindowOfSorted<T>(s: seq<T>, offset: nat, limit: nat, key: T -> int)
    requires SortedDesc(s, key)
    ensures SortedDesc(Window(s, offset, limit), key)
    ensures forall x :: x in Window(s, offset, limit) ==> x in s
  {
    var r := Window(s, offset, limit);
    if offset < |s| {
      forall i, j | 0 <= i < j < |r| ensures key(r[i]) >= key(r[j]) {
        assert r[i] == s[offset + i] && r[j] == s[offset + j];
      }
      forall x | x in r ensures x in s {
        var i :| 0 <= i < |r| && r[i] == x;
        assert s[offset + i] == x;
      }
    }
  }
}
