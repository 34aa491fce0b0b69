/**
 * What an `ORDER BY` clause delivers: the rows of a table, each exactly once,
 * arranged by a total preorder. `SortBy` is an insertion sort that stands for
 * the database's sort; its contract is all that the queries rely on.
 */
module Sorting {
  import opened Text

  /** `le` is total and transitive (ties are allowed). */
  ghost predicate TotalPreorder<T(!new)>(le: (T, T) -> bool)
  {
    && (forall a, b :: le(a, b) || le(b, a))
    && (forall a, b, c :: le(a, b) && le(b, c) ==> le(a, c))
  }

  ghost predicate SortedBy<T>(s: seq<T>, le: (T, T) -> bool)
  {
    forall i, j {:trigger le(s[i], s[j])} :: 0 <= i < j < |s| ==> le(s[i], s[j])
  }

  /** Inserts `x` before the first element it is not above. */
  function Insert<T>(x: T, s: seq<T>, le: (T, T) -> bool): (r: seq<T>)
    ensures multiset(r) == multiset(s) + multiset{x}
  {
    if s == [] then [x]
    else if le(x, s[0]) then [x] + s
    else
      assert s == [s[0]] + s[1..];
      [s[0]] + Insert(x, s[1..], le)
  }

  /** Inserting into an ordered listing keeps it ordered. */
  lemma {:induction false} InsertSorted<T(!new)>(x: T, s: seq<T>, le: (T, T) -> bool)
    requires TotalPreorder(le)
    requires SortedBy(s, le)
    ensures SortedBy(Insert(x, s, le), le)
  {
    if s != [] && !le(x, s[0]) {
      var rest := Insert(x, s[1..], le);
      assert SortedBy(s[1..], le) by {
        forall i, j | 0 <= i < j < |s[1..]|
          ensures le(s[1..][i], s[1..][j])
        {
          assert le(s[i + 1], s[j + 1]);
        }
      }
      InsertSorted(x, s[1..], le);
      assert s == [s[0]] + s[1..];
      assert forall k :: 0 <= k < |rest| ==> le(s[0], rest[k]) by {
        forall k | 0 <= k < |rest|
          ensures le(s[0], rest[k])
        {
          assert rest[k] in multiset(rest);
          assert rest[k] == x || rest[k] in multiset(s[1..]);
          if rest[k] != x {
            var m :| 0 <= m < |s[1..]| && s[1..][m] == rest[k];
            assert le(s[0], s[m + 1]);
          }
        }
      }
      var r := [s[0]] + rest;
      forall i, j | 0 <= i < j < |r|
        ensures le(r[i], r[j])
      {
        if i == 0 {
          assert r[j] == rest[j - 1];
        } else {
          assert r[i] == rest[i - 1] && r[j] == rest[j - 1];
        }
      }
    } else if s != [] {
      var r := [x] + s;
      forall i, j | 0 <= i < j < |r|
        ensures le(r[i], r[j])
      {
        if i == 0 {
          if j > 1 {
            assert le(s[0], s[j - 1]);
          }
          assert r[j] == s[j - 1];
        } else {
          assert r[i] == s[i - 1] && r[j] == s[j - 1];
          assert le(s[i - 1], s[j - 1]);
        }
      }
    }
  }

  /** The rows of `s`, arranged by `le`. */
  function SortBy<T>(s: seq<T>, le: (T, T) -> bool): (r: seq<T>)
    ensures multiset(r) == multiset(s)
  {
    if s == [] then []
    else
      assert s == [s[0]] + s[1..];
      Insert(s[0], SortBy(s[1..], le), le)
  }

  /** With a total preorder, the arrangement is ordered. */
  lemma {:induction false} SortBySorted<T(!new)>(s: seq<T>, le: (T, T) -> bool)
    requires TotalPreorder(le)
    ensures SortedBy(SortBy(s, le), le)
  {
    if s != [] {
      SortBySorted(s[1..], le);
      InsertSorted(s[0], SortBy(s[1..], le), le);
    }
  }

  /** Sorting neither adds nor drops rows: the result has one entry per row,
      and a row is in the result exactly when it is in the input. */
  lemma SortByKeepsRows<T>(s: seq<T>, le: (T, T) -> bool, x: T)
    ensures |SortBy(s, le)| == |s|
    ensures x in SortBy(s, le) <==> x in s
  {
    var r := SortBy(s, le);
    assert |multiset(r)| == |multiset(s)|;
    assert x in r <==> x in multiset(r);
    assert x in s <==> x in multiset(s);
  }

  /** The order `ORDER BY key ASC` uses for a string column. */
  function ByKey<T>(key: T -> string): (T, T) -> bool
  {
    (a: T, b: T) => StrLe(key(a), key(b))
  }

  lemma ByKeyPreorder<T(!new)>(key: T -> string)
    ensures TotalPreorder(ByKey(key))
  {
    forall a: T, b: T
      ensures ByKey(key)(a, b) || ByKey(key)(b, a)
    {
      StrLeTotal(key(a), key(b));
    }
    forall a: T, b: T, c: T | ByKey(key)(a, b) && ByKey(key)(b, c)
      ensures ByKey(key)(a, c)
    {
      StrLeTransitive(key(a), key(b), key(c));
    }
  }

  lemma SortedByKey<T>(s: seq<T>, key: T -> string)
    requires SortedBy(s, ByKey(key))
    ensures forall i, j :: 0 <= i < j < |s| ==> StrLe(key(s[i]), key(s[j]))
  {
    forall i, j | 0 <= i < j < |s|
      ensures StrLe(key(s[i]), key(s[j]))
    {
      assert ByKey(key)(s[i], s[j]);
    }
  }

  /** The order `ORDER BY key DESC` uses for a numeric (timestamp) column. */
  function ByIntDesc<T>(key: T -> int): (T, T) -> bool
  {
    (a: T, b: T) => key(a) >= key(b)
  }

  lemma ByIntDescPreorder<T(!new)>(key: T -> int)
    ensures TotalPreorder(ByIntDesc(key))
  {
  }

  lemma SortedByIntDesc<T>(s: seq<T>, key: T -> int)
    requires SortedBy(s, ByIntDesc(key))
    ensures forall i, j :: 0 <= i < j < |s| ==> key(s[i]) >= key(s[j])
  {
    forall i, j | 0 <= i < j < |s|
      ensures key(s[i]) >= key(s[j])
    {
      assert ByIntDesc(key)(s[i], s[j]);
    }
  }

  /** A projection applied row by row (`stream().map(...)`, `SELECT new Dto(...)`). */
  function Map<T, U>(f: T -> U, s: seq<T>): (r: seq<U>)
    ensures |r| == |s|
    ensures forall i :: 0 <= i < |s| ==> r[i] == f(s[i])
  {
    if s == [] then [] else [f(s[0])] + Map(f, s[1..])
  }

  /** Two arrangements of the same rows hold the same rows. */
  lemma SameMultisetSameMember<T>(a: seq<T>, b: seq<T>, x: T)
    requires multiset(a) == multiset(b)
    ensures x in a <==> x in b
  {
    assert x in a <==> x in multiset(a);
    assert x in b <==> x in multiset(b);
  }

  /** The first row of a listing sits somewhere in any rearrangement `b`
      of it, and the other rows are a rearrangement of `b` without it. */
  lemma PickRow<T>(a: seq<T>, b: seq<T>) returns (p: seq<T>, q: seq<T>)
    requires a != [] && multiset(a) == multiset(b)
    ensures b == p + [a[0]] + q
    ensures multiset(a[1..]) == multiset(p + q)
  {
    assert a[0] in multiset(b);
    var j :| 0 <= j < |b| && b[j] == a[0];
    p, q := b[..j], b[j + 1..];
    assert b == p + [a[0]] + q;
    assert a == [a[0]] + a[1..];
    calc {
      multiset(a[1..]);
      multiset(a) - multiset{a[0]};
      multiset(b) - multiset{a[0]};
      multiset(p) + multiset(q);
      multiset(p + q);
    }
  }

  /** Projecting a concatenation concatenates the projections. */
  lemma MapAppend<T, U>(f: T -> U, x: seq<T>, y: seq<T>)
    ensures Map(f, x + y) == Map(f, x) + Map(f, y)
  {
    var l, r := Map(f, x + y), Map(f, x) + Map(f, y);
    assert |l| == |r|;
    forall i | 0 <= i < |l|
      ensures l[i] == r[i]
    {
      if i < |x| {
        assert (x + y)[i] == x[i];
      } else {
        assert (x + y)[i] == y[i - |x|];
      }
    }
  }

  /** Taking one row out of the middle of a listing takes its projection
      out of the projections. */
  lemma MapRemoveMid<T, U>(f: T -> U, p: seq<T>, x: T, q: seq<T>)
    ensures multiset(Map(f, p + [x] + q)) == multiset(Map(f, p + q)) + multiset{f(x)}
  {
    MapAppend(f, p + [x], q);
    MapAppend(f, p, [x]);
    MapAppend(f, p, q);
    assert Map(f, [x]) == [f(x)];
  }

  /** Projecting two arrangements of the same rows gives two arrangements of
      the same projections. */
  lemma {:induction false} MapPermutation<T, U>(f: T -> U, a: seq<T>, b: seq<T>)
    requires multiset(a) == multiset(b)
    ensures multiset(Map(f, a)) == multiset(Map(f, b))
  {
    if a != [] {
      var p, q := PickRow(a, b);
      MapPermutation(f, a[1..], p + q);
      assert Map(f, a) == [f(a[0])] + Map(f, a[1..]);
      MapRemoveMid(f, p, a[0], q);
    }
  }

  // ---------------------------------------------------------------------
  // Pages

  /** At most `size` elements of `s` from position `start` on: one page. */
  function Window<T>(s: seq<T>, start: nat, size: nat): (r: seq<T>)
    ensures |r| == if |s| <= start then 0 else if |s| - start < size then |s| - start else size
    ensures multiset(r) <= multiset(s)
    ensures forall k :: 0 <= k < |r| ==> start + k < |s| && r[k] == s[start + k]
  {
    var d := if |s| < start then |s| else start;
    var h := if |s| - d < size then |s| else d + size;
    assert s == s[..d] + s[d..h] + s[h..];
    assert multiset(s) == multiset(s[..d]) + multiset(s[d..h]) + multiset(s[h..]);
    s[d..h]
  }

  /** Where a row shown in a window sits in the whole sequence. */
  lemma PositionInWindow<T>(s: seq<T>, start: nat, size: nat, x: T) returns (i: nat)
    requires x in Window(s, start, size)
    ensures i < size && start + i < |s| && s[start + i] == x
  {
    var w := Window(s, start, size);
    i :| 0 <= i < |w| && w[i] == x;
  }

  /** Where page `page` of `size` rows starts, counted page by page:
      page 0 at the top and each page `size` rows after the one before. */
  function PageStart(page: nat, size: nat): nat
  {
    if page == 0 then 0 else PageStart(page - 1, size) + size
  }

  /** That start is the offset `page * size` a page request skips. */
  lemma {:induction false} PageStartIsOffset(page: nat, size: nat)
    ensures PageStart(page, size) == page * size
  {
    if page > 0 {
      PageStartIsOffset(page - 1, size);
      assert page * size == (page - 1) * size + size;
    }
  }
}
