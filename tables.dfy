/**
 * A database table as the controllers see it through a Spring Data
 * repository: a sequence of rows in store order, each with a primary key.
 * `Find` is `findById`, `HasKey` is `existsById`, `Save` is `save` (an
 * upsert by key), `Delete` is `deleteById`, `Select` is a derived
 * `findByX` query and `Reject` what a derived `deleteByX` leaves behind.
 */
module Tables {
  import opened Wrappers

  /** `r` is `rows` with some rows left out and the rest kept in order. */
  ghost predicate InStoreOrder<T>(r: seq<T>, rows: seq<T>)
    decreases |rows|
  {
    if r == [] then true
    else if rows == [] then false
    else (r[0] == rows[0] && InStoreOrder(r[1..], rows[1..])) || InStoreOrder(r, rows[1..])
  }

  /** No two rows share a key. */
  ghost predicate UniqueKeys<T, K>(rows: seq<T>, key: T -> K)
  {
    forall i, j :: 0 <= i < j < |rows| ==> key(rows[i]) != key(rows[j])
  }

  /** The position of the first row with key `k`. */
  function IndexOf<T, K(==)>(rows: seq<T>, key: T -> K, k: K): (r: Option<nat>)
    ensures r.Some? ==> r.value < |rows| && key(rows[r.value]) == k
    ensures r.Some? ==> forall j :: 0 <= j < r.value ==> key(rows[j]) != k
    ensures r.None? <==> forall j :: 0 <= j < |rows| ==> key(rows[j]) != k
  {
    if rows == [] then None
    else if key(rows[0]) == k then Some(0)
    else match IndexOf(rows[1..], key, k)
      case None => None
      case Some(i) => Some(i + 1)
  }

  /** `findById(k)`: the row with key `k`, or null. */
  function Find<T, K(==)>(rows: seq<T>, key: T -> K, k: K): Option<T>
  {
    match IndexOf(rows, key, k)
    case None => None
    case Some(i) => Some(rows[i])
  }

  /** `existsById(k)` */
  predicate HasKey<T, K(==)>(rows: seq<T>, key: T -> K, k: K)
  {
    IndexOf(rows, key, k).Some?
  }

  /** A row is found exactly when some row has the key, and what is found is
      a stored row with that key. */
  lemma FindSpec<T, K>(rows: seq<T>, key: T -> K, k: K)
    ensures HasKey(rows, key, k) <==> Find(rows, key, k).Some?
    ensures HasKey(rows, key, k) <==> exists i :: 0 <= i < |rows| && key(rows[i]) == k
    ensures Find(rows, key, k).Some? ==> Find(rows, key, k).value in rows
    ensures Find(rows, key, k).Some? ==> key(Find(rows, key, k).value) == k
  {
  }

  /** The ensures of `IndexOf` pin it down: the first position holding `k`. */
  lemma IndexOfIs<T, K>(rows: seq<T>, key: T -> K, k: K, i: nat)
    requires i < |rows| && key(rows[i]) == k
    requires forall j :: 0 <= j < i ==> key(rows[j]) != k
    ensures IndexOf(rows, key, k) == Some(i)
  {
    var v := IndexOf(rows, key, k);
    assert v.Some?;
    assert key(rows[v.value]) == k;
  }

  /** Under unique keys, the row found is the only row with that key. */
  lemma FindUnique<T, K>(rows: seq<T>, key: T -> K, x: T)
    requires UniqueKeys(rows, key)
    requires x in rows
    ensures Find(rows, key, key(x)) == Some(x)
  {
    var i :| 0 <= i < |rows| && rows[i] == x;
    IndexOfIs(rows, key, key(x), i);
  }

  /** Appending a row whose key no stored row has keeps keys unique. */
  lemma AppendKeepsUniqueKeys<T, K>(rows: seq<T>, key: T -> K, e: T)
    requires UniqueKeys(rows, key)
    requires forall x :: x in rows ==> key(x) != key(e)
    ensures UniqueKeys(rows + [e], key)
  {
    var r := rows + [e];
    forall a, b | 0 <= a < b < |r|
      ensures key(r[a]) != key(r[b])
    {
      assert r[a] == rows[a] && rows[a] in rows;
    }
  }

  /** `save(e)`: replaces the row with `e`'s key, or appends `e`. */
  function Save<T, K(==)>(rows: seq<T>, key: T -> K, e: T): (r: seq<T>)
    ensures |r| == if HasKey(rows, key, key(e)) then |rows| else |rows| + 1
    ensures e in r && forall x :: x in r ==> x in rows || x == e
  {
    match IndexOf(rows, key, key(e))
    case None => rows + [e]
    case Some(i) =>
      var r := rows[i := e];
      assert forall j :: 0 <= j < |r| ==> r[j] == rows[j] || r[j] == e;
      r
  }

  /** After a save, the saved row is the one found under its key, every
      other key finds what it found before, and keys stay unique. */
  lemma {:induction false} FindAfterSave<T, K>(rows: seq<T>, key: T -> K, e: T, k: K)
    requires UniqueKeys(rows, key)
    ensures UniqueKeys(Save(rows, key, e), key)
    ensures Find(Save(rows, key, e), key, k) == if k == key(e) then Some(e) else Find(rows, key, k)
  {
    var r := Save(rows, key, e);
    match IndexOf(rows, key, key(e))
    case None =>
      assert r == rows + [e];
      assert forall a :: 0 <= a < |rows| ==> r[a] == rows[a];
      if k == key(e) {
        IndexOfIs(r, key, k, |rows|);
      } else {
        match IndexOf(rows, key, k)
        case None =>
        case Some(i) =>
          IndexOfIs(r, key, k, i);
      }
    case Some(i) =>
      assert r == rows[i := e];
      assert UniqueKeys(r, key) by {
        forall a, b | 0 <= a < b < |r|
          ensures key(r[a]) != key(r[b])
        {
          assert key(r[a]) == key(rows[a]) && key(r[b]) == key(rows[b]);
        }
      }
      if k == key(e) {
        IndexOfIs(r, key, k, i);
      } else {
        assert forall a :: 0 <= a < |rows| && a != i ==> r[a] == rows[a];
        match IndexOf(rows, key, k)
        case None =>
        case Some(j) =>
          IndexOfIs(r, key, k, j);
      }
  }

  /** Saving the same row twice leaves the table as saving it once. */
  lemma SaveIdempotent<T, K>(rows: seq<T>, key: T -> K, e: T)
    ensures Save(Save(rows, key, e), key, e) == Save(rows, key, e)
  {
    var r := Save(rows, key, e);
    match IndexOf(rows, key, key(e))
    case None =>
      assert forall a :: 0 <= a < |rows| ==> r[a] == rows[a];
      IndexOfIs(r, key, key(e), |rows|);
    case Some(i) =>
      assert forall a :: 0 <= a < i ==> r[a] == rows[a];
      IndexOfIs(r, key, key(e), i);
  }

  /** `deleteById(k)`: removes the row with key `k`, if any. */
  function Delete<T, K(==)>(rows: seq<T>, key: T -> K, k: K): (r: seq<T>)
    ensures |r| == if HasKey(rows, key, k) then |rows| - 1 else |rows|
  {
    match IndexOf(rows, key, k)
    case None => rows
    case Some(i) => rows[..i] + rows[i + 1..]
  }

  /** Under unique keys a delete removes exactly the row with key `k`: that
      key finds nothing afterwards, every other key finds what it found before,
      the rows left are the others, and keys stay unique. */
  lemma {:induction false} FindAfterDelete<T, K>(rows: seq<T>, key: T -> K, k: K, k': K)
    requires UniqueKeys(rows, key)
    ensures UniqueKeys(Delete(rows, key, k), key)
    ensures Find(Delete(rows, key, k), key, k') == if k' == k then None else Find(rows, key, k')
    ensures forall x :: x in Delete(rows, key, k) <==> x in rows && key(x) != k
  {
    match IndexOf(rows, key, k)
    case None =>
    case Some(i) =>
      DeleteAt(rows, key, k, k', i);
  }

  /** Taking out position `i` moves every later row one place up. */
  lemma DropAt<T>(rows: seq<T>, i: nat)
    requires i < |rows|
    ensures var r := rows[..i] + rows[i + 1..];
            |r| == |rows| - 1 && forall a :: 0 <= a < |r| ==> r[a] == rows[if a < i then a else a + 1]
  {
  }

  /** Dropping row `i` keeps the keys distinct, and none of the rest has row `i`'s key. */
  lemma DropAtKeys<T, K>(rows: seq<T>, r: seq<T>, key: T -> K, i: nat)
    requires UniqueKeys(rows, key) && i < |rows| && |r| == |rows| - 1
    requires forall a :: 0 <= a < |r| ==> r[a] == rows[if a < i then a else a + 1]
    ensures UniqueKeys(r, key)
    ensures forall a :: 0 <= a < |r| ==> key(r[a]) != key(rows[i])
  {
    forall a, b | 0 <= a < b < |r|
      ensures key(r[a]) != key(r[b])
    {
      assert r[a] == rows[if a < i then a else a + 1];
      assert r[b] == rows[if b < i then b else b + 1];
    }
    forall a | 0 <= a < |r|
      ensures key(r[a]) != key(rows[i])
    {
      assert r[a] == rows[if a < i then a else a + 1];
    }
  }

  /** `FindAfterDelete` for a key that is present, at position `i`. */
  lemma DeleteAt<T, K>(rows: seq<T>, key: T -> K, k: K, k': K, i: nat)
    requires UniqueKeys(rows, key)
    requires IndexOf(rows, key, k) == Some(i)
    ensures UniqueKeys(Delete(rows, key, k), key)
    ensures Find(Delete(rows, key, k), key, k') == if k' == k then None else Find(rows, key, k')
    ensures forall x :: x in Delete(rows, key, k) <==> x in rows && key(x) != k
  {
    var r := Delete(rows, key, k);
    assert r == rows[..i] + rows[i + 1..];
    DropAt(rows, i);
    DropAtKeys(rows, r, key, i);
    forall x
      ensures x in r <==> x in rows && key(x) != k
    {
      if x in rows && key(x) != k {
        var a :| 0 <= a < |rows| && rows[a] == x;
        assert r[if a < i then a else a - 1] == x;
      }
    }
    if k' != k {
      match IndexOf(rows, key, k')
      case None =>
      case Some(j) =>
        var j' := if j < i then j else j - 1;
        assert r[j'] == rows[j];
        IndexOfIs(r, key, k', j');
    }
  }

  /** A derived `findByX(k)`: the rows whose `X` is `k`, in store order. */
  function Select<T(!new), K(==)>(rows: seq<T>, key: T -> K, k: K): (r: seq<T>)
    ensures forall x :: x in r <==> x in rows && key(x) == k
    ensures InStoreOrder(r, rows)
  {
    if rows == [] then []
    else if key(rows[0]) == k then [rows[0]] + Select(rows[1..], key, k)
    else Select(rows[1..], key, k)
  }

  /** The rows a derived `deleteByX(k)` leaves: those whose `X` is not `k`,
      in store order. */
  function Reject<T(!new), K(==)>(rows: seq<T>, key: T -> K, k: K): (r: seq<T>)
    ensures forall x :: x in r <==> x in rows && key(x) != k
    ensures InStoreOrder(r, rows)
  {
    if rows == [] then []
    else if key(rows[0]) == k then Reject(rows[1..], key, k)
    else [rows[0]] + Reject(rows[1..], key, k)
  }

  /** The first row a `findByX` returns is the first stored row with that
      `X`; the list is empty only when no row has it. */
  lemma {:induction false} SelectFirst<T(!new), K>(rows: seq<T>, key: T -> K, k: K)
    ensures Select(rows, key, k) == [] <==> Find(rows, key, k).None?
    ensures Select(rows, key, k) != [] ==> Find(rows, key, k) == Some(Select(rows, key, k)[0])
  {
    if rows != [] && key(rows[0]) != k {
      SelectFirst(rows[1..], key, k);
      match IndexOf(rows[1..], key, k)
      case None =>
      case Some(i) =>
        assert rows[1..][i] == rows[i + 1];
    }
  }

  /** What `findByX(k)` returns and what `deleteByX(k)` leaves split the table:
      every row lands on exactly one side. */
  lemma {:induction false} SelectRejectPartition<T(!new), K>(rows: seq<T>, key: T -> K, k: K)
    ensures multiset(Select(rows, key, k)) + multiset(Reject(rows, key, k)) == multiset(rows)
  {
    if rows != [] {
      SelectRejectPartition(rows[1..], key, k);
      assert rows == [rows[0]] + rows[1..];
    }
  }

  /** What a `deleteByX` leaves still has unique primary keys. */
  lemma {:induction false} RejectKeepsUniqueKeys<T(!new), K, X>(rows: seq<T>, key: T -> K, x: T -> X, k: X)
    requires UniqueKeys(rows, key)
    ensures UniqueKeys(Reject(rows, x, k), key)
  {
    if rows != [] {
      var rest := Reject(rows[1..], x, k);
      assert UniqueKeys(rows[1..], key) by {
        forall a, b | 0 <= a < b < |rows[1..]|
          ensures key(rows[1..][a]) != key(rows[1..][b])
        {
          assert rows[1..][a] == rows[a + 1] && rows[1..][b] == rows[b + 1];
        }
      }
      RejectKeepsUniqueKeys(rows[1..], key, x, k);
      if x(rows[0]) != k {
        var r := [rows[0]] + rest;
        forall a, b | 0 <= a < b < |r|
          ensures key(r[a]) != key(r[b])
        {
          if a == 0 {
            assert r[b] in rows[1..];
            var m :| 0 <= m < |rows[1..]| && rows[1..][m] == r[b];
            assert rows[m + 1] == r[b];
          } else {
            assert r[a] == rest[a - 1] && r[b] == rest[b - 1];
          }
        }
      }
    }
  }
}
