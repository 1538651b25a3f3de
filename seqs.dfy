/** Filtering and ordering of query results: the `where` and `order by`
    parts of the repository queries, and the `limit` of the page assembly. */
module Seqs {
  import opened Common

  /** Every element whose key is no smaller than the keys after it. */
  ghost predicate SortedDesc<T>(s: seq<T>, key: T -> int) {
    forall i, j :: 0 <= i < j < |s| ==> key(s[i]) >= key(s[j])
  }

  ghost predicate SortedAsc<T>(s: seq<T>, key: T -> int) {
    forall i, j :: 0 <= i < j < |s| ==> key(s[i]) <= key(s[j])
  }

  /** `r` keeps exactly the elements of `s` that satisfy `p`, each as often
      as it occurs in `s`. */
  ghost predicate Selects<T(!new)>(r: seq<T>, s: seq<T>, p: T -> bool) {
    forall x :: multiset(r)[x] == if p(x) then multiset(s)[x] else 0
  }

  /** The `where` clause: the elements satisfying `p`, in table order. */
  function Where<T(!new)>(s: seq<T>, p: T -> bool): (r: seq<T>)
    ensures Selects(r, s, p)
    ensures forall i :: 0 <= i < |r| ==> p(r[i])
    ensures |r| <= |s|
  {
    if s == [] then []
    else
      var rest := Where(s[1..], p);
      assert s == [s[0]] + s[1..];
      (if p(s[0]) then [s[0]] else []) + rest
  }

  /** Filtering keeps a descending order. */
  lemma {:induction false} WhereSortedDesc<T(!new)>(s: seq<T>, p: T -> bool, key: T -> int)
    requires SortedDesc(s, key)
    ensures SortedDesc(Where(s, p), key)
  {
    if s != [] {
      var rest := Where(s[1..], p);
      WhereSortedDesc(s[1..], p, key);
      if p(s[0]) && rest != [] {
        assert multiset(rest)[rest[0]] > 0;
        assert rest[0] in s[1..];
        var k :| 0 <= k < |s[1..]| && s[1..][k] == rest[0];
        assert s[1..][k] == s[k + 1];
      }
      if p(s[0]) {
        ConsSortedDesc(s[0], rest, key);
      }
    }
  }

  lemma ConsSortedDesc<T>(a: T, t: seq<T>, key: T -> int)
    requires SortedDesc(t, key)
    requires t != [] ==> key(a) >= key(t[0])
    ensures SortedDesc([a] + t, key)
  {
    var u := [a] + t;
    forall i, j | 0 <= i < j < |u| ensures key(u[i]) >= key(u[j]) {
      if i == 0 && j > 1 {
        assert key(t[0]) >= key(t[j - 1]);
      }
    }
  }

  function InsertDesc<T>(x: T, s: seq<T>, key: T -> int): (r: seq<T>)
    requires SortedDesc(s, key)
    ensures SortedDesc(r, key)
    ensures multiset(r) == multiset(s) + multiset{x}
    ensures r[0] == x || (s != [] && r[0] == s[0])
  {
    if s == [] || key(x) >= key(s[0]) then
      ConsSortedDesc(x, s, key);
      [x] + s
    else
      var rest := InsertDesc(x, s[1..], key);
      assert s == [s[0]] + s[1..];
      ConsSortedDesc(s[0], rest, key);
      [s[0]] + rest
  }

  /** `order by key desc`, by insertion. */
  function SortDesc<T>(s: seq<T>, key: T -> int): (r: seq<T>)
    ensures SortedDesc(r, key)
    ensures multiset(r) == multiset(s)
  {
    if s == [] then []
    else
      assert s == [s[0]] + s[1..];
      InsertDesc(s[0], SortDesc(s[1..], key), key)
  }

  lemma ConsSortedAsc<T>(a: T, t: seq<T>, key: T -> int)
    requires SortedAsc(t, key)
    requires t != [] ==> key(a) <= key(t[0])
    ensures SortedAsc([a] + t, key)
  {
    var u := [a] + t;
    forall i, j | 0 <= i < j < |u| ensures key(u[i]) <= key(u[j]) {
      if i == 0 && j > 1 {
        assert key(t[0]) <= key(t[j - 1]);
      }
    }
  }

  function InsertAsc<T>(x: T, s: seq<T>, key: T -> int): (r: seq<T>)
    requires SortedAsc(s, key)
    ensures SortedAsc(r, key)
    ensures multiset(r) == multiset(s) + multiset{x}
    ensures r[0] == x || (s != [] && r[0] == s[0])
  {
    if s == [] || key(x) <= key(s[0]) then
      ConsSortedAsc(x, s, key);
      [x] + s
    else
      var rest := InsertAsc(x, s[1..], key);
      assert s == [s[0]] + s[1..];
      ConsSortedAsc(s[0], rest, key);
      [s[0]] + rest
  }

  /** `order by key asc`, by insertion. */
  function SortAsc<T>(s: seq<T>, key: T -> int): (r: seq<T>)
    ensures SortedAsc(r, key)
    ensures multiset(r) == multiset(s)
  {
    if s == [] then []
    else
      assert s == [s[0]] + s[1..];
      InsertAsc(s[0], SortAsc(s[1..], key), key)
  }

  /** Filtering then sorting selects the same elements and is ordered. */
  lemma SortedSelection<T(!new)>(s: seq<T>, p: T -> bool, key: T -> int)
    ensures SortedDesc(SortDesc(Where(s, p), key), key)
    ensures Selects(SortDesc(Where(s, p), key), s, p)
  {
  }

  /** A table whose row `i` carries id `i + 1`: what identity ids give a
      table that is only appended to. */
  ghost predicate RowNumbered<T>(table: seq<T>, idOf: T -> int) {
    forall i :: 0 <= i < |table| ==> idOf(table[i]) == i + 1
  }

  /** `findById` on such a table: the row with that id, or none. */
  function FindById<T>(table: seq<T>, id: int, idOf: T -> int): (r: Option<T>)
    requires RowNumbered(table, idOf)
    ensures r.Some? <==> exists i :: 0 <= i < |table| && idOf(table[i]) == id
    ensures r.Some? ==> r.value in table && idOf(r.value) == id
  {
    if 1 <= id <= |table| then Some(table[id - 1]) else None
  }

  /** `stream().limit(n)`. */
  function Take<T>(s: seq<T>, n: nat): (r: seq<T>)
    ensures |r| == Min(n, |s|)
    ensures r == s[..|r|]
  {
    if n <= |s| then s[..n] else s
  }

  /** A contiguous piece of a descending sequence is descending. */
  lemma SliceSortedDesc<T>(s: seq<T>, lo: nat, hi: nat, key: T -> int)
    requires SortedDesc(s, key)
    requires lo <= hi <= |s|
    ensures SortedDesc(s[lo..hi], key)
  {
  }
}
