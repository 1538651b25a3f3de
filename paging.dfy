/** Page assembly over an ordered query result. `PageRequest.of(i, size)`
    asks for the `i`-th slice of `size` rows; a page "has next" when rows
    remain after it. The `Pagination` helper that turns `from`/`size` into
    the first page index, the page size and the page count is not part of
    this model: those three numbers are inputs. */
module Paging {
  import opened Common
  import opened Seqs

  /** The rows of page `index`. */
  function Page<T>(all: seq<T>, index: nat, size: nat): (r: seq<T>)
    requires size >= 1
    ensures |r| <= size
  {
    all[Min(index * size, |all|)..Min(index * size + size, |all|)]
  }

  /** `page.hasNext()`: some row lies beyond page `index`. */
  predicate HasNext<T>(all: seq<T>, index: nat, size: nat) {
    (index + 1) * size < |all|
  }

  /** The rows of pages `index` up to (not including) `totalPages`: what the
      bounded page loop collects before it truncates. */
  function Covered<T>(all: seq<T>, index: nat, size: nat, totalPages: int): (r: seq<T>)
    ensures var lo := Min(index * size, |all|); lo + |r| <= |all| && r == all[lo..lo + |r|]
  {
    var lo := Min(index * size, |all|);
    all[lo..Max(lo, Min(totalPages * size, |all|))]
  }

  lemma MulStep(i: nat, size: nat)
    ensures (i + 1) * size == i * size + size
  {
  }

  lemma MulMono(a: int, b: int, size: nat)
    requires a <= b
    ensures a * size <= b * size
  {
  }

  /** The unbounded page loop (`size` absent): a do-while that fetches page
      after page from `index` until one reports no next page. It returns
      every row from the first page's offset to the end. */
  method DrainPages<T>(all: seq<T>, index: nat, size: nat) returns (r: seq<T>)
    requires size >= 1
    ensures r == all[Min(index * size, |all|)..]
  {
    var lo := Min(index * size, |all|);
    var i := index;
    var more := true;
    r := [];
    while more
      invariant index <= i
      invariant lo <= Min(i * size, |all|)
      invariant r == all[lo..Min(i * size, |all|)]
      invariant !more ==> i * size >= |all|
      decreases (if more then 1 else 0) + (|all| - Min(i * size, |all|))
    {
      MulStep(i, size);
      r := r + Page(all, i, size);
      more := HasNext(all, i, size);
      i := i + 1;
    }
  }

  /** The bounded page loop (`size` given): fetches pages `index`,
      `index + 1`, ... below `totalPages`, stops early after a page with no
      next page, then keeps the first `limit` rows. */
  method CollectPages<T>(all: seq<T>, index: nat, size: nat, totalPages: int, limit: nat) returns (r: seq<T>)
    requires size >= 1
    ensures r == Take(Covered(all, index, size, totalPages), limit)
  {
    var n := |all|;
    var lo := Min(index * size, n);
    var hi := Max(lo, Min(totalPages * size, n));
    var acc := [];
    var i := index;
    var off := index * size;
    while i < totalPages
      invariant index <= i && off == i * size
      invariant lo <= Min(off, n) <= hi
      invariant acc == all[lo..Min(off, n)]
      decreases totalPages - i
    {
      MulStep(i, size);
      MulMono(i + 1, totalPages, size);
      var page := Page(all, i, size);
      assert page == all[Min(off, n)..Min(off + size, n)];
      acc := acc + page;
      if !HasNext(all, i, size) {
        assert Min(off + size, n) == n == hi;
        break;
      }
      i := i + 1;
      off := off + size;
    }
    if i >= totalPages {
      MulMono(totalPages, i, size);
      assert Min(off, n) == hi;
    }
    assert acc == all[lo..hi];
    r := Take(acc, limit);
  }
}
