/**
 * The page loop of the listing scrapers: `while True: items = page(n); if not
 * items: break; todas.extend(items); n += 1`.
 */
module Paging {
  import opened Wrappers

  /** The items of the `q`-th page read, counting from `first`. */
  function Page<T>(pages: int -> seq<T>, first: int, q: nat): seq<T> {
    pages(first + q)
  }

  /** The items of pages `first .. first+n-1`, concatenated in page order. */
  function Collected<T>(pages: int -> seq<T>, first: int, n: nat): seq<T> {
    if n == 0 then [] else Collected(pages, first, n - 1) + Page(pages, first, n - 1)
  }

  /** `n` pages were read: every one of them had items and the next one had none. */
  predicate StopsAfter<T>(pages: int -> seq<T>, first: int, n: nat) {
    Page(pages, first, n) == [] && forall q: nat :: q < n ==> Page(pages, first, q) != []
  }

  /** The stopping page is the first empty one, so it is unique. */
  lemma StopUnique<T>(pages: int -> seq<T>, first: int, n: nat, m: nat)
    requires StopsAfter(pages, first, n) && StopsAfter(pages, first, m)
    ensures n == m
  {
  }

  /** Every collected item comes from one of the pages read. */
  lemma {:induction false} CollectedFrom<T>(pages: int -> seq<T>, first: int, n: nat, x: T)
    requires x in Collected(pages, first, n)
    ensures exists q: nat :: q < n && x in Page(pages, first, q)
  {
    if n > 0 {
      if x in Collected(pages, first, n - 1) {
        CollectedFrom(pages, first, n - 1, x);
      } else {
        assert x in Page(pages, first, n - 1);
      }
    }
  }

  /** Each page read contributes its items at its place in the concatenation. */
  lemma {:induction false} CollectedPrefix<T>(pages: int -> seq<T>, first: int, m: nat, n: nat)
    requires m <= n
    ensures Collected(pages, first, m) <= Collected(pages, first, n)
    decreases n
  {
    if m < n {
      CollectedPrefix(pages, first, m, n - 1);
    }
  }

  /** Page functions that agree on the pages read collect the same items. */
  lemma {:induction false} CollectedSame<T>(p: int -> seq<T>, q: int -> seq<T>, first: int, n: nat)
    requires forall i :: first <= i < first + n ==> p(i) == q(i)
    ensures Collected(p, first, n) == Collected(q, first, n)
  {
    if n > 0 {
      CollectedSame(p, q, first, n - 1);
    }
  }

  lemma {:induction false} CollectedEmpty<T>(pages: int -> seq<T>, first: int, n: nat)
    requires forall q: nat :: q < n ==> Page(pages, first, q) != []
    ensures (Collected(pages, first, n) == []) <==> n == 0
  {
    if n > 0 {
      assert Page(pages, first, n - 1) != [];
    }
  }

  /**
   * Reads pages from `first` on until one comes back empty. The listing is
   * assumed to end somewhere (`last`): with no empty page the script never stops.
   */
  method CollectPages<T>(pages: int -> seq<T>, first: int, ghost last: int) returns (todas: seq<T>, read: nat)
    requires last >= first && pages(last) == []
    ensures StopsAfter(pages, first, read)
    ensures todas == Collected(pages, first, read)
    ensures (todas == []) <==> pages(first) == []
  {
    todas := [];
    read := 0;
    while true
      invariant first + read <= last
      invariant forall q: nat :: q < read ==> Page(pages, first, q) != []
      invariant todas == Collected(pages, first, read)
      decreases last - first - read
    {
      var items := pages(first + read);
      if items == [] {
        assert Page(pages, first, read) == [];
        break;
      }
      assert items == Page(pages, first, read);
      todas := todas + items;
      read := read + 1;
    }
    CollectedEmpty(pages, first, read);
    assert pages(first) == Page(pages, first, 0);
  }

  /**
   * A page that can also raise: its items and whether the loop goes on
   * after it, or the exception that ends the run.
   */
  predicate Stops<T, E>(r: Result<(seq<T>, bool), E>) { r.Err? || !r.value.1 }

  /** The items a page contributes, a page that raised counting as none. */
  function Rows<T, E>(r: Result<(seq<T>, bool), E>): seq<T> {
    if r.Ok? then r.value.0 else []
  }

  function RowPages<T, E>(pages: int -> Result<(seq<T>, bool), E>): int -> seq<T> {
    n => Rows(pages(n))
  }

  /** The `q`-th page read, counting from `first`. */
  function At<T, E>(pages: int -> Result<(seq<T>, bool), E>, first: int, q: nat): Result<(seq<T>, bool), E> {
    pages(first + q)
  }

  /**
   * Reads pages from `first` on while they say so, stopping with the
   * exception of the first page that raises. The listing is assumed to end
   * somewhere (`last`).
   */
  method CollectUntil<T, E>(pages: int -> Result<(seq<T>, bool), E>, first: int, ghost last: int)
    returns (todas: seq<T>, read: nat, crash: Option<E>)
    requires last >= first && Stops(pages(last))
    ensures Stops(At(pages, first, read)) && forall q: nat :: q < read ==> !Stops(At(pages, first, q))
    ensures todas == Collected(RowPages(pages), first, read)
    ensures crash.Some? <==> At(pages, first, read).Err?
    ensures crash.Some? ==> crash.value == At(pages, first, read).error
  {
    todas := [];
    read := 0;
    while true
      invariant first + read <= last
      invariant forall q: nat :: q < read ==> !Stops(At(pages, first, q))
      invariant todas == Collected(RowPages(pages), first, read)
      decreases last - first - read
    {
      var page := pages(first + read);
      assert page == At(pages, first, read);
      if page.Err? {
        return todas, read, Some(page.error);
      }
      var (items, more) := page.value;
      if !more {
        break;
      }
      assert items == Page(RowPages(pages), first, read);
      todas := todas + items;
      read := read + 1;
    }
    crash := None;
  }
}
