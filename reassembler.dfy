/**
 * The ordered page reassembler of the BloodMoon scraper: a window of
 * `MaxWorkers` pages in flight, results that may complete in any order, and a
 * writer that releases pages strictly in page order through the release rule
 * of module `Release`.
 */
module Reassembler {
  import opened Wrappers
  import opened Seqs
  import opened Release

  const MaxWorkers: nat := 6

  /** What a worker hands back: a page it gave up on, or that raised, counts as an empty page. */
  function Content<T>(r: Option<seq<T>>): seq<T> {
    if r.None? then [] else r.value
  }

  /** The contents of the first `n` pages from `start`, in page order. */
  function Contents<T>(fetch: int -> Option<seq<T>>, start: int, n: nat): (cs: seq<seq<T>>)
    ensures |cs| == n && forall i :: 0 <= i < n ==> cs[i] == Content(fetch(start + i))
  {
    seq(n, i requires 0 <= i < n => Content(fetch(start + i)))
  }

  lemma ContentsStep<T>(fetch: int -> Option<seq<T>>, start: int, n: nat)
    ensures Contents(fetch, start, n + 1)[..n] == Contents(fetch, start, n)
    ensures Contents(fetch, start, n + 1)[n] == Content(fetch(start + n))
  {
  }

  lemma NonEmptyHasElement(s: set<int>)
    requires s != {}
    ensures exists x :: x in s
  {
    if forall x :: x !in s {
      assert false;
    }
  }

  /** The largest element of a non-empty set (`max` of the scheduled pages). */
  method Highest(pages: set<int>) returns (m: int)
    requires pages != {}
    ensures m in pages && forall p :: p in pages ==> p <= m
  {
    NonEmptyHasElement(pages);
    m :| m in pages;
    var rest := pages - {m};
    while rest != {}
      invariant rest <= pages && m in pages
      invariant forall p :: p in pages && p !in rest ==> p <= m
      decreases rest
    {
      NonEmptyHasElement(rest);
      var p :| p in rest;
      if p > m {
        m := p;
      }
      rest := rest - {p};
    }
  }

  /**
   * The scraper's state: the pages in flight, the completed pages not yet
   * released with their items, the next page to release, the empty streak,
   * the items waiting for the next checkpoint, whether the run has ended, and
   * the batches appended to the CSV file so far.  `submitted` and `released`
   * count the pages submitted and released since the start page.
   */
  class Scraper<T> {
    const start: int
    const fetch: int -> Option<seq<T>>
    var futures: set<int>
    var bufferPages: map<int, seq<T>>
    var nextPageToWrite: int
    var consecutiveEmpty: nat
    var bufferProductos: seq<T>
    var finished: bool
    var flushed: seq<seq<T>>
    ghost var submitted: nat
    ghost var released: nat

    /** The first page not released yet. */
    ghost function Low(): int
      reads this`released
    {
      start + released
    }

    /** The first page not submitted yet. */
    ghost function Top(): int
      reads this`submitted
    {
      start + submitted
    }

    /** The pages from `Low()` to `Top()` are each in flight or buffered, never both. */
    ghost predicate Window()
      reads this`futures, this`bufferPages, this`submitted, this`released, this`nextPageToWrite, this`finished
    {
      && WindowOf(fetch, start, futures, bufferPages, submitted, released)
      && nextPageToWrite >= start
      && released == nextPageToWrite - start + (if finished then 1 else 0)
    }

    /** The writer's state is the release rule applied to the released pages, in page order. */
    ghost predicate Writer()
      reads this`consecutiveEmpty, this`bufferProductos, this`flushed, this`finished, this`released
    {
      && Live(Contents(fetch, start, released))
      && Sink(consecutiveEmpty, bufferProductos, flushed, finished) == Run(Contents(fetch, start, released))
    }

    /** Everything but "the page to release next is not waiting in the buffer". */
    ghost predicate Shape()
      reads this
    {
      Window() && Writer()
    }

    /**
     * Every page from the start page up to the window is released, in flight
     * or buffered, exactly once; the writer's state is the release rule
     * applied to the released pages in page order, whatever order they
     * completed in; and the writer has released every page it can.
     */
    ghost predicate Valid()
      reads this
    {
      Shape() && (!finished ==> nextPageToWrite !in bufferPages)
    }

    /** Opens the window: pages `start` to `start + MaxWorkers - 1` in flight. */
    constructor (start: int, fetch: int -> Option<seq<T>>)
      ensures Valid() && !finished
      ensures this.start == start && this.fetch == fetch
      ensures futures == PageRange(start, MaxWorkers)
      ensures bufferPages == map[] && nextPageToWrite == start && submitted == MaxWorkers && released == 0
      ensures consecutiveEmpty == 0 && bufferProductos == [] && flushed == []
    {
      var window := OpenWindow(start);
      this.start := start;
      this.fetch := fetch;
      bufferPages := map[];
      nextPageToWrite := start;
      consecutiveEmpty := 0;
      bufferProductos := [];
      finished := false;
      flushed := [];
      released := 0;
      futures := window;
      submitted := MaxWorkers;
      new;
      OpeningWindow(fetch, start);
      OpeningWriter(fetch, start);
    }

    /** The window never empties, and the page the writer waits for is always in flight. */
    lemma WindowFull()
      requires Valid()
      ensures |futures| == MaxWorkers
      ensures !finished ==> nextPageToWrite in futures
    {
      NonEmptyHasElement(futures);
      var p :| p in futures;
      if !finished {
        assert Low() <= nextPageToWrite < Top();
      }
    }

    /**
     * Nothing is lost, duplicated or reordered: the batches written, then the
     * pending items, are the items of the released pages in page order.
     */
    lemma Written()
      requires Valid()
      ensures Flatten(flushed) + (if finished then [] else bufferProductos) == Flatten(Contents(fetch, start, released))
    {
      Conservation(Contents(fetch, start, released));
    }

    /** The run has ended exactly when the released pages end with `MaxConsecutiveEmpty` empty ones. */
    lemma Stop()
      requires Valid()
      ensures consecutiveEmpty == TrailingEmpty(Contents(fetch, start, released))
      ensures finished <==> TrailingEmpty(Contents(fetch, start, released)) >= MaxConsecutiveEmpty
    {
      StreakIsTrailingEmpty(Contents(fetch, start, released));
      StopsOnStreak(Contents(fetch, start, released));
    }

    /**
     * The worker for `page` completes: buffer its result, submit the page
     * after the highest one scheduled, then release every page that is now in
     * order, stopping after a long enough empty streak.
     */
    method Complete(page: int)
      requires Valid() && !finished && page in futures
      modifies this
      ensures Valid()
      ensures submitted == old(submitted) + 1
      ensures futures == old(futures) - {page} + {old(Top())}
      ensures old(flushed) <= flushed
    {
      var rest, buffer := Receive(fetch, start, futures, bufferPages, submitted, released, page);
      futures, bufferPages, submitted := rest, buffer, submitted + 1;
      assert futures == old(futures) - {page} + {old(Top())};
      ReleaseReady();
    }

    /** Releases the buffered pages that are next in page order, until one is missing or the run stops. */
    method ReleaseReady()
      requires Shape() && !finished
      modifies this`bufferPages, this`released, this`consecutiveEmpty, this`bufferProductos, this`flushed, this`finished,
        this`nextPageToWrite
      ensures Valid()
      ensures old(flushed) <= flushed
    {
      while nextPageToWrite in bufferPages
        invariant Shape() && !finished
        invariant old(flushed) <= flushed
        decreases Top() - nextPageToWrite
      {
        ReleaseNext();
        if finished {
          return;
        }
      }
    }

    /** Releases the page `nextPageToWrite`, which is buffered, through the release rule. */
    method ReleaseNext()
      requires Shape() && !finished && nextPageToWrite in bufferPages
      modifies this`bufferPages, this`released, this`consecutiveEmpty, this`bufferProductos, this`flushed, this`finished,
        this`nextPageToWrite
      ensures Shape()
      ensures old(flushed) <= flushed
      ensures finished || nextPageToWrite == old(nextPageToWrite) + 1
    {
      var productos, buffer := Pop(fetch, start, futures, bufferPages, submitted, released, nextPageToWrite);
      var empty, pending, batches, stop :=
        Advance(fetch, start, released, consecutiveEmpty, bufferProductos, flushed, nextPageToWrite - start, productos);
      bufferPages, released, consecutiveEmpty, bufferProductos, flushed, finished :=
        buffer, released + 1, empty, pending, batches, stop;
      if !stop {
        nextPageToWrite := nextPageToWrite + 1;
      }
    }
  }

  /**
   * The completion of `page`, on the window as values: buffer its result (a
   * page given up on, or that raised, and an empty page are both buffered as
   * empty), then submit the page after the highest one scheduled, which is
   * the first page not yet submitted.
   */
  method Receive<T>(fetch: int -> Option<seq<T>>, start: int, futures: set<int>, buffer: map<int, seq<T>>,
                    ghost submitted: nat, ghost released: nat, page: int)
    returns (futures': set<int>, buffer': map<int, seq<T>>)
    requires WindowOf(fetch, start, futures, buffer, submitted, released) && page in futures
    ensures futures' == futures - {page} + {start + submitted}
    ensures buffer' == buffer[page := Content(fetch(page))]
    ensures WindowOf(fetch, start, futures', buffer', submitted + 1, released)
  {
    var result := fetch(page);
    var content := if result.None? then [] else result.value;
    var rest := futures - {page};
    buffer' := buffer[page := content];
    var scheduled := rest + buffer'.Keys;
    assert page in scheduled;
    var highest := Highest(scheduled);
    HighestScheduled(fetch, start, futures, buffer, submitted, released, page, scheduled, highest);
    var candidate := highest + 1;
    SubmitWindow(fetch, start, futures, buffer, submitted, released, page);
    futures' := rest + {candidate};
  }

  /** The writer's step for the page at offset `n`, kept in step with the release rule on all released pages. */
  method Advance<T>(fetch: int -> Option<seq<T>>, start: int, ghost n: nat, empty: nat, pending: seq<T>,
                    batches: seq<seq<T>>, idx: nat, productos: seq<T>)
    returns (empty': nat, pending': seq<T>, batches': seq<seq<T>>, stop: bool)
    requires Live(Contents(fetch, start, n)) && Sink(empty, pending, batches, false) == Run(Contents(fetch, start, n))
    requires idx == n && productos == Content(fetch(start + n))
    ensures Live(Contents(fetch, start, n + 1))
    ensures Sink(empty', pending', batches', stop) == Run(Contents(fetch, start, n + 1))
    ensures batches <= batches'
  {
    empty', pending', batches', stop := WriterStep(empty, pending, batches, idx, productos);
    ReleaseStep(fetch, start, n);
  }

  /**
   * The writer's step for the released page at offset `idx` from the start
   * page: streak, checkpoint every `PagesPerSave` pages, final flush.
   */
  method WriterStep<T>(empty: nat, pending: seq<T>, batches: seq<seq<T>>, idx: nat, productos: seq<T>)
    returns (empty': nat, pending': seq<T>, batches': seq<seq<T>>, stop: bool)
    ensures Sink(empty', pending', batches', stop) == ReleasePage(Sink(empty, pending, batches, false), idx, productos)
    ensures batches <= batches'
  {
    empty', pending', batches' := empty, pending, batches;
    if productos == [] {
      empty' := empty' + 1;
    } else {
      empty' := 0;
      pending' := pending' + productos;
    }
    var processedSinceStart := idx + 1;
    if processedSinceStart % PagesPerSave == 0 {
      if pending' != [] {
        batches' := batches' + [pending'];
        pending' := [];
      }
    }
    stop := empty' >= MaxConsecutiveEmpty;
    if stop {
      if pending' != [] {
        batches' := batches' + [pending'];
      }
    }
  }

  /** The `n` pages from `lo`. */
  function PageRange(lo: int, n: nat): (r: set<int>)
    ensures |r| == n && forall p :: p in r <==> lo <= p < lo + n
  {
    if n == 0 then {} else PageRange(lo, n - 1) + {lo + n - 1}
  }

  /** The initial submissions: one page in flight for each worker. */
  method OpenWindow(start: int) returns (window: set<int>)
    ensures window == PageRange(start, MaxWorkers)
  {
    window := {};
    var p := start;
    while p < start + MaxWorkers
      invariant start <= p <= start + MaxWorkers
      invariant window == PageRange(start, p - start)
    {
      window := window + {p};
      p := p + 1;
    }
  }

  /** The window the scraper opens with: the first `MaxWorkers` pages in flight, nothing buffered. */
  lemma OpeningWindow<T>(fetch: int -> Option<seq<T>>, start: int)
    ensures WindowOf(fetch, start, PageRange(start, MaxWorkers), map[], MaxWorkers, 0)
  {
  }

  /** Before any page is released the writer is in its initial state. */
  lemma OpeningWriter<T>(fetch: int -> Option<seq<T>>, start: int)
    ensures Live(Contents(fetch, start, 0)) && Run(Contents(fetch, start, 0)) == Sink(0, [], [], false)
  {
    assert Contents(fetch, start, 0) == [];
  }

  /**
   * The window as values: `futures` are the pages in flight, `buffer` the
   * completed pages with their contents; between them they hold each page
   * from `start + released` up to `start + submitted` exactly once.
   */
  ghost predicate WindowOf<T>(fetch: int -> Option<seq<T>>, start: int, futures: set<int>,
                              buffer: map<int, seq<T>>, submitted: nat, released: nat)
  {
    && |futures| == MaxWorkers
    && released <= submitted
    && (forall p :: p in futures || p in buffer <==> start + released <= p < start + submitted)
    && (forall p :: p in buffer ==> p !in futures && buffer[p] == Content(fetch(p)))
  }

  /** Once `page` has completed, the highest scheduled page is still the last one submitted. */
  lemma HighestScheduled<T>(fetch: int -> Option<seq<T>>, start: int, futures: set<int>,
                            buffer: map<int, seq<T>>, submitted: nat, released: nat, page: int,
                            scheduled: set<int>, m: int)
    requires WindowOf(fetch, start, futures, buffer, submitted, released) && page in futures
    requires scheduled == (futures - {page}) + buffer[page := Content(fetch(page))].Keys
    requires m in scheduled && forall p :: p in scheduled ==> p <= m
    ensures m == start + submitted - 1
  {
    var top := start + submitted - 1;
    assert start + released <= page <= top < start + submitted;
    assert top in futures || top in buffer;
    assert top in scheduled;
  }

  /** Completing the in-flight `page` and submitting the first page not yet submitted keeps the window. */
  lemma SubmitWindow<T>(fetch: int -> Option<seq<T>>, start: int, futures: set<int>,
                        buffer: map<int, seq<T>>, submitted: nat, released: nat, page: int)
    requires WindowOf(fetch, start, futures, buffer, submitted, released) && page in futures
    ensures WindowOf(fetch, start, futures - {page} + {start + submitted},
                     buffer[page := Content(fetch(page))], submitted + 1, released)
  {
  }

  /** Takes the page `next`, the first one not released, out of the buffer; the window moves past it. */
  method Pop<T>(fetch: int -> Option<seq<T>>, start: int, ghost futures: set<int>, buffer: map<int, seq<T>>,
                ghost submitted: nat, ghost released: nat, next: int)
    returns (items: seq<T>, buffer': map<int, seq<T>>)
    requires WindowOf(fetch, start, futures, buffer, submitted, released)
    requires next == start + released && next in buffer
    ensures items == Content(fetch(next)) && buffer' == buffer - {next}
    ensures WindowOf(fetch, start, futures, buffer', submitted, released + 1)
  {
    items := buffer[next];
    buffer' := buffer - {next};
  }

  /** Releasing one more page applies the release rule to it. */
  lemma ReleaseStep<T>(fetch: int -> Option<seq<T>>, start: int, n: nat)
    requires Live(Contents(fetch, start, n)) && !Run(Contents(fetch, start, n)).stopped
    ensures Live(Contents(fetch, start, n + 1))
    ensures Run(Contents(fetch, start, n + 1)) == ReleasePage(Run(Contents(fetch, start, n)), n, Content(fetch(start + n)))
  {
    ContentsStep(fetch, start, n);
  }

  /**
   * The whole run: open the window, then let in-flight pages complete in the
   * order `completions` lists (a page not in flight at its turn is skipped),
   * until the list runs out or the empty streak ends the run.
   */
  method Scrape<T>(start: int, fetch: int -> Option<seq<T>>, completions: seq<int>) returns (s: Scraper<T>)
    ensures fresh(s) && s.Valid() && s.start == start && s.fetch == fetch
    ensures s.finished ==> Flatten(s.flushed) == Flatten(Contents(fetch, start, s.released))
  {
    s := new Scraper(start, fetch);
    var i := 0;
    while i < |completions| && !s.finished
      invariant fresh(s) && s.Valid() && s.start == start && s.fetch == fetch
      invariant 0 <= i <= |completions|
      modifies s
    {
      if completions[i] in s.futures {
        s.Complete(completions[i]);
      }
      i := i + 1;
    }
    s.Written();
  }
}
