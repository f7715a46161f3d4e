/**
 * The release rule of the BloodMoon scraper, as a function of the contents of
 * the pages released so far, in page order: the empty-page streak, the
 * checkpoint cadence and the final flush.
 */
module Release {
  import opened Seqs

  const PagesPerSave: nat := 10
  const MaxConsecutiveEmpty: nat := 5

  /**
   * The writer side of the scraper: the empty streak, the items waiting for the
   * next checkpoint, the batches appended to the CSV so far, and whether the
   * run has ended.
   */
  datatype Sink<T> = Sink(consecutiveEmpty: nat, pending: seq<T>, flushed: seq<seq<T>>, stopped: bool)

  function Initial<T>(): Sink<T> { Sink(0, [], [], false) }

  /**
   * Releasing the page at offset `idx` from the start page with contents
   * `items`: update the streak; append the items; at every `PagesPerSave`-th
   * page flush the pending items if there are any; after `MaxConsecutiveEmpty`
   * empty pages in a row flush what is left and stop.
   */
  function ReleasePage<T>(s: Sink<T>, idx: nat, items: seq<T>): Sink<T> {
    var ce := if |items| == 0 then s.consecutiveEmpty + 1 else 0;
    var pend := if |items| == 0 then s.pending else s.pending + items;
    var cadence := (idx + 1) % PagesPerSave == 0 && |pend| > 0;
    var pend' := if cadence then [] else pend;
    var fl := if cadence then s.flushed + [pend] else s.flushed;
    if ce >= MaxConsecutiveEmpty then Sink(ce, pend', if |pend'| > 0 then fl + [pend'] else fl, true)
    else Sink(ce, pend', fl, false)
  }

  /** Releasing pages with contents `cs`, in order from the start page; nothing happens after the stop. */
  function Run<T>(cs: seq<seq<T>>): Sink<T> {
    if |cs| == 0 then Initial()
    else
      var s := Run(cs[..|cs| - 1]);
      if s.stopped then s else ReleasePage(s, |cs| - 1, cs[|cs| - 1])
  }

  /** No page before the last one ended the run. */
  predicate Live<T>(cs: seq<seq<T>>) {
    |cs| == 0 || !Run(cs[..|cs| - 1]).stopped
  }

  /** The number of empty pages at the end of `cs`. */
  function TrailingEmpty<T>(cs: seq<seq<T>>): (k: nat)
    ensures k <= |cs|
  {
    if |cs| == 0 || |cs[|cs| - 1]| > 0 then 0 else 1 + TrailingEmpty(cs[..|cs| - 1])
  }

  lemma {:induction false} LiveInit<T>(cs: seq<seq<T>>)
    requires Live(cs) && |cs| > 0
    ensures Live(cs[..|cs| - 1])
  {
    var init := cs[..|cs| - 1];
    if |init| > 0 {
      assert init[..|init| - 1] == cs[..|cs| - 2];
    }
  }

  /** The streak counter is the number of trailing empty pages, reset by any page with items. */
  lemma {:induction false} StreakIsTrailingEmpty<T>(cs: seq<seq<T>>)
    requires Live(cs)
    ensures Run(cs).consecutiveEmpty == TrailingEmpty(cs)
    decreases |cs|
  {
    if |cs| > 0 {
      LiveInit(cs);
      StreakIsTrailingEmpty(cs[..|cs| - 1]);
    }
  }

  /** The run stops exactly on the page that completes a streak of `MaxConsecutiveEmpty` empty pages. */
  lemma StopsOnStreak<T>(cs: seq<seq<T>>)
    requires Live(cs)
    ensures Run(cs).stopped <==> TrailingEmpty(cs) >= MaxConsecutiveEmpty
  {
    StreakIsTrailingEmpty(cs);
    if |cs| > 0 {
      LiveInit(cs);
      StreakIsTrailingEmpty(cs[..|cs| - 1]);
    }
  }

  // ---------------------------------------------------------------
  // Checkpoint cadence
  // ---------------------------------------------------------------

  /** The items of the `j`-th block of `PagesPerSave` pages. */
  function Block<T>(cs: seq<seq<T>>, j: nat): seq<T>
    requires PagesPerSave * (j + 1) <= |cs|
  {
    Flatten(cs[PagesPerSave * j..PagesPerSave * (j + 1)])
  }

  /** The non-empty blocks among the first `m`, in order. */
  function NonEmptyBlocks<T>(cs: seq<seq<T>>, m: nat): seq<seq<T>>
    requires PagesPerSave * m <= |cs|
  {
    if m == 0 then []
    else NonEmptyBlocks(cs, m - 1) + (if |Block(cs, m - 1)| > 0 then [Block(cs, m - 1)] else [])
  }

  lemma {:induction false} NonEmptyBlocksPrefix<T>(cs: seq<seq<T>>, ds: seq<seq<T>>, m: nat)
    requires PagesPerSave * m <= |cs| && PagesPerSave * m <= |ds|
    requires cs[..PagesPerSave * m] == ds[..PagesPerSave * m]
    ensures NonEmptyBlocks(cs, m) == NonEmptyBlocks(ds, m)
  {
    if m > 0 {
      var lo := PagesPerSave * (m - 1);
      var hi := PagesPerSave * m;
      assert cs[..lo] == cs[..hi][..lo] && ds[..lo] == ds[..hi][..lo];
      NonEmptyBlocksPrefix(cs, ds, m - 1);
      assert cs[lo..hi] == cs[..hi][lo..hi] && ds[lo..hi] == ds[..hi][lo..hi];
    }
  }

  /** The pages after the last complete block. */
  function Tail<T>(cs: seq<seq<T>>): seq<T> {
    Flatten(cs[PagesPerSave * (|cs| / PagesPerSave)..])
  }

  /**
   * While the run goes on, the batches written are exactly the non-empty
   * blocks of `PagesPerSave` pages completed so far, and the pending items are
   * those of the pages after the last complete block.
   */
  lemma {:induction false} CadenceWhileRunning<T>(cs: seq<seq<T>>)
    requires Live(cs) && !Run(cs).stopped
    ensures Run(cs).flushed == NonEmptyBlocks(cs, |cs| / PagesPerSave)
    ensures Run(cs).pending == Tail(cs)
    decreases |cs|
  {
    if |cs| > 0 {
      var n := |cs|;
      var q := (n - 1) / PagesPerSave;
      var s := Run(cs[..n - 1]);
      var pend := s.pending + cs[n - 1];
      CadenceStep(cs);
      BlockCases(cs);
      ReleaseLast(cs);
      if n % PagesPerSave == 0 {
        assert n / PagesPerSave == q + 1;
        if |pend| > 0 {
          assert Run(cs).flushed == NonEmptyBlocks(cs, q) + [pend];
        } else {
          assert Run(cs).flushed == NonEmptyBlocks(cs, q);
        }
      } else {
        assert Run(cs).flushed == NonEmptyBlocks(cs, q) && Run(cs).pending == pend;
      }
    }
  }

  /** Unfolds `Run` on the last page of a live run. */
  lemma ReleaseLast<T>(cs: seq<seq<T>>)
    requires |cs| > 0 && Live(cs)
    ensures var s := Run(cs[..|cs| - 1]);
            var pend := s.pending + cs[|cs| - 1];
            var cadence := |cs| % PagesPerSave == 0 && |pend| > 0;
            && (cadence ==> Run(cs).pending == [] && Run(cs).flushed == s.flushed + [pend])
            && (!cadence ==> Run(cs).pending == pend)
            && (!cadence ==> Run(cs).flushed == (if Run(cs).stopped && |pend| > 0 then s.flushed + [pend] else s.flushed))
  {
    var s := Run(cs[..|cs| - 1]);
    assert Run(cs) == ReleasePage(s, |cs| - 1, cs[|cs| - 1]);
    if cs[|cs| - 1] == [] {
      assert s.pending + cs[|cs| - 1] == s.pending;
    }
  }

  /** The step of the cadence proof: the state before releasing the last page, then that page. */
  lemma {:induction false} CadenceStep<T>(cs: seq<seq<T>>)
    requires |cs| > 0 && Live(cs)
    ensures var s := Run(cs[..|cs| - 1]);
            var q := (|cs| - 1) / PagesPerSave;
            && s.flushed == NonEmptyBlocks(cs, q)
            && s.pending + cs[|cs| - 1] == Flatten(cs[PagesPerSave * q..])
    decreases |cs|, 1
  {
    var n := |cs|;
    var init := cs[..n - 1];
    var from := PagesPerSave * ((n - 1) / PagesPerSave);
    CadenceBefore(cs);
    assert cs[from..][..|cs[from..]| - 1] == init[from..];
  }

  /** The last page either completes a block or extends the tail of the previous ones. */
  lemma BlockCases<T>(cs: seq<seq<T>>)
    requires |cs| > 0
    ensures var n := |cs|;
            var q := (n - 1) / PagesPerSave;
            var b := Flatten(cs[PagesPerSave * q..]);
            && (n % PagesPerSave == 0 ==>
                  && n / PagesPerSave == q + 1 && Tail(cs) == []
                  && NonEmptyBlocks(cs, q + 1) == NonEmptyBlocks(cs, q) + (if |b| > 0 then [b] else []))
            && (n % PagesPerSave != 0 ==> n / PagesPerSave == q && Tail(cs) == b)
  {
    var n := |cs|;
    var q := (n - 1) / PagesPerSave;
    if n % PagesPerSave == 0 {
      assert n == PagesPerSave * (q + 1) && q + 1 == n / PagesPerSave;
      BlockComplete(cs, q);
    } else {
      assert n / PagesPerSave == q;
    }
  }

  /** The state before releasing the last page, by the cadence on the shorter run. */
  lemma {:induction false} CadenceBefore<T>(cs: seq<seq<T>>)
    requires |cs| > 0 && Live(cs)
    ensures var init := cs[..|cs| - 1];
            var q := (|cs| - 1) / PagesPerSave;
            && Run(init).flushed == NonEmptyBlocks(cs, q)
            && Run(init).pending == Flatten(init[PagesPerSave * q..])
    decreases |cs|, 0
  {
    var init := cs[..|cs| - 1];
    var q := (|cs| - 1) / PagesPerSave;
    LiveInit(cs);
    CadenceWhileRunning(init);
    assert init[..PagesPerSave * q] == cs[..PagesPerSave * q];
    NonEmptyBlocksPrefix(init, cs, q);
  }

  /** A page count that is a multiple of `PagesPerSave` completes the block the last page is in. */
  lemma BlockComplete<T>(cs: seq<seq<T>>, q: nat)
    requires |cs| == PagesPerSave * (q + 1)
    ensures var b := Flatten(cs[PagesPerSave * q..]);
            NonEmptyBlocks(cs, q + 1) == NonEmptyBlocks(cs, q) + (if |b| > 0 then [b] else [])
    ensures Tail(cs) == []
  {
    assert cs[PagesPerSave * q..PagesPerSave * (q + 1)] == cs[PagesPerSave * q..];
    assert |cs| / PagesPerSave == q + 1;
    assert cs[PagesPerSave * (q + 1)..] == [];
  }


  /**
   * At the stop, the batches written are the non-empty complete blocks and
   * then, if any items are left after the last complete block, one last batch
   * holding them.
   */
  lemma {:induction false} CadenceAtStop<T>(cs: seq<seq<T>>)
    requires Live(cs) && Run(cs).stopped
    ensures Run(cs).flushed == NonEmptyBlocks(cs, |cs| / PagesPerSave) + (if |Tail(cs)| > 0 then [Tail(cs)] else [])
  {
    var n := |cs|;
    var q := (n - 1) / PagesPerSave;
    var s := Run(cs[..n - 1]);
    var pend := s.pending + cs[n - 1];
    CadenceStep(cs);
    BlockCases(cs);
    ReleaseLast(cs);
    if n % PagesPerSave == 0 {
      assert n / PagesPerSave == q + 1;
      if |pend| > 0 {
        assert Run(cs).flushed == NonEmptyBlocks(cs, q) + [pend];
      } else {
        assert Run(cs).flushed == NonEmptyBlocks(cs, q);
      }
    } else {
      assert n / PagesPerSave == q && Tail(cs) == pend;
      assert Run(cs).flushed == NonEmptyBlocks(cs, q) + (if |pend| > 0 then [pend] else []);
    }
  }

  /** Batches written are never empty. */
  lemma {:induction false} FlushedNonEmpty<T>(cs: seq<seq<T>>, m: nat)
    requires PagesPerSave * m <= |cs|
    ensures forall b :: b in NonEmptyBlocks(cs, m) ==> |b| > 0
  {
    if m > 0 {
      FlushedNonEmpty(cs, m - 1);
    }
  }

  lemma {:induction false} FlattenNonEmptyBlocks<T>(cs: seq<seq<T>>, m: nat)
    requires PagesPerSave * m <= |cs|
    ensures Flatten(NonEmptyBlocks(cs, m)) == Flatten(cs[..PagesPerSave * m])
  {
    if m > 0 {
      var lo := PagesPerSave * (m - 1);
      var hi := PagesPerSave * m;
      FlattenNonEmptyBlocks(cs, m - 1);
      var b := if |Block(cs, m - 1)| > 0 then [Block(cs, m - 1)] else [];
      FlattenAppend(NonEmptyBlocks(cs, m - 1), b);
      if |b| > 0 {
        assert b[..0] == [];
      }
      assert cs[..hi] == cs[..lo] + cs[lo..hi];
      FlattenAppend(cs[..lo], cs[lo..hi]);
    }
  }

  /**
   * Nothing is lost or duplicated: the batches written, followed by the items
   * still pending, are all the items of the released pages in page order; at
   * the stop the batches alone are.
   */
  lemma Conservation<T>(cs: seq<seq<T>>)
    requires Live(cs)
    ensures Flatten(Run(cs).flushed) + (if Run(cs).stopped then [] else Run(cs).pending) == Flatten(cs)
  {
    var m := |cs| / PagesPerSave;
    FlattenNonEmptyBlocks(cs, m);
    assert cs == cs[..PagesPerSave * m] + cs[PagesPerSave * m..];
    FlattenAppend(cs[..PagesPerSave * m], cs[PagesPerSave * m..]);
    assert Flatten(cs[PagesPerSave * m..]) == Tail(cs);
    if Run(cs).stopped {
      CadenceAtStop(cs);
      var t := if |Tail(cs)| > 0 then [Tail(cs)] else [];
      FlattenAppend(NonEmptyBlocks(cs, m), t);
      if |t| > 0 { assert t[..0] == []; }
      assert Flatten(t) == Tail(cs);
    } else {
      CadenceWhileRunning(cs);
    }
  }

  // ---------------------------------------------------------------
  // End of the listing
  // ---------------------------------------------------------------

  function Empties<T>(k: nat): (cs: seq<seq<T>>)
    ensures |cs| == k && forall i :: 0 <= i < k ==> cs[i] == []
  {
    if k == 0 then [] else Empties(k - 1) + [[]]
  }

  lemma {:induction false} TrailingOfEmpties<T>(cs: seq<seq<T>>, k: nat)
    requires k <= MaxConsecutiveEmpty && (cs == [] || |cs[|cs| - 1]| > 0)
    ensures TrailingEmpty(cs + Empties(k)) == k
  {
    if k > 0 {
      var e := Empties<T>(k);
      assert (cs + e)[..|cs + e| - 1] == cs + Empties(k - 1);
      TrailingOfEmpties(cs, k - 1);
    } else {
      assert cs + Empties<T>(0) == cs;
    }
  }

  /** Pages with items never stop the run. */
  lemma {:induction false} LiveWhileItems<T>(cs: seq<seq<T>>)
    requires forall i :: 0 <= i < |cs| ==> |cs[i]| > 0
    ensures Live(cs) && !Run(cs).stopped
  {
    if |cs| > 0 {
      LiveWhileItems(cs[..|cs| - 1]);
    }
  }

  lemma {:induction false} LiveThroughEmpties<T>(cs: seq<seq<T>>, k: nat)
    requires forall i :: 0 <= i < |cs| ==> |cs[i]| > 0
    requires k <= MaxConsecutiveEmpty
    ensures Live(cs + Empties(k))
    ensures Run(cs + Empties(k)).stopped <==> k == MaxConsecutiveEmpty
  {
    if k == 0 {
      assert cs + Empties<T>(0) == cs;
      LiveWhileItems(cs);
    } else {
      var e := Empties<T>(k);
      assert (cs + e)[..|cs + e| - 1] == cs + Empties(k - 1);
      LiveThroughEmpties(cs, k - 1);
      TrailingOfEmpties(cs, k - 1);
      TrailingOfEmpties(cs, k);
      StopsOnStreak(cs + Empties(k - 1));
      StopsOnStreak(cs + e);
    }
  }

  /**
   * A listing whose pages all have items, followed by `MaxConsecutiveEmpty`
   * empty pages: the run stops on the last of those empty pages and has then
   * written every item of the listing, in order.
   */
  lemma EndOfListing<T>(cs: seq<seq<T>>)
    requires forall i :: 0 <= i < |cs| ==> |cs[i]| > 0
    ensures var all := cs + Empties(MaxConsecutiveEmpty);
            Live(all) && Run(all).stopped && Flatten(Run(all).flushed) == Flatten(cs)
  {
    var all := cs + Empties(MaxConsecutiveEmpty);
    LiveThroughEmpties(cs, MaxConsecutiveEmpty);
    Conservation(all);
    FlattenEmpties(cs, MaxConsecutiveEmpty);
  }

  lemma {:induction false} FlattenEmpties<T>(cs: seq<seq<T>>, k: nat)
    ensures Flatten(cs + Empties(k)) == Flatten(cs)
  {
    if k == 0 {
      assert cs + Empties<T>(0) == cs;
    } else {
      var e := Empties<T>(k);
      assert (cs + e)[..|cs + e| - 1] == cs + Empties(k - 1);
      FlattenEmpties(cs, k - 1);
    }
  }
}
