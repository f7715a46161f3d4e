/** Sequence helpers shared by the models: minimum, concatenation, filtering. */
module Seqs {
  import opened Wrappers

  /** The `Some` results of `f` over `xs`, in order: a loop that skips the items `f` rejects. */
  function FilterMap<A, B>(xs: seq<A>, f: A -> Option<B>): (ys: seq<B>)
    ensures |ys| <= |xs|
  {
    if xs == [] then []
    else FilterMap(xs[..|xs| - 1], f) + (if f(xs[|xs| - 1]).Some? then [f(xs[|xs| - 1]).value] else [])
  }

  /** When `f` rejects nothing, `FilterMap` keeps one result per item, in order. */
  lemma {:induction false} FilterMapAll<A, B>(xs: seq<A>, f: A -> Option<B>)
    requires forall i :: 0 <= i < |xs| ==> f(xs[i]).Some?
    ensures |FilterMap(xs, f)| == |xs|
    ensures forall i :: 0 <= i < |xs| ==> FilterMap(xs, f)[i] == f(xs[i]).value
  {
    if xs != [] {
      var init := xs[..|xs| - 1];
      assert forall i :: 0 <= i < |init| ==> init[i] == xs[i];
      FilterMapAll(init, f);
    }
  }
  /** Every kept result is the result of `f` on some item. */
  lemma {:induction false} FilterMapIn<A, B>(xs: seq<A>, f: A -> Option<B>, y: B)
    requires y in FilterMap(xs, f)
    ensures exists i :: 0 <= i < |xs| && f(xs[i]) == Some(y)
  {
    var init := xs[..|xs| - 1];
    if y in FilterMap(init, f) {
      FilterMapIn(init, f, y);
      var i :| 0 <= i < |init| && f(init[i]) == Some(y);
      assert xs[i] == init[i];
    } else {
      assert f(xs[|xs| - 1]) == Some(y);
    }
  }

  /** Python's `min` on a non-empty list of integers. */
  function Minimum(xs: seq<int>): (m: int)
    requires xs != []
    ensures m in xs
    ensures forall x :: x in xs ==> m <= x
  {
    if |xs| == 1 then xs[0]
    else
      var rest := Minimum(xs[1..]);
      assert forall x :: x in xs[1..] ==> x in xs;
      assert forall x :: x in xs ==> x == xs[0] || x in xs[1..];
      if xs[0] <= rest then xs[0] else rest
  }

  /** `min` on a non-empty list of naturals: `Minimum`, which is then a natural. */
  function MinNat(xs: seq<nat>): (m: nat)
    requires xs != []
    ensures m in xs
    ensures forall x :: x in xs ==> m <= x
  {
    Minimum(xs)
  }

  /** Index of the first element with the least key, which is what `min(items, key=...)` returns. */
  function ArgMin<T>(xs: seq<T>, key: T -> int): (k: nat)
    requires xs != []
    ensures k < |xs|
    ensures forall i :: 0 <= i < |xs| ==> key(xs[k]) <= key(xs[i])
    ensures forall i :: 0 <= i < k ==> key(xs[k]) < key(xs[i])
  {
    if |xs| == 1 then 0
    else
      var k := ArgMin(xs[1..], key);
      assert forall i :: 1 <= i < |xs| ==> xs[i] == xs[1..][i - 1];
      if key(xs[0]) <= key(xs[1..][k]) then 0 else k + 1
  }

  /** The first index with the least key is the only index with both properties `ArgMin` promises. */
  lemma ArgMinIs<T>(xs: seq<T>, key: T -> int, k: nat)
    requires k < |xs|
    requires forall i :: 0 <= i < |xs| ==> key(xs[k]) <= key(xs[i])
    requires forall i :: 0 <= i < k ==> key(xs[k]) < key(xs[i])
    ensures ArgMin(xs, key) == k
  {
    var m := ArgMin(xs, key);
    assert key(xs[m]) <= key(xs[k]) && key(xs[k]) <= key(xs[m]);
  }

  /** `[x for xs in xss for x in xs]` */
  function Flatten<T>(xss: seq<seq<T>>): seq<T> {
    if xss == [] then [] else Flatten(xss[..|xss| - 1]) + xss[|xss| - 1]
  }

  lemma {:induction false} FlattenAppend<T>(a: seq<seq<T>>, b: seq<seq<T>>)
    ensures Flatten(a + b) == Flatten(a) + Flatten(b)
    decreases |b|
  {
    if b == [] {
      assert a + b == a;
    } else {
      var b' := b[..|b| - 1];
      var last := b[|b| - 1];
      assert (a + b)[..|a + b| - 1] == a + b';
      assert (a + b)[|a + b| - 1] == last;
      calc {
        Flatten(a + b);
        Flatten(a + b') + last;
        { FlattenAppend(a, b'); }
        Flatten(a) + Flatten(b') + last;
        Flatten(a) + (Flatten(b') + last);
      }
    }
  }

  /** Extending a slice by one element. */
  lemma SliceSnoc<T>(s: seq<T>, k: nat, i: nat)
    requires k <= i < |s|
    ensures s[k..i + 1] == s[k..i] + [s[i]]
  {
  }

  /** Flattening from the front: the first part, then the rest. */
  lemma FlattenCons<T>(xss: seq<seq<T>>)
    requires xss != []
    ensures Flatten(xss) == xss[0] + Flatten(xss[1..])
  {
    assert xss == [xss[0]] + xss[1..];
    FlattenAppend([xss[0]], xss[1..]);
    assert Flatten([xss[0]]) == Flatten([xss[0]][..0]) + xss[0];
  }

  lemma FlattenSnoc<T>(xss: seq<seq<T>>, xs: seq<T>)
    ensures Flatten(xss + [xs]) == Flatten(xss) + xs
  {
    assert (xss + [xs])[..|xss|] == xss;
  }

  /** The sum of a list of naturals. */
  function Sum(xs: seq<nat>): nat {
    if xs == [] then 0 else Sum(xs[..|xs| - 1]) + xs[|xs| - 1]
  }

  lemma {:induction false} FlattenLength<T>(xss: seq<seq<T>>, lens: seq<nat>)
    requires |lens| == |xss| && forall i :: 0 <= i < |xss| ==> lens[i] == |xss[i]|
    ensures |Flatten(xss)| == Sum(lens)
    decreases |xss|
  {
    if xss != [] {
      FlattenLength(xss[..|xss| - 1], lens[..|lens| - 1]);
    }
  }

  /**
   * A loop over `xs` that keeps the `Some` results of `f`, in order, and is
   * stopped by the first item on which `f` fails (an exception in the script).
   */
  function TryFilterMap<A, B, E>(xs: seq<A>, f: A -> Result<Option<B>, E>): Result<seq<B>, E> {
    if |xs| == 0 then Ok([])
    else match TryFilterMap(xs[..|xs| - 1], f)
      case Err(e) => Err(e)
      case Ok(ys) =>
        match f(xs[|xs| - 1])
        case Err(e) => Err(e)
        case Ok(o) => Ok(ys + (if o.Some? then [o.value] else []))
  }

  lemma TryFilterMapSnoc<A, B, E>(xs: seq<A>, x: A, f: A -> Result<Option<B>, E>)
    requires TryFilterMap(xs, f).Ok? && f(x).Ok?
    ensures TryFilterMap(xs + [x], f) == Ok(TryFilterMap(xs, f).value + (if f(x).value.Some? then [f(x).value.value] else []))
  {
    assert (xs + [x])[..|xs|] == xs;
  }

  /** A failure among the first `n` items is the failure of the whole loop. */
  lemma {:induction false} TryFilterMapErr<A, B, E>(xs: seq<A>, n: nat, f: A -> Result<Option<B>, E>)
    requires n <= |xs| && TryFilterMap(xs[..n], f).Err?
    ensures TryFilterMap(xs, f) == TryFilterMap(xs[..n], f)
    decreases |xs| - n
  {
    if n < |xs| {
      assert xs[..n + 1][..n] == xs[..n];
      TryFilterMapErr(xs, n + 1, f);
    } else {
      assert xs[..n] == xs;
    }
  }

  /** The loop fails exactly when some item fails, and then with the first failure. */
  lemma {:induction false} TryFilterMapFails<A, B, E>(xs: seq<A>, f: A -> Result<Option<B>, E>)
    ensures TryFilterMap(xs, f).Err? <==> exists i :: 0 <= i < |xs| && f(xs[i]).Err?
    ensures TryFilterMap(xs, f).Err? ==>
              exists i :: 0 <= i < |xs| && f(xs[i]).Err? && TryFilterMap(xs, f).error == f(xs[i]).error
                          && forall j :: 0 <= j < i ==> f(xs[j]).Ok?
  {
    if |xs| > 0 {
      var init := xs[..|xs| - 1];
      assert forall i :: 0 <= i < |init| ==> init[i] == xs[i];
      TryFilterMapFails(init, f);
    }
  }

  /** Without failures, the loop keeps exactly what `FilterMap` keeps. */
  lemma {:induction false} TryFilterMapOk<A, B, E>(xs: seq<A>, f: A -> Result<Option<B>, E>)
    requires forall i :: 0 <= i < |xs| ==> f(xs[i]).Ok?
    ensures TryFilterMap(xs, f) == Ok(FilterMap(xs, x => if f(x).Ok? then f(x).value else None))
  {
    if |xs| > 0 {
      var init := xs[..|xs| - 1];
      assert forall i :: 0 <= i < |init| ==> init[i] == xs[i];
      TryFilterMapOk(init, f);
    }
  }

  /** A loop that maps every item of `xs` through `f`, stopped by the first item on which `f` fails. */
  function TryMap<A, B, E>(xs: seq<A>, f: A -> Result<B, E>): Result<seq<B>, E> {
    if xs == [] then Ok([])
    else match TryMap(xs[..|xs| - 1], f)
      case Err(e) => Err(e)
      case Ok(ys) =>
        match f(xs[|xs| - 1])
        case Err(e) => Err(e)
        case Ok(y) => Ok(ys + [y])
  }

  /** The loop succeeds iff every item does, and then keeps one result per item, in order. */
  lemma {:induction false} TryMapSpec<A, B, E>(xs: seq<A>, f: A -> Result<B, E>)
    ensures TryMap(xs, f).Ok? <==> forall i :: 0 <= i < |xs| ==> f(xs[i]).Ok?
    ensures TryMap(xs, f).Ok? ==>
              |TryMap(xs, f).value| == |xs|
              && forall i :: 0 <= i < |xs| ==> TryMap(xs, f).value[i] == f(xs[i]).value
  {
    if xs != [] {
      var init := xs[..|xs| - 1];
      assert forall i :: 0 <= i < |init| ==> init[i] == xs[i];
      TryMapSpec(init, f);
    }
  }

  /** One more step of the loop. */
  lemma TryMapNext<A, B, E>(xs: seq<A>, k: nat, f: A -> Result<B, E>)
    requires k < |xs| && TryMap(xs[..k], f).Ok?
    ensures TryMap(xs[..k + 1], f)
            == if f(xs[k]).Err? then Err(f(xs[k]).error) else Ok(TryMap(xs[..k], f).value + [f(xs[k]).value])
  {
    assert xs[..k + 1][..k] == xs[..k];
  }

  /** A failure among the first `n` items is the failure of the whole loop. */
  lemma {:induction false} TryMapErr<A, B, E>(xs: seq<A>, n: nat, f: A -> Result<B, E>)
    requires n <= |xs| && TryMap(xs[..n], f).Err?
    ensures TryMap(xs, f) == TryMap(xs[..n], f)
    decreases |xs| - n
  {
    if n < |xs| {
      assert xs[..n + 1][..n] == xs[..n];
      TryMapErr(xs, n + 1, f);
    } else {
      assert xs[..n] == xs;
    }
  }

  /** `xs.index(x)`, or `|xs|` when `x` is absent. */
  function Find<T(==)>(xs: seq<T>, x: T): (k: nat)
    ensures k <= |xs| && (k < |xs| <==> x in xs)
    ensures k < |xs| ==> xs[k] == x
    ensures forall j :: 0 <= j < k ==> xs[j] != x
  {
    if xs == [] then 0 else if xs[0] == x then 0 else 1 + Find(xs[1..], x)
  }

  /** A loop whose every item comes back unchanged and kept returns its input. */
  lemma {:induction false} TryFilterMapFixed<A, E>(xs: seq<A>, f: A -> Result<Option<A>, E>)
    requires forall i :: 0 <= i < |xs| ==> f(xs[i]) == Ok(Some(xs[i]))
    ensures TryFilterMap(xs, f) == Ok(xs)
  {
    if |xs| > 0 {
      var init, x := xs[..|xs| - 1], xs[|xs| - 1];
      forall i | 0 <= i < |init| ensures f(init[i]) == Ok(Some(init[i])) {
        assert init[i] == xs[i];
      }
      TryFilterMapFixed(init, f);
      assert f(x) == Ok(Some(x));
      TryFilterMapSnoc(init, xs[|xs| - 1], f);
      assert init + [xs[|xs| - 1]] == xs;
    }
  }

  /** One more step of a loop over `xs`: the prefix up to `k + 1` from the prefix up to `k`. */
  lemma TryFilterMapNext<A, B, E>(xs: seq<A>, k: nat, f: A -> Result<Option<B>, E>)
    requires k < |xs| && TryFilterMap(xs[..k], f).Ok?
    ensures TryFilterMap(xs[..k + 1], f)
            == if f(xs[k]).Err? then Err(f(xs[k]).error)
               else Ok(TryFilterMap(xs[..k], f).value + (if f(xs[k]).value.Some? then [f(xs[k]).value.value] else []))
  {
    assert xs[..k + 1][..k] == xs[..k];
  }

  lemma TryFilterMapSnocErr<A, B, E>(xs: seq<A>, x: A, f: A -> Result<Option<B>, E>)
    requires TryFilterMap(xs, f).Ok? && f(x).Err?
    ensures TryFilterMap(xs + [x], f) == Err(f(x).error)
  {
    assert (xs + [x])[..|xs|] == xs;
  }

  /** Every item `f` keeps is among the results. */
  lemma {:induction false} FilterMapHas<A, B>(xs: seq<A>, f: A -> Option<B>, i: nat)
    requires i < |xs| && f(xs[i]).Some?
    ensures f(xs[i]).value in FilterMap(xs, f)
  {
    var init := xs[..|xs| - 1];
    if i < |init| {
      assert init[i] == xs[i];
      FilterMapHas(init, f, i);
    }
  }

  /** The set of the `Some` results of `f` over `xs`: a loop adding to a set. */
  function SetOf<A, B>(xs: seq<A>, f: A -> Option<B>): set<B> {
    if xs == [] then {}
    else SetOf(xs[..|xs| - 1], f) + (if f(xs[|xs| - 1]).Some? then {f(xs[|xs| - 1]).value} else {})
  }

  /** The set holds exactly the results of `f` on the items. */
  lemma {:induction false} SetOfSpec<A, B>(xs: seq<A>, f: A -> Option<B>)
    ensures forall y :: y in SetOf(xs, f) ==> exists i :: 0 <= i < |xs| && f(xs[i]) == Some(y)
    ensures forall i :: 0 <= i < |xs| && f(xs[i]).Some? ==> f(xs[i]).value in SetOf(xs, f)
  {
    if xs != [] {
      var init := xs[..|xs| - 1];
      SetOfSpec(init, f);
      forall i | 0 <= i < |xs| && f(xs[i]).Some? ensures f(xs[i]).value in SetOf(xs, f) {
        if i < |init| {
          assert init[i] == xs[i];
        }
      }
      forall y | y in SetOf(xs, f) ensures exists i :: 0 <= i < |xs| && f(xs[i]) == Some(y) {
        if y in SetOf(init, f) {
          var i :| 0 <= i < |init| && f(init[i]) == Some(y);
          assert xs[i] == init[i];
        } else {
          assert f(xs[|xs| - 1]) == Some(y);
        }
      }
    }
  }

  /** Index of the first item satisfying `p`, or `|xs|` when none does: a `for ... break` search. */
  function FirstIndex<T>(xs: seq<T>, p: T -> bool): (k: nat)
    ensures k <= |xs|
    ensures k < |xs| ==> p(xs[k])
    ensures forall j :: 0 <= j < k ==> !p(xs[j])
  {
    if |xs| == 0 then 0 else if p(xs[0]) then 0 else 1 + FirstIndex(xs[1..], p)
  }

  /** The first index is the one no earlier item satisfies. */
  lemma {:induction false} FirstIndexIs<T>(xs: seq<T>, p: T -> bool, k: nat)
    requires k <= |xs| && (k < |xs| ==> p(xs[k]))
    requires forall j :: 0 <= j < k ==> !p(xs[j])
    ensures FirstIndex(xs, p) == k
  {
    if k > 0 {
      FirstIndexIs(xs[1..], p, k - 1);
    }
  }

  /** A left-to-right scan for the first element satisfying `p`, proved against `FirstIndex`. */
  method FindFirst<T>(xs: seq<T>, p: T -> bool) returns (i: nat)
    ensures i == FirstIndex(xs, p)
  {
    i := 0;
    while i < |xs|
      invariant i <= |xs|
      invariant forall j :: 0 <= j < i ==> !p(xs[j])
    {
      if p(xs[i]) {
        break;
      }
      i := i + 1;
    }
    FirstIndexIs(xs, p, i);
  }

  /** The first element that passes `stop`, else the first that passes `keep`. */
  function Preferred<T>(xs: seq<T>, keep: T -> bool, stop: T -> bool): (k: Option<nat>)
    ensures k.Some? ==> k.value < |xs|
  {
    var f := FirstIndex(xs, stop);
    if f < |xs| then Some(f)
    else
      var e := FirstIndex(xs, keep);
      if e < |xs| then Some(e) else None
  }

  /**
   * A scan that remembers the first element passing `keep` and returns at
   * once at an element passing `stop` (every such element passes `keep`).
   */
  method ScanPreferred<T>(xs: seq<T>, keep: T -> bool, stop: T -> bool) returns (found: Option<nat>)
    requires forall x :: stop(x) ==> keep(x)
    ensures found == Preferred(xs, keep, stop)
  {
    found := None;
    var i := 0;
    while i < |xs|
      invariant i <= |xs|
      invariant i <= FirstIndex(xs, stop)
      invariant found.None? ==> i <= FirstIndex(xs, keep)
      invariant found.Some? ==> found.value == FirstIndex(xs, keep) < i
    {
      if keep(xs[i]) {
        if stop(xs[i]) {
          return Some(i);
        } else if found.None? {
          found := Some(i);
        }
      }
      i := i + 1;
    }
  }

  /**
   * Where a kept result comes from: the item it was made of, every earlier
   * kept result being one of the results kept before it.
   */
  lemma {:induction false} FilterMapOrigin<A, B>(xs: seq<A>, f: A -> Option<B>, k: nat)
    requires k < |FilterMap(xs, f)|
    ensures exists i :: 0 <= i < |xs| && f(xs[i]) == Some(FilterMap(xs, f)[k])
                        && forall j :: 0 <= j < i && f(xs[j]).Some? ==> f(xs[j]).value in FilterMap(xs, f)[..k]
  {
    var init := xs[..|xs| - 1];
    var ys := FilterMap(xs, f);
    var yi := FilterMap(init, f);
    assert forall j :: 0 <= j < |init| ==> init[j] == xs[j];
    if k < |yi| {
      FilterMapOrigin(init, f, k);
      assert ys[..k] == yi[..k];
      var i :| 0 <= i < |init| && f(init[i]) == Some(yi[k])
               && forall j :: 0 <= j < i && f(init[j]).Some? ==> f(init[j]).value in yi[..k];
      assert f(xs[i]) == Some(ys[k]);
    } else {
      assert ys[..k] == yi;
      forall j | 0 <= j < |xs| - 1 && f(xs[j]).Some? ensures f(xs[j]).value in ys[..k] {
        FilterMapHas(init, f, j);
      }
      assert f(xs[|xs| - 1]) == Some(ys[k]);
    }
  }

  /** Two filters that send every item to exactly one side split the items between them. */
  lemma {:induction false} FilterMapSplit<A>(xs: seq<A>, f: A -> Option<A>, g: A -> Option<A>)
    requires forall i :: 0 <= i < |xs| ==>
               (f(xs[i]) == Some(xs[i]) && g(xs[i]).None?) || (g(xs[i]) == Some(xs[i]) && f(xs[i]).None?)
    ensures multiset(FilterMap(xs, f)) + multiset(FilterMap(xs, g)) == multiset(xs)
  {
    if |xs| > 0 {
      var init := xs[..|xs| - 1];
      assert forall i :: 0 <= i < |init| ==> init[i] == xs[i];
      FilterMapSplit(init, f, g);
      assert xs == init + [xs[|xs| - 1]];
    }
  }

  /** The loop over `a + b` is the loop over `a` followed by the loop over `b`. */
  lemma {:induction false} TryFilterMapAppend<A, B, E>(a: seq<A>, b: seq<A>, f: A -> Result<Option<B>, E>)
    requires TryFilterMap(a, f).Ok?
    ensures TryFilterMap(a + b, f) ==
              if TryFilterMap(b, f).Ok? then Ok(TryFilterMap(a, f).value + TryFilterMap(b, f).value) else TryFilterMap(b, f)
  {
    if |b| == 0 {
      assert a + b == a;
      assert TryFilterMap(b, f) == Ok([]);
      assert TryFilterMap(a, f).value + [] == TryFilterMap(a, f).value;
    } else {
      var b' := b[..|b| - 1];
      var x := b[|b| - 1];
      TryFilterMapAppend(a, b', f);
      assert a + b == (a + b') + [x];
      assert b == b' + [x];
      if TryFilterMap(b', f).Err? {
        TryFilterMapErr(a + b, |a + b'|, f);
        TryFilterMapErr(b, |b'|, f);
      } else if f(x).Ok? {
        TryFilterMapSnoc(a + b', x, f);
        TryFilterMapSnoc(b', x, f);
        var tail := if f(x).value.Some? then [f(x).value.value] else [];
        var ya, yb := TryFilterMap(a, f).value, TryFilterMap(b', f).value;
        assert (ya + yb) + tail == ya + (yb + tail);
      } else {
        TryFilterMapSnocErr(a + b', x, f);
        TryFilterMapSnocErr(b', x, f);
      }
    }
  }

  /** A filter that keeps an item unchanged exactly when `p` holds of it keeps exactly the items satisfying `p`. */
  lemma FilterMapKeeps<A>(xs: seq<A>, f: A -> Option<A>, p: A -> bool)
    requires forall x :: f(x) == (if p(x) then Some(x) else None)
    ensures forall x :: x in FilterMap(xs, f) <==> x in xs && p(x)
  {
    forall x ensures x in FilterMap(xs, f) <==> x in xs && p(x) {
      if x in FilterMap(xs, f) {
        FilterMapIn(xs, f, x);
      }
      if x in xs && p(x) {
        var i :| 0 <= i < |xs| && xs[i] == x;
        FilterMapHas(xs, f, i);
      }
    }
  }

  /** Filtering a concatenation filters each part. */
  lemma {:induction false} FilterMapAppend<A, B>(a: seq<A>, b: seq<A>, f: A -> Option<B>)
    ensures FilterMap(a + b, f) == FilterMap(a, f) + FilterMap(b, f)
    decreases |b|
  {
    if |b| == 0 {
      assert a + b == a;
    } else {
      var b' := b[..|b| - 1];
      assert (a + b)[..|a + b| - 1] == a + b';
      FilterMapAppend(a, b', f);
    }
  }

  /** The filter read from the front: the first item's result, then the rest. */
  lemma FilterMapCons<A, B>(xs: seq<A>, f: A -> Option<B>)
    requires |xs| > 0
    ensures FilterMap(xs, f) == (if f(xs[0]).Some? then [f(xs[0]).value] else []) + FilterMap(xs[1..], f)
  {
    assert xs == [xs[0]] + xs[1..];
    FilterMapAppend([xs[0]], xs[1..], f);
    assert [xs[0]][..0] == [];
  }

  /** The first kept result comes from the first item `f` keeps; there is none when `f` keeps no item. */
  lemma {:induction false} FilterMapHead<A, B>(xs: seq<A>, f: A -> Option<B>, p: A -> bool)
    requires forall x :: p(x) == f(x).Some?
    ensures FirstIndex(xs, p) == |xs| <==> |FilterMap(xs, f)| == 0
    ensures FirstIndex(xs, p) < |xs| ==> FilterMap(xs, f)[0] == f(xs[FirstIndex(xs, p)]).value
  {
    if |xs| > 0 {
      FilterMapCons(xs, f);
      FilterMapHead(xs[1..], f, p);
    }
  }

  /** Two filters in a row are one filter. */
  lemma {:induction false} FilterMapCompose<A, B, C>(xs: seq<A>, f: A -> Option<B>, g: B -> Option<C>, h: A -> Option<C>)
    requires forall x :: h(x) == (if f(x).Some? then g(f(x).value) else None)
    ensures FilterMap(FilterMap(xs, f), g) == FilterMap(xs, h)
  {
    if |xs| > 0 {
      var init := xs[..|xs| - 1];
      var x := xs[|xs| - 1];
      FilterMapCompose(init, f, g, h);
      var t := if f(x).Some? then [f(x).value] else [];
      FilterMapAppend(FilterMap(init, f), t, g);
      if f(x).Some? {
        assert t == [] + t;
        assert FilterMap(t, g) == FilterMap(t[..0], g) + (if g(t[0]).Some? then [g(t[0]).value] else []);
      }
    }
  }

  /** Reordering the items reorders what the filter keeps and nothing more. */
  lemma {:induction false} FilterMapPerm<A, B>(xs: seq<A>, ys: seq<A>, f: A -> Option<B>)
    requires multiset(xs) == multiset(ys)
    ensures multiset(FilterMap(xs, f)) == multiset(FilterMap(ys, f))
    decreases |xs|
  {
    if |xs| == 0 {
      assert ys == [] by {
        assert |multiset(ys)| == 0;
      }
    } else {
      var j := MatchLast(xs, ys);
      var x, init := xs[|xs| - 1], xs[..|xs| - 1];
      var pre, post := ys[..j], ys[j + 1..];
      assert multiset(FilterMap(xs, f)) == multiset(FilterMap(init, f)) + multiset(FilterMap([x], f)) by {
        assert xs == init + [x];
        FilterMapSnocMultiset(init, x, f);
      }
      assert multiset(FilterMap(ys, f)) == multiset(FilterMap(pre + post, f)) + multiset(FilterMap([x], f)) by {
        assert ys == pre + [x] + post;
        FilterMapSplice(pre, x, post, f);
      }
      assert multiset(FilterMap(init, f)) == multiset(FilterMap(pre + post, f)) by {
        MultisetRemoveLast(xs, ys, j);
        FilterMapPerm(init, pre + post, f);
      }
    }
  }

  /** The last item of `xs` sits somewhere in any reordering `ys`. */
  lemma MatchLast<A>(xs: seq<A>, ys: seq<A>) returns (j: nat)
    requires multiset(xs) == multiset(ys) && |xs| > 0
    ensures j < |ys| && ys[j] == xs[|xs| - 1]
  {
    assert xs[|xs| - 1] in multiset(xs);
    j :| 0 <= j < |ys| && ys[j] == xs[|xs| - 1];
  }

  lemma FilterMapSnocMultiset<A, B>(init: seq<A>, x: A, f: A -> Option<B>)
    ensures multiset(FilterMap(init + [x], f)) == multiset(FilterMap(init, f)) + multiset(FilterMap([x], f))
  {
    FilterMapAppend(init, [x], f);
  }

  /** Taking the last item out of one of two equal multisets, and the same item out of the other. */
  lemma MultisetRemoveLast<A>(xs: seq<A>, ys: seq<A>, j: nat)
    requires multiset(xs) == multiset(ys) && |xs| > 0 && j < |ys| && ys[j] == xs[|xs| - 1]
    ensures multiset(xs[..|xs| - 1]) == multiset(ys[..j] + ys[j + 1..])
  {
    var x := xs[|xs| - 1];
    var init, pre, post := xs[..|xs| - 1], ys[..j], ys[j + 1..];
    assert xs == init + [x];
    assert ys == pre + [x] + post;
    assert multiset(ys) == multiset(pre) + multiset{x} + multiset(post);
    assert multiset(pre + post) == multiset(pre) + multiset(post);
    forall z ensures multiset(init)[z] == multiset(pre + post)[z] {
      assert multiset(xs)[z] == multiset(init)[z] + multiset{x}[z];
    }
  }

  /** What the filter keeps of `pre + [x] + post` is what it keeps of `pre + post` and of `[x]`. */
  lemma FilterMapSplice<A, B>(pre: seq<A>, x: A, post: seq<A>, f: A -> Option<B>)
    ensures multiset(FilterMap(pre + [x] + post, f)) == multiset(FilterMap(pre + post, f)) + multiset(FilterMap([x], f))
  {
    FilterMapAppend(pre + [x], post, f);
    FilterMapAppend(pre, [x], f);
    FilterMapAppend(pre, post, f);
  }

  lemma AppendAssoc<T>(a: seq<T>, b: seq<T>, c: seq<T>)
    ensures (a + b) + c == a + (b + c)
  {
  }

  /** Moving the head of what is left onto what is done keeps the whole. */
  lemma AppendShift<T>(done: seq<T>, next: seq<T>, rest: seq<T>, whole: seq<T>)
    requires done + (next + rest) == whole
    ensures (done + next) + rest == whole
  {
  }
}
