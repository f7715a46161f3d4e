/**
 * The Hunter Card TCG price checker (checkHunter.py): two prompts (foil only?
 * highest price?), then the catalogue pages from page 1 until one answers
 * with another status than 200 or lists no product; every product with a
 * title and a price that reads as an integer and passes both filters is
 * shown, its name cut at the first en dash, and the total is counted.
 */
module CheckHunter {
  import opened Wrappers
  import opened Text
  import opened Seqs
  import opened Prompt
  import opened Paging
  import Hunter

  /** `BASE_URL.format(pagina)` */
  function PageUrl(pagina: nat): string {
    "https://www.huntercardtcg.com/categoria-producto/mtg/mtg-singles/page/" + NatToString(pagina) + "/?orderby=price"
  }

  // ---------------------------------------------------------------
  // The two prompts
  // ---------------------------------------------------------------

  /** The foil prompt accepts "s" or "n" after `strip().lower()`; "s" means foil only. */
  function FoilAnswer(r: string): Option<bool> {
    var a := Lower(Strip(r));
    if a == "s" then Some(true) else if a == "n" then Some(false) else None
  }

  function FoilParse(): string -> Option<bool> { FoilAnswer }

  /** The price prompt accepts "-" (no limit) or a run of digits, after `strip()`. */
  function MaxAnswer(r: string): Option<Option<nat>> {
    var t := Strip(r);
    if t == "-" then Some(None) else if IsDecimal(t) then Some(Some(NatValue(t))) else None
  }

  function MaxParse(): string -> Option<Option<nat>> { MaxAnswer }

  /** The foil answer is `true` exactly for "s" and `false` exactly for "n", in any case and padding. */
  lemma {:induction false} FoilParseSpec(r: string)
    ensures FoilParse()(r) == Some(true) <==> Lower(Strip(r)) == "s"
    ensures FoilParse()(r) == Some(false) <==> Lower(Strip(r)) == "n"
    ensures FoilParse()(r).None? <==> Lower(Strip(r)) !in {"s", "n"}
  {
  }

  /** No limit exactly for "-", a limit exactly for a run of digits, whose value it is. */
  lemma {:induction false} MaxParseSpec(r: string)
    ensures MaxParse()(r) == Some(None) <==> Strip(r) == "-"
    ensures MaxParse()(r).Some? && MaxParse()(r).value.Some? <==> IsDecimal(Strip(r))
    ensures IsDecimal(Strip(r)) ==> MaxParse()(r) == Some(Some(NatValue(Strip(r))))
  {
    if Strip(r) == "-" {
      assert !IsDigit(Strip(r)[0]);
    }
  }

  /** Any limit typed as `str(n)` is read back as `n`. */
  lemma {:induction false} MaxParseRoundTrip(n: nat)
    ensures MaxParse()(NatToString(n)) == Some(Some(n))
  {
    var t := NatToString(n);
    StripNoSpace(t);
    assert t != "-" by { assert IsDigit(t[0]); }
  }

  // ---------------------------------------------------------------
  // One product
  // ---------------------------------------------------------------

  /** A `li.product` block: the text of its title `h2` and of its price amount, each if present. */
  datatype Item = Item(name: Option<string>, price: Option<string>)

  /** `int(precio.replace("$", "").replace(".", "").strip())`, `None` where `int` raises. */
  function PriceOf(text: string): Option<int> {
    PyInt(Strip(Remove(Remove(Strip(text), '$'), '.')))
  }

  /** A line of the report: the short name, the price and whether the title says foil. */
  datatype Line = Line(name: string, price: int, foil: bool)

  /** `"foil" in nombre.lower()` */
  predicate IsFoil(full: string) { Contains(Lower(full), "foil") }

  /** `nombre.split("–")[0].strip()` */
  function ShortName(full: string): string { Strip(Before(full, '–')) }

  /** The line shown for a product, `None` when the product is skipped. */
  function ShownLine(soloFoil: bool, max: Option<nat>, item: Item): Option<Line> {
    if item.name.None? || item.price.None? then None
    else
      match PriceOf(item.price.value)
      case None => None
      case Some(p) =>
        var full := Strip(item.name.value);
        if soloFoil && !IsFoil(full) then None
        else if max.Some? && p > max.value then None
        else Some(Line(ShortName(full), p, IsFoil(full)))
  }

  function Shown(soloFoil: bool, max: Option<nat>): Item -> Option<Line> {
    item => ShownLine(soloFoil, max, item)
  }

  /** Whether a line passes the two filters the user chose. */
  predicate Passes(soloFoil: bool, max: Option<nat>, l: Line) {
    (soloFoil ==> l.foil) && (max.Some? ==> l.price <= max.value)
  }

  /**
   * The short name is the part of the title before the first en dash,
   * without its outer whitespace: a slice of the title, preceded by
   * whitespace only, with no en dash up to its end.
   */
  lemma {:induction false} ShortNameSpec(full: string)
    ensures '–' !in ShortName(full) && NoOuterSpace(ShortName(full))
    ensures exists a, e :: 0 <= a <= e <= |full| && ShortName(full) == full[a..e] && '–' !in full[..e]
                           && forall i :: 0 <= i < a ==> IsSpace(full[i])
  {
    var b := Before(full, '–');
    StripSpec(b);
    var a, e :| 0 <= a <= e <= |b| && Strip(b) == b[a..e] && forall i :: 0 <= i < a ==> IsSpace(b[i]);
    assert full[a..e] == b[a..e];
    assert full[..e] == b[..e];
    assert '–' !in b[..e] by {
      forall i | 0 <= i < e ensures b[..e][i] != '–' {
        assert b[i] in b;
      }
    }
    forall i | 0 <= i < a ensures IsSpace(full[i]) {
      assert full[i] == b[i];
    }
  }

  /**
   * A product is shown exactly when it has a title and a price that reads as
   * an integer and it passes the filters; its line carries that price, the
   * foil flag of the title and the short name of the title.
   */
  lemma {:induction false} ShownSpec(soloFoil: bool, max: Option<nat>, item: Item)
    ensures ShownLine(soloFoil, max, item).Some? <==>
              item.name.Some? && item.price.Some? && PriceOf(item.price.value).Some?
              && Passes(soloFoil, max, Line("", PriceOf(item.price.value).value, IsFoil(Strip(item.name.value))))
    ensures ShownLine(soloFoil, max, item).Some? ==>
              var l := ShownLine(soloFoil, max, item).value;
              l.price == PriceOf(item.price.value).value && l.foil == IsFoil(Strip(item.name.value))
              && l.name == ShortName(Strip(item.name.value)) && Passes(soloFoil, max, l)
  {
  }

  /** A line shown passes both filters. */
  lemma ShownPasses(soloFoil: bool, max: Option<nat>, item: Item)
    ensures ShownLine(soloFoil, max, item).Some? ==> Passes(soloFoil, max, ShownLine(soloFoil, max, item).value)
  {
  }

  /** The price the listing scraper writes, `$` and dot-grouped thousands, is read back as the same amount. */
  lemma {:induction false} PriceRoundTrip(n: nat)
    ensures PriceOf(Hunter.FormatCLP(Some(n))) == Some(n)
  {
    DollarRemoved(n);
    GroupedDigits(n);
    PriceOfDigits(Hunter.FormatCLP(Some(n)), Remove(GroupedNat(n, '.'), '.'));
  }

  /** A price whose text is a run of digits once stripped and rid of "$" and "." reads as their value. */
  lemma {:induction false} PriceOfDigits(text: string, d: string)
    requires Remove(Remove(Strip(text), '$'), '.') == d && d != [] && AllDigits(d)
    ensures PriceOf(text) == Some(NatValue(d))
  {
    StripNoSpace(d);
    PyIntDigits(d);
  }

  /** Removing the dots of the grouped form leaves a non-empty run of the digits of `n`. */
  lemma {:induction false} GroupedDigits(n: nat)
    ensures Remove(GroupedNat(n, '.'), '.') != []
    ensures AllDigits(Remove(GroupedNat(n, '.'), '.')) && NatValue(Remove(GroupedNat(n, '.'), '.')) == n
  {
    var g := GroupedNat(n, '.');
    GroupedNatDigits(n, '.');
    assert g == [g[0]] + g[1..];
    RemoveAppend([g[0]], g[1..], '.');
  }

  /** Stripping the formatted price and removing its "$" leaves the grouped digits. */
  lemma {:induction false} DollarRemoved(n: nat)
    ensures Remove(Strip(Hunter.FormatCLP(Some(n))), '$') == GroupedNat(n, '.')
  {
    var g := GroupedNat(n, '.');
    var s := Hunter.FormatCLP(Some(n));
    assert s == "$" + g;
    GroupedNatChars(n, '.');
    GroupedLast(n);
    assert s[|s| - 1] == g[|g| - 1];
    StripNoSpace(s);
    assert '$' !in g;
    RemoveAppend("$", g, '$');
    RemoveAbsent(g, '$');
  }

  /** The grouped form ends with a digit. */
  lemma {:induction false} GroupedLast(n: nat)
    ensures IsDigit(GroupedNat(n, '.')[|GroupedNat(n, '.')| - 1])
    decreases n
  {
    if n >= 1000 {
      var lo := Pad3(n % 1000);
      assert GroupedNat(n, '.')[|GroupedNat(n, '.')| - 1] == lo[2];
    } else {
      var r := NatToString(n);
      assert r[|r| - 1] in r;
    }
  }

  /** The loop over the products of one page: the lines shown and their count. */
  method ShowPage(productos: seq<Item>, soloFoil: bool, max: Option<nat>) returns (lines: seq<Line>, mostrados: nat)
    ensures lines == FilterMap(productos, Shown(soloFoil, max))
    ensures mostrados == |lines|
    ensures forall l :: l in lines ==> Passes(soloFoil, max, l)
  {
    lines := [];
    mostrados := 0;
    var i := 0;
    while i < |productos|
      invariant i <= |productos|
      invariant lines == FilterMap(productos[..i], Shown(soloFoil, max))
      invariant mostrados == |lines|
    {
      var line := Shown(soloFoil, max)(productos[i]);
      assert FilterMap(productos[..i + 1], Shown(soloFoil, max)) == lines + (if line.Some? then [line.value] else []) by {
        assert productos[..i + 1][..i] == productos[..i];
      }
      if line.Some? {
        lines := lines + [line.value];
        mostrados := mostrados + 1;
      }
      i := i + 1;
    }
    assert productos[..i] == productos;
    ShownAllPass(productos, soloFoil, max);
  }

  /** Every line shown passes both filters. */
  lemma ShownAllPass(productos: seq<Item>, soloFoil: bool, max: Option<nat>)
    ensures forall l :: l in FilterMap(productos, Shown(soloFoil, max)) ==> Passes(soloFoil, max, l)
  {
    forall l | l in FilterMap(productos, Shown(soloFoil, max))
      ensures Passes(soloFoil, max, l)
    {
      FilterMapIn(productos, Shown(soloFoil, max), l);
      var i :| 0 <= i < |productos| && Shown(soloFoil, max)(productos[i]) == Some(l);
      ShownPasses(soloFoil, max, productos[i]);
    }
  }

  // ---------------------------------------------------------------
  // The page loop
  // ---------------------------------------------------------------

  /** What a page request answered: the status code and the product blocks of the body. */
  datatype Response = Response(status: int, items: seq<Item>)

  /** `requests.get` raised; nothing catches it. */
  datatype Raised = Raised

  /**
   * Page `n`: `fetch(n)` is `None` when the request raised. A status other
   * than 200 or a page without products ends the loop; any other page
   * contributes its shown lines and the loop goes on.
   */
  function PageResult(fetch: int -> Option<Response>, soloFoil: bool, max: Option<nat>, n: int): Result<(seq<Line>, bool), Raised> {
    match fetch(n)
    case None => Err(Raised)
    case Some(r) =>
      if r.status != 200 || |r.items| == 0 then Ok(([], false))
      else Ok((FilterMap(r.items, Shown(soloFoil, max)), true))
  }

  function PageOf(fetch: int -> Option<Response>, soloFoil: bool, max: Option<nat>): int -> Result<(seq<Line>, bool), Raised> {
    n => PageResult(fetch, soloFoil, max, n)
  }

  /** The loop stops at a page exactly when its request raised, its status is not 200 or it has no product. */
  lemma {:induction false} PageStops(fetch: int -> Option<Response>, soloFoil: bool, max: Option<nat>, n: int)
    ensures Stops(PageOf(fetch, soloFoil, max)(n)) <==>
              fetch(n).None? || fetch(n).value.status != 200 || fetch(n).value.items == []
    ensures PageOf(fetch, soloFoil, max)(n).Err? <==> fetch(n).None?
  {
  }

  /** The products of the `q`-th page read, counting from `first`; none when the request raised. */
  function ItemsAt(fetch: int -> Option<Response>, first: int, q: nat): seq<Item> {
    if fetch(first + q).Some? then fetch(first + q).value.items else []
  }

  /** Every line shown, on any number of pages read, passes both filters. */
  lemma {:induction false} CollectedPasses(fetch: int -> Option<Response>, soloFoil: bool, max: Option<nat>, first: int, read: nat, l: Line)
    requires l in Collected(RowPages(PageOf(fetch, soloFoil, max)), first, read)
    ensures Passes(soloFoil, max, l)
    ensures exists q: nat, i :: q < read && 0 <= i < |ItemsAt(fetch, first, q)|
                                && ShownLine(soloFoil, max, ItemsAt(fetch, first, q)[i]) == Some(l)
  {
    var pages := RowPages(PageOf(fetch, soloFoil, max));
    CollectedFrom(pages, first, read, l);
    var q: nat :| q < read && l in Page(pages, first, q);
    assert Page(pages, first, q) == Rows(PageResult(fetch, soloFoil, max, first + q));
    var r := fetch(first + q).value;
    assert l in FilterMap(r.items, Shown(soloFoil, max));
    FilterMapIn(r.items, Shown(soloFoil, max), l);
    var i :| 0 <= i < |r.items| && Shown(soloFoil, max)(r.items[i]) == Some(l);
    ShownSpec(soloFoil, max, r.items[i]);
    assert r.items == ItemsAt(fetch, first, q);
  }

  /** How the script ends: the lines shown and their total, or the exception that stops it. */
  datatype Failure = NoInput | RequestFailed
  datatype Report = Report(lines: seq<Line>, total: nat)

  /** The loop read `read` pages that let it go on and stopped at the next one. */
  predicate ReadPages(fetch: int -> Option<Response>, soloFoil: bool, max: Option<nat>, read: nat) {
    Stops(At(PageOf(fetch, soloFoil, max), 1, read))
    && forall q: nat :: q < read ==> !Stops(At(PageOf(fetch, soloFoil, max), 1, q))
  }

  /** The end of the page loop after `read` pages: the request of the next one raised, or the report. */
  function Browsed(fetch: int -> Option<Response>, soloFoil: bool, max: Option<nat>, read: nat): Result<Report, Failure> {
    if fetch(1 + read).None? then Err(RequestFailed)
    else
      var lines := Collected(RowPages(PageOf(fetch, soloFoil, max)), 1, read);
      Ok(Report(lines, |lines|))
  }

  /** The page loop from page 1; the catalogue is assumed to end at some page `last`. */
  method Browse(fetch: int -> Option<Response>, soloFoil: bool, max: Option<nat>, ghost last: int)
    returns (outcome: Result<Report, Failure>, read: nat)
    requires last >= 1
    requires fetch(last).None? || fetch(last).value.status != 200 || fetch(last).value.items == []
    ensures ReadPages(fetch, soloFoil, max, read)
    ensures outcome == Browsed(fetch, soloFoil, max, read)
  {
    PageStops(fetch, soloFoil, max, last);
    var mostrados, crash;
    mostrados, read, crash := CollectUntil(PageOf(fetch, soloFoil, max), 1, last);
    assert At(PageOf(fetch, soloFoil, max), 1, read) == PageResult(fetch, soloFoil, max, 1 + read);
    if crash.Some? {
      return Err(RequestFailed), read;
    }
    outcome := Ok(Report(mostrados, |mostrados|));
  }

  /**
   * The whole script: the replies are typed in order (running out raises
   * `EOFError`); the catalogue is assumed to end at some page `last`.
   */
  method CheckCatalogue(replies: seq<string>, fetch: int -> Option<Response>, ghost last: int)
    returns (outcome: Result<Report, Failure>, soloFoil: bool, max: Option<nat>, read: nat)
    requires last >= 1
    requires fetch(last).None? || fetch(last).value.status != 200 || fetch(last).value.items == []
    ensures Asked(replies, FoilParse()).None? ==> outcome == Err(NoInput)
    ensures Asked(replies, FoilParse()).Some? ==>
              var rest := replies[FirstAccepted(replies, FoilParse()) + 1..];
              soloFoil == Asked(replies, FoilParse()).value
              && (Asked(rest, MaxParse()).None? ==> outcome == Err(NoInput))
              && (Asked(rest, MaxParse()).Some? ==>
                    max == Asked(rest, MaxParse()).value
                    && ReadPages(fetch, soloFoil, max, read)
                    && outcome == Browsed(fetch, soloFoil, max, read))
  {
    soloFoil, max, read := false, None, 0;
    var f, used := Ask(replies, FoilParse());
    if f.None? {
      return Err(NoInput), soloFoil, max, read;
    }
    soloFoil := f.value;
    var m, _ := Ask(replies[used..], MaxParse());
    if m.None? {
      return Err(NoInput), soloFoil, max, read;
    }
    max := m.value;
    outcome, read := Browse(fetch, soloFoil, max, last);
  }
}
