/**
 * The Rivendel el Concilio listing scraper
 * (List_RivenDelElConcilio-single.py): the product loop, the bounded retry,
 * the per-year page loops with their totals, and the write guard. Its
 * `limpiar_precio` is `Listing.CleanPrice`; its `limpiar_nombre` only strips.
 */
module Riven {
  import opened Wrappers
  import opened Text
  import opened Seqs
  import opened Listing
  import Paging

  const Site := "https://www.rivendelelconcilio.cl"

  /** `AÑOS` */
  const Years: seq<int> := [2012, 2013, 2017, 2018, 2019, 2020, 2021, 2022, 2023, 2024, 2025]

  datatype Card = Card(year: int, original: string, name: string, price: int, url: string)

  /** The body of the product loop for `year`: a product without a title link is skipped. */
  function ProductCard(year: int, p: Product): Option<Card> {
    if p.title.None? then None
    else
      var original := Strip(p.title.value.text);
      Some(Card(year, original, Strip(original), ProductPrice(p), ProductUrl(Site, p.title.value)))
  }

  /** Every product with a title link gives a card, tagged with the year asked for. */
  lemma ProductCardSpec(year: int, p: Product)
    ensures ProductCard(year, p).Some? <==> p.title.Some?
    ensures ProductCard(year, p).Some? ==>
              var c := ProductCard(year, p).value;
              c.year == year && c.name == c.original && NoOuterSpace(c.name) && c.price >= 0
  {
    if p.title.Some? {
      StripIdempotent(p.title.value.text);
      StripSpec(p.title.value.text);
    }
  }

  function ForYear(year: int): Product -> Option<Card> {
    p => ProductCard(year, p)
  }

  /** The loop over the products of a page. */
  method ParseProducts(year: int, ps: seq<Product>) returns (cartas: seq<Card>)
    ensures cartas == FilterMap(ps, ForYear(year))
  {
    cartas := [];
    var i := 0;
    while i < |ps|
      invariant 0 <= i <= |ps|
      invariant cartas == FilterMap(ps[..i], ForYear(year))
    {
      assert ps[..i + 1][..i] == ps[..i];
      var carta := ProductCard(year, ps[i]);
      if carta.Some? {
        cartas := cartas + [carta.value];
      } else {
        assert cartas + [] == cartas;
      }
      i := i + 1;
    }
    assert ps[..i] == ps;
  }

  /** The cards of one page of `year`: none once `Reintentos` requests have failed. */
  function PageCards(year: int, attempt: nat -> Attempt<seq<Product>>): seq<Card> {
    match Fetched(attempt)
    case None => []
    case Some(ps) => FilterMap(ps, ForYear(year))
  }

  /** `obtener_cartas_de_pagina(year, pagina)`: the retry loop, then the product loop. */
  method FetchCards(year: int, attempt: nat -> Attempt<seq<Product>>) returns (cartas: seq<Card>, requests: nat)
    ensures cartas == PageCards(year, attempt)
    ensures requests <= Reintentos
  {
    var resp;
    resp, requests := Fetch(attempt);
    if resp.None? {
      return [], requests;
    }
    cartas := ParseProducts(year, resp.value);
  }

  /** Every card of a page of `year` carries that year. */
  lemma PageCardsYear(year: int, attempt: nat -> Attempt<seq<Product>>, c: Card)
    requires c in PageCards(year, attempt)
    ensures c.year == year
  {
    var ps := Fetched(attempt).value;
    FilterMapIn(ps, ForYear(year), c);
    var i :| 0 <= i < |ps| && ProductCard(year, ps[i]) == Some(c);
  }

  /** The pages of `year`, where page `n`'s `k`-th request answers `site(year)(n)(k)`. */
  function YearPages(site: int -> int -> nat -> Attempt<seq<Product>>, year: int): int -> seq<Card> {
    n => PageCards(year, site(year)(n))
  }

  /** Every card collected for `year` carries that year. */
  lemma CollectedYear(site: int -> int -> nat -> Attempt<seq<Product>>, year: int, n: nat, c: Card)
    requires c in Paging.Collected(YearPages(site, year), 1, n)
    ensures c.year == year
  {
    Paging.CollectedFrom(YearPages(site, year), 1, n, c);
    var q: nat :| q < n && c in Paging.Page(YearPages(site, year), 1, q);
    PageCardsYear(year, site(year)(1 + q), c);
  }

  /**
   * `resumen_por_año` after the runs of `years`, whose cards were `blocks`:
   * each run stores its card count under its year, over any earlier one.
   */
  function Totals(years: seq<int>, blocks: seq<seq<Card>>): map<int, nat>
    requires |blocks| == |years|
  {
    if years == [] then map[]
    else Totals(years[..|years| - 1], blocks[..|blocks| - 1])[years[|years| - 1] := |blocks[|blocks| - 1]|]
  }

  /** Every year run, and no other, has a total. */
  lemma {:induction false} TotalsKeys(years: seq<int>, blocks: seq<seq<Card>>)
    requires |blocks| == |years|
    ensures forall y :: y in Totals(years, blocks) <==> y in years
  {
    if years != [] {
      var n := |years| - 1;
      TotalsKeys(years[..n], blocks[..n]);
      assert years == years[..n] + [years[n]];
    }
  }

  /** The total of a year is the card count of its last run. */
  lemma {:induction false} TotalsLast(years: seq<int>, blocks: seq<seq<Card>>)
    requires |blocks| == |years|
    ensures forall k :: 0 <= k < |years| && years[k] !in years[k + 1..] ==>
              years[k] in Totals(years, blocks) && Totals(years, blocks)[years[k]] == |blocks[k]|
  {
    if years != [] {
      var n := |years| - 1;
      TotalsLast(years[..n], blocks[..n]);
      forall k | 0 <= k < n && years[k] !in years[k + 1..]
        ensures years[k] !in years[..n][k + 1..] && years[k] != years[n]
      {
        assert years[k + 1..] == years[..n][k + 1..] + [years[n]];
      }
    }
  }

  /** The run for `year` read `n` pages, stopped at the first empty one, and gave `cards`, all tagged `year`. */
  ghost predicate YearDone(site: int -> int -> nat -> Attempt<seq<Product>>, year: int, cards: seq<Card>, n: nat) {
    Paging.StopsAfter(YearPages(site, year), 1, n)
    && cards == Paging.Collected(YearPages(site, year), 1, n)
    && forall c :: c in cards ==> c.year == year
  }

  /**
   * The inner loop of `scrapear_años_especificos` for one year: pages from 1
   * to the first without cards, counting the cards added (`contador`, the
   * sum of the page lengths). The year's listing is assumed to end (`last`).
   */
  method ScrapeYear(site: int -> int -> nat -> Attempt<seq<Product>>, year: int, ghost last: int)
    returns (cartas: seq<Card>, contador: nat, read: nat)
    requires last >= 1 && YearPages(site, year)(last) == []
    ensures YearDone(site, year, cartas, read)
    ensures contador == |cartas|
  {
    cartas, read := Paging.CollectPages(YearPages(site, year), 1, last);
    contador := |cartas|;
    forall c | c in cartas ensures c.year == year {
      CollectedYear(site, year, read, c);
    }
  }

  /**
   * `scrapear_años_especificos`: each year of `years` in order, its cards
   * appended to `todas` and its count stored in `resumen` (a later repeat of a
   * year overwrites the earlier count); then the CSV (`saved`) only if some
   * card was found. `blocks` and `counts` record, per entry, the cards and the
   * number of pages read.
   */
  method ScrapeYears(site: int -> int -> nat -> Attempt<seq<Product>>, years: seq<int>, ghost last: int -> int)
    returns (todas: seq<Card>, resumen: map<int, nat>, saved: Option<seq<Card>>,
             ghost blocks: seq<seq<Card>>, ghost counts: seq<nat>)
    requires forall k :: 0 <= k < |years| ==> last(years[k]) >= 1 && YearPages(site, years[k])(last(years[k])) == []
    ensures |blocks| == |years| && |counts| == |years|
    ensures forall k :: 0 <= k < |years| ==> YearDone(site, years[k], blocks[k], counts[k])
    ensures todas == Flatten(blocks)
    ensures resumen == Totals(years, blocks)
    ensures forall y :: y in resumen <==> y in years
    ensures forall k :: 0 <= k < |years| && years[k] !in years[k + 1..] ==> resumen[years[k]] == |blocks[k]|
    ensures saved.Some? <==> todas != []
    ensures saved.Some? ==> saved.value == todas
  {
    todas, resumen, blocks, counts := [], map[], [], [];
    var i := 0;
    while i < |years|
      invariant 0 <= i <= |years|
      invariant |blocks| == i && |counts| == i
      invariant forall k :: 0 <= k < i ==> YearDone(site, years[k], blocks[k], counts[k])
      invariant todas == Flatten(blocks)
      invariant resumen == Totals(years[..i], blocks)
    {
      var year := years[i];
      var cartas, contador, read := ScrapeYear(site, year, last(year));
      assert years[..i + 1][..i] == years[..i] && (blocks + [cartas])[..i] == blocks;
      YearsStep(site, years, i, blocks, counts, cartas, read);
      FlattenSnoc(blocks, cartas);
      todas := todas + cartas;
      blocks, counts := blocks + [cartas], counts + [read];
      resumen := resumen[year := contador];
      i := i + 1;
    }
    assert years[..i] == years;
    TotalsKeys(years, blocks);
    TotalsLast(years, blocks);
    saved := if todas != [] then Some(todas) else None;
  }

  /** Appending the run of entry `i` keeps every entry's run recorded. */
  lemma YearsStep(site: int -> int -> nat -> Attempt<seq<Product>>, years: seq<int>, i: nat,
                  blocks: seq<seq<Card>>, counts: seq<nat>, cartas: seq<Card>, read: nat)
    requires i < |years| && |blocks| == i && |counts| == i
    requires forall k :: 0 <= k < i ==> YearDone(site, years[k], blocks[k], counts[k])
    requires YearDone(site, years[i], cartas, read)
    ensures forall k :: 0 <= k < i + 1 ==> YearDone(site, years[k], (blocks + [cartas])[k], (counts + [read])[k])
  {
    forall k | 0 <= k < i + 1 ensures YearDone(site, years[k], (blocks + [cartas])[k], (counts + [read])[k]) {
      if k < i {
        assert (blocks + [cartas])[k] == blocks[k] && (counts + [read])[k] == counts[k];
      }
    }
  }

  /** With no year listed twice, the per-year totals add up to the number of cards. */
  lemma TotalsAddUp(years: seq<int>, blocks: seq<seq<Card>>)
    requires |blocks| == |years|
    requires forall j, k :: 0 <= j < k < |years| ==> years[j] != years[k]
    ensures forall k :: 0 <= k < |years| ==> years[k] in Totals(years, blocks)
    ensures Sum(seq(|years|, k requires 0 <= k < |years| && years[k] in Totals(years, blocks) => Totals(years, blocks)[years[k]]))
            == |Flatten(blocks)|
  {
    TotalsKeys(years, blocks);
    TotalsLast(years, blocks);
    forall k | 0 <= k < |years| ensures years[k] !in years[k + 1..] {
      forall j | k + 1 <= j < |years| ensures years[j] != years[k] {
      }
    }
    FlattenLength(blocks, seq(|years|, k requires 0 <= k < |years| && years[k] in Totals(years, blocks) => Totals(years, blocks)[years[k]]));
  }
}
