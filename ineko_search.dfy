/**
 * The Inekosingles search adapter (tiendas/inekosingles.py): every product
 * block of the search page is read, and among the blocks whose name holds
 * the query and that are not sold out, the one with the lowest price wins,
 * the first on ties. The search page is given as its product blocks;
 * `None` stands for a request that raised.
 */
module InekoSearch {
  import opened Wrappers
  import opened Text
  import opened Seqs
  import opened Offers
  import opened Listing

  const Store := "Inekosingles"
  const Base := "https://inekosingles.com"

  function SearchUrl(query: string): string { Base + "/search?q=" + PlusSpaces(query) }

  /**
   * A `li.grid__item` block: its title link, the text of its regular price,
   * and the text of its `.badge, .price--sold-out` element, each if present.
   */
  datatype Block = Block(title: Option<Anchor>, price: Option<string>, badge: Option<string>)

  /** A titled block as the loop reads it; `value` is `precio_valor`. */
  datatype Item = Item(name: string, url: string, price: string, value: Option<int>, available: bool)

  // ---------------------------------------------------------------
  // One block
  // ---------------------------------------------------------------

  /** The price text with "$", "CLP" and "." removed, stripped, then `int()`; `None` where `int()` raises. */
  function PriceValue(price: string): Option<int> {
    PyInt(Strip(Remove(Delete(Remove(price, '$'), "CLP"), '.')))
  }

  /** A sold-out badge: its stripped, lower-cased text holds "agotado". */
  predicate SoldOut(badge: Option<string>) {
    badge.Some? && Contains(Lower(Strip(badge.value)), "agotado")
  }

  /** `titulo_tag['href']` with a leading "/" made absolute. */
  function ItemUrl(href: string): string {
    if "/" <= href then Base + href else href
  }

  /**
   * The loop body up to the name test: `Ok(None)` for a block without a
   * title (skipped), `Err` where it raises (a title without `href`, a price
   * that is not "-" and not an integer), the read item otherwise.
   */
  function ReadBlock(b: Block): (r: Result<Option<Item>, ()>)
    ensures r == Ok(None) <==> b.title.None?
    ensures r.Err? <==> b.title.Some? && (b.title.value.href.None? ||
                          (b.price.Some? && Strip(b.price.value) != "-" && PriceValue(Strip(b.price.value)).None?))
    ensures r.Ok? && r.value.Some? ==>
              var it := r.value.value;
              it.name == Strip(b.title.value.text) && it.available == !SoldOut(b.badge)
              && (it.value.None? <==> it.price == "-")
              && (it.value.Some? ==> it.value == PriceValue(it.price))
  {
    if b.title.None? then Ok(None)
    else if b.title.value.href.None? then Err(())
    else
      var name := Strip(b.title.value.text);
      var url := ItemUrl(b.title.value.href.value);
      var price := if b.price.Some? then Strip(b.price.value) else "-";
      if price == "-" then Ok(Some(Item(name, url, price, None, !SoldOut(b.badge))))
      else
        match PriceValue(price)
        case None => Err(())
        case Some(v) => Ok(Some(Item(name, url, price, Some(v), !SoldOut(b.badge))))
  }

  // ---------------------------------------------------------------
  // The scan
  // ---------------------------------------------------------------

  /** The loop's variables: `encontrado`, `hay_disponible`, `precio_menor`, `mejor_producto`. */
  datatype Scan = Scan(found: bool, anyAvailable: bool, least: Option<int>, best: Offer)

  /** The record an available, priced item is kept as. */
  function OfferOf(it: Item): Offer {
    Record(Store, Yes, it.name, None, it.price, it.url)
  }

  /** The name test and the availability and price tests that follow it, on one item. */
  function Step(query: string, s: Scan, it: Item): Scan {
    if !NameMatches(query, it.name) then s
    else if !it.available then s.(found := true)
    else if it.value.None? || (s.least.Some? && s.least.value <= it.value.value) then s.(found := true, anyAvailable := true)
    else Scan(true, true, it.value, OfferOf(it))
  }

  /** The variables after the loop has read `items`. */
  function ScanAll(query: string, items: seq<Item>): Scan {
    if |items| == 0 then Scan(false, false, None, EmptyDict)
    else Step(query, ScanAll(query, items[..|items| - 1]), items[|items| - 1])
  }

  /** An item the price comparison looks at: its name holds the query, it is available, it has a price. */
  function Candidate(query: string): Item -> Option<Item> {
    (it: Item) => CandidateOf(query, it)
  }

  function CandidateOf(query: string, it: Item): Option<Item> {
    if NameMatches(query, it.name) && it.available && it.value.Some? then Some(it) else None
  }

  function Key(it: Item): int {
    if it.value.Some? then it.value.value else 0
  }

  function Keys(): Item -> int { Key }

  /** Some item's name holds the query. */
  predicate AnyMatch(query: string, items: seq<Item>) {
    exists i :: 0 <= i < |items| && NameMatches(query, items[i].name)
  }

  /** Some available item's name holds the query. */
  predicate AnyAvailableMatch(query: string, items: seq<Item>) {
    exists i :: 0 <= i < |items| && NameMatches(query, items[i].name) && items[i].available
  }

  /** `encontrado` says whether some name holds the query. */
  lemma {:induction false} ScanFound(query: string, items: seq<Item>)
    ensures ScanAll(query, items).found <==> AnyMatch(query, items)
  {
    if |items| > 0 {
      var init := items[..|items| - 1];
      ScanFound(query, init);
      assert forall i :: 0 <= i < |init| ==> init[i] == items[i];
      if AnyMatch(query, init) {
        var i :| 0 <= i < |init| && NameMatches(query, init[i].name);
        assert NameMatches(query, items[i].name);
      }
      if AnyMatch(query, items) && !NameMatches(query, items[|items| - 1].name) {
        var i :| 0 <= i < |items| && NameMatches(query, items[i].name);
        assert i < |init| && NameMatches(query, init[i].name);
      }
    }
  }

  /** `hay_disponible` says whether some available item's name holds the query. */
  lemma {:induction false} ScanAvailable(query: string, items: seq<Item>)
    ensures ScanAll(query, items).anyAvailable <==> AnyAvailableMatch(query, items)
  {
    if |items| > 0 {
      var init := items[..|items| - 1];
      var last := items[|items| - 1];
      ScanAvailable(query, init);
      assert forall i :: 0 <= i < |init| ==> init[i] == items[i];
      if AnyAvailableMatch(query, init) {
        var i :| 0 <= i < |init| && NameMatches(query, init[i].name) && init[i].available;
        assert NameMatches(query, items[i].name) && items[i].available;
      }
      if AnyAvailableMatch(query, items) && !(NameMatches(query, last.name) && last.available) {
        var i :| 0 <= i < |items| && NameMatches(query, items[i].name) && items[i].available;
        assert i < |init| && NameMatches(query, init[i].name) && init[i].available;
      }
    }
  }

  /**
   * `mejor_producto` is the empty dict when no item is a candidate, and
   * otherwise the candidate with the least price, the first of those on
   * ties (the strict `<` keeps the earlier one); `precio_menor` is its price.
   */
  lemma {:induction false} ScanBest(query: string, items: seq<Item>)
    ensures var s := ScanAll(query, items);
            var cs := FilterMap(items, Candidate(query));
            (cs == [] ==> s.least.None? && s.best == EmptyDict)
            && (cs != [] ==> s.least == cs[ArgMin(cs, Keys())].value && s.best == OfferOf(cs[ArgMin(cs, Keys())]))
  {
    if |items| > 0 {
      var init := items[..|items| - 1];
      var last := items[|items| - 1];
      var cs := FilterMap(init, Candidate(query));
      ScanBest(query, init);
      assert ScanAll(query, items) == Step(query, ScanAll(query, init), last);
      assert FilterMap(items, Candidate(query)) == cs + (if CandidateOf(query, last).Some? then [last] else []);
      assert forall i :: 0 <= i < |cs| ==> cs[i].value.Some? by {
        forall i | 0 <= i < |cs|
          ensures cs[i].value.Some?
        {
          FilterMapIn(init, Candidate(query), cs[i]);
        }
      }
      BestStep(query, ScanAll(query, init), cs, last);
    }
  }

  /** One more item keeps the scan's best the first cheapest candidate. */
  lemma BestStep(query: string, s: Scan, cs: seq<Item>, last: Item)
    requires forall i :: 0 <= i < |cs| ==> cs[i].value.Some?
    requires cs == [] ==> s.least.None? && s.best == EmptyDict
    requires cs != [] ==> s.least == cs[ArgMin(cs, Keys())].value && s.best == OfferOf(cs[ArgMin(cs, Keys())])
    ensures var s' := Step(query, s, last);
            var cs' := cs + (if CandidateOf(query, last).Some? then [last] else []);
            (cs' == [] ==> s'.least.None? && s'.best == EmptyDict)
            && (cs' != [] ==> s'.least == cs'[ArgMin(cs', Keys())].value && s'.best == OfferOf(cs'[ArgMin(cs', Keys())]))
  {
    if CandidateOf(query, last).Some? {
      var cs' := cs + [last];
      assert forall i :: 0 <= i < |cs| ==> cs'[i] == cs[i];
      assert cs'[|cs|] == last;
      if cs == [] {
        ArgMinIs(cs', Keys(), 0);
      } else {
        var k := ArgMin(cs, Keys());
        if s.least.value <= last.value.value {
          ArgMinIs(cs', Keys(), k);
        } else {
          ArgMinIs(cs', Keys(), |cs|);
        }
      }
    } else {
      assert cs + [] == cs;
    }
  }

  // ---------------------------------------------------------------
  // buscar
  // ---------------------------------------------------------------

  /** `buscar(query)`, given the product blocks of the search page. */
  function Search(query: string, page: Option<seq<Block>>): Offer {
    var fallback := NotFound(Store, query, None, SearchUrl(query));
    if page.None? then fallback
    else
      match TryFilterMap(page.value, ReadBlock)
      case Err(_) => fallback
      case Ok(items) =>
        var s := ScanAll(query, items);
        if s.found && s.anyAvailable then s.best else fallback
  }

  /**
   * What `buscar` returns once every block has been read: the "No" record
   * unless some available item's name holds the query; then the cheapest
   * such item with a price, the first on ties, or the empty dict when none
   * of them has a price.
   */
  lemma SearchSpec(query: string, blocks: seq<Block>)
    requires TryFilterMap(blocks, ReadBlock).Ok?
    ensures var items := TryFilterMap(blocks, ReadBlock).value;
            var cs := FilterMap(items, Candidate(query));
            var o := Search(query, Some(blocks));
            (!AnyAvailableMatch(query, items) ==> o == NotFound(Store, query, None, SearchUrl(query)))
            && (AnyAvailableMatch(query, items) && cs == [] ==> o == EmptyDict)
            && (cs != [] ==> o == OfferOf(cs[ArgMin(cs, Keys())]))
  {
    var items := TryFilterMap(blocks, ReadBlock).value;
    ScanFound(query, items);
    ScanAvailable(query, items);
    ScanBest(query, items);
    var cs := FilterMap(items, Candidate(query));
    if cs != [] {
      FilterMapIn(items, Candidate(query), cs[0]);
    }
  }

  /** A block that raises, anywhere on the page, gives the "No" record. */
  lemma CrashNotFound(query: string, blocks: seq<Block>, i: nat)
    requires i < |blocks| && ReadBlock(blocks[i]).Err?
    ensures Search(query, Some(blocks)) == NotFound(Store, query, None, SearchUrl(query))
  {
    TryFilterMapFails(blocks, ReadBlock);
  }

  /** The part of the loop body after the block is read: the name test, then availability, then the price. */
  method Visit(query: string, it: Item, encontrado: bool, hayDisponible: bool, precioMenor: Option<int>, mejor: Offer)
    returns (encontrado': bool, hayDisponible': bool, precioMenor': Option<int>, mejor': Offer)
    ensures Scan(encontrado', hayDisponible', precioMenor', mejor') == Step(query, Scan(encontrado, hayDisponible, precioMenor, mejor), it)
  {
    encontrado', hayDisponible', precioMenor', mejor' := encontrado, hayDisponible, precioMenor, mejor;
    if NameMatches(query, it.name) {
      encontrado' := true;
      if it.available {
        hayDisponible' := true;
        if it.value.Some? {
          if precioMenor.None? || it.value.value < precioMenor.value {
            precioMenor' := it.value;
            mejor' := OfferOf(it);
          }
        }
      }
    }
  }

  /** The loop of `buscar` over the product blocks. */
  method Buscar(query: string, page: Option<seq<Block>>) returns (resultado: Offer)
    ensures resultado == Search(query, page)
  {
    var fallback := NotFound(Store, query, None, SearchUrl(query));
    if page.None? {
      return fallback;
    }
    var productos := page.value;
    var encontrado := false;
    var precioMenor: Option<int> := None;
    var mejor := EmptyDict;
    var hayDisponible := false;
    ghost var items: seq<Item> := [];
    var i := 0;
    while i < |productos|
      invariant i <= |productos|
      invariant TryFilterMap(productos[..i], ReadBlock) == Ok(items)
      invariant ScanAll(query, items) == Scan(encontrado, hayDisponible, precioMenor, mejor)
    {
      assert productos[..i + 1] == productos[..i] + [productos[i]];
      var b := productos[i];
      var read := ReadBlock(b);
      if read.Err? {
        TryFilterMapSnocErr(productos[..i], b, ReadBlock);
        TryFilterMapErr(productos, i + 1, ReadBlock);
        return fallback;
      }
      TryFilterMapSnoc(productos[..i], b, ReadBlock);
      if read.value.Some? {
        var it := read.value.value;
        assert ScanAll(query, items + [it]) == Step(query, ScanAll(query, items), it) by {
          assert (items + [it])[..|items|] == items;
        }
        items := items + [it];
        encontrado, hayDisponible, precioMenor, mejor := Visit(query, it, encontrado, hayDisponible, precioMenor, mejor);
      } else {
        assert items + [] == items;
      }
      i := i + 1;
    }
    assert productos[..|productos|] == productos;
    if encontrado && hayDisponible {
      resultado := mejor;
    } else {
      resultado := fallback;
    }
  }
}
