/**
 * The Game of Magic Singles search adapter (tiendas/gameofmagicsingles.py):
 * the first product whose title holds every word of the query and that has
 * an available variant wins; a foil variant is preferred, the cheapest
 * within the group, and variant prices are cents. The search page is given
 * as its product cards; `None` stands for a request that raised.
 */
module GameOfMagicSearch {
  import opened Wrappers
  import opened Text
  import opened Seqs
  import opened Patterns
  import opened Offers
  import opened Listing

  const Store := "GameOfMagicSingles"
  const Site := "https://gameofmagicsingles.cl"

  function SearchUrl(query: string): string { Site + "/search?page=1&q=" + PlusSpaces(query) }

  /** A `li.productChip`: its `data-variantavailable`, `data-variantprice` and `data-varianttitle` attributes. */
  datatype Chip = Chip(available: Option<string>, price: Option<string>, title: Option<string>)

  /** A `div.productCard__card`: its title link and its variant chips. */
  datatype Card = Card(title: Option<Anchor>, chips: seq<Chip>)

  // ---------------------------------------------------------------
  // Word-subset match
  // ---------------------------------------------------------------

  /** `re.findall(r'\w+', s.lower())` */
  function WordsOf(s: string): (ws: seq<string>)
    ensures forall w :: w in ws ==> w != [] && forall i :: 0 <= i < |w| ==> IsWordChar(w[i])
  {
    Tokens(Lower(s), IsWordChar, IsWordChar)
  }

  /** `all(palabra in palabras_titulo for palabra in palabras_busqueda)` */
  predicate WordsMatch(query: string, name: string) {
    var title := WordsOf(name);
    forall w :: w in WordsOf(query) ==> w in title
  }

  /** Lower-casing turns no other character into a word character. */
  lemma LowerKeepsNonWord(s: string)
    requires forall i :: 0 <= i < |s| ==> !IsWordChar(s[i])
    ensures forall i :: 0 <= i < |Lower(s)| ==> !IsWordChar(Lower(s)[i])
  {
    forall i | 0 <= i < |s| ensures !IsWordChar(Lower(s)[i]) {
      assert Lower(s)[i] == LowerChar(s[i]);
    }
  }

  /** A query without a word character, the empty one included, matches every title. */
  lemma EmptyQueryMatches(query: string, name: string)
    requires forall i :: 0 <= i < |query| ==> !IsWordChar(query[i])
    ensures WordsMatch(query, name)
  {
    LowerKeepsNonWord(query);
    TokensNone(Lower(query), IsWordChar, IsWordChar);
  }

  /** A title whose words are exactly those of the query, in any case, matches it. */
  lemma SameWordsMatch(query: string, name: string)
    requires WordsOf(query) == WordsOf(name)
    ensures WordsMatch(query, name)
  {
  }

  // ---------------------------------------------------------------
  // Variants
  // ---------------------------------------------------------------

  /** `int(v.get("data-variantprice", "0").replace("$", "").replace(",", "").strip()) // 100`, `None` where `int()` raises. */
  function ChipValue(c: Chip): Option<int> {
    var raw := Strip(Remove(Remove(if c.price.Some? then c.price.value else "0", '$'), ','));
    match PyInt(raw)
    case None => None
    case Some(v) => Some(v / 100)
  }

  predicate ChipAvailable(c: Chip) { c.available == Some("true") }

  /** `"Foil" in v.get("data-varianttitle", "")`, case-sensitive. */
  predicate ChipFoil(c: Chip) { Contains(if c.title.Some? then c.title.value else "", "Foil") }

  /** What the variant loop appends to `precios_disponibles_foil`. */
  function FoilPrice(c: Chip): Option<int> {
    if ChipAvailable(c) && ChipFoil(c) then ChipValue(c) else None
  }

  /** What the variant loop appends to `precios_disponibles_normal`. */
  function NormalPrice(c: Chip): Option<int> {
    if ChipAvailable(c) && !ChipFoil(c) then ChipValue(c) else None
  }

  /** The price the product is offered at: the cheapest foil variant, else the cheapest other one. */
  function Best(chips: seq<Chip>): Option<int> {
    var foil := FilterMap(chips, FoilPrice);
    var normal := FilterMap(chips, NormalPrice);
    if |foil| > 0 then Some(Minimum(foil))
    else if |normal| > 0 then Some(Minimum(normal))
    else None
  }

  /** A variant price of `c` cents, shown with "," thousands separators and "$", is `c // 100` pesos. */
  lemma CentsToPesos(c: nat, title: Option<string>)
    ensures ChipValue(Chip(Some("true"), Some("$" + GroupedNat(c, ',')), title)) == Some(c / 100)
  {
    var g := GroupedNat(c, ',');
    var d := Remove(g, ',');
    GroupedNatDigits(c, ',');
    DropDollar(c);
    assert d != [] by {
      assert g == [g[0]] + g[1..];
      RemoveAppend([g[0]], g[1..], ',');
    }
    DigitsStripped(d);
    PyIntDigits(d);
  }

  lemma DropDollar(c: nat)
    ensures Remove("$" + GroupedNat(c, ','), '$') == GroupedNat(c, ',')
  {
    var g := GroupedNat(c, ',');
    GroupedNatChars(c, ',');
    assert '$' !in g;
    RemoveAppend("$", g, '$');
    RemoveAbsent(g, '$');
  }

  lemma DigitsStripped(d: string)
    requires d != [] && AllDigits(d)
    ensures Strip(d) == d
  {
    assert LeadingSpaces(d) == 0 && TrailingSpaces(d) == 0;
  }

  /**
   * A product has a price exactly when some available variant has a price
   * that `int()` reads; the price is the least foil price when there is a
   * foil one, else the least of the others.
   */
  lemma BestSpec(chips: seq<Chip>)
    ensures Best(chips).None? <==> forall i :: 0 <= i < |chips| ==> !(ChipAvailable(chips[i]) && ChipValue(chips[i]).Some?)
    ensures (exists i :: 0 <= i < |chips| && FoilPrice(chips[i]).Some?) ==>
              Best(chips).Some?
              && (exists i :: 0 <= i < |chips| && FoilPrice(chips[i]) == Best(chips))
              && forall i :: 0 <= i < |chips| && FoilPrice(chips[i]).Some? ==> Best(chips).value <= FoilPrice(chips[i]).value
    ensures (forall i :: 0 <= i < |chips| ==> FoilPrice(chips[i]).None?) && Best(chips).Some? ==>
              (exists i :: 0 <= i < |chips| && NormalPrice(chips[i]) == Best(chips))
              && forall i :: 0 <= i < |chips| && NormalPrice(chips[i]).Some? ==> Best(chips).value <= NormalPrice(chips[i]).value
  {
    var foil := FilterMap(chips, FoilPrice);
    var normal := FilterMap(chips, NormalPrice);
    forall i | 0 <= i < |chips| && FoilPrice(chips[i]).Some? ensures FoilPrice(chips[i]).value in foil {
      FilterMapHas(chips, FoilPrice, i);
    }
    forall i | 0 <= i < |chips| && NormalPrice(chips[i]).Some? ensures NormalPrice(chips[i]).value in normal {
      FilterMapHas(chips, NormalPrice, i);
    }
    if |foil| > 0 {
      FilterMapIn(chips, FoilPrice, Minimum(foil));
    } else if |normal| > 0 {
      FilterMapIn(chips, NormalPrice, Minimum(normal));
    }
    forall i | 0 <= i < |chips| && ChipAvailable(chips[i]) && ChipValue(chips[i]).Some? ensures Best(chips).Some? {
      if ChipFoil(chips[i]) {
        assert FoilPrice(chips[i]).value in foil;
      } else {
        assert NormalPrice(chips[i]).value in normal;
      }
    }
  }

  /** The variant loop: the two price lists it builds. */
  method ReadChips(variantes: seq<Chip>) returns (foil: seq<int>, normal: seq<int>)
    ensures foil == FilterMap(variantes, FoilPrice)
    ensures normal == FilterMap(variantes, NormalPrice)
  {
    foil, normal := [], [];
    var j := 0;
    while j < |variantes|
      invariant j <= |variantes|
      invariant foil == FilterMap(variantes[..j], FoilPrice)
      invariant normal == FilterMap(variantes[..j], NormalPrice)
    {
      var v := variantes[j];
      assert variantes[..j + 1][..j] == variantes[..j];
      if ChipAvailable(v) {
        var precio := ChipValue(v);
        if precio.Some? {
          if ChipFoil(v) {
            foil := foil + [precio.value];
          } else {
            normal := normal + [precio.value];
          }
        }
      }
      j := j + 1;
    }
    assert variantes[..|variantes|] == variantes;
  }

  // ---------------------------------------------------------------
  // buscar
  // ---------------------------------------------------------------

  function NameOf(c: Card): string {
    if c.title.Some? then Strip(c.title.value.text) else ""
  }

  /** The product the loop stops at: a title, every query word in it, and a priced available variant. */
  function Qualifies(query: string): Card -> bool {
    (c: Card) => QualifyingCard(query, c)
  }

  predicate QualifyingCard(query: string, c: Card) {
    c.title.Some? && WordsMatch(query, NameOf(c)) && Best(c.chips).Some?
  }

  /** `f"${precio:,} CLP"` */
  function PriceText(p: int): string { "$" + Grouped(p, ',') + " CLP" }

  /** `buscar(query)`, given the product cards of the search page. */
  function Search(query: string, page: Option<seq<Card>>): Offer {
    var fallback := NotFound(Store, query, None, SearchUrl(query));
    if page.None? then fallback
    else
      var k := FirstIndex(page.value, Qualifies(query));
      if k == |page.value| then fallback
      else
        var c := page.value[k];
        if c.title.value.href.None? then fallback
        else Offered(c, Best(c.chips).value)
  }

  /** The record of the product the loop stopped at, with the link made absolute. */
  function Offered(c: Card, precio: int): Offer
    requires c.title.Some? && c.title.value.href.Some?
  {
    Record(Store, Yes, NameOf(c), None, PriceText(precio), Site + c.title.value.href.value)
  }

  /**
   * The offer is in stock exactly when some product has a title holding every
   * query word and a priced available variant, and the first such one has a
   * link; it then carries that product's name, its best price and its link.
   * Products before it are passed over, matching or not.
   */
  lemma SearchSpec(query: string, page: Option<seq<Card>>)
    ensures var o := Search(query, page);
            o.Record? && o.store == Store && o.option.None?
            && (o.available == Yes <==>
                  page.Some? && FirstIndex(page.value, Qualifies(query)) < |page.value|
                  && page.value[FirstIndex(page.value, Qualifies(query))].title.value.href.Some?)
            && (o.available == Yes ==>
                  var c := page.value[FirstIndex(page.value, Qualifies(query))];
                  WordsMatch(query, o.product) && o.product == NameOf(c)
                  && o.price == PriceText(Best(c.chips).value)
                  && o.url == Site + c.title.value.href.value)
            && (o.available != Yes ==> o == NotFound(Store, query, None, SearchUrl(query)))
  {
  }

  /** Without a product that qualifies, the record is "No" with the search address. */
  lemma NoneQualifies(query: string, cards: seq<Card>)
    requires forall i :: 0 <= i < |cards| ==> !Qualifies(query)(cards[i])
    ensures Search(query, Some(cards)) == NotFound(Store, query, None, SearchUrl(query))
  {
    FirstIndexIs(cards, Qualifies(query), |cards|);
  }

  /** The loop body up to the `break`: the title test, the variant loop, the choice of price; `None` for `continue`. */
  method Examine(query: string, producto: Card) returns (precio: Option<int>)
    ensures precio.Some? <==> Qualifies(query)(producto)
    ensures precio.Some? ==> precio == Best(producto.chips)
  {
    if producto.title.None? || !WordsMatch(query, NameOf(producto)) {
      return None;
    }
    var foil, normal := ReadChips(producto.chips);
    if |foil| > 0 {
      precio := Some(Minimum(foil));
    } else if |normal| > 0 {
      precio := Some(Minimum(normal));
    } else {
      precio := None;
    }
  }

  /** The product loop of `buscar` up to its `break`: the first product that qualifies and its price. */
  method FindQualifying(query: string, productos: seq<Card>) returns (i: nat, precio: int)
    ensures i == FirstIndex(productos, Qualifies(query))
    ensures i < |productos| ==> Best(productos[i].chips) == Some(precio)
  {
    i := 0;
    while i < |productos|
      invariant i <= FirstIndex(productos, Qualifies(query))
    {
      var p := Examine(query, productos[i]);
      if p.Some? {
        return i, p.value;
      }
      i := i + 1;
    }
    precio := 0;
  }

  /** `buscar`: the product loop, then the record of the product it stopped at, or the "No" record. */
  method Buscar(query: string, page: Option<seq<Card>>) returns (resultado: Offer)
    ensures resultado == Search(query, page)
  {
    var fallback := NotFound(Store, query, None, SearchUrl(query));
    if page.None? {
      return fallback;
    }
    var productos := page.value;
    var i, precio := FindQualifying(query, productos);
    if i == |productos| || productos[i].title.value.href.None? {
      return fallback;
    }
    resultado := Offered(productos[i], precio);
  }
}
