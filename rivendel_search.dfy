/**
 * The Rivendel el Concilio search adapter (tiendas/rivendelelconcilio.py):
 * the first product whose name holds the query is opened, its variant
 * options are read, and an English foil option in stock is preferred to an
 * English one, the cheaper within each. The search page is given as the
 * title links of its product blocks, the product pages by a function of
 * their address; `None` stands for a request that raised.
 */
module RivendelSearch {
  import opened Wrappers
  import opened Text
  import opened Seqs
  import opened Offers
  import opened Listing

  const Store := "Rivendel El Concilio"
  const Base := "https://www.rivendelelconcilio.cl"

  function SearchUrl(query: string): string { Base + "/search?q=" + PlusSpaces(query) }

  /** A `select.prod-options option`: its text and its `data-variant-stock` attribute. */
  datatype OptionTag = OptionTag(text: string, stock: Option<string>)

  /** A product page: its options and the text of its price element, if any. */
  datatype ProductPage = ProductPage(options: seq<OptionTag>, price: Option<string>)

  /** One entry of `stock_opciones`. */
  datatype Choice = Choice(name: string, stock: int, price: int)

  // ---------------------------------------------------------------
  // Price and options
  // ---------------------------------------------------------------

  /** The price text with "$", "CLP" and "." removed, then `int()`, 0 where that raises or there is no price element. */
  function PageValue(price: Option<string>): (p: int)
    ensures price.None? ==> p == 0
  {
    if price.None? then 0
    else
      match PyInt(Strip(Remove(Delete(Remove(Strip(price.value), '$'), "CLP"), '.')))
      case None => 0
      case Some(v) => v
  }

  /** A price shown as "$6.400 CLP" is read as 6400. */
  lemma PageValueRoundTrip(n: nat)
    ensures PageValue(Some("$" + GroupedNat(n, '.') + " CLP")) == n
  {
    var g := GroupedNat(n, '.');
    var d := Remove(g, '.');
    GroupedNatDigits(n, '.');
    GroupedNatChars(n, '.');
    ShownCleaned(g);
    assert d != [] by {
      assert g[0] != '.';
    }
    assert PyInt(Strip(d + " ")) == Some(n) by {
      StripDigitsSpace(d);
      PyIntDigits(d);
    }
  }

  /** The cleaning steps before `int` leave the grouped digits without their dots, and the space before "CLP". */
  lemma ShownCleaned(g: string)
    requires g != [] && IsDigit(g[0])
    requires forall c :: c in g ==> IsDigit(c) || c == '.'
    ensures Remove(Delete(Remove(Strip("$" + g + " CLP"), '$'), "CLP"), '.') == Remove(g, '.') + " "
  {
    ShownStripped(g);
    DropCurrency(g);
    RemoveAppend(g, " ", '.');
  }

  lemma ShownStripped(g: string)
    requires g != [] && IsDigit(g[0])
    ensures Strip("$" + g + " CLP") == "$" + g + " CLP"
  {
    var shown := "$" + g + " CLP";
    assert !IsSpace(shown[0]) && !IsSpace(shown[|shown| - 1]);
    StripNoSpace(shown);
  }

  lemma DropCurrency(g: string)
    requires forall c :: c in g ==> IsDigit(c) || c == '.'
    ensures Delete(Remove("$" + g + " CLP", '$'), "CLP") == g + " "
  {
    assert '$' !in g + " CLP" && 'C' !in g + " ";
    assert "$" + g + " CLP" == "$" + (g + " CLP");
    DropDollar(g + " CLP");
    assert g + " CLP" == (g + " ") + "CLP";
    DropCLP(g + " ");
  }

  lemma DropDollar(rest: string)
    requires '$' !in rest
    ensures Remove("$" + rest, '$') == rest
  {
    assert ("$" + rest)[1..] == rest;
    RemoveAbsent(rest, '$');
  }

  lemma DropCLP(a: string)
    requires 'C' !in a
    ensures Delete(a + "CLP", "CLP") == a
  {
    DeleteSkips(a, "CLP", "CLP");
    DeleteHead([], "CLP");
    assert "CLP" + [] == "CLP";
    assert a + [] == a;
  }

  lemma StripDigitsSpace(d: string)
    requires d != [] && AllDigits(d)
    ensures Strip(d + " ") == d
  {
    var t := d + " ";
    assert t[..|t| - 1] == d;
    assert !IsSpace(d[|d| - 1]);
    assert TrailingSpaces(d) == 0;
    assert TrailingSpaces(t) == 1;
    assert !IsSpace(t[0]);
    assert LeadingSpaces(t) == 0;
    assert TrimStart(t) == t;
    assert TrimEnd(t) == t[..|d|] == d;
  }

  /** `int(op.get("data-variant-stock", "0"))`, `None` where it raises. */
  function StockOf(op: OptionTag): Option<int> {
    PyInt(if op.stock.Some? then op.stock.value else "0")
  }

  /** One entry of `stock_opciones`: the stripped, lower-cased option text, its stock and the page's price. */
  function ChoiceOf(price: int): OptionTag -> Result<Choice, ()> {
    op => ReadChoice(price, op)
  }

  function ReadChoice(price: int, op: OptionTag): Result<Choice, ()> {
    if StockOf(op).None? then Err(()) else Ok(Choice(Lower(Strip(op.text)), StockOf(op).value, price))
  }

  /** The options of a page, an unreadable stock making the whole search fail. */
  function Choices(page: ProductPage): Result<seq<Choice>, ()> {
    TryMap(page.options, ChoiceOf(PageValue(page.price)))
  }

  /** The loop over the options of a product page. */
  method ReadOptions(page: ProductPage) returns (choices: Result<seq<Choice>, ()>)
    ensures choices == Choices(page)
  {
    var price := PageValue(page.price);
    var stockOpciones: seq<Choice> := [];
    var i := 0;
    while i < |page.options|
      invariant 0 <= i <= |page.options|
      invariant TryMap(page.options[..i], ChoiceOf(price)) == Ok(stockOpciones)
    {
      assert page.options[..i + 1][..i] == page.options[..i];
      var op := page.options[i];
      var c := ChoiceOf(price)(op);
      if c.Err? {
        TryMapErr(page.options, i + 1, ChoiceOf(price));
        return Err(());
      }
      stockOpciones := stockOpciones + [c.value];
      i := i + 1;
    }
    assert page.options[..i] == page.options;
    choices := Ok(stockOpciones);
  }

  // ---------------------------------------------------------------
  // Selection
  // ---------------------------------------------------------------

  /** `[o for o in stock_opciones if o["nombre_op"] == name and o["stock"] > 0]` */
  function InStock(cs: seq<Choice>, name: string): (r: seq<Choice>)
    ensures forall c :: c in r <==> c in cs && c.name == name && c.stock > 0
  {
    if |cs| == 0 then []
    else (if cs[0].name == name && cs[0].stock > 0 then [cs[0]] else []) + InStock(cs[1..], name)
  }

  function PriceKey(c: Choice): int { c.price }

  /** `min(disponibles, key=precio)`: the first cheapest. */
  function Cheapest(cs: seq<Choice>): (c: Choice)
    requires cs != []
    ensures c in cs && forall d :: d in cs ==> c.price <= d.price
  {
    var k := ArgMin(cs, PriceKey);
    assert forall d :: d in cs ==> exists i :: 0 <= i < |cs| && cs[i] == d;
    cs[k]
  }

  /** The priority names, in the order they are tried. */
  const Priority: seq<string> := ["ingles foil", "ingles"]

  /** The first priority name with an option in stock, and its cheapest such option. */
  function SelectFrom(cs: seq<Choice>, names: seq<string>): Option<Choice> {
    if |names| == 0 then None
    else if InStock(cs, names[0]) != [] then Some(Cheapest(InStock(cs, names[0])))
    else SelectFrom(cs, names[1..])
  }

  /** The option that is offered, if any. */
  function Select(cs: seq<Choice>): Option<Choice> { SelectFrom(cs, Priority) }

  /**
   * An English foil option in stock beats an English one; options with any
   * other name, or out of stock, are never chosen; within the chosen name the
   * cheapest is taken.
   */
  lemma SelectSpec(cs: seq<Choice>)
    ensures Select(cs).None? <==> forall c :: c in cs && c.stock > 0 ==> c.name !in Priority
    ensures Select(cs).Some? ==>
              var s := Select(cs).value;
              s in cs && s.stock > 0 && s.name in Priority
              && (s.name == "ingles" ==> forall c :: c in cs && c.stock > 0 ==> c.name != "ingles foil")
              && forall c :: c in cs && c.stock > 0 && c.name == s.name ==> s.price <= c.price
  {
    var foil, plain := InStock(cs, "ingles foil"), InStock(cs, "ingles");
    assert Priority[1..] == ["ingles"] && Priority[1..][1..] == [];
    assert Priority[0] == "ingles foil" && Priority[1] == "ingles";
    if foil == [] && plain == [] {
      assert SelectFrom(cs, Priority) == SelectFrom(cs, Priority[1..]) == SelectFrom(cs, Priority[1..][1..]) == None;
      forall c | c in cs && c.stock > 0 ensures c.name !in Priority {
        assert c !in foil && c !in plain;
      }
    } else if foil == [] {
      assert plain[0] in plain;
      assert SelectFrom(cs, Priority) == SelectFrom(cs, Priority[1..]) == Some(Cheapest(plain));
    } else {
      assert foil[0] in foil;
    }
  }

  /** The loop over the priority names, with its `break`. */
  method Choose(cs: seq<Choice>) returns (seleccion: Option<Choice>)
    ensures seleccion == Select(cs)
  {
    seleccion := None;
    for i := 0 to |Priority|
      invariant SelectFrom(cs, Priority) == SelectFrom(cs, Priority[i..])
    {
      var disponibles := InStock(cs, Priority[i]);
      assert Priority[i..][1..] == Priority[i + 1..];
      if disponibles != [] {
        seleccion := Some(Cheapest(disponibles));
        return;
      }
    }
  }

  // ---------------------------------------------------------------
  // buscar
  // ---------------------------------------------------------------

  /** The name of a product block: its title link's stripped text, "" without a link. */
  function NameOf(title: Option<Anchor>): string {
    if title.Some? then Strip(title.value.text) else ""
  }

  /** The product loop's test: the product's name holds the query. */
  function Matcher(query: string): Option<Anchor> -> bool {
    title => NameMatches(query, NameOf(title))
  }

  /** Index of the first product whose name holds the query, or the number of products. */
  function FirstMatch(query: string, products: seq<Option<Anchor>>): nat {
    FirstIndex(products, Matcher(query))
  }

  /** The address of the product page: the link made absolute; the search page itself when there is no link. */
  function ProductUrl(query: string, title: Option<Anchor>): Option<string> {
    if title.None? then Some(SearchUrl(query))
    else if title.value.href.None? then None
    else Some(AbsoluteUrl(Base, title.value.href.value))
  }

  /** The record built from the matching product, `None` where something in it raises. */
  function Examine(query: string, title: Option<Anchor>, pages: string -> Option<ProductPage>): Option<Offer> {
    var url := ProductUrl(query, title);
    if url.None? || pages(url.value).None? || Choices(pages(url.value).value).Err? then None
    else
      match Select(Choices(pages(url.value).value).value)
      case Some(s) => Some(Record(Store, Yes, NameOf(title), Some(s.name), "$" + IntToString(s.price), url.value))
      case None => Some(Record(Store, "No", NameOf(title), Some("-"), "-", url.value))
  }

  /** `buscar(query)`, given the search page and the product pages. */
  function Search(query: string, search: Option<seq<Option<Anchor>>>, pages: string -> Option<ProductPage>): Offer {
    var fallback := NotFound(Store, query, Some("-"), SearchUrl(query));
    if search.None? then fallback
    else
      var k := FirstMatch(query, search.value);
      if k == |search.value| then fallback
      else
        var r := Examine(query, search.value[k], pages);
        if r.None? then fallback else r.value
  }

  /**
   * The offer is in stock exactly when the first product whose name holds the
   * query has a selected option; then its price is that option's, after "$".
   * Only that product is looked at.
   */
  lemma SearchSpec(query: string, search: Option<seq<Option<Anchor>>>, pages: string -> Option<ProductPage>)
    ensures var o := Search(query, search, pages);
            o.Record? && o.store == Store && o.option.Some?
            && (o.available == Yes <==>
                  search.Some? && FirstMatch(query, search.value) < |search.value|
                  && var title := search.value[FirstMatch(query, search.value)];
                     var url := ProductUrl(query, title);
                     url.Some? && pages(url.value).Some? && Choices(pages(url.value).value).Ok?
                     && Select(Choices(pages(url.value).value).value).Some?)
            && (o.available == Yes ==>
                  var title := search.value[FirstMatch(query, search.value)];
                  var s := Select(Choices(pages(ProductUrl(query, title).value).value).value).value;
                  o.product == NameOf(title) && NameMatches(query, o.product)
                  && o.option == Some(s.name) && o.price == "$" + IntToString(s.price))
            && (o.available != Yes ==> o.price == "-")
  {
  }

  /** With no product whose name holds the query, the record is "No" for the query with the search address. */
  lemma NoMatchNotFound(query: string, products: seq<Option<Anchor>>, pages: string -> Option<ProductPage>)
    requires forall i :: 0 <= i < |products| ==> !NameMatches(query, NameOf(products[i]))
    ensures Search(query, Some(products), pages) == NotFound(Store, query, Some("-"), SearchUrl(query))
  {
    FirstIndexIs(products, Matcher(query), |products|);
  }

  /** The body of the loop for the matching product: its page, its options, the selection. */
  method ExamineProduct(query: string, title: Option<Anchor>, pages: string -> Option<ProductPage>)
    returns (r: Option<Offer>)
    ensures r == Examine(query, title, pages)
  {
    var url := ProductUrl(query, title);
    if url.None? || pages(url.value).None? {
      return None;
    }
    var opciones := ReadOptions(pages(url.value).value);
    if opciones.Err? {
      return None;
    }
    var seleccion := Choose(opciones.value);
    if seleccion.Some? {
      r := Some(Record(Store, Yes, NameOf(title), Some(seleccion.value.name),
                       "$" + IntToString(seleccion.value.price), url.value));
    } else {
      r := Some(Record(Store, "No", NameOf(title), Some("-"), "-", url.value));
    }
  }

  /** The product loop up to its `break`: the first product whose name holds the query. */
  method FindMatch(query: string, productos: seq<Option<Anchor>>) returns (i: nat)
    ensures i == FirstMatch(query, productos)
  {
    i := FindFirst(productos, Matcher(query));
  }

  /** `buscar`: the search page, the first matching product, or the "No" record. */
  method Buscar(query: string, search: Option<seq<Option<Anchor>>>, pages: string -> Option<ProductPage>)
    returns (resultado: Offer)
    ensures resultado == Search(query, search, pages)
  {
    var fallback := NotFound(Store, query, Some("-"), SearchUrl(query));
    if search.None? {
      return fallback;
    }
    var productos := search.value;
    var i := FindMatch(query, productos);
    if i == |productos| {
      return fallback;
    }
    var r := ExamineProduct(query, productos[i], pages);
    resultado := if r.None? then fallback else r.value;
  }
}
