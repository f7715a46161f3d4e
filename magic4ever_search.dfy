/**
 * The Magic4Ever search adapter (tiendas/magic4ever_scraper.py): the rows of
 * the product table are read, those whose title holds the query are kept,
 * and the cheapest available one is offered, or the cheapest one when none
 * is available. The search page is given as the rows of its
 * `productListingData` table (`None` when there is no such table), inside
 * `None` for a request that raised.
 */
module Magic4EverSearch {
  import opened Wrappers
  import opened Text
  import opened Seqs
  import opened Offers
  import opened Listing

  const Store := "Magic4Ever"

  function SearchUrl(query: string): string {
    "https://www.magic4ever.cl/advanced_search_result.php?keywords=" + PlusSpaces(query) + "&x=0&y=0"
  }

  /**
   * A table row: how many `td` cells it has, the link in cell 1, the text of
   * cell 3 and the `value` attributes of the options of the `select` in
   * cell 4, each if present.
   */
  datatype Row = Row(cells: nat, link: Option<Anchor>, priceText: string, select: Option<seq<Option<string>>>)

  /** An entry of `productos`. */
  datatype Entry = Entry(name: string, price: nat, url: string, available: bool)

  // ---------------------------------------------------------------
  // One row
  // ---------------------------------------------------------------

  /** `int(re.sub(r"[^\d]", "", precio_text))`, `None` where the text has no digit. */
  function RowPrice(text: string): (p: Option<nat>)
    ensures p.None? <==> DigitsOf(text) == []
    ensures p.Some? ==> p.value == NatValue(DigitsOf(text))
  {
    var d := DigitsOf(text);
    if d == [] then None else PyIntDigits(d); Some(NatValue(d))
  }

  /** `int(opt.get("value", "0"))`, `None` where it raises. */
  function OptionValue(v: Option<string>): Option<int> {
    PyInt(if v.Some? then v.value else "0")
  }

  /** `any(int(...) > 0 for opt in options)`: stops at the first positive value; a value read before it that `int()` refuses raises. */
  function AnyPositive(opts: seq<Option<string>>): Result<bool, ()> {
    AnyPositiveBy(opts, OptionValues())
  }

  function OptionValues(): Option<string> -> Option<int> {
    (v: Option<string>) => OptionValue(v)
  }

  /** `any(value(x) > 0 for x in xs)` for a `value` that may raise (`None`). */
  function AnyPositiveBy<T>(xs: seq<T>, value: T -> Option<int>): Result<bool, ()> {
    if |xs| == 0 then Ok(false)
    else
      match value(xs[0])
      case None => Err(())
      case Some(v) => if v > 0 then Ok(true) else AnyPositiveBy(xs[1..], value)
  }

  /**
   * The answer is yes exactly when some option has a positive value and every
   * option before it has a value; it raises only at an option without one.
   */
  lemma AnyPositiveSpec(opts: seq<Option<string>>)
    ensures AnyPositive(opts) == Ok(true) <==>
              exists k :: 0 <= k < |opts| && OptionValue(opts[k]).Some? && OptionValue(opts[k]).value > 0
                          && forall j :: 0 <= j < k ==> OptionValue(opts[j]).Some?
    ensures AnyPositive(opts).Err? ==> exists k :: 0 <= k < |opts| && OptionValue(opts[k]).None?
    ensures (forall k :: 0 <= k < |opts| ==> OptionValue(opts[k]).Some?) ==>
              AnyPositive(opts) == Ok(exists k :: 0 <= k < |opts| && OptionValue(opts[k]).value > 0)
  {
    var value := OptionValues();
    if AnyPositive(opts) == Ok(true) {
      var k := PositiveWitness(opts, value);
    }
    if exists k :: 0 <= k < |opts| && OptionValue(opts[k]).Some? && OptionValue(opts[k]).value > 0
                   && forall j :: 0 <= j < k ==> OptionValue(opts[j]).Some? {
      var k :| 0 <= k < |opts| && OptionValue(opts[k]).Some? && OptionValue(opts[k]).value > 0
               && forall j :: 0 <= j < k ==> OptionValue(opts[j]).Some?;
      PositiveAt(opts, value, k);
    }
    if AnyPositive(opts).Err? {
      var k := RaisesAt(opts, value);
    }
    if forall k :: 0 <= k < |opts| ==> OptionValue(opts[k]).Some? {
      AllRead(opts, value);
    }
  }

  /** The item that made the answer yes. */
  lemma {:induction false} PositiveWitness<T>(xs: seq<T>, value: T -> Option<int>) returns (k: nat)
    requires AnyPositiveBy(xs, value) == Ok(true)
    ensures k < |xs| && value(xs[k]).Some? && value(xs[k]).value > 0
    ensures forall j :: 0 <= j < k ==> value(xs[j]).Some?
  {
    if value(xs[0]).value > 0 {
      k := 0;
    } else {
      var rest := xs[1..];
      var k' := PositiveWitness(rest, value);
      k := k' + 1;
      assert xs[k] == rest[k'];
      forall j | 0 <= j < k ensures value(xs[j]).Some? {
        if j > 0 {
          assert xs[j] == rest[j - 1];
        }
      }
    }
  }

  /** A positive item with a value before it every time gives yes. */
  lemma {:induction false} PositiveAt<T>(xs: seq<T>, value: T -> Option<int>, k: nat)
    requires k < |xs| && value(xs[k]).Some? && value(xs[k]).value > 0
    requires forall j :: 0 <= j < k ==> value(xs[j]).Some?
    ensures AnyPositiveBy(xs, value) == Ok(true)
  {
    if k > 0 && value(xs[0]).value <= 0 {
      var rest := xs[1..];
      assert rest[k - 1] == xs[k];
      forall j | 0 <= j < k - 1 ensures value(rest[j]).Some? {
        assert rest[j] == xs[j + 1];
      }
      PositiveAt(rest, value, k - 1);
    }
  }

  /** The item at which the answer raised. */
  lemma {:induction false} RaisesAt<T>(xs: seq<T>, value: T -> Option<int>) returns (k: nat)
    requires AnyPositiveBy(xs, value).Err?
    ensures k < |xs| && value(xs[k]).None?
  {
    if value(xs[0]).None? {
      k := 0;
    } else {
      var rest := xs[1..];
      var k' := RaisesAt(rest, value);
      k := k' + 1;
      assert xs[k] == rest[k'];
    }
  }

  /** With every value readable, the answer is whether some value is positive. */
  lemma {:induction false} AllRead<T>(xs: seq<T>, value: T -> Option<int>)
    requires forall k :: 0 <= k < |xs| ==> value(xs[k]).Some?
    ensures AnyPositiveBy(xs, value) == Ok(exists k :: 0 <= k < |xs| && value(xs[k]).value > 0)
  {
    if |xs| > 0 && value(xs[0]).value <= 0 {
      var rest := xs[1..];
      assert forall k :: 0 <= k < |rest| ==> rest[k] == xs[k + 1];
      AllRead(rest, value);
      assert (exists k :: 0 <= k < |rest| && value(rest[k]).value > 0)
             == (exists k :: 0 <= k < |xs| && value(xs[k]).value > 0) by {
        if exists k :: 0 <= k < |xs| && value(xs[k]).value > 0 {
          var k :| 0 <= k < |xs| && value(xs[k]).value > 0;
          assert k > 0 && value(rest[k - 1]).value > 0;
        }
      }
    }
  }

  /**
   * The row loop's body: `Ok(None)` for a row skipped (fewer than five cells,
   * no title link, a title that does not hold the query), `Err` where it
   * raises (no `href`, no digit in the price, an option value `int()`
   * refuses), the entry appended to `productos` otherwise.
   */
  function ReadRow(query: string, r: Row): Result<Option<Entry>, ()> {
    if r.cells < 5 || r.link.None? then Ok(None)
    else if r.link.value.href.None? then Err(())
    else
      var titulo := Strip(r.link.value.text);
      match RowPrice(r.priceText)
      case None => Err(())
      case Some(precio) =>
        var disponible := if r.select.None? then Ok(false) else AnyPositive(r.select.value);
        if disponible.Err? then Err(())
        else if NameMatches(query, titulo) then Ok(Some(Entry(titulo, precio, r.link.value.href.value, disponible.value)))
        else Ok(None)
  }

  function Reader(query: string): Row -> Result<Option<Entry>, ()> {
    (r: Row) => ReadRow(query, r)
  }

  /** Every entry kept comes from a row with at least five cells and a link, and its title holds the query. */
  lemma ReadRowKeeps(query: string, r: Row)
    requires ReadRow(query, r).Ok? && ReadRow(query, r).value.Some?
    ensures var e := ReadRow(query, r).value.value;
            r.cells >= 5 && r.link.Some? && r.link.value.href == Some(e.url)
            && e.name == Strip(r.link.value.text) && NameMatches(query, e.name)
            && Some(e.price) == RowPrice(r.priceText)
            && (e.available <==> r.select.Some? && AnyPositive(r.select.value) == Ok(true))
  {
  }

  /** The row loop, appending to `productos`; `Err` where a row raises. */
  method ReadRows(query: string, filas: seq<Row>) returns (productos: Result<seq<Entry>, ()>)
    ensures productos == TryFilterMap(filas, Reader(query))
  {
    var acc: seq<Entry> := [];
    var i := 0;
    while i < |filas|
      invariant i <= |filas|
      invariant TryFilterMap(filas[..i], Reader(query)) == Ok(acc)
    {
      assert filas[..i + 1] == filas[..i] + [filas[i]];
      var fila := ReadRow(query, filas[i]);
      if fila.Err? {
        TryFilterMapSnocErr(filas[..i], filas[i], Reader(query));
        TryFilterMapErr(filas, i + 1, Reader(query));
        return Err(());
      }
      TryFilterMapSnoc(filas[..i], filas[i], Reader(query));
      if fila.value.Some? {
        acc := acc + [fila.value.value];
      } else {
        assert acc + [] == acc;
      }
      i := i + 1;
    }
    assert filas[..|filas|] == filas;
    productos := Ok(acc);
  }

  // ---------------------------------------------------------------
  // The choice
  // ---------------------------------------------------------------

  function OnlyAvailable(e: Entry): Option<Entry> { if e.available then Some(e) else None }

  function PriceKey(e: Entry): int { e.price }

  /** `min(productos_disponibles, key=precio)` when there is one, else `min(productos, key=precio)`. */
  function Choose(productos: seq<Entry>): Entry
    requires |productos| > 0
  {
    var disponibles := FilterMap(productos, OnlyAvailable);
    if |disponibles| > 0 then disponibles[ArgMin(disponibles, PriceKey)]
    else productos[ArgMin(productos, PriceKey)]
  }

  /**
   * The chosen entry is one of the entries; when some entry is available it
   * is available and no available entry is cheaper, otherwise no entry at
   * all is cheaper.
   */
  lemma ChooseSpec(productos: seq<Entry>)
    requires |productos| > 0
    ensures Choose(productos) in productos
    ensures (exists i :: 0 <= i < |productos| && productos[i].available) ==>
              Choose(productos).available
              && forall i :: 0 <= i < |productos| && productos[i].available ==> Choose(productos).price <= productos[i].price
    ensures (forall i :: 0 <= i < |productos| ==> !productos[i].available) ==>
              forall i :: 0 <= i < |productos| ==> Choose(productos).price <= productos[i].price
  {
    var disponibles := FilterMap(productos, OnlyAvailable);
    forall i | 0 <= i < |productos| && productos[i].available ensures productos[i] in disponibles {
      FilterMapHas(productos, OnlyAvailable, i);
    }
    if |disponibles| > 0 {
      var c := disponibles[ArgMin(disponibles, PriceKey)];
      FilterMapIn(productos, OnlyAvailable, c);
    }
  }

  /** `f"${precio:,}".replace(",", ".")` */
  function PriceText(p: nat): string { "$" + GroupedNat(p, '.') }

  /** A price the adapter shows is read back as the same number by the row price parser. */
  lemma PriceTextRoundTrip(p: nat)
    ensures RowPrice(PriceText(p)) == Some(p)
  {
    var g := GroupedNat(p, '.');
    ShownDigits(p);
    GroupedNatDigits(p, '.');
    assert Remove(g, '.') != [] by {
      assert g == [g[0]] + g[1..];
      RemoveAppend([g[0]], g[1..], '.');
    }
  }

  lemma ShownDigits(p: nat)
    ensures DigitsOf(PriceText(p)) == Remove(GroupedNat(p, '.'), '.')
  {
    GroupedNatChars(p, '.');
    assert "$" + GroupedNat(p, '.') + "" == PriceText(p);
    DigitsOfAmount("$", GroupedNat(p, '.'), "", '.');
  }

  // ---------------------------------------------------------------
  // buscar
  // ---------------------------------------------------------------

  /** `buscar(query)`: `page` is `None` when the request raised and `Some(None)` when there is no product table. */
  function Search(query: string, page: Option<Option<seq<Row>>>): Offer {
    var fallback := NotFound(Store, query, None, SearchUrl(query));
    if page.None? || page.value.None? then fallback
    else
      match TryFilterMap(page.value.value, Reader(query))
      case Err(_) => fallback
      case Ok(productos) =>
        if |productos| == 0 then fallback
        else
          var c := Choose(productos);
          Record(Store, if c.available then Yes else "No", c.name, None, PriceText(c.price), c.url)
  }

  /**
   * With every row read, the offer is the chosen entry among the rows whose
   * title holds the query, marked "Sí" exactly when it is available; with no
   * such row it is the "No" record.
   */
  lemma SearchSpec(query: string, filas: seq<Row>)
    requires TryFilterMap(filas, Reader(query)).Ok?
    ensures var productos := TryFilterMap(filas, Reader(query)).value;
            var o := Search(query, Some(Some(filas)));
            (|productos| == 0 ==> o == NotFound(Store, query, None, SearchUrl(query)))
            && (|productos| > 0 ==>
                  var c := Choose(productos);
                  c in productos && NameMatches(query, c.name)
                  && o == Record(Store, if c.available then Yes else "No", c.name, None, PriceText(c.price), c.url))
  {
    var productos := TryFilterMap(filas, Reader(query)).value;
    if |productos| > 0 {
      ChooseSpec(productos);
      EntriesMatch(query, filas);
    }
  }

  /** Every entry of `productos` has a title holding the query. */
  lemma {:induction false} EntriesMatch(query: string, filas: seq<Row>)
    requires TryFilterMap(filas, Reader(query)).Ok?
    ensures forall e :: e in TryFilterMap(filas, Reader(query)).value ==> NameMatches(query, e.name)
  {
    if |filas| > 0 {
      EntriesMatch(query, filas[..|filas| - 1]);
    }
  }

  /** `buscar`: the table, the row loop, the choice. */
  method Buscar(query: string, page: Option<Option<seq<Row>>>) returns (resultado: Offer)
    ensures resultado == Search(query, page)
  {
    var fallback := NotFound(Store, query, None, SearchUrl(query));
    if page.None? || page.value.None? {
      return fallback;
    }
    var productos := ReadRows(query, page.value.value);
    if productos.Err? || |productos.value| == 0 {
      return fallback;
    }
    var final := Choose(productos.value);
    resultado := Record(Store, if final.available then Yes else "No", final.name, None, PriceText(final.price), final.url);
  }
}
