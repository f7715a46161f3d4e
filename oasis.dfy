/**
 * The three Oasis Games listing scrapers (List_Oasis.py,
 * List_Oasis_Single.py, PendienteList_Oasis_Single.py): the foil test, the
 * name cleaner, the lowest-variant-price skip rule, the product loop, the
 * bounded retry of the two later scripts, the page loop and the write guard.
 * Prices stay in integer cents; the float division by 100 and its "$1.234"
 * rendering are not modelled.
 */
module Oasis {
  import opened Wrappers
  import opened Text
  import opened Seqs
  import Paging
  import opened Listing

  const Site := "https://www.oasisgames.cl"

  // ---------------------------------------------------------------
  // detectar_foil and limpiar_nombre
  // ---------------------------------------------------------------

  /** `detectar_foil`: "Sí" when the lower-cased name has "foil" but not "non-foil". */
  function DetectFoil(nombre: string): string {
    var l := Lower(nombre);
    if Contains(l, "foil") && !Contains(l, "non-foil") then "Sí" else "No"
  }

  /** A name marked "non-foil" anywhere, in any case ("Non-Foil", "NON-FOIL", ...), is not foil. */
  lemma NonFoilIsNot(a: string, w: string, b: string)
    requires Lower(w) == "non-foil"
    ensures DetectFoil(a + w + b) == "No"
  {
    var x := a + w + b;
    var l := Lower(x);
    var at := l[|a|..|a| + 8];
    forall k | 0 <= k < 8 ensures at[k] == "non-foil"[k] {
      assert x[|a| + k] == w[k];
    }
    ContainsAt(l, "non-foil", |a|);
  }

  /** A name with "foil" in any case and no "non-foil" is foil. */
  lemma FoilIs(a: string, w: string, b: string)
    requires Lower(w) == "foil"
    requires !Contains(Lower(a + w + b), "non-foil")
    ensures DetectFoil(a + w + b) == "Sí"
  {
    var x := a + w + b;
    var l := Lower(x);
    var at := l[|a|..|a| + 4];
    forall k | 0 <= k < 4 ensures at[k] == "foil"[k] {
      assert x[|a| + k] == w[k];
    }
    ContainsAt(l, "foil", |a|);
  }

  /** `limpiar_nombre`: the stripped text before the first "(". */
  function CleanName(nombre: string): string {
    if '(' in nombre then Strip(Before(nombre, '(')) else Strip(nombre)
  }

  /** `strip` keeps characters of its argument only. */
  lemma StripSubset(s: string, c: char)
    requires c !in s
    ensures c !in Strip(s)
  {
    StripSlice(s);
    var a := LeadingSpaces(s);
    var t := Strip(s);
    forall i | 0 <= i < |t| ensures t[i] != c {
      assert t[i] == s[a + i];
    }
  }

  /** Both branches agree: the result is the stripped prefix before the first "(", with no "(" and no outer whitespace. */
  lemma CleanNameSpec(nombre: string)
    ensures CleanName(nombre) == Strip(Before(nombre, '('))
    ensures '(' !in CleanName(nombre)
    ensures NoOuterSpace(CleanName(nombre))
  {
    if '(' !in nombre {
      BeforeAbsent(nombre, '(');
    }
    StripSubset(Before(nombre, '('), '(');
    StripSpec(Before(nombre, '('));
  }

  /** Cleaning a clean name changes nothing. */
  lemma CleanNameIdempotent(nombre: string)
    ensures CleanName(CleanName(nombre)) == CleanName(nombre)
  {
    CleanNameSpec(nombre);
    var r := CleanName(nombre);
    StripIdempotent(Before(nombre, '('));
  }

  // ---------------------------------------------------------------
  // One product
  // ---------------------------------------------------------------

  /**
   * One `div.grid-view-item`: the text of its title (`None` when there is no
   * title element), its link (`None` for no link element, `Some(None)` for
   * one without `href`) and the `variants` attribute of its price element.
   * `variants` is `None` when the element or the attribute is missing or the
   * attribute is not a JSON object; otherwise it lists, per variant, the
   * `int(v["price"])` in cents, or `None` where that raises.
   */
  datatype Product = Product(title: Option<string>, link: Option<Option<string>>, variants: Option<seq<Option<int>>>)

  /** A CSV row, with the price kept as the lowest variant price in cents. */
  datatype Card = Card(original: string, name: string, foil: string, cents: int, url: string)

  /** Every variant price parsed. */
  predicate AllParsed(vs: seq<Option<int>>) { forall i :: 0 <= i < |vs| ==> vs[i].Some? }

  function Values(vs: seq<Option<int>>): (xs: seq<int>)
    requires AllParsed(vs)
    ensures |xs| == |vs| && forall i :: 0 <= i < |vs| ==> xs[i] == vs[i].value
  {
    seq(|vs|, i requires 0 <= i < |vs| && AllParsed(vs) => vs[i].value)
  }

  /** `min_precio` in cents: `None` when the list comprehension raises or is empty. */
  function LowestCents(variants: Option<seq<Option<int>>>): (m: Option<int>)
    ensures m.Some? <==> variants.Some? && variants.value != [] && AllParsed(variants.value)
    ensures m.Some? ==> (exists i :: 0 <= i < |variants.value| && variants.value[i] == Some(m.value))
                        && forall i :: 0 <= i < |variants.value| ==> m.value <= variants.value[i].value
  {
    if variants.None? || variants.value == [] || !AllParsed(variants.value) then None
    else
      var xs := Values(variants.value);
      var m := Minimum(xs);
      assert exists i :: 0 <= i < |xs| && xs[i] == m;
      assert forall i :: 0 <= i < |xs| ==> xs[i] in xs;
      Some(m)
  }

  /** `enlace`: the `href`, made absolute when it starts with "/", or "" without one. */
  function Url(link: Option<Option<string>>): string {
    if link.None? || link.value.None? then ""
    else AbsoluteUrl(Site, link.value.value)
  }

  /** The body of the product loop: skipped without a title or a non-zero lowest price. */
  function ProductCard(p: Product): Option<Card> {
    if p.title.None? then None
    else
      var m := LowestCents(p.variants);
      if m.None? || m.value == 0 then None
      else
        var original := Strip(p.title.value);
        Some(Card(original, CleanName(original), DetectFoil(original), m.value, Url(p.link)))
  }

  /** A product gives a card exactly when it has a title and every variant price parses, with a non-zero lowest one. */
  lemma ProductCardSpec(p: Product)
    ensures ProductCard(p).Some? <==>
              p.title.Some? && p.variants.Some? && p.variants.value != [] && AllParsed(p.variants.value)
              && exists i :: 0 <= i < |p.variants.value| && p.variants.value[i].value != 0 && forall j :: 0 <= j < |p.variants.value| ==> p.variants.value[i].value <= p.variants.value[j].value
    ensures ProductCard(p).Some? ==> '(' !in ProductCard(p).value.name && (ProductCard(p).value.url == "" <==> Url(p.link) == "")
  {
    var m := LowestCents(p.variants);
    if p.title.Some? && m.Some? {
      var vs := p.variants.value;
      var k :| 0 <= k < |vs| && vs[k] == Some(m.value);
      forall i | 0 <= i < |vs| && forall j :: 0 <= j < |vs| ==> vs[i].value <= vs[j].value
        ensures vs[i].value == m.value
      {
        assert vs[i].value <= vs[k].value;
      }
      CleanNameSpec(Strip(p.title.value));
    }
  }

  /** The loop over the page's products. */
  method ParseProducts(ps: seq<Product>) returns (cartas: seq<Card>)
    ensures cartas == FilterMap(ps, ProductCard)
  {
    cartas := [];
    var i := 0;
    while i < |ps|
      invariant 0 <= i <= |ps|
      invariant cartas == FilterMap(ps[..i], ProductCard)
    {
      assert ps[..i + 1][..i] == ps[..i];
      var carta := ProductCard(ps[i]);
      if carta.Some? {
        cartas := cartas + [carta.value];
      } else {
        assert cartas + [] == cartas;
      }
      i := i + 1;
    }
    assert ps[..i] == ps;
  }

  // ---------------------------------------------------------------
  // One page
  // ---------------------------------------------------------------

  /**
   * One page request of List_Oasis.py: the answer, or `Raised` when
   * `requests.get` raises, which nothing in that script catches.
   */
  datatype Response = Response(status: int, products: seq<Product>) | Raised

  /** List_Oasis.py: a page that does not answer 200 counts as empty. */
  function PageCards(r: Response): seq<Card> {
    if r.Raised? || r.status != 200 then [] else FilterMap(r.products, ProductCard)
  }

  /** The page that ends the loop of List_Oasis.py: its request raised, or it gave no cards. */
  predicate Ends(r: Response) { r.Raised? || PageCards(r) == [] }

  /** The `q`-th page read, counting from page 1. */
  function Nth(site: int -> Response, q: nat): Response { site(1 + q) }

  /** The cards of a page after at most `Reintentos` requests; none once they all fail. */
  function RetriedCards(attempt: nat -> Attempt<seq<Product>>): seq<Card> {
    match Fetched(attempt)
    case None => []
    case Some(ps) => FilterMap(ps, ProductCard)
  }

  /** `obtener_cartas_de_pagina` of the later scripts: the retry loop, then the product loop. */
  method FetchCards(attempt: nat -> Attempt<seq<Product>>) returns (cartas: seq<Card>, requests: nat)
    ensures cartas == RetriedCards(attempt)
    ensures requests <= Reintentos
  {
    var resp;
    resp, requests := Fetch(attempt);
    if resp.None? {
      return [], requests;
    }
    cartas := ParseProducts(resp.value);
  }

  // ---------------------------------------------------------------
  // The page loop and the write guard
  // ---------------------------------------------------------------

  /**
   * `scrapear_todas_las_paginas` of List_Oasis.py: read pages from 1 to the
   * first one without cards, then write the CSV (`saved`) only if some card was
   * found. A request that raises ends the script before anything is written.
   * The listing is assumed to end (`last`).
   */
  method Scrape(site: int -> Response, ghost last: int) returns (todas: seq<Card>, read: nat, raised: bool, saved: Option<seq<Card>>)
    requires last >= 1 && Ends(site(last))
    ensures Ends(Nth(site, read)) && forall q: nat :: q < read ==> !Ends(Nth(site, q))
    ensures todas == Paging.Collected(n => PageCards(site(n)), 1, read)
    ensures raised <==> Nth(site, read).Raised?
    ensures raised ==> saved.None?
    ensures !raised ==> (saved.Some? <==> !Ends(site(1)))
    ensures saved.Some? ==> saved.value == todas
  {
    ghost var pages := n => PageCards(site(n));
    todas := [];
    read := 0;
    while true
      invariant 1 + read <= last
      invariant forall q: nat :: q < read ==> !Ends(Nth(site, q))
      invariant todas == Paging.Collected(pages, 1, read)
      invariant read > 0 ==> todas != [] && !Ends(site(1))
      decreases last - 1 - read
    {
      var r := site(1 + read);
      if r.Raised? {
        return todas, read, true, None;
      }
      var cartas := PageCards(r);
      if cartas == [] {
        break;
      }
      assert cartas == Paging.Page(pages, 1, read);
      assert !Ends(Nth(site, read));
      todas := todas + cartas;
      read := read + 1;
    }
    raised := false;
    saved := if todas != [] then Some(todas) else None;
  }

  /** The cards of each page of the later scripts. */
  function RetriedPages(site: int -> nat -> Attempt<seq<Product>>): int -> seq<Card> {
    n => RetriedCards(site(n))
  }

  /**
   * The page loop of the two later scripts, where page `n`'s `k`-th request
   * answers `site(n)(k)` and each page's cards are what `FetchCards` returns
   * for it; the CSV is written only if some card was found.
   */
  method ScrapeWithRetries(site: int -> nat -> Attempt<seq<Product>>, ghost last: int)
    returns (todas: seq<Card>, read: nat, saved: Option<seq<Card>>)
    requires last >= 1 && RetriedCards(site(last)) == []
    ensures Paging.StopsAfter(RetriedPages(site), 1, read)
    ensures todas == Paging.Collected(RetriedPages(site), 1, read)
    ensures saved.Some? <==> RetriedCards(site(1)) != []
    ensures saved.Some? ==> saved.value == todas
  {
    todas, read := Paging.CollectPages(RetriedPages(site), 1, last);
    saved := if todas != [] then Some(todas) else None;
  }

  /** A first page whose five requests all fail ends the run with nothing written. */
  lemma UnreachableSiteWritesNothing(site: int -> nat -> Attempt<seq<Product>>, read: nat)
    requires forall k :: 0 <= k < Reintentos ==> site(1)(k).Failed?
    requires Paging.StopsAfter(RetriedPages(site), 1, read)
    ensures read == 0 && Paging.Collected(RetriedPages(site), 1, read) == []
  {
    FetchedSpec(site(1));
    assert Paging.Page(RetriedPages(site), 1, 0) == [];
  }
}
