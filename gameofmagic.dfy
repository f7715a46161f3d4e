/**
 * The Game of Magic Singles listing scraper (List_GameOfMagic_singles.py):
 * the name cleaner, the product loop, the bounded retry, the page loop and
 * the write guard. Its `limpiar_precio` is `Listing.CleanPrice`.
 */
module GameOfMagic {
  import opened Wrappers
  import opened Text
  import opened Seqs
  import opened Listing
  import Paging

  const Site := "https://gameofmagicsingles.cl"

  /** `limpiar_nombre`: surrounding whitespace removed. */
  function CleanName(nombre: string): (r: string)
    ensures NoOuterSpace(r)
    ensures exists a, b :: 0 <= a <= b <= |nombre| && r == nombre[a..b]
  {
    StripSpec(nombre);
    Strip(nombre)
  }

  datatype Card = Card(original: string, name: string, price: int, url: string)

  /** The body of the product loop: a product without a title link is skipped. */
  function ProductCard(p: Product): Option<Card> {
    if p.title.None? then None
    else
      var original := Strip(p.title.value.text);
      Some(Card(original, CleanName(original), ProductPrice(p), ProductUrl(Site, p.title.value)))
  }

  /** Every product with a title link gives a card; its name is the already stripped title, unchanged. */
  lemma ProductCardSpec(p: Product)
    ensures ProductCard(p).Some? <==> p.title.Some?
    ensures ProductCard(p).Some? ==>
              var c := ProductCard(p).value;
              c.name == c.original && NoOuterSpace(c.name) && c.price >= 0
              && (p.price.None? ==> c.price == 0)
  {
    if p.title.Some? {
      StripIdempotent(p.title.value.text);
    }
  }

  /** The loop over the products of a page. */
  method ParseProducts(ps: seq<Product>) returns (cartas: seq<Card>)
    ensures cartas == FilterMap(ps, ProductCard)
  {
    cartas := [];
    var i := 0;
    while i < |ps|
      invariant 0 <= i <= |ps|
      invariant cartas == FilterMap(ps[..i], ProductCard)
    {
      assert ps[..i + 1][..i] == ps[..i];
      var carta := ProductCard(ps[i]);
      if carta.Some? {
        cartas := cartas + [carta.value];
      } else {
        assert cartas + [] == cartas;
      }
      i := i + 1;
    }
    assert ps[..i] == ps;
  }

  /** The cards of a page: none once `Reintentos` requests have failed. */
  function PageCards(attempt: nat -> Attempt<seq<Product>>): seq<Card> {
    match Fetched(attempt)
    case None => []
    case Some(ps) => FilterMap(ps, ProductCard)
  }

  /** `obtener_cartas_de_pagina`: the retry loop, then the product loop. */
  method FetchCards(attempt: nat -> Attempt<seq<Product>>) returns (cartas: seq<Card>, requests: nat)
    ensures cartas == PageCards(attempt)
    ensures requests <= Reintentos
  {
    var resp;
    resp, requests := Fetch(attempt);
    if resp.None? {
      return [], requests;
    }
    cartas := ParseProducts(resp.value);
  }

  function Pages(site: int -> nat -> Attempt<seq<Product>>): int -> seq<Card> {
    n => PageCards(site(n))
  }

  /**
   * `scrapear_todas_las_paginas`: pages from 1 to the first without cards,
   * then the CSV (`saved`) only if some card was found. The listing is assumed
   * to end (`last`).
   */
  method Scrape(site: int -> nat -> Attempt<seq<Product>>, ghost last: int)
    returns (todas: seq<Card>, read: nat, saved: Option<seq<Card>>)
    requires last >= 1 && PageCards(site(last)) == []
    ensures Paging.StopsAfter(Pages(site), 1, read)
    ensures todas == Paging.Collected(Pages(site), 1, read)
    ensures saved.Some? <==> PageCards(site(1)) != []
    ensures saved.Some? ==> saved.value == todas
  {
    todas, read := Paging.CollectPages(Pages(site), 1, last);
    saved := if todas != [] then Some(todas) else None;
  }
}
