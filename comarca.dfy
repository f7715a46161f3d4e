/**
 * The Tienda La Comarca scraper (List_TiendaLaComarca.py), which reads the
 * store's Shopify `products.json` pages: the bounded retry of
 * `obtener_productos`, the record loop of `extraer_datos`, the page loop of
 * `scrapear_tienda` and the empty-list guard of `guardar_csv`.
 * `limpiar_precio` is only ever given the integer minimum, which `int()`
 * returns unchanged, so the model uses that minimum directly.
 */
module Comarca {
  import opened Wrappers
  import opened Seqs
  import Retry
  import Paging
  import opened Listing

  const ProductBase := "https://www.tiendalacomarca.cl/products/"

  /** `int(v.get("price", 0))` of one variant: no `price` key (0), an integer, or a value `int()` rejects ("19.90"). */
  datatype Price = NoPrice | IntPrice(n: int) | BadPrice

  /** One product of the JSON list; a missing `handle` is "", a missing `variants` list is []. */
  datatype RawProduct = RawProduct(title: Option<string>, handle: string, variants: seq<Price>)

  /** The parsed body of an answer: not JSON, JSON other than an object, or an object whose `products` list (or [] without one) is given. */
  datatype Payload = BadJson | NotAnObject | Products(products: seq<RawProduct>)

  /** A CSV row. */
  datatype Record = Record(name: string, price: int, url: string)

  /** The exceptions the script does not catch: `int()` on a variant price, `.get` on a JSON value that is not an object. */
  datatype Crash = PriceNotInteger | BodyNotObject

  // ---------------------------------------------------------------
  // extraer_datos
  // ---------------------------------------------------------------

  function PriceValue(v: Price): Result<int, Crash> {
    match v
    case NoPrice => Ok(0)
    case IntPrice(n) => Ok(n)
    case BadPrice => Err(PriceNotInteger)
  }

  predicate AllInteger(vs: seq<Price>) { forall i :: 0 <= i < |vs| ==> !vs[i].BadPrice? }

  function Values(vs: seq<Price>): (xs: seq<int>)
    requires AllInteger(vs)
    ensures |xs| == |vs| && forall i :: 0 <= i < |vs| ==> Ok(xs[i]) == PriceValue(vs[i])
  {
    seq(|vs|, i requires 0 <= i < |vs| && AllInteger(vs) => PriceValue(vs[i]).value)
  }

  /** `precio_mas_bajo`: the least variant price, 0 without variants; a price `int()` rejects raises. */
  function LowestPrice(vs: seq<Price>): (m: Result<int, Crash>)
    ensures m.Ok? <==> AllInteger(vs)
    ensures m.Ok? && vs == [] ==> m.value == 0
    ensures m.Ok? && vs != [] ==>
              (exists i :: 0 <= i < |vs| && PriceValue(vs[i]) == Ok(m.value))
              && forall i :: 0 <= i < |vs| ==> m.value <= PriceValue(vs[i]).value
  {
    if !AllInteger(vs) then Err(PriceNotInteger)
    else if vs == [] then Ok(0)
    else
      var xs := Values(vs);
      var m := Minimum(xs);
      assert forall i :: 0 <= i < |xs| ==> xs[i] in xs;
      assert exists i :: 0 <= i < |xs| && xs[i] == m;
      Ok(m)
  }

  /** The body of the loop of `extraer_datos`, for one product. */
  function ProductRecord(p: RawProduct): Result<Record, Crash> {
    var nombre := if p.title.Some? then p.title.value else "SIN NOMBRE";
    var url := if p.handle != "" then ProductBase + p.handle else "";
    match LowestPrice(p.variants)
    case Err(e) => Err(e)
    case Ok(precio) => Ok(Record(nombre, precio, url))
  }

  /** The name falls back to "SIN NOMBRE"; the URL is the product page of a non-empty handle, else "". */
  lemma ProductRecordSpec(p: RawProduct)
    ensures ProductRecord(p).Ok? <==> AllInteger(p.variants)
    ensures ProductRecord(p).Ok? ==>
              var r := ProductRecord(p).value;
              (r.name == if p.title.Some? then p.title.value else "SIN NOMBRE")
              && (p.handle == "" ==> r.url == "")
              && (p.handle != "" ==> r.url == ProductBase + p.handle && |r.url| > |ProductBase|)
              && (p.variants == [] ==> r.price == 0)
  {
  }

  /** The loop of `extraer_datos`: one record per product, in order, unless some product raises. */
  method ExtractRecords(ps: seq<RawProduct>) returns (lista: Result<seq<Record>, Crash>)
    ensures lista == TryMap(ps, ProductRecord)
  {
    var rs: seq<Record> := [];
    var i := 0;
    while i < |ps|
      invariant 0 <= i <= |ps|
      invariant TryMap(ps[..i], ProductRecord) == Ok(rs)
    {
      assert ps[..i + 1][..i] == ps[..i];
      var r := ProductRecord(ps[i]);
      if r.Err? {
        TryMapErr(ps, i + 1, ProductRecord);
        return Err(r.error);
      }
      rs := rs + [r.value];
      i := i + 1;
    }
    assert ps[..i] == ps;
    return Ok(rs);
  }

  // ---------------------------------------------------------------
  // obtener_productos
  // ---------------------------------------------------------------

  /**
   * One attempt of the retry loop: a network error, an error status and a
   * body that is not JSON (`resp.json()` raises a `RequestException` too)
   * all count as failures.
   */
  function JsonOutcome(a: Attempt<Payload>): (o: Option<Payload>)
    ensures o.Some? <==> Outcome(a).Some? && !a.body.BadJson?
  {
    if Outcome(a).Some? && !a.body.BadJson? then Some(a.body) else None
  }

  function JsonOutcomes(attempt: nat -> Attempt<Payload>): nat -> Option<Payload> {
    (n: nat) => JsonOutcome(attempt(n))
  }

  /** `obtener_productos`: the list of the first answer that parses, [] after `Reintentos` failures. */
  function PageProducts(attempt: nat -> Attempt<Payload>): Result<seq<RawProduct>, Crash> {
    var body: Option<Payload> := Retry.FirstSuccess(JsonOutcomes(attempt), 0, Reintentos);
    match body
    case None => Ok([])
    case Some(NotAnObject) => Err(BodyNotObject)
    case Some(Products(ps)) => Ok(ps)
    // `JsonOutcome` never lets a body that is not JSON through; the case only completes the match
    case Some(BadJson) => Ok([])
  }

  /** Five failed attempts give no products; otherwise the first attempt that did not fail decides. */
  lemma PageProductsSpec(attempt: nat -> Attempt<Payload>)
    ensures (forall k :: 0 <= k < Reintentos ==> JsonOutcome(attempt(k)).None?) ==> PageProducts(attempt) == Ok([])
    ensures forall k :: 0 <= k < Reintentos && JsonOutcome(attempt(k)).Some?
                        && (forall j :: 0 <= j < k ==> JsonOutcome(attempt(j)).None?) ==>
              PageProducts(attempt) == (if attempt(k).body.NotAnObject? then Err(BodyNotObject) else Ok(attempt(k).body.products))
  {
    var o := JsonOutcomes(attempt);
    Retry.FirstSuccessSpec(o, 0, Reintentos);
    forall k | 0 <= k < Reintentos && JsonOutcome(attempt(k)).Some? && (forall j :: 0 <= j < k ==> JsonOutcome(attempt(j)).None?)
      ensures Retry.FirstSuccess(o, 0, Reintentos) == Some(attempt(k).body)
    {
      FirstSuccessAt(o, 0, k);
    }
  }

  /** The first success at `k` is what the search from `from` finds. */
  lemma {:induction false} FirstSuccessAt(o: nat -> Option<Payload>, from: nat, k: nat)
    requires from <= k < Reintentos && o(k).Some?
    requires forall j :: from <= j < k ==> o(j).None?
    ensures Retry.FirstSuccess(o, from, Reintentos) == o(k)
    decreases k - from
  {
    if from < k {
      FirstSuccessAt(o, from + 1, k);
    }
  }

  /** The retry loop of `obtener_productos`, with the number of requests made. */
  method FetchProducts(attempt: nat -> Attempt<Payload>) returns (productos: Result<seq<RawProduct>, Crash>, requests: nat)
    ensures productos == PageProducts(attempt)
    ensures requests <= Reintentos
  {
    var body;
    body, requests := Retry.FetchWithRetries(JsonOutcomes(attempt), Reintentos);
    if body.None? {
      return Ok([]), requests;
    }
    match body.value
    case NotAnObject => productos := Err(BodyNotObject);
    case Products(ps) => productos := Ok(ps);
    case BadJson => productos := Ok([]);  // never taken: see `JsonOutcome`
  }

  // ---------------------------------------------------------------
  // scrapear_tienda and guardar_csv
  // ---------------------------------------------------------------

  /** A page: its records and whether the loop goes on (the product list was not empty). */
  function PageData(attempt: nat -> Attempt<Payload>): Result<(seq<Record>, bool), Crash> {
    match PageProducts(attempt)
    case Err(e) => Err(e)
    case Ok(ps) =>
      if ps == [] then Ok(([], false))
      else match TryMap(ps, ProductRecord)
        case Err(e) => Err(e)
        case Ok(rs) => Ok((rs, true))
  }

  /** The loop goes on exactly after a non-empty product list, which gives as many records. */
  lemma PageDataSpec(attempt: nat -> Attempt<Payload>)
    ensures PageData(attempt).Ok? && PageData(attempt).value.1 ==>
              PageProducts(attempt).Ok? && |PageData(attempt).value.0| == |PageProducts(attempt).value| > 0
    ensures PageProducts(attempt) == Ok([]) ==> PageData(attempt) == Ok(([], false))
  {
    if PageProducts(attempt).Ok? {
      TryMapSpec(PageProducts(attempt).value, ProductRecord);
    }
  }

  function Steps(site: int -> nat -> Attempt<Payload>): int -> Result<(seq<Record>, bool), Crash> {
    n => PageData(site(n))
  }

  /**
   * `scrapear_tienda`: pages 1, 2, ... until one has no products, then
   * `guardar_csv`, which writes (`saved`) only a non-empty list. An exception
   * ends the run before anything is written. Page `n`'s `k`-th request
   * answers `site(n)(k)`; the listing is assumed to end (`last`).
   */
  method Scrape(site: int -> nat -> Attempt<Payload>, ghost last: int)
    returns (todos: seq<Record>, read: nat, crash: Option<Crash>, saved: Option<seq<Record>>)
    requires last >= 1 && Paging.Stops(PageData(site(last)))
    ensures Paging.Stops(PageData(site(1 + read)))
    ensures forall q: nat :: q < read ==> !Paging.Stops(Paging.At(Steps(site), 1, q))
    ensures todos == Paging.Collected(Paging.RowPages(Steps(site)), 1, read)
    ensures crash.Some? <==> PageData(site(1 + read)).Err?
    ensures crash.Some? ==> saved.None?
    ensures crash.None? ==> (saved.Some? <==> todos != []) && (saved.Some? ==> saved.value == todos)
  {
    todos, read, crash := Paging.CollectUntil(Steps(site), 1, last);
    saved := if crash.None? && todos != [] then Some(todos) else None;
  }
}
