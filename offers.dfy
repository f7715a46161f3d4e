/**
 * What the store adapters under `tiendas/` return from `buscar`: a dict with
 * the keys "Tienda", "Disponible", "Producto", "Precio", "URL" (and "Opcion"
 * for Rivendel), or, in one path of the Inekosingles adapter, the empty dict.
 */
module Offers {
  import opened Wrappers
  import opened Text

  /** The "Disponible" value of an offer in stock. */
  const Yes := "S\U{ed}"

  datatype Offer =
    | EmptyDict
    | Record(store: string, available: string, product: string, option: Option<string>, price: string, url: string)

  /** The record an adapter returns when it has nothing to offer: "Disponible" "No", "Precio" "-". */
  function NotFound(store: string, query: string, option: Option<string>, url: string): (o: Offer)
    ensures o.Record? && o.available != Yes && o.price == "-" && o.product == query && o.url == url
  {
    Record(store, "No", query, option, "-", url)
  }

  /** `q.replace(' ', '+')`, as the adapters put the query in the search link. */
  function PlusSpaces(q: string): (r: string)
    ensures |r| == |q| && ' ' !in r
    ensures forall i :: 0 <= i < |q| ==> r[i] == (if q[i] == ' ' then '+' else q[i])
  {
    if |q| == 0 then [] else [if q[0] == ' ' then '+' else q[0]] + PlusSpaces(q[1..])
  }

  /** `query.lower() in name.lower()` */
  predicate NameMatches(query: string, name: string) {
    Contains(Lower(name), Lower(query))
  }
}
