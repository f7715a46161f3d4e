/**
 * Pieces the listing scrapers repeat word for word: the digits-only
 * `limpiar_precio`, the "make a relative link absolute" rule, and one request
 * of the bounded retry loop (`requests.get(...)` followed by
 * `resp.raise_for_status()`, both inside `try ... except RequestException`).
 */
module Listing {
  import opened Wrappers
  import opened Text
  import Retry

  /** `REINTENTOS`, the same in every script with a retry loop. */
  const Reintentos: nat := 5

  // ---------------------------------------------------------------
  // limpiar_precio
  // ---------------------------------------------------------------

  /** `limpiar_precio`: every digit of the text read as one number, 0 for no digit. */
  function CleanPrice(texto: string): (precio: int)
    ensures precio == if DigitsOf(texto) == [] then 0 else NatValue(DigitsOf(texto))
  {
    if texto == [] then 0
    else
      var digitos := DigitsOf(texto);
      assert digitos != [] ==> PyInt(digitos) == Some(NatValue(digitos)) by {
        if digitos != [] { PyIntDigits(digitos); }
      }
      match PyInt(digitos)
      case None => 0
      case Some(v) => v
  }

  /** Deleting every non-digit from digits and separators gives the digits. */
  lemma {:induction false} DigitsOfGrouped(s: string, sep: char)
    requires !IsDigit(sep)
    requires forall i :: 0 <= i < |s| ==> IsDigit(s[i]) || s[i] == sep
    ensures DigitsOf(s) == Remove(s, sep)
  {
    if s != [] {
      DigitsOfGrouped(s[1..], sep);
    }
  }

  lemma DigitsOfAmount(pre: string, g: string, post: string, sep: char)
    requires !IsDigit(sep) && DigitsOf(pre) == [] && DigitsOf(post) == []
    requires forall c :: c in g ==> IsDigit(c) || c == sep
    ensures DigitsOf(pre + g + post) == Remove(g, sep)
  {
    forall i | 0 <= i < |g| ensures IsDigit(g[i]) || g[i] == sep {
      assert g[i] in g;
    }
    DigitsOfGrouped(g, sep);
    DigitsOfAppend(pre, g);
    DigitsOfAppend(pre + g, post);
  }

  /**
   * An amount shown with thousands separators, between text with no digits
   * ("$6,400 CLP", "$12.000"), is read back as that amount.
   */
  lemma CleanPriceRoundTrip(n: nat, sep: char, pre: string, post: string)
    requires !IsDigit(sep) && DigitsOf(pre) == [] && DigitsOf(post) == []
    ensures CleanPrice(pre + GroupedNat(n, sep) + post) == n
  {
    GroupedNatChars(n, sep);
    DigitsOfAmount(pre, GroupedNat(n, sep), post, sep);
    GroupedNatDigits(n, sep);
  }

  /** Text with no digit, the empty text included, is worth 0. */
  lemma CleanPriceNoDigits(texto: string)
    requires forall i :: 0 <= i < |texto| ==> !IsDigit(texto[i])
    ensures CleanPrice(texto) == 0
  {
    NoDigitsOf(texto);
  }

  lemma {:induction false} NoDigitsOf(s: string)
    requires forall i :: 0 <= i < |s| ==> !IsDigit(s[i])
    ensures DigitsOf(s) == []
  {
    if s != [] {
      NoDigitsOf(s[1..]);
    }
  }

  // ---------------------------------------------------------------
  // Links
  // ---------------------------------------------------------------

  /** `enlace = base + enlace if enlace.startswith("/")`. */
  function AbsoluteUrl(base: string, href: string): (url: string)
    ensures |url| >= |href| && url[|url| - |href|..] == href
    ensures "/" <= href ==> base <= url
    ensures !("/" <= href) ==> url == href
  {
    if "/" <= href then base + href else href
  }

  /** A title link: its text and its `href` attribute, if any. */
  datatype Anchor = Anchor(text: string, href: Option<string>)

  /**
   * A product block of the Rivendel and Game of Magic listings: its title
   * link, if there is one, and the text of its price element, if there is one.
   */
  datatype Product = Product(title: Option<Anchor>, price: Option<string>)

  /** `nombre_tag.get("href", "")` made absolute. */
  function ProductUrl(base: string, a: Anchor): string {
    AbsoluteUrl(base, if a.href.Some? then a.href.value else "")
  }

  /** `limpiar_precio(precio_tag.get_text(strip=True)) if precio_tag else 0` */
  function ProductPrice(p: Product): (precio: int)
    ensures precio >= 0
    ensures p.price.None? ==> precio == 0
  {
    if p.price.Some? then CleanPrice(Strip(p.price.value)) else 0
  }

  // ---------------------------------------------------------------
  // One request of the retry loop
  // ---------------------------------------------------------------

  /** One request: a network error or timeout, or an answer with a status and a parsed body. */
  datatype Attempt<P> = Failed | Answered(status: int, body: P)

  /** `resp.raise_for_status()` raises for a status from 400 to 599, so it counts as a failed attempt. */
  function Outcome<P>(a: Attempt<P>): (o: Option<P>)
    ensures o.Some? <==> a.Answered? && !(400 <= a.status < 600)
  {
    if a.Failed? || 400 <= a.status < 600 then None else Some(a.body)
  }

  function Outcomes<P>(attempt: nat -> Attempt<P>): nat -> Option<P> {
    (n: nat) => Outcome(attempt(n))
  }

  /** The body the retry loop gets for a page, `None` once `Reintentos` requests have failed. */
  function Fetched<P>(attempt: nat -> Attempt<P>): Option<P> {
    Retry.FirstSuccess(Outcomes(attempt), 0, Reintentos)
  }

  /** Five failed requests give nothing; otherwise the body is that of the first request that did not fail. */
  lemma FetchedSpec<P>(attempt: nat -> Attempt<P>)
    ensures Fetched(attempt).None? <==> forall k :: 0 <= k < Reintentos ==> Outcome(attempt(k)).None?
    ensures Fetched(attempt).Some? ==>
              exists k :: 0 <= k < Reintentos && Outcome(attempt(k)) == Fetched(attempt)
                          && forall j :: 0 <= j < k ==> Outcome(attempt(j)).None?
  {
    Retry.FirstSuccessSpec(Outcomes(attempt), 0, Reintentos);
  }

  /** The retry loop itself. */
  method Fetch<P>(attempt: nat -> Attempt<P>) returns (body: Option<P>, requests: nat)
    ensures body == Fetched(attempt)
    ensures requests <= Reintentos
    ensures body.None? ==> requests == Reintentos
  {
    body, requests := Retry.FetchWithRetries(Outcomes(attempt), Reintentos);
  }
}
