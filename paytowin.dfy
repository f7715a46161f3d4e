/**
 * The PayToWin foil listing scraper: the product-card parse with its skip
 * rules, the cents-to-pesos price, the image file name and the page loop.
 * Cards that make the script raise are modelled as a `Crash` that ends the run.
 */
module PayToWin {
  import opened Wrappers
  import opened Text
  import opened Seqs
  import Paging

  const Base := "https://www.paytowin.cl"

  // ---------------------------------------------------------------
  // formatear_moneda and the price of a card
  // ---------------------------------------------------------------

  /** `formatear_moneda`: "$" and the amount with "." between thousands. */
  function FormatMoney(v: Option<int>): string {
    match v
    case None => ""
    case Some(n) => "$" + Grouped(n, '.')
  }

  /** Nothing for no amount; otherwise "$", a "-" for a negative amount, and the grouped digits of its size. */
  lemma FormatMoneyShape(v: Option<int>)
    ensures v.None? <==> FormatMoney(v) == []
    ensures v.Some? && v.value >= 0 ==> FormatMoney(v) == "$" + GroupedNat(v.value, '.') && ThousandsGrouped(GroupedNat(v.value, '.'), '.')
    ensures v.Some? && v.value < 0 ==> FormatMoney(v) == "$-" + GroupedNat(-v.value, '.') && ThousandsGrouped(GroupedNat(-v.value, '.'), '.')
    ensures v.Some? ==> AllDigits(Remove(GroupedNat(if v.value < 0 then -v.value else v.value, '.'), '.'))
    ensures v.Some? ==> NatValue(Remove(GroupedNat(if v.value < 0 then -v.value else v.value, '.'), '.')) == if v.value < 0 then -v.value else v.value
  {
    if v.Some? {
      var m := if v.value < 0 then -v.value else v.value;
      GroupedNatShape(m, '.');
      GroupedNatDigits(m, '.');
    }
  }

  /** `int(x) // 100`: Python's floor division, which for a positive divisor is Dafny's `/`. */
  function Pesos(cents: int): (p: int)
    ensures p * 100 <= cents < p * 100 + 100
  {
    cents / 100
  }

  /** The price column of a card with the given `data-price`: empty when it is not an integer. */
  function CardPrice(dataPrice: string): (precio: string)
    ensures precio == "" <==> PyInt(Strip(dataPrice)).None?
  {
    match PyInt(Strip(dataPrice))
    case None => ""
    case Some(c) => FormatMoney(Some(Pesos(c)))
  }

  /** A plain digit string of cents gives its whole pesos, grouped. */
  lemma CardPriceDigits(d: string)
    requires d != [] && AllDigits(d)
    ensures CardPrice(d) == "$" + GroupedNat(NatValue(d) / 100, '.')
  {
    StripNoSpace(d);
    PyIntDigits(d);
  }

  // ---------------------------------------------------------------
  // The product card
  // ---------------------------------------------------------------

  /** The link inside the title: its text and its `href`. */
  datatype Link = Link(text: string, href: Option<string>)

  /** The `<p class="productCard__title">`, with the `<a>` inside it if any. */
  datatype TitleTag = TitleTag(link: Option<Link>)

  datatype Img = Img(dataSrc: Option<string>, src: Option<string>)

  /** The active chip: `None` for its `data-price` means the attribute is missing. */
  datatype Chip = Chip(dataPrice: Option<string>)

  datatype Card = Card(title: Option<TitleTag>, img: Option<Img>, chip: Option<Chip>)

  datatype Row = Row(name: string, price: string, url: string, image: Option<string>)

  /** Where the script raises: `None.text`, `enlace["href"]`, `None.startswith`, and a request that fails. */
  datatype Crash = NoLink | NoHref | NoImageUrl | RequestFailed

  predicate Truthy(s: Option<string>) { s.Some? && s.value != [] }

  /** `img_tag.get("data-src") or img_tag.get("src")`, with "//" made absolute; `None` when there is no image. */
  function ImageUrl(img: Option<Img>): Result<Option<string>, Crash> {
    if img.None? then Ok(None)
    else
      var u := if Truthy(img.value.dataSrc) then img.value.dataSrc else img.value.src;
      if u.None? then Err(NoImageUrl)
      else if "//" <= u.value then Ok(Some("https:" + u.value))
      else Ok(u)
  }

  /** One card: skipped (`Ok(None)`), a row, or a crash, checked in the order the script does. */
  function CardRow(c: Card): Result<Option<Row>, Crash> {
    if c.title.None? then Ok(None)
    else if c.title.value.link.None? then Err(NoLink)
    else
      var enlace := c.title.value.link.value;
      if enlace.href.None? then Err(NoHref)
      else match ImageUrl(c.img)
        case Err(e) => Err(e)
        case Ok(imagen) =>
          if c.chip.None? || c.chip.value.dataPrice.None? then Ok(None)
          else Ok(Some(Row(Strip(enlace.text), CardPrice(c.chip.value.dataPrice.value), Base + enlace.href.value, imagen)))
  }

  /** What a card gives. */
  lemma CardRowSpec(c: Card)
    ensures c.title.None? ==> CardRow(c) == Ok(None)
    ensures CardRow(c).Ok? && CardRow(c).value.Some? <==>
              c.title.Some? && c.title.value.link.Some? && c.title.value.link.value.href.Some?
              && ImageUrl(c.img).Ok? && c.chip.Some? && c.chip.value.dataPrice.Some?
    ensures CardRow(c).Ok? && CardRow(c).value.Some? ==>
              CardRow(c).value.value.url == Base + c.title.value.link.value.href.value
              && Base <= CardRow(c).value.value.url
    ensures CardRow(c).Err? ==> c.title.Some?
  {
  }

  /** The loop of `obtener_productos` over the cards. */
  method ParseCards(cs: seq<Card>) returns (r: Result<seq<Row>, Crash>)
    ensures r == TryFilterMap(cs, CardRow)
  {
    var resultados: seq<Row> := [];
    var i := 0;
    while i < |cs|
      invariant 0 <= i <= |cs|
      invariant TryFilterMap(cs[..i], CardRow) == Ok(resultados)
    {
      assert cs[..i + 1][..i] == cs[..i];
      var o := CardRow(cs[i]);
      if o.Err? {
        TryFilterMapErr(cs, i + 1, CardRow);
        return Err(o.error);
      }
      TryFilterMapSnoc(cs[..i], cs[i], CardRow);
      assert cs[..i] + [cs[i]] == cs[..i + 1];
      if o.value.Some? {
        resultados := resultados + [o.value.value];
      } else {
        assert resultados + [] == resultados;
      }
      i := i + 1;
    }
    assert cs[..i] == cs;
    r := Ok(resultados);
  }

  // ---------------------------------------------------------------
  // The image file name in descargar_imagenes
  // ---------------------------------------------------------------

  predicate NameChar(c: char) { IsAsciiLetter(c) || IsDigit(c) || c == '_' || c == '-' }

  /** `re.sub(r"[^a-zA-Z0-9_-]", "_", s)` */
  function Underscore(s: string): (r: string)
    ensures |r| == |s|
  {
    seq(|s|, i requires 0 <= i < |s| => if NameChar(s[i]) then s[i] else '_')
  }

  /** `... [:80] + ".jpg"` */
  function ImageFileName(nombre: string): string {
    var u := Underscore(nombre);
    (if |u| <= 80 then u else u[..80]) + ".jpg"
  }

  /** The stem keeps the first 80 characters in place, the safe ones as they are, every other one as "_". */
  lemma ImageFileNameSpec(nombre: string)
    ensures var f := ImageFileName(nombre);
            var n := if |nombre| <= 80 then |nombre| else 80;
            |f| == n + 4 && f[n..] == ".jpg"
            && (forall i :: 0 <= i < n ==> NameChar(f[i]))
            && (forall i :: 0 <= i < n ==> (f[i] == nombre[i] <==> NameChar(nombre[i])))
  {
  }

  // ---------------------------------------------------------------
  // obtener_productos and the page loop of main
  // ---------------------------------------------------------------

  /**
   * One page request: the answer, or `Raised` when `requests.get(url)`
   * raises, which nothing in the script catches.
   */
  datatype Response = Response(status: int, cards: seq<Card>) | Raised

  /** One call of `obtener_productos`: no rows unless the status is 200. */
  function PageResult(r: Response): Result<seq<Row>, Crash> {
    if r.Raised? then Err(RequestFailed)
    else if r.status != 200 then Ok([]) else TryFilterMap(r.cards, CardRow)
  }

  /** The rows a page contributes, a crashed page counting as none. */
  function PageRows(r: Response): seq<Row> {
    match PageResult(r)
    case Ok(rows) => rows
    case Err(_) => []
  }

  /** The `q`-th page read, counting from page 1. */
  function Nth(site: int -> Response, q: nat): Response { site(1 + q) }

  /** The last page read: empty, or the page whose parse raised. */
  predicate Ends(r: Response) { PageResult(r) == Ok([]) || PageResult(r).Err? }

  /**
   * The loop of `main` from page 1: stops at the first page with no rows,
   * or at the first page that raises, which aborts the script before the CSV
   * is written. The listing is assumed to end somewhere (`last`).
   */
  method Scrape(site: int -> Response, ghost last: int) returns (todos: seq<Row>, read: nat, crash: Option<Crash>)
    requires last >= 1 && Ends(site(last))
    ensures Ends(site(1 + read)) && forall q: nat :: q < read ==> !Ends(Nth(site, q))
    ensures todos == Paging.Collected(n => PageRows(site(n)), 1, read)
    ensures crash.Some? <==> PageResult(site(1 + read)).Err?
    ensures crash.Some? ==> crash.value == PageResult(site(1 + read)).error
  {
    ghost var pages := n => PageRows(site(n));
    todos := [];
    read := 0;
    while true
      invariant 1 + read <= last
      invariant forall q: nat :: q < read ==> !Ends(Nth(site, q))
      invariant todos == Paging.Collected(pages, 1, read)
      decreases last - 1 - read
    {
      var productos := PageResult(site(1 + read));
      if productos.Err? {
        return todos, read, Some(productos.error);
      }
      if productos.value == [] {
        return todos, read, None;
      }
      assert productos.value == Paging.Page(pages, 1, read);
      assert !Ends(Nth(site, read));
      todos := todos + productos.value;
      read := read + 1;
    }
  }
}
