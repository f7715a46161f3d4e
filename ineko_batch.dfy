/**
 * The Inekosingles price checker (Buscador_inekosingles.py): every card of
 * the input list is searched with up to three requests, and the product
 * blocks of the search page become output rows: the available products
 * whose name holds the card name, else one "Todo agotado" row, else one
 * "No encontrado" row; a failure gives an "Error" row.
 *
 * The answers of the site are given by `att(i)(n)`: what the `n`-th request
 * for the `i`-th card gets, either a network error or a status code with
 * the product blocks of the page.
 */
module InekoBatch {
  import opened Wrappers
  import opened Text
  import opened Seqs
  import opened Listing

  const MaxRetries := 3
  const BaseUrl := "https://inekosingles.com/search?q="
  const Site := "https://inekosingles.com"

  // ---------------------------------------------------------------
  // urllib.parse.quote
  // ---------------------------------------------------------------

  /** The characters `quote` leaves alone: ASCII letters, digits, "_.-~" and the safe "/". */
  predicate Unreserved(c: char) {
    IsAsciiLetter(c) || IsDigit(c) || c == '_' || c == '.' || c == '-' || c == '~' || c == '/'
  }

  /** The UTF-8 bytes of a character. */
  function Utf8(c: char): (bs: seq<nat>)
    ensures 1 <= |bs| <= 4 && forall i :: 0 <= i < |bs| ==> bs[i] < 256
  {
    var n := c as int;
    if n < 0x80 then [n]
    else if n < 0x800 then [0xC0 + n / 64, 0x80 + n % 64]
    else if n < 0x10000 then [0xE0 + n / 4096, 0x80 + (n / 64) % 64, 0x80 + n % 64]
    else [0xF0 + n / 262144, 0x80 + (n / 4096) % 64, 0x80 + (n / 64) % 64, 0x80 + n % 64]
  }

  function HexDigit(d: nat): (c: char)
    requires d < 16
  {
    if d < 10 then ('0' as int + d) as char else ('A' as int + d - 10) as char
  }

  /** A byte as `quote` writes it: "%" and two upper-case hex digits. */
  function Escaped(bs: seq<nat>): (r: string)
    requires forall i :: 0 <= i < |bs| ==> bs[i] < 256
    ensures |r| == 3 * |bs|
  {
    if |bs| == 0 then [] else ['%', HexDigit(bs[0] / 16), HexDigit(bs[0] % 16)] + Escaped(bs[1..])
  }

  /** `urllib.parse.quote(s)`: every other character becomes its percent-escaped UTF-8 bytes. */
  function Quote(s: string): string {
    if |s| == 0 then []
    else (if Unreserved(s[0]) then [s[0]] else Escaped(Utf8(s[0]))) + Quote(s[1..])
  }

  /** Text made of unreserved characters is kept as it is, and no space ever reaches the link. */
  lemma {:induction false} QuoteSpec(s: string)
    ensures (forall i :: 0 <= i < |s| ==> Unreserved(s[i])) ==> Quote(s) == s
    ensures forall i :: 0 <= i < |Quote(s)| ==> Quote(s)[i] == '%' || Unreserved(Quote(s)[i])
  {
    if |s| > 0 {
      QuoteSpec(s[1..]);
      var head := if Unreserved(s[0]) then [s[0]] else Escaped(Utf8(s[0]));
      EscapedChars(Utf8(s[0]));
      assert Quote(s) == head + Quote(s[1..]);
      forall i | 0 <= i < |Quote(s)| ensures Quote(s)[i] == '%' || Unreserved(Quote(s)[i]) {
        if i >= |head| {
          assert Quote(s)[i] == Quote(s[1..])[i - |head|];
        }
      }
    }
  }

  lemma {:induction false} EscapedChars(bs: seq<nat>)
    requires forall i :: 0 <= i < |bs| ==> bs[i] < 256
    ensures forall i :: 0 <= i < |Escaped(bs)| ==> Escaped(bs)[i] == '%' || Unreserved(Escaped(bs)[i])
  {
    if |bs| > 0 {
      EscapedChars(bs[1..]);
      var head := ['%', HexDigit(bs[0] / 16), HexDigit(bs[0] % 16)];
      assert Escaped(bs) == head + Escaped(bs[1..]);
      forall i | 0 <= i < |Escaped(bs)| ensures Escaped(bs)[i] == '%' || Unreserved(Escaped(bs)[i]) {
        if i >= 3 {
          assert Escaped(bs)[i] == Escaped(bs[1..])[i - 3];
        }
      }
    }
  }

  function SearchUrl(carta: string): string { BaseUrl + Quote(carta) }

  // ---------------------------------------------------------------
  // The requests of one card
  // ---------------------------------------------------------------

  /** A `li.grid__item` block: the `h3.card__heading a` link, the `.price-item--regular` text, the `.badge` text. */
  datatype Block = Block(title: Option<Anchor>, price: Option<string>, badge: Option<string>)

  type Page = seq<Block>

  /** A response the script holds in `response`: its status and its product blocks. */
  datatype Response = Response(status: int, page: Page)

  /** How the retry loop ends: `break` on success, `break` after the third failure, or the `while ... else` when the third request got 429. */
  datatype Ending = Got | GaveUp | Throttled

  /** The loop's result: how it ended, the `response` variable afterwards, and the number of requests made. */
  datatype Retried = Retried(ending: Ending, last: Option<Response>, requests: nat)

  /** An error status: `raise_for_status` raises for 400 to 599. */
  predicate HttpError(status: int) { 400 <= status < 600 }

  /**
   * The retry loop from `intentos == n`, with `last` the response the
   * script already holds (possibly one of an earlier card).
   */
  function Retry(att: nat -> Attempt<Page>, n: nat, last: Option<Response>): (r: Retried)
    requires n <= MaxRetries
    ensures n <= r.requests <= MaxRetries
    ensures r.ending == Got ==> r.last.Some? && !HttpError(r.last.value.status) && r.last.value.status != 429
    decreases MaxRetries - n
  {
    if n == MaxRetries then Retried(Throttled, last, n)
    else match att(n)
      case Failed =>
        if n + 1 < MaxRetries then Retry(att, n + 1, last) else Retried(GaveUp, last, n + 1)
      case Answered(status, page) =>
        var resp := Some(Response(status, page));
        if status == 429 then Retry(att, n + 1, resp)
        else if HttpError(status) then
          if n + 1 < MaxRetries then Retry(att, n + 1, resp) else Retried(GaveUp, resp, n + 1)
        else Retried(Got, resp, n + 1)
  }

  /** How the loop ends does not depend on the response held before it, nor does a response it got itself. */
  lemma {:induction false} RetryIgnoresLast(att: nat -> Attempt<Page>, n: nat, a: Option<Response>, b: Option<Response>)
    requires n <= MaxRetries
    ensures Retry(att, n, a).ending == Retry(att, n, b).ending
    ensures Retry(att, n, a).requests == Retry(att, n, b).requests
    ensures Retry(att, n, a).ending == Got ==> Retry(att, n, a).last == Retry(att, n, b).last
    decreases MaxRetries - n
  {
    if n < MaxRetries {
      match att(n)
      case Failed =>
        if n + 1 < MaxRetries { RetryIgnoresLast(att, n + 1, a, b); }
      case Answered(status, page) =>
        var resp := Some(Response(status, page));
        if n + 1 < MaxRetries || status == 429 { RetryIgnoresLast(att, n + 1, resp, resp); }
    }
  }

  /** Answers of 429 to every request end the loop through the `else` branch, after exactly three requests. */
  lemma AllThrottled(att: nat -> Attempt<Page>, last: Option<Response>)
    requires forall n :: 0 <= n < MaxRetries ==> att(n).Answered? && att(n).status == 429
    ensures Retry(att, 0, last).ending == Throttled && Retry(att, 0, last).requests == MaxRetries
  {
    assert att(0).Answered? && att(1).Answered? && att(2).Answered?;
  }

  /** Whether an answer sends the loop round again: a `RequestException`, a 429 or an error status. */
  predicate GoesRound(a: Attempt<Page>) {
    a.Failed? || a.status == 429 || HttpError(a.status)
  }

  /**
   * The loop ends through its `else` exactly when the first two requests sent
   * it round again, whatever they got, and the third got 429.
   */
  lemma ThrottledExactly(att: nat -> Attempt<Page>, last: Option<Response>)
    ensures Retry(att, 0, last).ending == Throttled <==>
              GoesRound(att(0)) && GoesRound(att(1)) && att(2).Answered? && att(2).status == 429
  {
    var l1 := if att(0).Failed? then last else Some(Response(att(0).status, att(0).body));
    var l2 := if att(1).Failed? then l1 else Some(Response(att(1).status, att(1).body));
    if GoesRound(att(0)) {
      assert Retry(att, 0, last) == Retry(att, 1, l1);
      if GoesRound(att(1)) {
        assert Retry(att, 1, l1) == Retry(att, 2, l2);
      }
    }
  }

  /** The loop gives up only after three requests; when it gets a page, the response held is the answer to its last request. */
  lemma {:induction false} GaveUpSpec(att: nat -> Attempt<Page>, n: nat, last: Option<Response>)
    requires n <= MaxRetries
    ensures Retry(att, n, last).ending == GaveUp ==> Retry(att, n, last).requests == MaxRetries
    ensures Retry(att, n, last).ending == Got ==>
              att(Retry(att, n, last).requests - 1).Answered?
              && Retry(att, n, last).last == Some(Response(att(Retry(att, n, last).requests - 1).status,
                                                           att(Retry(att, n, last).requests - 1).body))
    decreases MaxRetries - n
  {
    if n < MaxRetries && (att(n).Failed? || att(n).status == 429 || HttpError(att(n).status)) {
      if n + 1 < MaxRetries {
        GaveUpSpec(att, n + 1, if att(n).Failed? then last else Some(Response(att(n).status, att(n).body)));
      }
    }
  }

  /** The retry loop of one card, proved against `Retry`. */
  method Request(att: nat -> Attempt<Page>, held: Option<Response>) returns (ending: Ending, response: Option<Response>, requests: nat)
    ensures Retried(ending, response, requests) == Retry(att, 0, held)
  {
    response := held;
    var intentos := 0;
    while intentos < MaxRetries
      invariant intentos <= MaxRetries
      invariant Retry(att, 0, held) == Retry(att, intentos, response)
    {
      match att(intentos)
      case Failed =>
        intentos := intentos + 1;
        if intentos >= MaxRetries {
          return GaveUp, response, intentos;
        }
      case Answered(status, page) =>
        response := Some(Response(status, page));
        if status == 429 {
          intentos := intentos + 1;
        } else if HttpError(status) {
          intentos := intentos + 1;
          if intentos >= MaxRetries {
            return GaveUp, response, intentos;
          }
        } else {
          return Got, response, intentos + 1;
        }
    }
    ending, requests := Throttled, intentos;
  }

  // ---------------------------------------------------------------
  // The rows of one search page
  // ---------------------------------------------------------------

  /** An output row: "Carta buscada", "Nombre encontrado", "Precio", "URL", "Estado". */
  datatype Row = Row(card: string, name: string, price: string, url: string, state: string)

  function ErrorRow(carta: string): Row { Row(carta, "", "Error", SearchUrl(carta), "Error") }

  function NotFoundRow(carta: string): Row { Row(carta, "", "No encontrado", SearchUrl(carta), "No encontrado") }

  /** `nombre_tag["href"]` raises `KeyError` on a link without `href`. */
  predicate Raises(b: Block) { b.title.Some? && b.title.value.href.None? }

  /** `agotado_tag and "Agotado" in agotado_tag.get_text(strip=True)`: case-sensitive. */
  predicate SoldOut(b: Block) { b.badge.Some? && Contains(Strip(b.badge.value), "Agotado") }

  /** The block's name holds the card name, ignoring case. */
  predicate Matches(carta: string, b: Block)
    requires b.title.Some?
  {
    Contains(Lower(Strip(b.title.value.text)), Lower(carta))
  }

  /** A block that is read into a coincidence: titled, with a link, and matching. */
  predicate IsCoincidence(carta: string, b: Block) {
    b.title.Some? && b.title.value.href.Some? && Matches(carta, b)
  }

  /** The coincidence row of a block: "Agotado" in price and state when sold out. */
  function CoincidenceRow(carta: string, b: Block): Row
    requires IsCoincidence(carta, b)
  {
    var precio := if b.price.Some? then Strip(b.price.value) else "Sin precio";
    var agotado := SoldOut(b);
    Row(carta, Strip(b.title.value.text), if agotado then "Agotado" else precio,
        Site + b.title.value.href.value, if agotado then "Agotado" else "Disponible")
  }

  function IsCoincidenceOf(carta: string): Block -> bool {
    (b: Block) => IsCoincidence(carta, b)
  }

  function Coincidence(carta: string): Block -> Option<Row> {
    (b: Block) => CoincidenceOf(carta, b)
  }

  function CoincidenceOf(carta: string, b: Block): Option<Row> {
    if IsCoincidence(carta, b) then Some(CoincidenceRow(carta, b)) else None
  }

  function HasState(state: string): Row -> bool {
    (r: Row) => r.state == state
  }

  function WithState(state: string): Row -> Option<Row> {
    (r: Row) => if r.state == state then Some(r) else None
  }

  /** The `try` block on a page: `Err` for the exception that turns into an "Error" row. */
  function Process(carta: string, page: Page): Result<seq<Row>, ()> {
    if |page| == 0 then Ok([NotFoundRow(carta)])
    else if exists i :: 0 <= i < |page| && Raises(page[i]) then Err(())
    else
      var coincidencias := FilterMap(page, Coincidence(carta));
      if |coincidencias| == 0 then Ok([NotFoundRow(carta)])
      else
        var disponibles := FilterMap(coincidencias, WithState("Disponible"));
        var agotados := FilterMap(coincidencias, WithState("Agotado"));
        if |disponibles| > 0 then Ok(disponibles)
        // `agotados[0]` on an empty list raises; `CoincidenceStates` shows this cannot happen
        else if |agotados| == 0 then Err(())
        else Ok([Row(carta, agotados[0].name, "Agotado", agotados[0].url, "Todo agotado")])
  }

  /** The rows the page gives, an exception giving one "Error" row. */
  function PageRows(carta: string, page: Page): seq<Row> {
    match Process(carta, page)
    case Err(_) => [ErrorRow(carta)]
    case Ok(rows) => rows
  }

  /** A block that gives an available row: a coincidence that is not sold out. */
  function AvailableMatch(carta: string): Block -> Option<Row> {
    (b: Block) => AvailableMatchOf(carta, b)
  }

  function AvailableMatchOf(carta: string, b: Block): Option<Row> {
    if IsCoincidence(carta, b) && !SoldOut(b) then Some(CoincidenceRow(carta, b)) else None
  }

  /**
   * The page's rows: one "Error" row when a titled link has no `href`; one
   * "No encontrado" row for a page without blocks or without coincidences;
   * the available coincidences in page order when there is one; else one
   * "Todo agotado" row built from the first coincidence.
   */
  lemma PageRowsSpec(carta: string, page: Page)
    ensures (exists i :: 0 <= i < |page| && Raises(page[i])) ==> PageRows(carta, page) == [ErrorRow(carta)]
    ensures (forall i :: 0 <= i < |page| ==> !Raises(page[i])) ==>
              var k := FirstIndex(page, IsCoincidenceOf(carta));
              var avail := FilterMap(page, AvailableMatch(carta));
              PageRows(carta, page) ==
                if k == |page| then [NotFoundRow(carta)]
                else if |avail| > 0 then avail
                else [Row(carta, Strip(page[k].title.value.text), "Agotado", Site + page[k].title.value.href.value, "Todo agotado")]
  {
    if forall i :: 0 <= i < |page| ==> !Raises(page[i]) {
      CleanPageRows(carta, page);
    }
  }

  /** `PageRowsSpec` for a page on which no product raises. */
  lemma CleanPageRows(carta: string, page: Page)
    requires forall i :: 0 <= i < |page| ==> !Raises(page[i])
    ensures var k := FirstIndex(page, IsCoincidenceOf(carta));
            var avail := FilterMap(page, AvailableMatch(carta));
            PageRows(carta, page) ==
              if k == |page| then [NotFoundRow(carta)]
              else if |avail| > 0 then avail
              else [Row(carta, Strip(page[k].title.value.text), "Agotado", Site + page[k].title.value.href.value, "Todo agotado")]
  {
    if |page| > 0 {
      var cs := FilterMap(page, Coincidence(carta));
      FilterMapHead(page, Coincidence(carta), IsCoincidenceOf(carta));
      FilterMapCompose(page, Coincidence(carta), WithState("Disponible"), AvailableMatch(carta));
      if |cs| > 0 && |FilterMap(cs, WithState("Disponible"))| == 0 {
        CoincidenceStates(carta, page);
        AllSoldOut(cs);
      }
    }
  }

  /** Every coincidence row is either available or sold out. */
  lemma CoincidenceStates(carta: string, page: Page)
    ensures forall r :: r in FilterMap(page, Coincidence(carta)) ==> r.state == "Agotado" || r.state == "Disponible"
  {
    forall r | r in FilterMap(page, Coincidence(carta)) ensures r.state == "Agotado" || r.state == "Disponible" {
      FilterMapIn(page, Coincidence(carta), r);
    }
  }

  /** With no available coincidence, the first coincidence is the first sold-out one. */
  lemma AllSoldOut(cs: seq<Row>)
    requires |cs| > 0 && forall r :: r in cs ==> r.state == "Agotado" || r.state == "Disponible"
    requires |FilterMap(cs, WithState("Disponible"))| == 0
    ensures |FilterMap(cs, WithState("Agotado"))| > 0 && FilterMap(cs, WithState("Agotado"))[0] == cs[0]
  {
    FilterMapHead(cs, WithState("Agotado"), HasState("Agotado"));
    if cs[0].state != "Agotado" {
      FilterMapHas(cs, WithState("Disponible"), 0);
    }
  }

  // ---------------------------------------------------------------
  // The run over the cards
  // ---------------------------------------------------------------

  /**
   * One card as written: after the third failure the "Error" row is added,
   * and then the page of whatever response the script holds is processed
   * as well (with no response at all, the `NameError` gives a second
   * "Error" row).
   */
  function CardAsWritten(carta: string, att: nat -> Attempt<Page>, held: Option<Response>): (Option<Response>, seq<Row>) {
    var r := Retry(att, 0, held);
    match r.ending
    case Throttled => (r.last, [])
    case Got => (r.last, PageRows(carta, r.last.value.page))
    case GaveUp =>
      (r.last, [ErrorRow(carta)] + if r.last.None? then [ErrorRow(carta)] else PageRows(carta, r.last.value.page))
  }

  /** One card as intended: the third failure gives the "Error" row and the run moves on. */
  function CardRows(carta: string, att: nat -> Attempt<Page>): seq<Row> {
    var r := Retry(att, 0, None);
    match r.ending
    case Throttled => []
    case Got => PageRows(carta, r.last.value.page)
    case GaveUp => [ErrorRow(carta)]
  }

  /** The cards from `i` on as written; `held` is the response left by the earlier cards. */
  function RunAsWritten(cartas: seq<string>, att: nat -> nat -> Attempt<Page>, i: nat, held: Option<Response>): seq<Row>
    decreases |cartas| - i
  {
    if i >= |cartas| then []
    else
      var (last, rows) := CardAsWritten(cartas[i], att(i), held);
      rows + RunAsWritten(cartas, att, i + 1, last)
  }

  /** The cards from `i` on as intended. */
  function RunFrom(cartas: seq<string>, att: nat -> nat -> Attempt<Page>, i: nat): seq<Row>
    decreases |cartas| - i
  {
    if i >= |cartas| then [] else CardRows(cartas[i], att(i)) + RunFrom(cartas, att, i + 1)
  }

  /** A first card whose three requests all fail on the network: two "Error" rows as written, one as intended. */
  lemma NetworkFailureTwice()
    ensures RunAsWritten(["X"], (i: nat) => (n: nat) => Failed, 0, None) == [ErrorRow("X"), ErrorRow("X")]
    ensures RunFrom(["X"], (i: nat) => (n: nat) => Failed, 0) == [ErrorRow("X")]
  {
    var att: nat -> Attempt<Page> := (n: nat) => Failed;
    assert Retry(att, 0, None) == Retried(GaveUp, None, 3);
  }

  /** Where no card gives up, the run as written and the run as intended give the same rows. */
  lemma {:induction false} AgreeWithoutGivingUp(cartas: seq<string>, att: nat -> nat -> Attempt<Page>, i: nat, held: Option<Response>)
    requires forall j :: i <= j < |cartas| ==> Retry(att(j), 0, None).ending != GaveUp
    ensures RunAsWritten(cartas, att, i, held) == RunFrom(cartas, att, i)
    decreases |cartas| - i
  {
    if i < |cartas| {
      RetryIgnoresLast(att(i), 0, held, None);
      AgreeWithoutGivingUp(cartas, att, i + 1, Retry(att(i), 0, held).last);
    }
  }

  /**
   * Every card gives at least one row unless its third request got 429,
   * whatever the first two got, so that the loop ends through its `else`;
   * then it gives none. A card that gives up gives exactly one "Error" row.
   */
  lemma CardRowsSpec(carta: string, att: nat -> Attempt<Page>)
    ensures Retry(att, 0, None).ending == Throttled <==> CardRows(carta, att) == []
    ensures Retry(att, 0, None).ending == GaveUp ==> CardRows(carta, att) == [ErrorRow(carta)]
  {
    var r := Retry(att, 0, None);
    if r.ending == Got {
      var page := r.last.value.page;
      PageRowsSpec(carta, page);
      if |page| > 0 && forall i :: 0 <= i < |page| ==> !Raises(page[i]) {
        var cs := FilterMap(page, Coincidence(carta));
        if |cs| > 0 && |FilterMap(cs, WithState("Disponible"))| == 0 {
          CoincidenceStates(carta, page);
        AllSoldOut(cs);
        }
      }
    }
  }

  /** The page step of one card: the product loop, then the filtering. */
  method ProcessPage(carta: string, productos: Page) returns (filas: seq<Row>)
    ensures filas == PageRows(carta, productos)
  {
    if |productos| == 0 {
      return [NotFoundRow(carta)];
    }
    var coincidencias: seq<Row> := [];
    var i := 0;
    while i < |productos|
      invariant i <= |productos|
      invariant forall j :: 0 <= j < i ==> !Raises(productos[j])
      invariant coincidencias == FilterMap(productos[..i], Coincidence(carta))
    {
      var b := productos[i];
      assert productos[..i + 1][..i] == productos[..i];
      if Raises(b) {
        return [ErrorRow(carta)];
      }
      if b.title.Some? && Matches(carta, b) {
        coincidencias := coincidencias + [CoincidenceRow(carta, b)];
      }
      i := i + 1;
    }
    assert productos[..i] == productos;
    if |coincidencias| == 0 {
      return [NotFoundRow(carta)];
    }
    var disponibles := FilterMap(coincidencias, WithState("Disponible"));
    var agotados := FilterMap(coincidencias, WithState("Agotado"));
    if |disponibles| > 0 {
      filas := disponibles;
    } else if |agotados| == 0 {
      // the IndexError of `agotados[0]`, which `CoincidenceStates` rules out
      filas := [ErrorRow(carta)];
    } else {
      filas := [Row(carta, agotados[0].name, "Agotado", agotados[0].url, "Todo agotado")];
    }
  }

  /** One card of the script's loop: the request loop, then the page step when a page came back. */
  method BuscarCarta(carta: string, att: nat -> Attempt<Page>, held: Option<Response>) returns (filas: seq<Row>, response: Option<Response>)
    ensures filas == CardRows(carta, att)
    ensures response == Retry(att, 0, held).last
  {
    RetryIgnoresLast(att, 0, held, None);
    var ending, requests;
    ending, response, requests := Request(att, held);
    if ending == Throttled {
      filas := [];
    } else if ending == GaveUp {
      filas := [ErrorRow(carta)];
    } else {
      filas := ProcessPage(carta, response.value.page);
    }
  }

  /** The script's loop over the non-blank lines of the card list, as intended. */
  method BuscarTodas(lines: seq<string>, att: nat -> nat -> Attempt<Page>) returns (resultados: seq<Row>)
    ensures resultados == RunFrom(NonBlankLines(lines), att, 0)
  {
    var cartas := NonBlankLines(lines);
    ghost var total := RunFrom(cartas, att, 0);
    resultados := [];
    var response: Option<Response> := None;
    var i := 0;
    while i < |cartas|
      invariant i <= |cartas|
      invariant resultados + RunFrom(cartas, att, i) == total
    {
      var filas;
      filas, response := BuscarCarta(cartas[i], att(i), response);
      assert RunFrom(cartas, att, i) == filas + RunFrom(cartas, att, i + 1);
      AppendShift(resultados, filas, RunFrom(cartas, att, i + 1), total);
      resultados := resultados + filas;
      i := i + 1;
    }
    assert resultados + [] == resultados;
  }
}
