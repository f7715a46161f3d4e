/**
 * The card finder (buscador_cartas.py): every store adapter is asked about a
 * card, the offers are shown split into available and unavailable ones with
 * the cheapest available ones highlighted, and the best offer of each card
 * goes to the output table. In the many-cards mode the card list is
 * processed in batches, with a prompt between batches.
 *
 * The offers of one card (`buscar_en_tiendas`) are given by a function
 * `search` from the card name to the list of offers in the order the store
 * threads completed; adapters that raised are already left out of it.
 */
module BuscadorCartas {
  import opened Wrappers
  import opened Text
  import opened Seqs
  import opened Offers
  import opened Prompt

  /** `int(''.join(filter(str.isdigit, precio)))`; `None` where `int` raises (no digit at all). */
  function DigitPrice(precio: string): (p: Option<nat>)
    ensures p.Some? <==> DigitsOf(precio) != []
  {
    var d := DigitsOf(precio);
    if d == [] then None else Some(NatValue(d))
  }

  // ---------------------------------------------------------------
  // obtener_mejor_precio
  // ---------------------------------------------------------------

  /** A result the best-price filter keeps: in stock and with a price. */
  predicate IsCandidate(r: Offer) {
    r.Record? && r.available == Yes && r.price != "-"
  }

  /** A kept result whose price has no digit: the `min` key raises on it. */
  predicate Unpriced(r: Offer) {
    IsCandidate(r) && DigitsOf(r.price) == []
  }

  function Candidate(): Offer -> Option<Offer> {
    (r: Offer) => CandidateOf(r)
  }

  function CandidateOf(r: Offer): Option<Offer> {
    if IsCandidate(r) then Some(r) else None
  }

  /** The `min` key: the number made of the digits of the price. */
  function PriceKey(): Offer -> int {
    (r: Offer) => PriceKeyOf(r)
  }

  function PriceKeyOf(r: Offer): int {
    if r.Record? then NatValue(DigitsOf(r.price)) else 0
  }

  /**
   * `obtener_mejor_precio(resultados)`: `Err` where it raises (the empty
   * dict has no "Disponible" key; a kept price without digits breaks the
   * key), `None` without candidates, else the first candidate of least key.
   */
  function BestOffer(rs: seq<Offer>): (b: Result<Option<Offer>, ()>)
    ensures b.Ok? && b.value.Some? ==> IsCandidate(b.value.value)
  {
    if EmptyDict in rs then Err(())
    else
      var cs := FilterMap(rs, Candidate());
      if |cs| == 0 then Ok(None)
      else if exists c :: c in cs && Unpriced(c) then Err(())
      else
        var o := cs[ArgMin(cs, PriceKey())];
        FilterMapIn(rs, Candidate(), o);
        Ok(Some(o))
  }

  /** The search crashes exactly on the empty dict or on a kept price without digits. */
  lemma BestOfferErr(rs: seq<Offer>)
    ensures BestOffer(rs).Err? <==> EmptyDict in rs || exists r :: r in rs && Unpriced(r)
  {
    var cs := FilterMap(rs, Candidate());
    if exists r :: r in rs && Unpriced(r) {
      var r :| r in rs && Unpriced(r);
      var i :| 0 <= i < |rs| && rs[i] == r;
      FilterMapHas(rs, Candidate(), i);
    }
    if exists c :: c in cs && Unpriced(c) {
      var c :| c in cs && Unpriced(c);
      FilterMapIn(rs, Candidate(), c);
    }
  }

  /** There is no best offer exactly when no result is a candidate (and nothing raises). */
  lemma BestOfferNone(rs: seq<Offer>)
    ensures BestOffer(rs) == Ok(None) <==> EmptyDict !in rs && forall r :: r in rs ==> !IsCandidate(r)
  {
    var cs := FilterMap(rs, Candidate());
    if exists r :: r in rs && IsCandidate(r) {
      var r :| r in rs && IsCandidate(r);
      var i :| 0 <= i < |rs| && rs[i] == r;
      FilterMapHas(rs, Candidate(), i);
    }
    if |cs| > 0 {
      FilterMapIn(rs, Candidate(), cs[0]);
    }
  }

  /**
   * The best offer is a candidate result whose digit price is at most that of
   * every candidate, and strictly below that of every earlier candidate.
   */
  lemma BestOfferSome(rs: seq<Offer>, o: Offer)
    requires BestOffer(rs) == Ok(Some(o))
    ensures IsCandidate(o) && DigitPrice(o.price).Some?
    ensures forall r :: r in rs && IsCandidate(r) ==>
              DigitPrice(r.price).Some? && DigitPrice(o.price).value <= DigitPrice(r.price).value
    ensures exists k :: 0 <= k < |rs| && rs[k] == o &&
              forall j :: 0 <= j < k && IsCandidate(rs[j]) ==> DigitPrice(o.price).value < DigitPrice(rs[j].price).value
  {
    BestOfferLowest(rs, o);
    BestOfferFirst(rs, o);
  }

  lemma BestOfferLowest(rs: seq<Offer>, o: Offer)
    requires BestOffer(rs) == Ok(Some(o))
    ensures DigitPrice(o.price).Some?
    ensures forall r :: r in rs && IsCandidate(r) ==>
              DigitPrice(r.price).Some? && DigitPrice(o.price).value <= DigitPrice(r.price).value
  {
    var cs := FilterMap(rs, Candidate());
    var m := ArgMin(cs, PriceKey());
    assert o == cs[m];
    FilterMapIn(rs, Candidate(), o);
    forall r | r in rs && IsCandidate(r)
      ensures DigitPrice(r.price).Some? && DigitPrice(o.price).value <= DigitPrice(r.price).value
    {
      var i :| 0 <= i < |rs| && rs[i] == r;
      FilterMapHas(rs, Candidate(), i);
      var n :| 0 <= n < |cs| && cs[n] == r;
      assert PriceKey()(o) <= PriceKey()(cs[n]);
    }
  }

  lemma BestOfferFirst(rs: seq<Offer>, o: Offer)
    requires BestOffer(rs) == Ok(Some(o))
    ensures exists k :: 0 <= k < |rs| && rs[k] == o &&
              forall j :: 0 <= j < k && IsCandidate(rs[j]) ==> PriceKeyOf(o) < PriceKeyOf(rs[j])
  {
    var cs := FilterMap(rs, Candidate());
    var m := ArgMin(cs, PriceKey());
    assert o == cs[m];
    FilterMapOrigin(rs, Candidate(), m);
    var k :| 0 <= k < |rs| && Candidate()(rs[k]) == Some(cs[m])
             && forall j :: 0 <= j < k && Candidate()(rs[j]).Some? ==> Candidate()(rs[j]).value in cs[..m];
    forall j | 0 <= j < k && IsCandidate(rs[j])
      ensures PriceKeyOf(o) < PriceKeyOf(rs[j])
    {
      assert Candidate()(rs[j]).Some?;
      EarlierCostsMore(cs, m, rs[j]);
    }
  }

  lemma EarlierCostsMore(cs: seq<Offer>, m: nat, r: Offer)
    requires cs != [] && m == ArgMin(cs, PriceKey())
    requires r in cs[..m]
    ensures PriceKeyOf(cs[m]) < PriceKeyOf(r)
  {
    var n :| 0 <= n < m && cs[..m][n] == r;
    assert PriceKey()(cs[m]) < PriceKey()(cs[n]);
  }

  // ---------------------------------------------------------------
  // mostrar_resultados
  // ---------------------------------------------------------------

  /** What is printed: the available results with their highlight marks, then the unavailable ones. */
  datatype Display = Display(shown: seq<Offer>, marked: seq<bool>, unavailable: seq<Offer>)

  /** `r['Disponible'] == "Sí"` */
  predicate IsAvailable(r: Offer) {
    r.Record? && r.available == Yes
  }

  predicate IsUnavailable(r: Offer) {
    !IsAvailable(r)
  }

  function Avail(): Offer -> Option<Offer> {
    (r: Offer) => AvailOf(r)
  }

  function AvailOf(r: Offer): Option<Offer> {
    if IsAvailable(r) then Some(r) else None
  }

  function Unavail(): Offer -> Option<Offer> {
    (r: Offer) => UnavailOf(r)
  }

  function UnavailOf(r: Offer): Option<Offer> {
    if IsUnavailable(r) then Some(r) else None
  }

  /** `precio_num`: `None` stands for `float('inf')`; `Err` where `int` raises. */
  function ShowKey(): Offer -> Result<Option<nat>, ()> {
    (r: Offer) => ShowKeyOf(r)
  }

  function ShowKeyOf(r: Offer): Result<Option<nat>, ()> {
    if r.EmptyDict? then Err(())
    else if r.price == "-" then Ok(None)
    else match DigitPrice(r.price)
      case None => Err(())
      case Some(v) => Ok(Some(v))
  }

  /** `a <= b` where `None` is infinity. */
  predicate KeyLe(a: Option<nat>, b: Option<nat>) {
    b.None? || (a.Some? && a.value <= b.value)
  }

  /** `min(precios)` with `None` as infinity (infinity for an empty list). */
  function MinKey(ks: seq<Option<nat>>): (m: Option<nat>)
    ensures |ks| > 0 ==> m in ks
    ensures forall k :: k in ks ==> KeyLe(m, k)
  {
    if |ks| == 0 then None
    else
      var rest := MinKey(ks[1..]);
      assert forall k :: k in ks ==> k == ks[0] || k in ks[1..];
      if KeyLe(ks[0], rest) then ks[0] else rest
  }

  /** The price key of a shown result, with infinity for "-" or the empty dict. */
  function Key(r: Offer): Option<nat> {
    if r.Record? && r.price != "-" then DigitPrice(r.price) else None
  }

  /**
   * `mostrar_resultados(resultados)`: `Err` where it raises, else the
   * display; a result is marked when its key equals the least key.
   */
  function Shown(rs: seq<Offer>): Result<Display, ()> {
    if |rs| == 0 then Ok(Display([], [], []))
    else if EmptyDict in rs then Err(())
    else
      var d := FilterMap(rs, Avail());
      var u := FilterMap(rs, Unavail());
      if |d| == 0 then Ok(Display([], [], u))
      else match TryMap(d, ShowKey())
        case Err(_) => Err(())
        case Ok(ks) =>
          var m := MinKey(ks);
          Ok(Display(d, seq(|ks|, i requires 0 <= i < |ks| => ks[i] == m), u))
  }

  /** Showing crashes exactly when the search does: on the empty dict or on an available price without digits. */
  lemma ShownErr(rs: seq<Offer>)
    ensures Shown(rs).Err? <==> EmptyDict in rs || exists r :: r in rs && Unpriced(r)
  {
    if |rs| > 0 && EmptyDict !in rs {
      var d := FilterMap(rs, Avail());
      TryMapSpec(d, ShowKey());
      if exists r :: r in rs && Unpriced(r) {
        var r :| r in rs && Unpriced(r);
        var i :| 0 <= i < |rs| && rs[i] == r;
        FilterMapHas(rs, Avail(), i);
        var n :| 0 <= n < |d| && d[n] == r;
        assert ShowKey()(d[n]).Err?;
      }
      if exists n :: 0 <= n < |d| && ShowKey()(d[n]).Err? {
        var n :| 0 <= n < |d| && ShowKey()(d[n]).Err?;
        assert d[n] in d;
        FilterMapIn(rs, Avail(), d[n]);
        var i :| 0 <= i < |rs| && Avail()(rs[i]) == Some(d[n]);
        assert rs[i] == d[n] && Unpriced(rs[i]);
      }
    }
  }

  /** Every result is shown in exactly one group: the available ones and the others. */
  lemma ShownPartition(rs: seq<Offer>)
    requires Shown(rs).Ok?
    ensures var v := Shown(rs).value;
            multiset(v.shown) + multiset(v.unavailable) == multiset(rs)
            && (forall r :: r in v.shown <==> r in rs && IsAvailable(r))
            && (forall r :: r in v.unavailable <==> r in rs && !IsAvailable(r))
  {
    if |rs| > 0 {
      var d := FilterMap(rs, Avail());
      var u := FilterMap(rs, Unavail());
      FilterMapSplit(rs, Avail(), Unavail());
      FilterMapKeeps(rs, Avail(), IsAvailable);
      FilterMapKeeps(rs, Unavail(), IsUnavailable);
    }
  }

  /**
   * One mark per available result, set exactly on the results whose key is
   * the least one; a "-" price counts as infinity.
   */
  lemma ShownMarks(rs: seq<Offer>)
    requires Shown(rs).Ok?
    ensures var v := Shown(rs).value;
            |v.marked| == |v.shown|
            && forall i :: 0 <= i < |v.shown| ==>
                 (v.marked[i] <==> forall j :: 0 <= j < |v.shown| ==> KeyLe(Key(v.shown[i]), Key(v.shown[j])))
  {
    if |rs| > 0 && |FilterMap(rs, Avail())| > 0 {
      var d := FilterMap(rs, Avail());
      TryMapSpec(d, ShowKey());
      var ks := TryMap(d, ShowKey()).value;
      var m := MinKey(ks);
      forall j | 0 <= j < |d| ensures ks[j] == Key(d[j]) {
        assert ShowKey()(d[j]).Ok?;
      }
      forall i | 0 <= i < |d|
        ensures ks[i] == m <==> forall j :: 0 <= j < |d| ==> KeyLe(ks[i], ks[j])
      {
        if forall j :: 0 <= j < |d| ==> KeyLe(ks[i], ks[j]) {
          var n :| 0 <= n < |ks| && ks[n] == m;
          assert KeyLe(ks[i], ks[n]) && KeyLe(m, ks[i]);
        } else {
          assert ks[i] != m by {
            forall j | 0 <= j < |d| ensures KeyLe(m, ks[j]) {
              assert ks[j] in ks;
            }
          }
        }
      }
    }
  }

  /** `mostrar_resultados`: the two comprehensions, the loop over the prices, `min`, and the marking loop. */
  method MostrarResultados(resultados: seq<Offer>) returns (pantalla: Result<Display, ()>)
    ensures pantalla == Shown(resultados)
  {
    if |resultados| == 0 {
      return Ok(Display([], [], []));
    }
    if EmptyDict in resultados {
      return Err(());
    }
    var disponibles := FilterMap(resultados, Avail());
    var noDisponibles := FilterMap(resultados, Unavail());
    if |disponibles| == 0 {
      return Ok(Display([], [], noDisponibles));
    }
    var precios: seq<Option<nat>> := [];
    var i := 0;
    while i < |disponibles|
      invariant i <= |disponibles|
      invariant TryMap(disponibles[..i], ShowKey()) == Ok(precios)
    {
      var precioNum := ShowKey()(disponibles[i]);
      TryMapNext(disponibles, i, ShowKey());
      if precioNum.Err? {
        TryMapErr(disponibles, i + 1, ShowKey());
        return Err(());
      }
      precios := precios + [precioNum.value];
      i := i + 1;
    }
    assert TryMap(disponibles, ShowKey()) == Ok(precios) && |precios| == |disponibles| by {
      assert disponibles[..i] == disponibles;
      TryMapSpec(disponibles, ShowKey());
    }
    var precioMin := MinKey(precios);
    var marcas: seq<bool> := [];
    i := 0;
    while i < |disponibles|
      invariant i <= |disponibles|
      invariant |marcas| == i && forall j :: 0 <= j < i ==> marcas[j] == (precios[j] == precioMin)
    {
      marcas := marcas + [precios[i] == precioMin];
      i := i + 1;
    }
    assert marcas == seq(|precios|, j requires 0 <= j < |precios| => precios[j] == precioMin);
    pantalla := Ok(Display(disponibles, marcas, noDisponibles));
  }

  /** The display and the best-price search fail together, and the best offer is one of the highlighted results. */
  lemma BestIsMarked(rs: seq<Offer>, o: Offer)
    ensures Shown(rs).Err? <==> BestOffer(rs).Err?
    ensures BestOffer(rs) == Ok(Some(o)) ==>
              Shown(rs).Ok? && exists i :: 0 <= i < |Shown(rs).value.shown| && i < |Shown(rs).value.marked|
                                           && Shown(rs).value.shown[i] == o && Shown(rs).value.marked[i]
  {
    ShownErr(rs);
    BestOfferErr(rs);
    if BestOffer(rs) == Ok(Some(o)) {
      BestMarked(rs, o);
    }
  }

  /** The best offer is shown, and marked. */
  lemma BestMarked(rs: seq<Offer>, o: Offer)
    requires Shown(rs).Ok? && BestOffer(rs) == Ok(Some(o))
    ensures exists i :: 0 <= i < |Shown(rs).value.shown| && i < |Shown(rs).value.marked|
                        && Shown(rs).value.shown[i] == o && Shown(rs).value.marked[i]
  {
    var v := Shown(rs).value;
    assert o in v.shown && forall r :: r in v.shown ==> KeyLe(Key(o), Key(r)) by {
      BestOfferSome(rs, o);
      ShownPartition(rs);
    }
    var i :| 0 <= i < |v.shown| && v.shown[i] == o;
    assert i < |v.marked| && v.marked[i] by {
      ShownMarks(rs);
      forall j | 0 <= j < |v.shown| ensures KeyLe(Key(o), Key(v.shown[j])) {
        assert v.shown[j] in v.shown;
      }
    }
  }

  // ---------------------------------------------------------------
  // The many-cards mode
  // ---------------------------------------------------------------

  /** A row of the output table: "Nombre de la carta", "Tienda", "Precio", "URL". */
  datatype Row = Row(card: string, store: string, price: string, url: string)

  /** One card of a batch: show the offers, then keep the best one as a row; `Err` where either raises. */
  function CardRows(search: string -> seq<Offer>): string -> Result<Option<Row>, ()> {
    (carta: string) => CardRowOf(search, carta)
  }

  function CardRowOf(search: string -> seq<Offer>, carta: string): Result<Option<Row>, ()> {
    var rs := search(carta);
    if Shown(rs).Err? then Err(())
    else match BestOffer(rs)
      case Err(_) => Err(())
      case Ok(None) => Ok(None)
      case Ok(Some(o)) => Ok(Some(Row(carta, o.store, o.price, o.url)))
  }

  /** A card gives a row exactly when it has a best offer, and the row is that offer's. */
  lemma CardRowsSpec(search: string -> seq<Offer>, carta: string)
    ensures CardRows(search)(carta).Err? <==> BestOffer(search(carta)).Err?
    ensures CardRows(search)(carta) == Ok(None) <==> BestOffer(search(carta)) == Ok(None)
    ensures CardRows(search)(carta).Ok? && CardRows(search)(carta).value.Some? ==>
              var row := CardRows(search)(carta).value.value;
              row.card == carta
              && exists r :: r in search(carta) && IsCandidate(r) && r.store == row.store && r.price == row.price && r.url == row.url
  {
    var rs := search(carta);
    BestIsMarked(rs, EmptyDict);
    if BestOffer(rs).Ok? && BestOffer(rs).value.Some? {
      var o := BestOffer(rs).value.value;
      BestOfferSome(rs, o);
    }
  }

  /** `cartas[i:i+batch_size]` for `i` in `range(start, len(cartas), batch_size)`. */
  function BatchesFrom(cartas: seq<string>, b: nat, start: nat): seq<seq<string>>
    requires b > 0
    decreases |cartas| - start
  {
    if start >= |cartas| then []
    else [cartas[start..if start + b <= |cartas| then start + b else |cartas|]] + BatchesFrom(cartas, b, start + b)
  }

  /**
   * The batches cover the cards from `start` on, in order: none is empty,
   * none is longer than `b`, and all but the last have exactly `b` cards.
   */
  lemma {:induction false} BatchesPartition(cartas: seq<string>, b: nat, start: nat)
    requires b > 0 && start <= |cartas|
    ensures Flatten(BatchesFrom(cartas, b, start)) == cartas[start..]
    ensures forall k :: 0 <= k < |BatchesFrom(cartas, b, start)| ==> 0 < |BatchesFrom(cartas, b, start)[k]| <= b
    ensures forall k :: 0 <= k < |BatchesFrom(cartas, b, start)| - 1 ==> |BatchesFrom(cartas, b, start)[k]| == b
    decreases |cartas| - start
  {
    var bs := BatchesFrom(cartas, b, start);
    if start == |cartas| {
      assert cartas[start..] == [];
    } else if start + b >= |cartas| {
      assert bs == [cartas[start..]] by {
        assert BatchesFrom(cartas, b, start + b) == [];
        assert cartas[start..if start + b <= |cartas| then start + b else |cartas|] == cartas[start..];
      }
      assert Flatten(bs) == Flatten(bs[..0]) + cartas[start..];
    } else {
      var first := cartas[start..start + b];
      var rest := BatchesFrom(cartas, b, start + b);
      BatchesPartition(cartas, b, start + b);
      assert bs == [first] + rest;
      assert Flatten(bs) == cartas[start..] by {
        FlattenCons(bs);
        assert bs[1..] == rest;
        assert cartas[start..] == first + cartas[start + b..];
      }
      assert (forall k :: 0 <= k < |bs| ==> 0 < |bs[k]| <= b) && (forall k :: 0 <= k < |bs| - 1 ==> |bs[k]| == b) by {
        assert forall k :: 0 < k < |bs| ==> bs[k] == rest[k - 1];
      }
    }
  }

  /** `.strip().upper()` read as "S" (continue) or "N" (stop); the long s also upper-cases to "S". */
  function ContinueParse(): string -> Option<bool> {
    (reply: string) => ContinueOf(reply)
  }

  function ContinueOf(reply: string): Option<bool> {
    var t := Strip(reply);
    if t == "S" || t == "s" || t == "\U{17f}" then Some(true)
    else if t == "N" || t == "n" then Some(false)
    else None
  }

  /** How the many-cards run ends: normally, by an "N" at a prompt, or by an exception. */
  datatype Run = Completed(rows: seq<Row>) | Stopped(rows: seq<Row>) | Crashed

  /** The table file is written, at the end or on "N", only when it has rows. */
  function Written(run: Run): seq<Row> {
    if run.Crashed? then [] else run.rows
  }

  /**
   * The batch loop over the batches still to do, with the rows `acc`
   * gathered so far: a batch is processed card by card, and between two
   * batches the continue prompt reads the replies.
   */
  function Go(bs: seq<seq<string>>, rowsOf: string -> Result<Option<Row>, ()>, replies: seq<string>, acc: seq<Row>): Run
    decreases |bs|
  {
    if |bs| == 0 then Completed(acc)
    else match TryFilterMap(bs[0], rowsOf)
      case Err(_) => Crashed
      case Ok(ys) =>
        if |bs| == 1 then Completed(acc + ys)
        else
          var k := FirstAccepted(replies, ContinueParse());
          if k == |replies| then Crashed
          else if ContinueParse()(replies[k]) == Some(false) then Stopped(acc + ys)
          else Go(bs[1..], rowsOf, replies[k + 1..], acc + ys)
  }

  /** A run that completes has gone through every card, and its rows are the cards' rows in order. */
  lemma {:induction false} GoCompleted(bs: seq<seq<string>>, f: string -> Result<Option<Row>, ()>, replies: seq<string>, acc: seq<Row>)
    requires Go(bs, f, replies, acc).Completed?
    ensures TryFilterMap(Flatten(bs), f).Ok?
    ensures Go(bs, f, replies, acc).rows == acc + TryFilterMap(Flatten(bs), f).value
    decreases |bs|
  {
    if |bs| == 0 {
      assert acc + [] == acc;
    } else {
      var ys := TryFilterMap(bs[0], f).value;
      FlattenCons(bs);
      if |bs| == 1 {
        assert Flatten(bs) == bs[0] by {
          assert bs[1..] == [];
        }
      } else {
        var rest := replies[FirstAccepted(replies, ContinueParse()) + 1..];
        assert Go(bs, f, replies, acc) == Go(bs[1..], f, rest, acc + ys);
        GoCompleted(bs[1..], f, rest, acc + ys);
        TryFilterMapAppend(bs[0], Flatten(bs[1..]), f);
        AppendAssoc(acc, ys, TryFilterMap(Flatten(bs[1..]), f).value);
      }
    }
  }

  /** The batch loop at card `i` when the batch raises. */
  lemma GoStepErr(cartas: seq<string>, b: nat, i: nat, f: string -> Result<Option<Row>, ()>, rest: seq<string>, datos: seq<Row>)
    requires b > 0 && i < |cartas|
    requires TryFilterMap(cartas[i..if i + b <= |cartas| then i + b else |cartas|], f).Err?
    ensures Go(BatchesFrom(cartas, b, i), f, rest, datos) == Crashed
  {
  }

  /** The batch loop at card `i` when the batch is the last one. */
  lemma GoStepLast(cartas: seq<string>, b: nat, i: nat, f: string -> Result<Option<Row>, ()>, rest: seq<string>, datos: seq<Row>)
    requires b > 0 && i < |cartas| <= i + b
    requires TryFilterMap(cartas[i..], f).Ok?
    ensures Go(BatchesFrom(cartas, b, i), f, rest, datos) == Completed(datos + TryFilterMap(cartas[i..], f).value)
  {
    assert BatchesFrom(cartas, b, i + b) == [];
    assert cartas[i..if i + b <= |cartas| then i + b else |cartas|] == cartas[i..];
  }

  /** The batch loop at card `i` when more batches follow: the continue prompt decides. */
  lemma GoStepPrompt(cartas: seq<string>, b: nat, i: nat, f: string -> Result<Option<Row>, ()>, rest: seq<string>, datos: seq<Row>, ys: seq<Row>)
    requires b > 0 && i + b < |cartas|
    requires TryFilterMap(cartas[i..i + b], f) == Ok(ys)
    ensures var k := FirstAccepted(rest, ContinueParse());
            Go(BatchesFrom(cartas, b, i), f, rest, datos)
            == if k == |rest| then Crashed
               else if ContinueOf(rest[k]) == Some(false) then Stopped(datos + ys)
               else Go(BatchesFrom(cartas, b, i + b), f, rest[k + 1..], datos + ys)
  {
    var bs := BatchesFrom(cartas, b, i);
    assert bs[1..] == BatchesFrom(cartas, b, i + b);
  }

  /**
   * The continue prompt between two batches: it returns what the user
   * chose (`None` when the replies run out) and the replies left, and
   * the run goes on from the next batch with those replies.
   */
  method AskContinue(ghost cartas: seq<string>, ghost b: nat, ghost i: nat, ghost next: nat, ghost f: string -> Result<Option<Row>, ()>,
                     rest: seq<string>, ghost datos: seq<Row>, ghost ys: seq<Row>) returns (continuar: Option<bool>, left: seq<string>)
    requires b > 0 && next == i + b < |cartas|
    requires TryFilterMap(cartas[i..next], f) == Ok(ys)
    ensures continuar == Asked(rest, ContinueParse())
    ensures continuar.None? ==> Go(BatchesFrom(cartas, b, i), f, rest, datos) == Crashed
    ensures continuar == Some(false) ==> Go(BatchesFrom(cartas, b, i), f, rest, datos) == Stopped(datos + ys)
    ensures continuar == Some(true) ==>
              Go(BatchesFrom(cartas, b, i), f, rest, datos) == Go(BatchesFrom(cartas, b, next), f, left, datos + ys)
  {
    var used;
    continuar, used := Ask(rest, ContinueParse());
    GoStepPrompt(cartas, b, i, f, rest, datos, ys);
    left := if used <= |rest| then rest[used..] else [];
  }

  /** One batch, card by card: `Err` as soon as a card raises. */
  method ProcessBatch(batch: seq<string>, search: string -> seq<Offer>) returns (filas: Result<seq<Row>, ()>)
    ensures filas == TryFilterMap(batch, CardRows(search))
  {
    var datos: seq<Row> := [];
    var i := 0;
    while i < |batch|
      invariant i <= |batch|
      invariant TryFilterMap(batch[..i], CardRows(search)) == Ok(datos)
    {
      var carta := batch[i];
      var pantalla := MostrarResultados(search(carta));
      var fila := CardRows(search)(carta);
      TryFilterMapNext(batch, i, CardRows(search));
      if fila.Err? {
        TryFilterMapErr(batch, i + 1, CardRows(search));
        return Err(());
      }
      datos := datos + if fila.value.Some? then [fila.value.value] else [];
      i := i + 1;
    }
    assert batch[..i] == batch;
    filas := Ok(datos);
  }

  /**
   * `for i in range(0, len(cartas), batch_size)`: each batch, then the
   * continue prompt when `batch_size != len(cartas) and i + batch_size < len(cartas)`.
   */
  method RunBatches(cartas: seq<string>, b: nat, search: string -> seq<Offer>, replies: seq<string>) returns (run: Run)
    requires b > 0
    ensures run == Go(BatchesFrom(cartas, b, 0), CardRows(search), replies, [])
  {
    ghost var total := Go(BatchesFrom(cartas, b, 0), CardRows(search), replies, []);
    var datos: seq<Row> := [];
    var rest := replies;
    var i := 0;
    while i < |cartas|
      invariant b == |cartas| ==> i == 0
      invariant total == Go(BatchesFrom(cartas, b, i), CardRows(search), rest, datos)
      decreases |cartas| - i
    {
      var batch := cartas[i..if i + b <= |cartas| then i + b else |cartas|];
      var filas := ProcessBatch(batch, search);
      if filas.Err? {
        GoStepErr(cartas, b, i, CardRows(search), rest, datos);
        return Crashed;
      }
      if b != |cartas| && i + b < |cartas| {
        var next := i + b;
        assert batch == cartas[i..next];
        var continuar, left := AskContinue(cartas, b, i, next, CardRows(search), rest, datos, filas.value);
        datos := datos + filas.value;
        if continuar.None? {
          return Crashed;
        }
        if !continuar.value {
          return Stopped(datos);
        }
        rest := left;
        i := next;
      } else {
        assert batch == cartas[i..];
        GoStepLast(cartas, b, i, CardRows(search), rest, datos);
        return Completed(datos + filas.value);
      }
    }
    run := Completed(datos);
  }

  /**
   * The batch-size prompt for `n` cards: "-" is all of them, a positive
   * decimal number is used as given, anything else is asked again.
   */
  function BatchSizeParse(n: nat): string -> Option<nat> {
    (reply: string) => BatchSizeOf(n, reply)
  }

  function BatchSizeOf(n: nat, reply: string): Option<nat> {
    var t := Strip(reply);
    if t == "-" then Some(n)
    else if IsDecimal(t) && NatValue(t) > 0 then Some(NatValue(t))
    else None
  }

  /** An accepted batch size is `n` for "-" and otherwise the positive number typed; it is zero only with no cards. */
  lemma BatchSizeSpec(n: nat, reply: string)
    ensures BatchSizeParse(n)(reply).Some? <==> Strip(reply) == "-" || (IsDecimal(Strip(reply)) && NatValue(Strip(reply)) > 0)
    ensures BatchSizeParse(n)(reply).Some? && Strip(reply) != "-" ==> BatchSizeParse(n)(reply).value > 0
  {
    assert !IsDigit("-"[0]);
  }

  /**
   * The many-cards mode as written, over the file's lines, with `rowsOf`
   * the work on one card (`CardRows(search)`): a zero batch size makes
   * `range` raise.
   */
  function ManyAsWritten(lines: seq<string>, rowsOf: string -> Result<Option<Row>, ()>, replies: seq<string>): Run {
    var cartas := NonBlankLines(lines);
    var parse := BatchSizeParse(|cartas|);
    match Asked(replies, parse)
    case None => Crashed
    case Some(b) => if b == 0 then Crashed else Batched(cartas, b, rowsOf, replies[FirstAccepted(replies, parse) + 1..])
  }

  /** The batch loop with batch size `b`; with no card there is nothing to do. */
  function Batched(cartas: seq<string>, b: nat, rowsOf: string -> Result<Option<Row>, ()>, rest: seq<string>): Run {
    if b == 0 then Completed([]) else Go(BatchesFrom(cartas, b, 0), rowsOf, rest, [])
  }

  /** The many-cards mode as intended: an empty card list is a run with nothing to do. */
  function ManyIntended(lines: seq<string>, rowsOf: string -> Result<Option<Row>, ()>, replies: seq<string>): Run {
    var cartas := NonBlankLines(lines);
    var parse := BatchSizeParse(|cartas|);
    match Asked(replies, parse)
    case None => Crashed
    case Some(b) => Batched(cartas, b, rowsOf, replies[FirstAccepted(replies, parse) + 1..])
  }

  /** An empty card file with the reply "-" crashes as written, where nothing was to be done. */
  lemma EmptyListCrashes(rowsOf: string -> Result<Option<Row>, ()>)
    ensures ManyAsWritten([], rowsOf, ["-"]) == Crashed
    ensures ManyIntended([], rowsOf, ["-"]) == Completed([])
  {
    assert Strip("-") == "-";
    assert FirstAccepted(["-"], BatchSizeParse(0)) == 0;
    assert Asked(["-"], BatchSizeParse(0)) == Some(0);
  }

  /** A zero batch size comes only from "-" with no cards. */
  lemma BatchSizeZero(n: nat, reply: string)
    ensures BatchSizeParse(n)(reply) == Some(0) ==> n == 0
  {
  }

  /** With at least one card the two agree. */
  lemma ManyAgree(lines: seq<string>, rowsOf: string -> Result<Option<Row>, ()>, replies: seq<string>)
    requires |NonBlankLines(lines)| > 0
    ensures ManyAsWritten(lines, rowsOf, replies) == ManyIntended(lines, rowsOf, replies)
  {
    var n := |NonBlankLines(lines)|;
    var k := FirstAccepted(replies, BatchSizeParse(n));
    if k < |replies| {
      BatchSizeZero(n, replies[k]);
      assert Asked(replies, BatchSizeParse(n)) == BatchSizeParse(n)(replies[k]);
    }
  }

  /** A completed run holds the rows of every card of the file that has a best offer, in file order. */
  lemma {:induction false} ManyCompleted(lines: seq<string>, rowsOf: string -> Result<Option<Row>, ()>, replies: seq<string>)
    requires ManyIntended(lines, rowsOf, replies).Completed?
    ensures TryFilterMap(NonBlankLines(lines), rowsOf).Ok?
    ensures ManyIntended(lines, rowsOf, replies).rows == TryFilterMap(NonBlankLines(lines), rowsOf).value
  {
    var cartas := NonBlankLines(lines);
    var parse := BatchSizeParse(|cartas|);
    var k := FirstAccepted(replies, parse);
    assert Asked(replies, parse) == parse(replies[k]);
    BatchSizeZero(|cartas|, replies[k]);
    AskedCompleted(cartas, parse, rowsOf, replies);
  }

  /** The prompt, then the batches: when the run completes, every card has been through `rowsOf`. */
  lemma {:induction false} AskedCompleted(cartas: seq<string>, parse: string -> Option<nat>, rowsOf: string -> Result<Option<Row>, ()>, replies: seq<string>)
    requires Asked(replies, parse).Some?
    requires Asked(replies, parse) == Some(0) ==> cartas == []
    requires Batched(cartas, Asked(replies, parse).value, rowsOf, replies[FirstAccepted(replies, parse) + 1..]).Completed?
    ensures TryFilterMap(cartas, rowsOf).Ok?
    ensures Batched(cartas, Asked(replies, parse).value, rowsOf, replies[FirstAccepted(replies, parse) + 1..]).rows
            == TryFilterMap(cartas, rowsOf).value
  {
    var k := FirstAccepted(replies, parse);
    BatchesCompleted(cartas, Asked(replies, parse).value, rowsOf, replies[k + 1..]);
  }

  /** A completed batch loop over `cartas` yields the rows of all of them, in order. */
  lemma {:induction false} BatchesCompleted(cartas: seq<string>, b: nat, f: string -> Result<Option<Row>, ()>, replies: seq<string>)
    requires b == 0 ==> cartas == []
    requires Batched(cartas, b, f, replies).Completed?
    ensures TryFilterMap(cartas, f).Ok?
    ensures Batched(cartas, b, f, replies).rows == TryFilterMap(cartas, f).value
  {
    if b == 0 {
      return;
    }
    BatchesPartition(cartas, b, 0);
    assert cartas[0..] == cartas;
    GoCompleted(BatchesFrom(cartas, b, 0), f, replies, []);
    assert [] + TryFilterMap(cartas, f).value == TryFilterMap(cartas, f).value;
  }

  /** The many-cards mode: the batch-size prompt, then the batches; an empty list does nothing. */
  method BuscarVarias(lines: seq<string>, search: string -> seq<Offer>, replies: seq<string>) returns (run: Run)
    ensures run == ManyIntended(lines, CardRows(search), replies)
  {
    var cartas := NonBlankLines(lines);
    var batchSize, used := Ask(replies, BatchSizeParse(|cartas|));
    ManyIntendedAsked(lines, CardRows(search), replies);
    if batchSize.None? {
      return Crashed;
    }
    if batchSize.value == 0 {
      return Completed([]);
    }
    assert replies[used..] == replies[FirstAccepted(replies, BatchSizeParse(|cartas|)) + 1..];
    run := RunBatches(cartas, batchSize.value, search, replies[used..]);
  }

  /** The prompt's answer decides the run: no answer crashes, a size `b` runs the batches from the next reply on. */
  lemma ManyIntendedAsked(lines: seq<string>, rowsOf: string -> Result<Option<Row>, ()>, replies: seq<string>)
    ensures var parse := BatchSizeParse(|NonBlankLines(lines)|);
      match Asked(replies, parse)
      case None => ManyIntended(lines, rowsOf, replies) == Crashed
      case Some(b) =>
        ManyIntended(lines, rowsOf, replies) == Batched(NonBlankLines(lines), b, rowsOf, replies[FirstAccepted(replies, parse) + 1..])
  {
  }
}
