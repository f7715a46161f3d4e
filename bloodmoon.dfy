/**
 * The BloodMoon Games listing scraper: reply parsing for the start page, the
 * price and name normalisers, the per-page parse and the retry loop that
 * fetches one page. The ordered reassembly of pages is in module Reassembler.
 */
module Bloodmoon {
  import opened Wrappers
  import opened Text
  import opened Patterns
  import opened Seqs
  import Retry

  const RetryCycle: nat := 10
  const MaxCycles: nat := 3

  // ---------------------------------------------------------------
  // Start page reply
  // ---------------------------------------------------------------

  /**
   * The start page chosen from the reply typed at the prompt; `None` is no
   * reply before the timeout (or a failed read).
   */
  function StartPage(reply: Option<string>): (page: int)
    ensures page >= 1
    ensures reply.None? ==> page == 1
    ensures reply.Some? && PyInt(reply.value).Some? && PyInt(reply.value).value >= 1 ==> page == PyInt(reply.value).value
    ensures reply.Some? && (PyInt(reply.value).None? || PyInt(reply.value).value < 1) ==> page == 1
  {
    if reply.None? then 1
    else
      var t := Strip(reply.value);
      PyIntStrip(reply.value);
      if t == [] then 1
      else match PyInt(t)
        case None => 1
        case Some(v) => if v < 1 then 1 else v
  }

  /** `int(s.strip())` and `int(s)` agree, since `int` strips its argument itself. */
  lemma PyIntStrip(s: string)
    ensures PyInt(Strip(s)) == PyInt(s)
  {
    StripIdempotent(s);
  }

  /** A blank reply chooses page 1. */
  lemma StartPageBlank(s: string)
    requires Strip(s) == []
    ensures StartPage(Some(s)) == 1
  {
  }

  // ---------------------------------------------------------------
  // extraer_precio
  // ---------------------------------------------------------------

  predicate PriceChar(c: char) { IsDigit(c) || c == '.' || c == ',' }

  /** `re.findall(r"[\d\.,]+", text)` */
  function PriceGroups(text: string): seq<string> {
    Tokens(text, PriceChar, PriceChar)
  }

  /** One group with its dots and commas removed, when what is left is a digit string. */
  function GroupValue(g: string): Option<nat> {
    var limpio := Remove(Remove(g, '.'), ',');
    if limpio != [] && AllDigits(limpio) then Some(NatValue(limpio)) else None
  }

  /** The list `valores` the loop builds. */
  function GroupValues(gs: seq<string>): (vs: seq<nat>)
    ensures forall v :: v in vs ==> exists g :: g in gs && GroupValue(g) == Some(v)
    ensures forall g :: g in gs && GroupValue(g).Some? ==> GroupValue(g).value in vs
  {
    if gs == [] then []
    else
      var init := GroupValues(gs[..|gs| - 1]);
      assert forall g :: g in gs ==> g in gs[..|gs| - 1] || g == gs[|gs| - 1];
      init + (if GroupValue(gs[|gs| - 1]).Some? then [GroupValue(gs[|gs| - 1]).value] else [])
  }

  /** The price `extraer_precio` reads from a price text. */
  function LowestPrice(text: string): (r: Option<nat>)
    ensures r.None? <==> forall g :: g in PriceGroups(text) ==> GroupValue(g).None?
    ensures r.Some? ==> exists g :: g in PriceGroups(text) && GroupValue(g) == Some(r.value)
    ensures r.Some? ==> forall g :: g in PriceGroups(text) && GroupValue(g).Some? ==> r.value <= GroupValue(g).value
  {
    var vs := GroupValues(PriceGroups(text));
    if vs == [] then None else Some(MinNat(vs))
  }

  /** `extraer_precio`: the loop over the groups, then `min`. */
  method ExtractPrice(text: string) returns (r: Option<nat>)
    ensures r == LowestPrice(text)
  {
    if text == [] {
      return None;
    }
    var matches := PriceGroups(text);
    var valores: seq<nat> := [];
    var i := 0;
    while i < |matches|
      invariant 0 <= i <= |matches|
      invariant valores == GroupValues(matches[..i])
    {
      var limpio := Remove(Remove(matches[i], '.'), ',');
      if limpio != [] && AllDigits(limpio) {
        valores := valores + [NatValue(limpio)];
      }
      assert matches[..i + 1][..i] == matches[..i];
      i := i + 1;
    }
    assert matches[..i] == matches;
    if valores == [] {
      return None;
    }
    r := Some(MinNat(valores));
  }

  /** A number written with `sep` grouping is read back as one group with that value. */
  lemma {:induction false} GroupValueGrouped(n: nat, sep: char)
    requires sep == '.' || sep == ','
    ensures GroupValue(GroupedNat(n, sep)) == Some(n)
  {
    var g := GroupedNat(n, sep);
    GroupedNatDigits(n, sep);
    GroupedNatChars(n, sep);
    var d := Remove(g, sep);
    assert d != [] by {
      assert g == [g[0]] + g[1..];
      RemoveAppend([g[0]], g[1..], sep);
    }
    var other := if sep == '.' then ',' else '.';
    assert forall c :: c in d ==> IsDigit(c) by {
      forall c | c in d ensures IsDigit(c) {
        var i :| 0 <= i < |d| && d[i] == c;
      }
    }
    RemoveAbsent(d, other);
    if sep == ',' {
      assert forall c :: c in g ==> IsDigit(c) || c == ',';
      RemoveAbsent(g, '.');
    }
  }

  lemma {:induction false} GroupedPriceChars(n: nat, sep: char)
    requires sep == '.' || sep == ','
    ensures var g := GroupedNat(n, sep); g != [] && forall i :: 0 <= i < |g| ==> PriceChar(g[i])
  {
    var g := GroupedNat(n, sep);
    GroupedNatChars(n, sep);
    assert forall i :: 0 <= i < |g| ==> g[i] in g;
  }

  /** `formatear_moneda`-style text, "$" and grouped digits, is read back exactly. */
  lemma LowestPriceGrouped(n: nat, sep: char)
    requires sep == '.' || sep == ','
    ensures LowestPrice("$" + GroupedNat(n, sep)) == Some(n)
  {
    var g := GroupedNat(n, sep);
    GroupedPriceChars(n, sep);
    TokensSkip("$", g, PriceChar, PriceChar);
    TokensWhole(g, PriceChar, PriceChar);
    assert PriceGroups("$" + g) == [g];
    GroupValueGrouped(n, sep);
    assert GroupValues([g]) == [n];
  }

  lemma Grouped9000() ensures GroupedNat(9000, '.') == "9.000" {
    assert Pad3(0) == "000";
  }

  lemma Grouped4000() ensures GroupedNat(4000, '.') == "4.000" {
    assert Pad3(0) == "000";
  }

  lemma Grouped12000() ensures GroupedNat(12000, '.') == "12.000" {
    assert Pad3(0) == "000";
    assert NatToString(12) == "12";
  }

  /** The documented example of a single price. */
  lemma LowestPriceSingle()
    ensures LowestPrice("$9.000") == Some(9000)
  {
    Grouped9000();
    assert "$9.000" == "$" + GroupedNat(9000, '.');
    LowestPriceGrouped(9000, '.');
  }

  /** The text of a price range "$lo – $hi". */
  function RangeText(lo: nat, hi: nat): string {
    "$" + GroupedNat(lo, '.') + " \U{2013} $" + GroupedNat(hi, '.')
  }

  predicate PriceRun(t: string) { t != [] && forall i :: 0 <= i < |t| ==> PriceChar(t[i]) }

  lemma RangeTail(h: string)
    requires PriceRun(h)
    ensures Tokens(" \U{2013} $" + h, PriceChar, PriceChar) == [h]
  {
    var sep := " \U{2013} $";
    assert forall i :: 0 <= i < |sep| ==> !PriceChar(sep[i]);
    TokensSkip(sep, h, PriceChar, PriceChar);
    TokensWhole(h, PriceChar, PriceChar);
  }

  lemma RangeTokens(l: string, h: string)
    requires PriceRun(l) && PriceRun(h)
    ensures PriceGroups("$" + (l + (" \U{2013} $" + h))) == [l, h]
  {
    RangeTail(h);
    TokensCons(l, " \U{2013} $" + h, PriceChar, PriceChar);
    TokensSkip("$", l + (" \U{2013} $" + h), PriceChar, PriceChar);
  }

  lemma RangeGroups(lo: nat, hi: nat)
    ensures PriceGroups(RangeText(lo, hi)) == [GroupedNat(lo, '.'), GroupedNat(hi, '.')]
  {
    var l := GroupedNat(lo, '.');
    var h := GroupedNat(hi, '.');
    GroupedPriceChars(lo, '.');
    GroupedPriceChars(hi, '.');
    RangeTokens(l, h);
    assert RangeText(lo, hi) == "$" + (l + (" \U{2013} $" + h));
  }

  /** A price range is read as its lower end, whichever way round it is written. */
  lemma LowestPriceOfRange(lo: nat, hi: nat)
    ensures LowestPrice(RangeText(lo, hi)) == Some(if lo <= hi then lo else hi)
  {
    var l := GroupedNat(lo, '.');
    var h := GroupedNat(hi, '.');
    RangeGroups(lo, hi);
    GroupValueGrouped(lo, '.');
    GroupValueGrouped(hi, '.');
    GroupValuesPair(l, h);
    assert MinNat([lo, hi]) == if lo <= hi then lo else hi by {
      assert [lo, hi][1..] == [hi];
    }
  }

  lemma GroupValuesPair(l: string, h: string)
    requires GroupValue(l).Some? && GroupValue(h).Some?
    ensures GroupValues([l, h]) == [GroupValue(l).value, GroupValue(h).value]
  {
    assert [l][..0] == [];
    assert GroupValues([l]) == [GroupValue(l).value];
    assert [l, h][..1] == [l];
  }

  lemma RangeTextExample()
    ensures RangeText(4000, 12000) == "$4.000 \U{2013} $12.000"
  {
    Grouped4000();
    Grouped12000();
  }

  /** The documented example of a range, "$4.000 – $12.000", gives 4000. */
  lemma LowestPriceRange()
    ensures LowestPrice("$4.000 \U{2013} $12.000") == Some(4000)
  {
    RangeTextExample();
    LowestPriceOfRange(4000, 12000);
  }

  // ---------------------------------------------------------------
  // limpiar_nombre
  // ---------------------------------------------------------------

  datatype CleanedName = CleanedName(name: string, foil: bool)

  /** `re.sub` of the groups, the two `split(...)[0]` cuts and `strip`. */
  function CutName(titulo: string): string {
    Strip(Before(Before(RemoveParenGroups(titulo), '\U{2013}'), '-'))
  }

  /** `limpiar_nombre` */
  function CleanName(titulo: string): CleanedName {
    CleanedName(Strip(CollapseSpaces(AsciiFold(CutName(titulo)))), SearchWord(titulo, "foil"))
  }

  /**
   * Foil is the whole word "foil" in any case; the name keeps no complete
   * parenthesised group, no hyphen or en dash, only ASCII and single blanks.
   */
  lemma CleanNameSpec(titulo: string)
    ensures CleanName(titulo).foil <==> exists j :: 0 <= j && WholeWordAt(titulo, j, "foil")
    ensures SingleSpaced(CleanName(titulo).name)
    ensures NoParenGroup(CleanName(titulo).name)
    ensures '-' !in CleanName(titulo).name && '\U{2013}' !in CleanName(titulo).name
    ensures forall c :: c in CleanName(titulo).name ==> c < '\U{80}'
  {
    SearchWordSpec(titulo, "foil");
    CutNameShape(titulo);
    TidyShape(AsciiFold(CutName(titulo)));
  }

  /** Collapsing blanks and stripping keep a name free of groups and hyphens, and ASCII. */
  lemma TidyShape(folded: string)
    requires NoParenGroup(folded) && '-' !in folded
    requires forall c :: c in folded ==> c < '\U{80}'
    ensures var name := Strip(CollapseSpaces(folded));
      && SingleSpaced(name) && NoParenGroup(name) && '-' !in name
      && forall c :: c in name ==> c < '\U{80}'
  {
    var collapsed := CollapseSpaces(folded);
    CollapseStripSingleSpaced(folded);
    CollapseKeepsOut(folded, '-');
    CollapseNoParenGroup(folded);
    StripNoParenGroup(collapsed);
    assert forall c :: c in collapsed && c != ' ' ==> c in folded by {
      forall c | c in collapsed && c != ' ' ensures c in folded {
        CollapseKeepsOut(folded, c);
      }
    }
  }

  /** After the cut and strip, then folding: no complete group and no hyphen. */
  lemma CutNameShape(titulo: string)
    ensures NoParenGroup(AsciiFold(CutName(titulo))) && '-' !in AsciiFold(CutName(titulo))
  {
    var r := RemoveParenGroups(titulo);
    RemoveParenGroupsNoGroup(titulo);
    var b1 := Before(r, '\U{2013}');
    NoParenGroupSlice(r, 0, |b1|);
    assert r[0..|b1|] == b1;
    var b2 := Before(b1, '-');
    NoParenGroupSlice(b1, 0, |b2|);
    assert b1[0..|b2|] == b2;
    var s := Strip(b2);
    StripNoParenGroup(b2);
    AsciiFoldNoParenGroup(s);
    AsciiFoldKeepsOut(s, '-');
  }

  /** Everything from the first en dash on is dropped: the name comes from the text before it. */
  lemma CleanNameCutsDash(a: string, b: string)
    requires '(' !in a && '\U{2013}' !in a
    ensures CleanName(a + "\U{2013}" + b).name == CleanName(a).name
  {
    var t := "\U{2013}" + b;
    assert a + "\U{2013}" + b == a + t;
    RemoveParenGroupsConcat(a, t);
    NoGroupAtPrefix("\U{2013}", b);
    KeepFirst(t);
    BeforeConcat(a, RemoveParenGroups(t), '\U{2013}');
    assert a + [] == a;
    RemoveParenGroupsNoOpen(a);
    BeforeAbsent(a, '\U{2013}');
  }

  /** Everything from the first hyphen on is dropped: the name comes from the text before it. */
  lemma CleanNameCutsHyphen(a: string, b: string)
    requires '(' !in a && '-' !in a && '\U{2013}' !in a
    ensures CleanName(a + "-" + b).name == CleanName(a).name
  {
    var t := "-" + b;
    assert a + "-" + b == a + t;
    RemoveParenGroupsConcat(a, t);
    NoGroupAtPrefix("-", b);
    KeepFirst(t);
    var r := RemoveParenGroups(t);
    assert r[0] == '-';
    BeforeConcat(a, r, '\U{2013}');
    var d := Before(r, '\U{2013}');
    assert d == [r[0]] + Before(r[1..], '\U{2013}');
    BeforeConcat(a, d, '-');
    assert Before(d, '-') == [];
    assert a + [] == a;
    RemoveParenGroupsNoOpen(a);
    BeforeAbsent(a, '\U{2013}');
    BeforeAbsent(a, '-');
  }

  /** A parenthesised group with the whitespace before it is dropped, wherever it stands. */
  lemma CleanNameDropsGroup(a: string, g: string, c: string)
    requires '(' !in a && (a == [] || !IsSpace(a[|a| - 1]))
    requires ')' !in g && '(' !in c
    ensures CleanName(a + " (" + g + ")" + c).name == CleanName(a + c).name
  {
    var t := " (" + g + ")" + c;
    assert a + " (" + g + ")" + c == a + t;
    RemoveParenGroupsConcat(a, t);
    RemoveParenGroupsGroup(g, c);
    RemoveParenGroupsNoOpen(c);
    RemoveParenGroupsNoOpen(a + c);
  }

  /** A name already in clean form (ASCII, single blanks, no group, hyphen or dash) comes out unchanged. */
  lemma CleanNameKeepsClean(a: string)
    requires SingleSpaced(a) && forall c :: c in a ==> c < '\U{80}'
    requires '(' !in a && '-' !in a && '\U{2013}' !in a
    ensures CleanName(a).name == a
  {
    RemoveParenGroupsNoOpen(a);
    BeforeAbsent(a, '\U{2013}');
    BeforeAbsent(a, '-');
    StripNoSpace(a);
    AsciiFoldAscii(a);
    CollapseSpacesKeeps(a);
  }

  /** A blank after the text does not change the name. */
  lemma CleanNameBlank(a: string)
    requires '(' !in a && '-' !in a && '\U{2013}' !in a
    ensures CleanName(a + " ").name == CleanName(a).name
  {
    var a' := a + " ";
    RemoveParenGroupsNoOpen(a');
    BeforeAbsent(a', '\U{2013}');
    BeforeAbsent(a', '-');
    RemoveParenGroupsNoOpen(a);
    BeforeAbsent(a, '\U{2013}');
    BeforeAbsent(a, '-');
    StripTrailingSpace(a, ' ');
    assert CutName(a') == CutName(a);
  }

  /** A clean name followed by " – " and a subtitle gives the name. */
  lemma CleanNameTitle(a: string, b: string)
    requires SingleSpaced(a) && forall c :: c in a ==> c < '\U{80}'
    requires '(' !in a && '-' !in a && '\U{2013}' !in a
    ensures CleanName(a + " \U{2013} " + b).name == a
  {
    var a' := a + " ";
    assert a + " \U{2013} " + b == a' + "\U{2013}" + (" " + b);
    assert '(' !in a' && '\U{2013}' !in a';
    CleanNameCutsDash(a', " " + b);
    CleanNameBlank(a);
    CleanNameKeepsClean(a);
  }

  // ---------------------------------------------------------------
  // One page: parse and retry
  // ---------------------------------------------------------------

  /**
   * What the parse extracts from one `li.product`: the product link and, inside
   * it, the `h2` title text and the price span text.
   */
  datatype ProductLink = ProductLink(href: Option<string>, title: Option<string>, priceText: Option<string>)
  datatype Listing = Listing(link: Option<ProductLink>)

  /** A CSV row; `price == None` is written as an empty cell, `url == None` as an empty one too. */
  datatype Product = Product(originalName: string, name: string, foil: bool, price: Option<nat>, url: Option<string>)

  predicate Parsed(item: Listing) { item.link.Some? && item.link.value.title.Some? }

  function ParseItem(item: Listing): Product
    requires Parsed(item)
  {
    var link := item.link.value;
    var c := CleanName(link.title.value);
    var price := if link.priceText.Some? then LowestPrice(link.priceText.value) else None;
    Product(link.title.value, c.name, c.foil, price, link.href)
  }

  /** The row of one item, or `None` for an item the parse skips. */
  function ParseRow(item: Listing): Option<Product> {
    if Parsed(item) then Some(ParseItem(item)) else None
  }

  /** The rows of a page: items without a product link or a title are skipped; order is kept. */
  function ParsePage(items: seq<Listing>): (ps: seq<Product>)
    ensures |ps| <= |items|
  {
    FilterMap(items, ParseRow)
  }

  /** A page whose every item has a link and a title yields one row per item, in order. */
  lemma ParsePageAll(items: seq<Listing>)
    requires forall i :: 0 <= i < |items| ==> Parsed(items[i])
    ensures |ParsePage(items)| == |items|
    ensures forall i :: 0 <= i < |items| ==> ParsePage(items)[i] == ParseItem(items[i])
  {
    FilterMapAll(items, ParseRow);
  }

  /** The parse loop of `obtener_productos_pagina`. */
  method ParseListing(items: seq<Listing>) returns (resultados: seq<Product>)
    ensures resultados == ParsePage(items)
  {
    resultados := [];
    for i := 0 to |items|
      invariant resultados == ParsePage(items[..i])
    {
      assert items[..i + 1][..i] == items[..i];
      var item := items[i];
      if item.link.None? {
        continue;
      }
      var a := item.link.value;
      if a.title.None? {
        continue;
      }
      var price: Option<nat> := None;
      if a.priceText.Some? {
        price := ExtractPrice(a.priceText.value);
      }
      var c := CleanName(a.title.value);
      resultados := resultados + [Product(a.title.value, c.name, c.foil, price, a.href)];
    }
    assert items[..|items|] == items;
  }

  /** How one request of a page ends. */
  datatype Attempt =
    | RequestFailed          // a `requests.RequestException`, including an HTTP error status
    | UnexpectedError        // any other exception while parsing
    | Fetched(items: seq<Listing>)

  /** The request budget of one page. */
  const MaxRequests: nat := RetryCycle * MaxCycles

  function Decisive(outcome: nat -> Attempt): nat -> Option<Attempt> {
    (k: nat) => if outcome(k).RequestFailed? then None else Some(outcome(k))
  }

  /** The result of `obtener_productos_pagina`: the first attempt that is not a network error decides. */
  function PageResult(outcome: nat -> Attempt): Option<seq<Product>> {
    match Retry.FirstSuccess<Attempt>(Decisive(outcome), 0, MaxRequests)
    case Some(Fetched(items)) => Some(ParsePage(items))
    case _ => None
  }

  /** The page is omitted exactly when every request in the budget fails or the first non-network outcome is an unexpected error. */
  lemma PageResultSpec(outcome: nat -> Attempt)
    ensures PageResult(outcome).Some? <==>
              exists k :: 0 <= k < MaxRequests && (forall j :: 0 <= j < k ==> outcome(j).RequestFailed?) && outcome(k).Fetched?
    ensures forall k :: 0 <= k < MaxRequests && (forall j :: 0 <= j < k ==> outcome(j).RequestFailed?) && outcome(k).Fetched? ==>
              PageResult(outcome) == Some(ParsePage(outcome(k).items))
  {
    var d := Decisive(outcome);
    Retry.FirstSuccessSpec(d, 0, MaxRequests);
    if PageResult(outcome).Some? {
      var k :| 0 <= k < MaxRequests && Retry.FailedBefore(d, k) && d(k) == Retry.FirstSuccess(d, 0, MaxRequests);
      forall j | 0 <= j < k ensures outcome(j).RequestFailed? {
        assert d(j).None?;
      }
      assert outcome(k).Fetched?;
    }
    forall k | 0 <= k < MaxRequests && (forall j :: 0 <= j < k ==> outcome(j).RequestFailed?) && outcome(k).Fetched?
      ensures Retry.FirstSuccess(d, 0, MaxRequests) == Some(outcome(k))
    {
      FirstDecisiveAt(outcome, 0, k);
    }
  }

  lemma {:induction false} FirstDecisiveAt(outcome: nat -> Attempt, from: nat, k: nat)
    requires from <= k < MaxRequests && (forall j :: from <= j < k ==> outcome(j).RequestFailed?) && !outcome(k).RequestFailed?
    ensures Retry.FirstSuccess(Decisive(outcome), from, MaxRequests) == Some(outcome(k))
    decreases k - from
  {
    if from < k {
      FirstDecisiveAt(outcome, from + 1, k);
    }
  }

  /**
   * `obtener_productos_pagina`: `MaxCycles` cycles of `RetryCycle` attempts.
   * Returns the parsed page, the number of requests made and the failure counter.
   */
  method FetchPage(outcome: nat -> Attempt) returns (result: Option<seq<Product>>, requests: nat, failures: nat)
    ensures result == PageResult(outcome)
    ensures requests <= RetryCycle * MaxCycles
    ensures failures == requests || failures + 1 == requests
    ensures forall j :: 0 <= j < failures ==> outcome(j).RequestFailed?
    ensures result.None? && requests < MaxRequests ==> requests >= 1 && outcome(requests - 1).UnexpectedError?
    ensures result.Some? ==> requests >= 1 && outcome(requests - 1).Fetched?
  {
    ghost var d := Decisive(outcome);
    failures := 0;
    for cycle := 0 to MaxCycles
      invariant failures == cycle * RetryCycle
      invariant forall j :: 0 <= j < failures ==> outcome(j).RequestFailed?
      invariant Retry.FirstSuccess(d, failures, MaxRequests) == Retry.FirstSuccess(d, 0, MaxRequests)
    {
      for intento := 0 to RetryCycle
        invariant failures == cycle * RetryCycle + intento
        invariant forall j :: 0 <= j < failures ==> outcome(j).RequestFailed?
        invariant Retry.FirstSuccess(d, failures, MaxRequests) == Retry.FirstSuccess(d, 0, MaxRequests)
      {
        var k := cycle * RetryCycle + intento;
        assert k < MaxRequests;
        match outcome(k)
        case RequestFailed =>
          failures := failures + 1;
        case UnexpectedError =>
          return None, k + 1, failures;
        case Fetched(items) =>
          var parsed := ParseListing(items);
          return Some(parsed), k + 1, failures;
      }
    }
    return None, MaxRequests, failures;
  }
}
