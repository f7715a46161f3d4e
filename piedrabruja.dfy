/**
 * The PiedraBruja listing scraper (List_PiedraBruja.py and its copy
 * List_PiedraBruja_Single.py, which differs only in how its non-ASCII string
 * literals are encoded): the name cleaner, the foil test, the per-page parse
 * with its stop flag, the page loop and the write guard. Its `limpiar_precio`
 * is `Listing.CleanPrice`.
 */
module PiedraBruja {
  import opened Wrappers
  import opened Text
  import opened Patterns
  import opened Seqs
  import Paging
  import Listing

  const Base := "https://piedrabruja.cl"

  /** The foil column's "yes" in List_PiedraBruja.py. */
  const YesMark := "Sí"

  /** The same literal in List_PiedraBruja_Single.py: the UTF-8 bytes of "í" read as Mac Roman. */
  const YesMarkSingle := "S\U{221a}\U{2260}"

  // ---------------------------------------------------------------
  // limpiar_nombre
  // ---------------------------------------------------------------

  /**
   * Length of the match of `\s*\(.*?\)\s*` at the start of `s`, or 0: the
   * group closes at the first ")", which must come before any newline,
   * since `.` does not match one.
   */
  function LazyGroupAt(s: string): (k: nat)
    ensures k <= |s|
  {
    var w := LeadingSpaces(s);
    if w < |s| && s[w] == '(' && IndexOf(s[w + 1..], ')') < IndexOf(s[w + 1..], '\n') then
      var e := w + 1 + IndexOf(s[w + 1..], ')') + 1;
      e + LeadingSpaces(s[e..])
    else 0
  }

  /** `re.sub(r'\s*\(.*?\)\s*', '', s)`, scanning from the left. */
  function RemoveGroups(s: string): (r: string)
    ensures |r| <= |s|
    decreases |s|
  {
    if s == [] then []
    else
      var k := LazyGroupAt(s);
      if k > 0 then RemoveGroups(s[k..]) else [s[0]] + RemoveGroups(s[1..])
  }

  /** Text without "(" has no group to remove. */
  lemma {:induction false} RemoveGroupsNoOpen(s: string)
    requires '(' !in s
    ensures RemoveGroups(s) == s
    decreases |s|
  {
    if s != [] {
      var w := LeadingSpaces(s);
      assert w < |s| ==> s[w] != '(';
      RemoveGroupsNoOpen(s[1..]);
    }
  }

  /** A final group with the blank before it is removed: "Sol Ring (Foil)" becomes "Sol Ring". */
  lemma {:induction false} RemoveFinalGroup(a: string, b: string)
    requires '(' !in a && (a == [] || !IsSpace(a[|a| - 1]))
    requires ')' !in b && '\n' !in b
    ensures RemoveGroups(a + (" (" + b + ")")) == a
    decreases |a|
  {
    var t := " (" + b + ")";
    if a == [] {
      assert a + t == t;
      GroupAtEnd(b);
    } else {
      var s := a + t;
      assert s[1..] == a[1..] + t;
      NoGroupInside(a, t);
      assert RemoveGroups(s) == [s[0]] + RemoveGroups(s[1..]);
      RemoveFinalGroup(a[1..], b);
      assert a == [a[0]] + a[1..];
    }
  }

  /** `" (" + b + ")"` is one whole match. */
  lemma GroupAtEnd(b: string)
    requires ')' !in b && '\n' !in b
    ensures RemoveGroups(" (" + b + ")") == []
  {
    var s := " (" + b + ")";
    var rest := s[2..];
    assert rest == b + ")";
    IndexOfIs(rest, ')', |b|);
    IndexOfIs(rest, '\n', |rest|);
    assert LeadingSpaces(s) == 1;
    assert LazyGroupAt(s) == |s|;
    assert s[|s|..] == [];
  }

  /** No match starts inside `a`: its whitespace run ends in `a`, at a character that is not "(". */
  lemma NoGroupInside(a: string, t: string)
    requires a != [] && '(' !in a && !IsSpace(a[|a| - 1])
    ensures LazyGroupAt(a + t) == 0
  {
    LeadingSpacesPrefix(a, t);
    var w := LeadingSpaces(a);
    assert (a + t)[w] == a[w];
  }

  /** Where a match starts, it is deleted and the scan goes on after it. */
  lemma DropMatch(s: string)
    requires LazyGroupAt(s) > 0
    ensures RemoveGroups(s) == RemoveGroups(s[LazyGroupAt(s)..])
  {
  }

  /** Where no match starts, the first character is kept. */
  lemma KeepChar(s: string)
    requires s != [] && LazyGroupAt(s) == 0
    ensures RemoveGroups(s) == [s[0]] + RemoveGroups(s[1..])
  {
  }

  /** Text before the first match is kept: no match starts in a prefix without "(" that ends in a non-blank. */
  lemma {:induction false} RemoveGroupsConcat(a: string, c: string)
    requires '(' !in a && (a == [] || !IsSpace(a[|a| - 1]))
    ensures RemoveGroups(a + c) == a + RemoveGroups(c)
    decreases |a|
  {
    if a == [] {
      assert a + c == c;
    } else {
      var s := a + c;
      var u := a[1..] + c;
      assert s[1..] == u && s[0] == a[0];
      NoGroupInside(a, c);
      KeepChar(s);
      assert '(' !in a[1..] by { assert forall x :: x in a[1..] ==> x in a; }
      assert a[1..] != [] ==> a[1..][|a[1..]| - 1] == a[|a| - 1];
      RemoveGroupsConcat(a[1..], c);
      ConsRest(a, RemoveGroups(c));
    }
  }

  /** The match of a one-line group " (g)" runs over the whitespace after it. */
  lemma GroupMatch(g: string, c: string)
    requires ')' !in g && '\n' !in g
    ensures LazyGroupAt(" (" + g + ")" + c) == |g| + 3 + LeadingSpaces(c)
  {
    var s := " (" + g + ")" + c;
    var rest := s[2..];
    assert rest == g + ")" + c;
    IndexOfIs(rest, ')', |g|);
    assert IndexOf(rest, '\n') > |g| by {
      forall i | 0 <= i <= |g| ensures rest[i] != '\n' {
        if i < |g| { assert rest[i] == g[i]; }
      }
    }
    assert LeadingSpaces(s) == 1;
    assert s[|g| + 3..] == c;
  }

  /** A one-line group " (g)" goes together with the whitespace after it, and the scan goes on after that. */
  lemma RemoveGroupsGroup(g: string, c: string)
    requires ')' !in g && '\n' !in g
    ensures RemoveGroups(" (" + g + ")" + c) == RemoveGroups(TrimStart(c))
  {
    var s := " (" + g + ")" + c;
    GroupMatch(g, c);
    DropMatch(s);
    assert s[|g| + 3..] == c;
    assert s[|g| + 3 + LeadingSpaces(c)..] == TrimStart(c);
  }

  lemma {:induction false} RemoveGroupsChars(s: string)
    ensures forall x :: x in RemoveGroups(s) ==> x in s
    decreases |s|
  {
    if s != [] {
      var k := LazyGroupAt(s);
      if k > 0 {
        DropMatch(s);
        RemoveGroupsChars(s[k..]);
        assert forall x :: x in s[k..] ==> x in s;
      } else {
        KeepChar(s);
        RemoveGroupsChars(s[1..]);
        assert forall x :: x in s[1..] ==> x in s;
      }
    }
  }

  /** On one line, a "(" where no match starts has no ")" after it. */
  lemma OpenUnmatched(s: string)
    requires s != [] && s[0] == '(' && '\n' !in s && LazyGroupAt(s) == 0
    ensures ')' !in s[1..]
  {
    assert LeadingSpaces(s) == 0;
    assert IndexOf(s[1..], '\n') == |s| - 1;
  }

  /** On one line every complete group goes: no "(" is left with a ")" after it. */
  lemma {:induction false} RemoveGroupsNoGroup(s: string)
    requires '\n' !in s
    ensures NoParenGroup(RemoveGroups(s))
    decreases |s|
  {
    if s != [] {
      var k := LazyGroupAt(s);
      if k > 0 {
        DropMatch(s);
        assert forall x :: x in s[k..] ==> x in s;
        RemoveGroupsNoGroup(s[k..]);
      } else {
        KeepChar(s);
        assert forall x :: x in s[1..] ==> x in s;
        RemoveGroupsNoGroup(s[1..]);
        var rest := RemoveGroups(s[1..]);
        if s[0] == '(' {
          OpenUnmatched(s);
          RemoveGroupsChars(s[1..]);
        }
        ConsNoGroup(s[0], rest);
      }
    }
  }

  /** One more character in front keeps the text free of groups, unless it opens one. */
  lemma ConsNoGroup(c: char, rest: string)
    requires NoParenGroup(rest) && (c == '(' ==> ')' !in rest)
    ensures NoParenGroup([c] + rest)
  {
    var r := [c] + rest;
    forall i, j | 0 <= i < j < |r| && r[i] == '(' ensures r[j] != ')' {
      if i == 0 {
        assert r[j] in rest by { assert r[j] == rest[j - 1]; }
      } else {
        assert r[i] == rest[i - 1] && r[j] == rest[j - 1];
      }
    }
  }

  /**
   * Across lines a group can survive: the blanks and line break before
   * " (x)" go with that match, which leaves "(" and "y)" side by side, and
   * `re.sub` does not scan its own output again.
   */
  lemma MultiLineGroupSurvives()
    ensures RemoveGroups("(\n (x) y)") == "(y)"
  {
    var s := "(\n (x) y)";
    var t := "\n (x) y)";
    assert s[1..] == t;
    OpenNotMatched(s);
    KeepChar(s);
    MultiLineRest();
    assert s[0] == '(';
  }

  /** The "(" opening the text has a line break before any ")", so no match starts there. */
  lemma OpenNotMatched(s: string)
    requires s == "(\n (x) y)"
    ensures LazyGroupAt(s) == 0
  {
    assert LeadingSpaces(s) == 0;
    assert IndexOf(s[1..], '\n') == 0;
  }

  /** What follows that "(" loses its leading match and keeps "y)". */
  lemma MultiLineRest()
    ensures RemoveGroups("\n (x) y)") == "y)"
  {
    var t := "\n (x) y)";
    MultiLineMatch();
    DropMatch(t);
    assert t[6..] == "y)";
    RemoveGroupsNoOpen("y)");
  }

  /** In "\n (x) y)" the match takes the line break, the blank, the group and the blank after it. */
  lemma MultiLineMatch()
    ensures LazyGroupAt("\n (x) y)") == 6
  {
    var t := "\n (x) y)";
    assert LeadingSpaces(t) == 2;
    assert t[3..] == "x) y)";
    assert IndexOf(t[3..], ')') == 1;
    assert IndexOf(t[3..], '\n') == |t| - 3;
    assert t[5..] == " y)";
    assert LeadingSpaces(t[5..]) == 1;
  }

  /** A name with a final parenthesised note and no final number comes out as the text before the note. */
  lemma CleanNameDropsNote(a: string, b: string)
    requires '(' !in a && (a == [] || (!IsSpace(a[|a| - 1]) && !IsDigit(a[|a| - 1])))
    requires ')' !in b && '\n' !in b
    ensures CleanName(a + (" (" + b + ")")) == Strip(a)
  {
    RemoveFinalGroup(a, b);
    NoTrailingNumber(a);
  }

  /** A match of `\s*\d+$` begins at `i`; `$` also matches just before a final newline. */
  predicate TrailNumAt(s: string, i: nat) {
    i < |s| &&
    var w := LeadingSpaces(s[i..]);
    var d := Span(s[i + w..], IsDigit);
    d > 0 && (i + w + d == |s| || (i + w + d == |s| - 1 && s[|s| - 1] == '\n'))
  }

  function Matches(s: string): nat -> bool { (i: nat) => TrailNumAt(s, i) }

  /** `re.sub(r'\s*\d+$', '', s)`: at most one match, the leftmost. */
  function RemoveTrailingNumber(s: string): string {
    var k := Leftmost(|s|, 0, Matches(s));
    if k == |s| then s else CutMatch(s, k)
  }

  /** The text with the match that begins at `k` removed. */
  function CutMatch(s: string, k: nat): string
    requires k < |s|
  {
    var w := LeadingSpaces(s[k..]);
    s[..k] + s[k + w + Span(s[k + w..], IsDigit)..]
  }

  /** `limpiar_nombre` */
  function CleanName(nombre: string): string {
    Strip(RemoveTrailingNumber(RemoveGroups(nombre)))
  }

  /** Without a final newline or final digit, there is nothing to remove. */
  lemma NoTrailingNumber(s: string)
    requires s == [] || s[|s| - 1] != '\n'
    requires SpanEnd(s, IsDigit) == 0
    ensures RemoveTrailingNumber(s) == s
  {
    forall j: nat | j < |s| ensures !TrailNumAt(s, j) {
      MatchShape(s, j);
    }
  }

  /**
   * Without a final newline, the final digits, from `m` on, and the
   * whitespace before them, from `k0` on, are removed.
   */
  lemma TrailingNumberCut(s: string, k0: nat, m: nat)
    requires s == [] || s[|s| - 1] != '\n'
    requires m < |s| && m == |s| - SpanEnd(s, IsDigit)
    requires k0 == m - TrailingSpaces(s[..m])
    ensures RemoveTrailingNumber(s) == s[..k0]
  {
    var head := s[..m];
    forall i | k0 <= i < m ensures IsSpace(s[i]) {
      assert s[i] == head[i];
    }
    assert k0 > 0 ==> s[k0 - 1] == head[k0 - 1];
    FinalRun(s, k0, m);
    forall j: nat | j < k0 ensures !TrailNumAt(s, j) {
      NoEarlierMatch(s, k0, m, j);
    }
    RemovedAt(s, k0, m);
  }

  /** The leftmost match, from `k0` to the end, is cut off. */
  lemma RemovedAt(s: string, k0: nat, m: nat)
    requires k0 <= m < |s| && TrailNumAt(s, k0) && forall j: nat :: j < k0 ==> !TrailNumAt(s, j)
    requires LeadingSpaces(s[k0..]) == m - k0 && Span(s[m..], IsDigit) == |s| - m
    ensures RemoveTrailingNumber(s) == s[..k0]
  {
    LeftmostIs(|s|, Matches(s), k0);
    CutAt(s, k0, m);
  }

  lemma CutAt(s: string, k0: nat, m: nat)
    requires k0 <= m < |s| && Leftmost(|s|, 0, Matches(s)) == k0
    requires LeadingSpaces(s[k0..]) == m - k0 && Span(s[m..], IsDigit) == |s| - m
    ensures RemoveTrailingNumber(s) == s[..k0]
  {
    CutMatchAt(s, k0, m);
  }

  lemma CutMatchAt(s: string, k0: nat, m: nat)
    requires k0 <= m < |s|
    requires LeadingSpaces(s[k0..]) == m - k0 && Span(s[m..], IsDigit) == |s| - m
    ensures CutMatch(s, k0) == s[..k0]
  {
    assert s[..k0] + s[|s|..] == s[..k0];
  }

  /** A match at `j`: whitespace up to `j + v`, then digits to the end. */
  lemma MatchShape(s: string, j: nat)
    requires s == [] || s[|s| - 1] != '\n'
    ensures TrailNumAt(s, j) ==>
              var v := LeadingSpaces(s[j..]);
              j + v < |s| && (forall i :: j <= i < j + v ==> IsSpace(s[i]))
              && (forall i :: j + v <= i < |s| ==> IsDigit(s[i]))
  {
    if TrailNumAt(s, j) {
      var v := LeadingSpaces(s[j..]);
      var e := Span(s[j + v..], IsDigit);
      forall i | j + v <= i < |s| ensures IsDigit(s[i]) {
        assert s[i] == s[j + v..][i - j - v];
      }
      forall i | j <= i < j + v ensures IsSpace(s[i]) {
        assert s[i] == s[j..][i - j];
      }
    }
  }

  /** Whitespace from `k0` to `m`, then digits to the end, is a match at `k0`. */
  lemma FinalRun(s: string, k0: nat, m: nat)
    requires k0 <= m < |s|
    requires forall i :: k0 <= i < m ==> IsSpace(s[i])
    requires forall i :: m <= i < |s| ==> IsDigit(s[i])
    ensures TrailNumAt(s, k0)
    ensures LeadingSpaces(s[k0..]) == m - k0
    ensures Span(s[m..], IsDigit) == |s| - m
  {
    var t := s[k0..];
    forall i | 0 <= i < m - k0 ensures IsSpace(t[i]) {
      assert t[i] == s[k0 + i];
    }
    assert t[m - k0] == s[m];
    SpacesThen(t, m - k0);
    var digits := s[m..];
    forall i | 0 <= i < |digits| ensures IsDigit(digits[i]) {
      assert digits[i] == s[m + i];
    }
    SpanAll(digits, IsDigit);
    assert t[m - k0..] == digits;
  }

  lemma SpacesThen(t: string, n: nat)
    requires n < |t| && !IsSpace(t[n]) && forall i :: 0 <= i < n ==> IsSpace(t[i])
    ensures LeadingSpaces(t) == n
  {
    LeadingSpacesStops(t, n);
  }

  /** No match begins before `k0`, where the whitespace before the final digits begins. */
  lemma NoEarlierMatch(s: string, k0: nat, m: nat, j: nat)
    requires s == [] || s[|s| - 1] != '\n'
    requires k0 <= m < |s|
    requires forall i :: k0 <= i < m ==> IsSpace(s[i])
    requires forall i :: m <= i < |s| ==> IsDigit(s[i])
    requires m == 0 || !IsDigit(s[m - 1])
    requires k0 == 0 || !IsSpace(s[k0 - 1])
    ensures TrailNumAt(s, j) ==> j >= k0
  {
    if TrailNumAt(s, j) {
      MatchShape(s, j);
      var v := LeadingSpaces(s[j..]);
      DigitsReachBack(s, j + v, m);
      if j <= m {
        SpacesStopAt(s, j, j + v, m);
        SpacesReachBack(s, j, k0, m);
      }
    }
  }

  lemma DigitsReachBack(s: string, x: nat, m: nat)
    requires x <= |s| && m <= |s| && forall i :: x <= i < |s| ==> IsDigit(s[i])
    requires m == 0 || !IsDigit(s[m - 1])
    ensures x >= m
  {
  }

  lemma SpacesStopAt(s: string, j: nat, y: nat, m: nat)
    requires j <= m < |s| && y <= |s| && !IsSpace(s[m]) && forall i :: j <= i < y ==> IsSpace(s[i])
    ensures y <= m
  {
  }

  lemma SpacesReachBack(s: string, x: nat, k0: nat, m: nat)
    requires k0 <= m <= |s| && (k0 == 0 || !IsSpace(s[k0 - 1])) && forall i :: x <= i < m ==> IsSpace(s[i])
    ensures x >= k0
  {
  }

  // ---------------------------------------------------------------
  // es_foil
  // ---------------------------------------------------------------

  /** `es_foil`: "foil" is a substring of the lower-cased name. */
  predicate IsFoil(nombre: string) { Contains(Lower(nombre), "foil") }

  /** A name that mentions a foil still does with text around it: "Non-Foil" counts too. */
  lemma FoilInContext(a: string, b: string, c: string)
    requires IsFoil(b)
    ensures IsFoil(a + b + c)
  {
    var i := ContainsWitness(Lower(b), "foil");
    var x := a + b + c;
    var l := Lower(x);
    var at := l[|a| + i..|a| + i + 4];
    forall k | 0 <= k < 4 ensures at[k] == "foil"[k] {
      assert x[|a| + i + k] == b[i + k];
      assert Lower(b)[i..i + 4][k] == Lower(b)[i + k];
    }
    ContainsAt(l, "foil", |a| + i);
  }

  // ---------------------------------------------------------------
  // obtener_datos_pagina
  // ---------------------------------------------------------------

  /** The `a.product-item__title` link: its text and its `href`. */
  datatype Link = Link(text: string, href: Option<string>)

  /** One `div.product-item`: its title link and the text of its `span.price`. */
  datatype Item = Item(link: Option<Link>, price: Option<string>)

  datatype Row = Row(original: string, name: string, foil: string, price: int, url: string)

  /** `link_tag["href"]` raises when the link has no `href`; `requests.get` raises when the request fails. */
  datatype Crash = NoHref | RequestFailed

  /** One product: skipped without a title link, a crash without an `href`, else its row. */
  function ItemRow(yes: string, p: Item): Result<Option<Row>, Crash> {
    if p.link.None? then Ok(None)
    else if p.link.value.href.None? then Err(NoHref)
    else
      var original := Strip(p.link.value.text);
      var precioTexto := if p.price.Some? then Strip(p.price.value) else "0";
      Ok(Some(Row(original, CleanName(original), if IsFoil(original) then yes else "No",
                  Listing.CleanPrice(precioTexto), Base + p.link.value.href.value)))
  }

  /** What a row records. */
  lemma ItemRowSpec(yes: string, p: Item)
    ensures ItemRow(yes, p).Ok? && ItemRow(yes, p).value.Some? <==> p.link.Some? && p.link.value.href.Some?
    ensures ItemRow(yes, p).Ok? && ItemRow(yes, p).value.Some? ==>
              var r := ItemRow(yes, p).value.value;
              (yes != "No" ==> (r.foil == yes <==> IsFoil(r.original)) && (r.foil == "No" <==> !IsFoil(r.original)))
              && NoOuterSpace(r.name) && Base <= r.url
    ensures p.price.None? && ItemRow(yes, p).Ok? && ItemRow(yes, p).value.Some? ==> ItemRow(yes, p).value.value.price == 0
  {
    if p.link.Some? && p.link.value.href.Some? {
      StripSpec(RemoveTrailingNumber(RemoveGroups(Strip(p.link.value.text))));
      assert DigitsOf("0") == "0";
    }
  }

  /** The loop over the products of a page. */
  method ParseItems(yes: string, items: seq<Item>) returns (r: Result<seq<Row>, Crash>)
    ensures r == TryFilterMap(items, p => ItemRow(yes, p))
  {
    var f := p => ItemRow(yes, p);
    var data: seq<Row> := [];
    var i := 0;
    while i < |items|
      invariant 0 <= i <= |items|
      invariant TryFilterMap(items[..i], f) == Ok(data)
    {
      assert items[..i + 1][..i] == items[..i];
      var o := ItemRow(yes, items[i]);
      if o.Err? {
        TryFilterMapErr(items, i + 1, f);
        return Err(o.error);
      }
      TryFilterMapSnoc(items[..i], items[i], f);
      assert items[..i] + [items[i]] == items[..i + 1];
      if o.value.Some? {
        data := data + [o.value.value];
      } else {
        assert data + [] == data;
      }
      i := i + 1;
    }
    assert items[..i] == items;
    r := Ok(data);
  }

  /**
   * One page request: the answer, or `Raised` when `requests.get(url)`
   * raises, which nothing in the script catches.
   */
  datatype Response = Response(status: int, items: seq<Item>) | Raised

  /** `obtener_datos_pagina`: the rows of a page and whether to go on. */
  function PageData(yes: string, r: Response): Result<(seq<Row>, bool), Crash> {
    if r.Raised? then Err(RequestFailed)
    else if r.status != 200 || |r.items| == 0 then Ok(([], false))
    else match TryFilterMap(r.items, p => ItemRow(yes, p))
      case Err(e) => Err(e)
      case Ok(rows) => Ok((rows, true))
  }

  /** The loop goes on exactly after a page answered 200 with product items, even if none of them gave a row. */
  lemma PageDataSpec(yes: string, r: Response)
    ensures PageData(yes, r).Ok? && PageData(yes, r).value.1 <==>
              r.Response? && r.status == 200 && |r.items| > 0 && forall i :: 0 <= i < |r.items| ==> ItemRow(yes, r.items[i]).Ok?
    ensures PageData(yes, r).Ok? && !PageData(yes, r).value.1 ==> PageData(yes, r).value.0 == []
    ensures r.Raised? ==> PageData(yes, r) == Err(RequestFailed)
  {
    if r.Response? {
      TryFilterMapFails(r.items, p => ItemRow(yes, p));
    }
  }

  /** The `q`-th page read, counting from page 1. */
  function Nth(site: int -> Response, q: nat): Response { site(1 + q) }

  /** The page that ends the loop: its flag is false, or its parse raised. */
  predicate Ends(yes: string, r: Response) { PageData(yes, r).Err? || !PageData(yes, r).value.1 }

  /** The rows a page contributes, a crashed page counting as none. */
  function PageRows(yes: string, r: Response): seq<Row> {
    match PageData(yes, r)
    case Ok(v) => v.0
    case Err(_) => []
  }

  /**
   * `main`: read pages 1, 2, ... while the flag says so, then write the CSV
   * (`saved`) only if some row was collected. A crash ends the run before
   * anything is written. The site is assumed to end somewhere (`last`).
   */
  method Scrape(yes: string, site: int -> Response, ghost last: int)
    returns (allData: seq<Row>, read: nat, crash: Option<Crash>, saved: Option<seq<Row>>)
    requires last >= 1 && Ends(yes, site(last))
    ensures Ends(yes, Nth(site, read)) && forall q: nat :: q < read ==> !Ends(yes, Nth(site, q))
    ensures allData == Paging.Collected(n => PageRows(yes, site(n)), 1, read)
    ensures crash.Some? <==> PageData(yes, Nth(site, read)).Err?
    ensures crash.Some? ==> saved.None?
    ensures crash.None? ==> (saved.Some? <==> allData != []) && (saved.Some? ==> saved.value == allData)
  {
    ghost var pages := n => PageRows(yes, site(n));
    allData := [];
    read := 0;
    while true
      invariant 1 + read <= last
      invariant forall q: nat :: q < read ==> !Ends(yes, Nth(site, q))
      invariant allData == Paging.Collected(pages, 1, read)
      decreases last - 1 - read
    {
      var page := PageData(yes, site(1 + read));
      if page.Err? {
        return allData, read, Some(page.error), None;
      }
      var (datos, continuar) := page.value;
      if !continuar {
        break;
      }
      assert datos == Paging.Page(pages, 1, read);
      allData := allData + datos;
      read := read + 1;
    }
    crash := None;
    if allData != [] {
      saved := Some(allData);
    } else {
      saved := None;
    }
  }
}
