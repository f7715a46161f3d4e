/**
 * The Scryfall card identifier (idintificador.py): every non-blank line of
 * the card list, cut at its "#" and stripped, is searched on Scryfall; the
 * first card link of the results is opened and the card's name (without the
 * Arena "A-" prefix), mana cost and type line are read. A failed step gives
 * a row with the searched name and empty fields.
 */
module Identificador {
  import opened Wrappers
  import opened Text
  import opened Seqs
  import opened Offers

  const Site := "https://scryfall.com"

  // ---------------------------------------------------------------
  // limpiar_linea
  // ---------------------------------------------------------------

  /** The rest of `t` from its first line break on, or nothing when it has none. */
  function FromNewline(t: string): (r: string)
    ensures |r| <= |t| && r == t[|t| - |r|..]
    ensures r == [] || r[0] == '\n'
    ensures '\n' !in t[..|t| - |r|]
  {
    if t == [] then []
    else if t[0] == '\n' then t
    else
      var r := FromNewline(t[1..]);
      assert t[..|t| - |r|] == [t[0]] + t[1..][..|t| - 1 - |r|];
      r
  }

  /** `re.sub(r"#.*", "", s)`: every "#" is deleted with what follows it on its line. */
  function SubHash(s: string): (r: string)
    ensures '#' !in r
    decreases |s|
  {
    if s == [] then []
    else if s[0] == '#' then SubHash(FromNewline(s[1..]))
    else [s[0]] + SubHash(s[1..])
  }

  /** `limpiar_linea(linea)` */
  function CleanLine(linea: string): string { Strip(SubHash(linea)) }

  /** The cleaned line has no "#" and no outer whitespace. */
  lemma {:induction false} CleanLineSpec(linea: string)
    ensures '#' !in CleanLine(linea) && NoOuterSpace(CleanLine(linea))
  {
    var s := SubHash(linea);
    StripSpec(s);
    var a, b :| 0 <= a <= b <= |s| && Strip(s) == s[a..b];
    assert forall i :: a <= i < b ==> s[i] in s;
  }

  /** On a single line, everything from the first "#" on is deleted. */
  lemma {:induction false} SubHashOneLine(s: string)
    requires '\n' !in s
    ensures SubHash(s) == Before(s, '#')
    decreases |s|
  {
    if s != [] {
      assert '\n' !in s[1..] by { assert forall c :: c in s[1..] ==> c in s; }
      if s[0] == '#' {
        assert FromNewline(s[1..]) == [];
      } else {
        SubHashOneLine(s[1..]);
      }
    }
  }

  /** A line read from the file, its line break included, is cleaned to its text before "#", stripped. */
  lemma {:induction false} CleanFileLine(body: string)
    requires '\n' !in body
    ensures CleanLine(body + "\n") == Strip(Before(body, '#'))
  {
    SubHashLineBreak(body);
    StripTrailingSpace(Before(body, '#'), '\n');
  }

  lemma {:induction false} SubHashLineBreak(body: string)
    requires '\n' !in body
    ensures SubHash(body + "\n") == Before(body, '#') + "\n"
    decreases |body|
  {
    assert SubHash("\n") == "\n" by {
      assert SubHash("\n") == "\n" + SubHash([]);
    }
    if body != [] {
      var t := body + "\n";
      var tail := body[1..];
      assert t[1..] == tail + "\n";
      assert '\n' !in tail by { assert forall c :: c in tail ==> c in body; }
      if body[0] == '#' {
        NewlineAtEnd(tail);
        assert SubHash(t) == SubHash("\n");
      } else {
        SubHashLineBreak(tail);
        assert SubHash(t) == [body[0]] + SubHash(tail + "\n");
      }
    }
  }

  lemma {:induction false} NewlineAtEnd(x: string)
    requires '\n' !in x
    ensures FromNewline(x + "\n") == "\n"
    decreases |x|
  {
    if x != [] {
      assert (x + "\n")[1..] == x[1..] + "\n";
      assert '\n' !in x[1..] by { assert forall c :: c in x[1..] ==> c in x; }
      NewlineAtEnd(x[1..]);
    }
  }

  // ---------------------------------------------------------------
  // obtener_datos_carta
  // ---------------------------------------------------------------

  /** `f"https://scryfall.com/search?q={nombre.replace(' ', '+')}"` */
  function SearchUrl(nombre: string): string {
    Site + "/search?q=" + PlusSpaces(nombre)
  }

  /**
   * `urljoin("https://scryfall.com", href)` for the references a search page
   * links cards with: absolute http(s) links, "//" links, paths, and
   * query or fragment references, none of them with "." or ".." segments.
   */
  function JoinUrl(href: string): (url: string)
    ensures "http" <= url
  {
    if "https://" <= href || "http://" <= href then href
    else if "//" <= href then "https:" + href
    else if "/" <= href then Site + href
    else if href == "" || href[0] == '?' || href[0] == '#' then Site + href
    else Site + "/" + href
  }

  /** An absolute link is kept, a path is put under the site, and joining twice changes nothing. */
  lemma {:induction false} JoinUrlSpec(href: string)
    ensures "https://" <= href ==> JoinUrl(href) == href
    ensures "/" <= href && !("//" <= href) ==> JoinUrl(href) == Site + href
    ensures href != [] && href[0] == '?' ==> JoinUrl(href) == Site + href
    ensures JoinUrl(JoinUrl(href)) == JoinUrl(href)
  {
    var u := JoinUrl(href);
    if "/" <= href {
      assert href[0] == '/';
    }
    if !("https://" <= href || "http://" <= href) {
      assert "https://" <= u by {
        if "//" <= href {
          assert u == "https:" + href;
          assert u[..8] == "https:" + href[..2];
        } else {
          assert Site[..8] == "https://";
          assert u[..8] == Site[..8];
        }
      }
      assert JoinUrl(u) == u;
    }
  }

  /**
   * A search page: its status code and the `href` of each anchor, in
   * document order (`None` for an anchor without one).
   */
  datatype SearchPage = SearchPage(status: int, anchors: seq<Option<string>>)

  /** An anchor `soup.find("a", href=re.compile(r"/card/"))` accepts. */
  function CardLink(): Option<string> -> bool {
    (a: Option<string>) => IsCardLink(a)
  }

  predicate IsCardLink(a: Option<string>) {
    a.Some? && Contains(a.value, "/card/")
  }

  /**
   * A card page: its status code, the text of the name, the texts of the
   * `abbr` symbols of the mana cost and the text of the type line, each if
   * the element is there.
   */
  datatype CardPage = CardPage(status: int, name: Option<string>, cost: Option<seq<string>>, typeLine: Option<string>)

  /** A row of the output file: name, mana cost, type line, card address. */
  datatype Row = Row(name: string, cost: string, typeLine: string, url: string)

  /** `requests.get` raised; nothing catches it. */
  datatype Raised = Raised

  /** `re.sub(r"^A-", "", nombre)`: the Arena prefix, removed once and only at the start. */
  function ArenaName(nombre: string): string {
    if |nombre| >= 2 && nombre[..2] == "A-" then nombre[2..] else nombre
  }

  lemma {:induction false} ArenaNameSpec(nombre: string, rest: string)
    ensures "A-" <= nombre ==> ArenaName(nombre) == nombre[2..]
    ensures !("A-" <= nombre) ==> ArenaName(nombre) == nombre
    ensures ArenaName("A-" + rest) == rest
  {
    assert ("A-" + rest)[..2] == "A-";
    assert ("A-" + rest)[2..] == rest;
  }

  /** `"".join(abbr.get_text(strip=True) for abbr in ...)` */
  function Joined(symbols: seq<string>): string {
    if |symbols| == 0 then [] else Joined(symbols[..|symbols| - 1]) + Strip(symbols[|symbols| - 1])
  }

  /** What the script reads from a card page that answered 200. */
  function ReadCard(nombre: string, page: CardPage, url: string): Row {
    Row(if page.name.Some? then ArenaName(Strip(page.name.value)) else nombre,
        if page.cost.Some? then Joined(page.cost.value) else "",
        if page.typeLine.Some? then Strip(page.typeLine.value) else "",
        url)
  }

  /**
   * `obtener_datos_carta(nombre)`: `search` and `card` give what the
   * request for an address returns, `None` when it raises.
   */
  function CardData(nombre: string, search: string -> Option<SearchPage>, card: string -> Option<CardPage>): Result<Row, Raised> {
    match search(SearchUrl(nombre))
    case None => Err(Raised)
    case Some(s) =>
      if s.status != 200 then Ok(Row(nombre, "", "", ""))
      else
        var k := FirstIndex(s.anchors, CardLink());
        if k == |s.anchors| then Ok(Row(nombre, "", "", ""))
        else
          var url := JoinUrl(s.anchors[k].value);
          match card(url)
          case None => Err(Raised)
          case Some(p) =>
            if p.status != 200 then Ok(Row(nombre, "", "", url))
            else Ok(ReadCard(nombre, p, url))
  }

  /** The address of the first card link of a search page that answered 200, if it has one. */
  function FoundUrl(s: SearchPage): Option<string> {
    var k := FirstIndex(s.anchors, CardLink());
    if s.status != 200 || k == |s.anchors| then None else Some(JoinUrl(s.anchors[k].value))
  }

  /**
   * The row has no address exactly when the search failed or found no card
   * link, and then only the searched name; otherwise the address is that of
   * the first card link, and a card page that did not answer 200 leaves the
   * searched name and empty cost and type.
   */
  lemma {:induction false} CardDataSpec(nombre: string, search: string -> Option<SearchPage>, card: string -> Option<CardPage>)
    ensures CardData(nombre, search, card).Err? <==>
              search(SearchUrl(nombre)).None?
              || (FoundUrl(search(SearchUrl(nombre)).value).Some? && card(FoundUrl(search(SearchUrl(nombre)).value).value).None?)
    ensures CardData(nombre, search, card).Ok? ==>
              var r := CardData(nombre, search, card).value;
              var found := FoundUrl(search(SearchUrl(nombre)).value);
              (r.url == "" <==> found.None?)
              && (found.None? ==> r == Row(nombre, "", "", ""))
              && (found.Some? ==> r.url == found.value && "http" <= r.url)
              && (found.Some? && card(found.value).value.status != 200 ==> r == Row(nombre, "", "", found.value))
              && (r.name != nombre ==> found.Some? && card(found.value).value.name.Some?)
  {
  }

  // ---------------------------------------------------------------
  // main
  // ---------------------------------------------------------------

  /** `limpiar_linea(l) for l in f if l.strip()`: the test is on the line, the name is the cleaned line. */
  function NameOf(): string -> Option<string> {
    l => NameOfLine(l)
  }

  function NameOfLine(l: string): Option<string> {
    if Strip(l) == [] then None else Some(CleanLine(l))
  }

  function Names(lines: seq<string>): seq<string> {
    FilterMap(lines, NameOf())
  }

  function DataOf(search: string -> Option<SearchPage>, card: string -> Option<CardPage>): string -> Result<Row, Raised> {
    nombre => CardData(nombre, search, card)
  }

  /** Blank lines give no name; every name has no "#" and no outer whitespace. */
  lemma {:induction false} NamesSpec(lines: seq<string>)
    ensures |Names(lines)| <= |lines|
    ensures (forall i :: 0 <= i < |lines| ==> Strip(lines[i]) == []) ==> Names(lines) == []
    ensures forall n :: n in Names(lines) ==> '#' !in n && NoOuterSpace(n)
  {
    forall n | n in Names(lines) ensures '#' !in n && NoOuterSpace(n) {
      FilterMapIn(lines, NameOf(), n);
      var i :| 0 <= i < |lines| && NameOf()(lines[i]) == Some(n);
      CleanLineSpec(lines[i]);
    }
    if forall i :: 0 <= i < |lines| ==> Strip(lines[i]) == [] {
      if Names(lines) != [] {
        FilterMapIn(lines, NameOf(), Names(lines)[0]);
      }
    }
  }

  /** The loop of `main`: one row per name, in order, unless a request raises. */
  method Identify(lines: seq<string>, search: string -> Option<SearchPage>, card: string -> Option<CardPage>)
    returns (resultados: Result<seq<Row>, Raised>)
    ensures resultados == TryMap(Names(lines), DataOf(search, card))
    ensures resultados.Ok? ==> |resultados.value| == |Names(lines)|
                               && forall i :: 0 <= i < |Names(lines)| ==>
                                    CardData(Names(lines)[i], search, card).Ok? && resultados.value[i] == CardData(Names(lines)[i], search, card).value
    ensures resultados.Err? <==> exists i :: 0 <= i < |Names(lines)| && CardData(Names(lines)[i], search, card).Err?
  {
    var lineas := Names(lines);
    var rows: seq<Row> := [];
    var i := 0;
    while i < |lineas|
      invariant i <= |lineas|
      invariant TryMap(lineas[..i], DataOf(search, card)) == Ok(rows)
    {
      var datos := CardData(lineas[i], search, card);
      TryMapNext(lineas, i, DataOf(search, card));
      if datos.Err? {
        TryMapErr(lineas, i + 1, DataOf(search, card));
        resultados := Err(Raised);
        TryMapSpec(lineas, DataOf(search, card));
        return;
      }
      rows := rows + [datos.value];
      i := i + 1;
    }
    assert lineas[..i] == lineas;
    resultados := Ok(rows);
    TryMapSpec(lineas, DataOf(search, card));
  }
}
