/**
 * The Scryfall list scraper (Lista_Cartas.py): the list page gives the set
 * name and one entry per card; each card page is read concurrently into a
 * record (name, cost, type, rules text, stats, artist and the format
 * legalities), the records of the pages that answered are kept in the order
 * the requests complete, and the file name is derived from the set name.
 */
module ListaCartas {
  import opened Wrappers
  import opened Text
  import opened Seqs
  import opened Listing

  const Site := "https://scryfall.com"

  /** `obtener_nombre_set` without a title. */
  const UnknownSet := "Scryfall_Set_Desconocido"

  /** The set name `scrapear_lista` returns when the list page fails. */
  const FailedSet := "Set_Desconocido"

  /** The name of a list entry without a label. */
  const UnknownCard := "Desconocido"

  // ---------------------------------------------------------------
  // Text helpers
  // ---------------------------------------------------------------

  /** `sep.join(parts)` */
  function Join(parts: seq<string>, sep: string): string {
    if |parts| == 0 then [] else if |parts| == 1 then parts[0] else parts[0] + sep + Join(parts[1..], sep)
  }

  /** One more part adds the separator and the part at the end. */
  lemma {:induction false} JoinSnoc(parts: seq<string>, p: string, sep: string)
    requires |parts| > 0
    ensures Join(parts + [p], sep) == Join(parts, sep) + sep + p
    decreases |parts|
  {
    if |parts| == 1 {
      assert (parts + [p])[1..] == [p];
    } else {
      assert (parts + [p])[1..] == parts[1..] + [p];
      JoinSnoc(parts[1..], p, sep);
    }
  }

  /** Occurrences of `c` in `s`. */
  function Count(s: string, c: char): nat {
    if |s| == 0 then 0 else (if s[0] == c then 1 else 0) + Count(s[1..], c)
  }

  lemma {:induction false} CountAppend(a: string, b: string, c: char)
    ensures Count(a + b, c) == Count(a, c) + Count(b, c)
    decreases |a|
  {
    if |a| == 0 {
      assert a + b == b;
    } else {
      assert (a + b)[1..] == a[1..] + b;
      CountAppend(a[1..], b, c);
    }
  }

  lemma {:induction false} CountAbsent(s: string, c: char)
    requires c !in s
    ensures Count(s, c) == 0
    decreases |s|
  {
    if |s| > 0 {
      assert c !in s[1..] by { assert forall x :: x in s[1..] ==> x in s; }
      CountAbsent(s[1..], c);
    }
  }

  /**
   * When no part holds `c` and the separator holds it once, the joined text
   * holds it once per gap: the parts can be told apart again.
   */
  lemma {:induction false} JoinCount(parts: seq<string>, sep: string, c: char)
    requires Count(sep, c) == 1 && forall i :: 0 <= i < |parts| ==> c !in parts[i]
    ensures Count(Join(parts, sep), c) == if |parts| == 0 then 0 else |parts| - 1
    decreases |parts|
  {
    if |parts| == 1 {
      CountAbsent(parts[0], c);
    } else if |parts| > 1 {
      JoinCount(parts[1..], sep, c);
      CountAbsent(parts[0], c);
      CountAppend(parts[0], sep, c);
      CountAppend(parts[0] + sep, Join(parts[1..], sep), c);
    }
  }

  // ---------------------------------------------------------------
  // The legalities dict
  // ---------------------------------------------------------------

  /** One `dt`/`dd` pair of the legality table: the format and its state. */
  datatype Entry = Entry(format: string, state: string)

  /** `d[k] = v` on a dict kept as its entries in insertion order. */
  function Put(d: seq<Entry>, k: string, v: string): seq<Entry> {
    if |d| == 0 then [Entry(k, v)]
    else if d[0].format == k then [Entry(k, v)] + d[1..]
    else [d[0]] + Put(d[1..], k, v)
  }

  /** `d.get(k)` */
  function Lookup(d: seq<Entry>, k: string): Option<string> {
    if |d| == 0 then None else if d[0].format == k then Some(d[0].state) else Lookup(d[1..], k)
  }

  /** The keys of the dict, in order. */
  function Keys(d: seq<Entry>): seq<string> {
    if |d| == 0 then [] else [d[0].format] + Keys(d[1..])
  }

  predicate DistinctKeys(d: seq<Entry>) {
    forall i, j :: 0 <= i < j < |d| ==> d[i].format != d[j].format
  }

  /** A key is found exactly when it is one of the keys. */
  lemma {:induction false} LookupKeys(d: seq<Entry>, k: string)
    ensures Lookup(d, k).Some? <==> k in Keys(d)
    decreases |d|
  {
    if |d| > 0 {
      LookupKeys(d[1..], k);
    }
  }

  /**
   * After `d[k] = v` the key maps to `v`, every other key keeps its value,
   * keys stay distinct, and a new key goes to the end while an old one keeps
   * its place.
   */
  lemma {:induction false} PutSpec(d: seq<Entry>, k: string, v: string, j: string)
    requires DistinctKeys(d)
    ensures DistinctKeys(Put(d, k, v))
    ensures Lookup(Put(d, k, v), k) == Some(v)
    ensures j != k ==> Lookup(Put(d, k, v), j) == Lookup(d, j)
    ensures Keys(Put(d, k, v)) == if k in Keys(d) then Keys(d) else Keys(d) + [k]
    decreases |d|
  {
    if |d| > 0 {
      assert DistinctKeys(d[1..]) by {
        forall a, b | 0 <= a < b < |d[1..]| ensures d[1..][a].format != d[1..][b].format {
          assert d[1..][a] == d[a + 1] && d[1..][b] == d[b + 1];
        }
      }
      PutSpec(d[1..], k, v, j);
      if d[0].format == k {
        LookupKeys(d[1..], k);
        KeysFormats(d[1..]);
        assert k !in Keys(d[1..]) by {
          forall i | 0 <= i < |Keys(d[1..])| ensures Keys(d[1..])[i] != k {
            assert d[i + 1].format != d[0].format;
          }
        }
        KeysFormats(d);
      } else {
        var r := [d[0]] + Put(d[1..], k, v);
        KeysFormats(d[1..]);
        KeysFormats(Put(d[1..], k, v));
        assert DistinctKeys(r) by {
          forall a, b | 0 <= a < b < |r| ensures r[a].format != r[b].format {
            if a == 0 {
              var kb := r[b].format;
              assert kb in Keys(Put(d[1..], k, v)) by { assert Keys(Put(d[1..], k, v))[b - 1] == kb; }
              if kb == k {
              } else {
                assert kb in Keys(d[1..]);
                var i :| 0 <= i < |Keys(d[1..])| && Keys(d[1..])[i] == kb;
                assert d[i + 1].format == kb;
              }
            }
          }
        }
      }
    }
  }

  /** The keys are the formats of the entries, position by position. */
  lemma {:induction false} KeysFormats(d: seq<Entry>)
    ensures |Keys(d)| == |d| && forall i :: 0 <= i < |d| ==> Keys(d)[i] == d[i].format
    decreases |d|
  {
    if |d| > 0 {
      KeysFormats(d[1..]);
    }
  }

  /** A row of the legality table: the texts of its `dt` and `dd`, each if present. */
  datatype LegalityRow = LegalityRow(format: Option<string>, state: Option<string>)

  /** The `legalidades` dict after the rows: every complete row stores its stripped state under its stripped format. */
  function Legalities(rows: seq<LegalityRow>): seq<Entry> {
    if |rows| == 0 then []
    else
      var d := Legalities(rows[..|rows| - 1]);
      var r := rows[|rows| - 1];
      if r.format.Some? && r.state.Some? then Put(d, Strip(r.format.value), Strip(r.state.value)) else d
  }

  /** The state of the last complete row whose stripped format is `k`. */
  function LastState(rows: seq<LegalityRow>, k: string): Option<string> {
    if |rows| == 0 then None
    else
      var r := rows[|rows| - 1];
      if r.format.Some? && r.state.Some? && Strip(r.format.value) == k then Some(Strip(r.state.value))
      else LastState(rows[..|rows| - 1], k)
  }

  /** The dict has one entry per format, holding the state of that format's last row. */
  lemma {:induction false} LegalitiesSpec(rows: seq<LegalityRow>, k: string)
    ensures DistinctKeys(Legalities(rows))
    ensures Lookup(Legalities(rows), k) == LastState(rows, k)
    ensures k in Keys(Legalities(rows)) <==> LastState(rows, k).Some?
    decreases |rows|
  {
    if |rows| > 0 {
      var init := rows[..|rows| - 1];
      var r := rows[|rows| - 1];
      LegalitiesSpec(init, k);
      if r.format.Some? && r.state.Some? {
        PutSpec(Legalities(init), Strip(r.format.value), Strip(r.state.value), k);
      }
    }
    LookupKeys(Legalities(rows), k);
  }

  /** The loop over `.card-legality-item` rows filling the dict. */
  method CollectLegalities(rows: seq<LegalityRow>) returns (legalidades: seq<Entry>)
    ensures legalidades == Legalities(rows)
  {
    legalidades := [];
    var i := 0;
    while i < |rows|
      invariant i <= |rows|
      invariant legalidades == Legalities(rows[..i])
    {
      assert rows[..i + 1][..i] == rows[..i];
      var row := rows[i];
      if row.format.Some? && row.state.Some? {
        legalidades := Put(legalidades, Strip(row.format.value), Strip(row.state.value));
      }
      i := i + 1;
    }
    assert rows[..i] == rows;
  }

  /** `f"{k}:{v}"` */
  function EntryText(e: Entry): string { e.format + ":" + e.state }

  function EntryTexts(d: seq<Entry>): (ts: seq<string>)
    ensures |ts| == |d| && forall i :: 0 <= i < |d| ==> ts[i] == EntryText(d[i])
  {
    if |d| == 0 then [] else [EntryText(d[0])] + EntryTexts(d[1..])
  }

  /** The legalities cell: `", ".join(f"{k}:{v}" for k, v in d.items())`. */
  function LegalitiesCell(d: seq<Entry>): string {
    Join(EntryTexts(d), ", ")
  }

  /**
   * An empty dict gives an empty cell; one more entry adds ", k:v" at the
   * end; and when no format or state holds a comma, the cell holds one comma
   * fewer than the dict has entries.
   */
  lemma {:induction false} LegalitiesCellSpec(d: seq<Entry>, e: Entry)
    ensures LegalitiesCell([]) == ""
    ensures |d| > 0 ==> LegalitiesCell(d + [e]) == LegalitiesCell(d) + ", " + e.format + ":" + e.state
    ensures (forall i :: 0 <= i < |d| ==> ',' !in d[i].format && ',' !in d[i].state) && |d| > 0 ==>
              Count(LegalitiesCell(d), ',') == |d| - 1
  {
    if |d| > 0 {
      assert EntryTexts(d + [e]) == EntryTexts(d) + [EntryText(e)];
      JoinSnoc(EntryTexts(d), EntryText(e), ", ");
      if forall i :: 0 <= i < |d| ==> ',' !in d[i].format && ',' !in d[i].state {
        forall i | 0 <= i < |d| ensures ',' !in EntryTexts(d)[i] {
          assert ',' !in d[i].format + ":" + d[i].state;
        }
        assert Count(", ", ',') == 1;
        JoinCount(EntryTexts(d), ", ", ',');
      }
    }
  }

  // ---------------------------------------------------------------
  // obtener_detalle_carta
  // ---------------------------------------------------------------

  /**
   * A card page: the text of the name, of each `abbr` of the mana cost, of
   * the type line, of each paragraph of the rules text, of the stats and of
   * the artist link, each element if present, and the legality rows.
   */
  datatype DetailPage = DetailPage(
    name: Option<string>, cost: Option<seq<string>>, typeLine: Option<string>,
    oracle: Option<seq<string>>, stats: Option<string>, artist: Option<string>,
    legality: seq<LegalityRow>)

  /** The record of one card. */
  datatype Card = Card(
    name: string, url: string, cost: string, typeLine: string,
    description: string, stats: string, artist: string, legalities: seq<Entry>)

  /** `limpiar_texto(t) if t else ""` */
  function CleanOr(t: Option<string>): string {
    if t.Some? then NormalizeSpaces(t.value) else ""
  }

  function Normalized(ps: seq<string>): (ns: seq<string>)
    ensures |ns| == |ps| && forall i :: 0 <= i < |ps| ==> ns[i] == NormalizeSpaces(ps[i])
  {
    if |ps| == 0 then [] else [NormalizeSpaces(ps[0])] + Normalized(ps[1..])
  }

  /** `"".join(abbr.text for abbr in ...)`: the cost symbols are not cleaned. */
  function Concat(ps: seq<string>): string {
    if |ps| == 0 then [] else ps[0] + Concat(ps[1..])
  }

  /** The record read from a card page that answered. */
  function ReadDetail(nombre: string, url: string, p: DetailPage): Card {
    Card(
      if p.name.Some? then NormalizeSpaces(p.name.value) else nombre,
      url,
      if p.cost.Some? then Concat(p.cost.value) else "",
      CleanOr(p.typeLine),
      if p.oracle.Some? then Join(Normalized(p.oracle.value), "\n") else "",
      CleanOr(p.stats),
      CleanOr(p.artist),
      Legalities(p.legality))
  }

  /**
   * `obtener_detalle_carta(session, nombre, url)`: `None` when there is no
   * link to request, when the request fails or when `raise_for_status` raises.
   */
  function Detail(nombre: string, url: Option<string>, detail: string -> Attempt<DetailPage>): Option<Card> {
    if url.None? then None
    else
      match Outcome(detail(url.value))
      case None => None
      case Some(p) => Some(ReadDetail(nombre, url.value, p))
  }

  /**
   * A record exists exactly when there is a link whose request answered
   * with a status below 400 or above 599; its name, type, stats and artist
   * are then clean (single blanks, no outer whitespace), its address is the
   * link, and its legalities have one entry per format.
   */
  lemma {:induction false} DetailSpec(nombre: string, url: Option<string>, detail: string -> Attempt<DetailPage>)
    ensures Detail(nombre, url, detail).Some? <==>
              url.Some? && detail(url.value).Answered? && !(400 <= detail(url.value).status < 600)
    ensures Detail(nombre, url, detail).Some? ==>
              var c := Detail(nombre, url, detail).value;
              c.url == url.value
              && (c.name == nombre || SingleSpaced(c.name))
              && SingleSpaced(c.typeLine) && SingleSpaced(c.stats) && SingleSpaced(c.artist)
              && DistinctKeys(c.legalities)
  {
    if Detail(nombre, url, detail).Some? {
      var p := Outcome(detail(url.value)).value;
      LegalitiesSpec(p.legality, "");
    }
  }

  // ---------------------------------------------------------------
  // obtener_nombre_set and scrapear_lista
  // ---------------------------------------------------------------

  /** `obtener_nombre_set(soup)`, given the text of the set title, if any. */
  function SetName(title: Option<string>): string {
    if title.Some? then NormalizeSpaces(title.value) else UnknownSet
  }

  /** Without a title the name is "Scryfall_Set_Desconocido"; with one it is the cleaned title, already clean. */
  lemma {:induction false} SetNameSpec(title: Option<string>)
    ensures title.None? ==> SetName(title) == UnknownSet
    ensures title.Some? ==> SingleSpaced(SetName(title)) && Words(SetName(title)) == Words(Strip(title.value))
    ensures title.Some? ==> NormalizeSpaces(SetName(title)) == SetName(title)
  {
    if title.Some? {
      NormalizeSpacesWords(title.value);
      NormalizeSpacesIdempotent(title.value);
    }
  }

  /** An entry of the card grid: the text of its invisible label (`caption`) and its `href`, each if present. */
  datatype ListItem = ListItem(caption: Option<string>, href: Option<string>)

  /** The list page: the text of the set title, if any, and the grid entries. */
  datatype ListPage = ListPage(title: Option<string>, items: seq<ListItem>)

  /** What is submitted for one entry: the card name and the address to read, if any. */
  datatype Task = Task(name: string, url: Option<string>)

  /** `enlace = "https://scryfall.com" + enlace` when it is a non-empty path not starting with "http". */
  function Link(href: Option<string>): Option<string> {
    if href.Some? && href.value != [] && !("http" <= href.value) then Some(Site + href.value) else href
  }

  function TaskOf(item: ListItem): Task {
    Task(if item.caption.Some? then NormalizeSpaces(item.caption.value) else UnknownCard, Link(item.href))
  }

  function Tasks(items: seq<ListItem>): (ts: seq<Task>)
    ensures |ts| == |items| && forall i :: 0 <= i < |items| ==> ts[i] == TaskOf(items[i])
  {
    if |items| == 0 then [] else [TaskOf(items[0])] + Tasks(items[1..])
  }

  function DetailOf(detail: string -> Attempt<DetailPage>): Task -> Option<Card> {
    (t: Task) => Detail(t.name, t.url, detail)
  }

  /**
   * `scrapear_lista(url_lista)`: `list` is the request for the list page
   * and `completed` lists the queued entries in the order their futures
   * complete, a reordering of what was submitted. A failed list gives no
   * card and "Set_Desconocido"; otherwise the records are those of the
   * entries whose page answered, in completion order, and so, as a
   * multiset, exactly the records of everything submitted.
   */
  method ScrapeList(list: Attempt<ListPage>, detail: string -> Attempt<DetailPage>, completed: seq<Task>)
    returns (cartas: seq<Card>, setName: string)
    requires Outcome(list).Some? ==> multiset(completed) == multiset(Tasks(Outcome(list).value.items))
    ensures Outcome(list).None? ==> cartas == [] && setName == FailedSet
    ensures Outcome(list).Some? ==>
              setName == SetName(Outcome(list).value.title)
              && cartas == FilterMap(completed, DetailOf(detail))
              && multiset(cartas) == multiset(FilterMap(Tasks(Outcome(list).value.items), DetailOf(detail)))
  {
    var page := Outcome(list);
    if page.None? {
      return [], FailedSet;
    }
    setName := SetName(page.value.title);
    var tareas := Submit(page.value.items);
    cartas := Gather(completed, detail);
    FilterMapPerm(completed, tareas, DetailOf(detail));
  }

  /** The submitting loop: one task per grid entry, in order. */
  method Submit(items: seq<ListItem>) returns (tareas: seq<Task>)
    ensures tareas == Tasks(items)
  {
    tareas := [];
    var i := 0;
    while i < |items|
      invariant i <= |items|
      invariant tareas == Tasks(items[..i])
    {
      assert Tasks(items[..i + 1]) == Tasks(items[..i]) + [TaskOf(items[i])];
      tareas := tareas + [TaskOf(items[i])];
      i := i + 1;
    }
    assert items[..i] == items;
  }

  /** The `as_completed` loop: the record of every completed task that has one, in completion order. */
  method Gather(completed: seq<Task>, detail: string -> Attempt<DetailPage>) returns (cartas: seq<Card>)
    ensures cartas == FilterMap(completed, DetailOf(detail))
  {
    cartas := [];
    var n := 0;
    while n < |completed|
      invariant n <= |completed|
      invariant cartas == FilterMap(completed[..n], DetailOf(detail))
    {
      var result := DetailOf(detail)(completed[n]);
      assert FilterMap(completed[..n + 1], DetailOf(detail)) == cartas + (if result.Some? then [result.value] else []) by {
        assert completed[..n + 1][..n] == completed[..n];
      }
      cartas := cartas + if result.Some? then [result.value] else [];
      n := n + 1;
    }
    assert completed[..n] == completed;
  }

  // ---------------------------------------------------------------
  // guardar_csv
  // ---------------------------------------------------------------

  /** `c.isalnum() or c in (" ", "-", "_")` */
  predicate FileChar(c: char) { IsAlnum(c) || c == ' ' || c == '-' || c == '_' }

  function KeepFileChars(s: string): (r: string)
    ensures forall c :: c in r ==> FileChar(c) && c in s
  {
    if |s| == 0 then [] else (if FileChar(s[0]) then [s[0]] else []) + KeepFileChars(s[1..])
  }

  /** `nombre_limpio`: the set name with only the allowed characters, stripped. */
  function FileStem(setName: string): string {
    Strip(KeepFileChars(setName))
  }

  /** The stem holds only allowed characters and no outer whitespace, and cleaning it again changes nothing. */
  lemma {:induction false} FileStemSpec(setName: string)
    ensures forall c :: c in FileStem(setName) ==> FileChar(c)
    ensures NoOuterSpace(FileStem(setName))
    ensures FileStem(FileStem(setName)) == FileStem(setName)
  {
    var k := KeepFileChars(setName);
    StripSpec(k);
    var a, b :| 0 <= a <= b <= |k| && Strip(k) == k[a..b];
    assert forall i :: a <= i < b ==> k[i] in k;
    KeepAllowed(FileStem(setName));
    StripNoSpace(FileStem(setName));
  }

  /** Text made of allowed characters only is kept whole. */
  lemma {:induction false} KeepAllowed(s: string)
    requires forall c :: c in s ==> FileChar(c)
    ensures KeepFileChars(s) == s
    decreases |s|
  {
    if |s| > 0 {
      assert s[0] in s;
      assert forall c :: c in s[1..] ==> c in s;
      KeepAllowed(s[1..]);
    }
  }

  /** The header row of the file. */
  const Header := ["Nombre", "URL", "Coste", "Tipo", "Descripcion", "Ataque/Vida", "Artista", "Legalidades"]

  /** The row written for a record. */
  function CsvRow(c: Card): seq<string> {
    [c.name, c.url, c.cost, c.typeLine, c.description, c.stats, c.artist, LegalitiesCell(c.legalities)]
  }

  /** The script's end: no address typed, nothing found, or the file's stem and rows. */
  datatype Run = NoUrl | NothingFound | Saved(stem: string, rows: seq<seq<string>>)

  function Rows(cartas: seq<Card>): (rows: seq<seq<string>>)
    ensures |rows| == |cartas| && forall i :: 0 <= i < |cartas| ==> rows[i] == CsvRow(cartas[i])
  {
    if |cartas| == 0 then [] else [CsvRow(cartas[0])] + Rows(cartas[1..])
  }

  /**
   * The main block: the typed address is stripped and must not be empty;
   * `list` gives the request of the list page for an address.
   */
  method Script(typed: string, list: string -> Attempt<ListPage>, detail: string -> Attempt<DetailPage>, completed: seq<Task>)
    returns (run: Run)
    requires Strip(typed) != [] && Outcome(list(Strip(typed))).Some? ==>
               multiset(completed) == multiset(Tasks(Outcome(list(Strip(typed))).value.items))
    ensures Strip(typed) == [] <==> run == NoUrl
    ensures run.Saved? ==>
              Outcome(list(Strip(typed))).Some?
              && run.stem == FileStem(SetName(Outcome(list(Strip(typed))).value.title))
              && |run.rows| == |FilterMap(completed, DetailOf(detail))| + 1
              && run.rows[0] == Header
              && forall i :: 0 < i < |run.rows| ==> run.rows[i] == CsvRow(FilterMap(completed, DetailOf(detail))[i - 1])
    ensures run == NothingFound <==>
              Strip(typed) != [] && (Outcome(list(Strip(typed))).None? || FilterMap(completed, DetailOf(detail)) == [])
  {
    var url := Strip(typed);
    if url == [] {
      return NoUrl;
    }
    var cartas, setName := ScrapeList(list(url), detail, completed);
    if cartas == [] {
      return NothingFound;
    }
    run := Saved(FileStem(setName), [Header] + Rows(cartas));
  }
}
