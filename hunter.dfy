/**
 * The Hunter Card TCG listing scraper: the yes/no prompt, the CLP price
 * format and its parser, the title cleaner, the image file name and the page
 * loop that collects every product of the singles catalogue.
 */
module Hunter {
  import opened Wrappers
  import opened Text
  import opened Patterns
  import opened Seqs
  import Paging

  const Site := "https://www.huntercardtcg.com"

  // ---------------------------------------------------------------
  // preguntar_si_no
  // ---------------------------------------------------------------

  /** The reply, stripped and lower-cased, as the prompt compares it. */
  function Answer(reply: string): string { Lower(Strip(reply)) }

  /** A reply that ends the prompt: end of input, "s" or "n". */
  predicate Decisive(reply: Option<string>) {
    reply.None? || Answer(reply.value) == "s" || Answer(reply.value) == "n"
  }

  /** Index of the first reply that ends the prompt, or the number of replies. */
  function FirstDecisive(replies: seq<Option<string>>): (k: nat)
    ensures k <= |replies|
    ensures k < |replies| ==> Decisive(replies[k])
    ensures forall j :: 0 <= j < k ==> !Decisive(replies[j])
  {
    if replies == [] then 0
    else if Decisive(replies[0]) then 0
    else 1 + FirstDecisive(replies[1..])
  }

  /**
   * The answer of the prompt to the replies typed in order (`None` in the
   * sequence is end of input); `None` as the result means the replies ran
   * out while the prompt was still asking.
   */
  function YesNo(replies: seq<Option<string>>): Option<bool> {
    var k := FirstDecisive(replies);
    if k == |replies| then None
    else Some(replies[k].Some? && Answer(replies[k].value) == "s")
  }

  /** `preguntar_si_no`: ask again until a reply is "s" or "n" or input ends. */
  method AskYesNo(replies: seq<Option<string>>) returns (answer: Option<bool>, asked: nat)
    ensures answer == YesNo(replies)
    ensures answer.Some? ==> asked == FirstDecisive(replies) + 1
    ensures answer.None? ==> asked == |replies|
  {
    asked := 0;
    while asked < |replies|
      invariant asked <= |replies|
      invariant forall j :: 0 <= j < asked ==> !Decisive(replies[j])
    {
      var reply := replies[asked];
      asked := asked + 1;
      if reply.None? {
        return Some(false), asked;
      }
      var r := Answer(reply.value);
      if r == "s" || r == "n" {
        FirstDecisiveIs(replies, asked - 1);
        return Some(r == "s"), asked;
      }
    }
    FirstDecisiveIs(replies, |replies|);
    answer := None;
  }

  /** The first deciding reply is the one all earlier replies leave undecided. */
  lemma FirstDecisiveIs(replies: seq<Option<string>>, k: nat)
    requires k <= |replies| && (k < |replies| ==> Decisive(replies[k]))
    requires forall j :: 0 <= j < k ==> !Decisive(replies[j])
    ensures FirstDecisive(replies) == k
  {
  }

  /** The prompt says yes exactly when the first deciding reply is "s". */
  lemma YesNoTrue(replies: seq<Option<string>>)
    ensures YesNo(replies) == Some(true) <==>
      exists k :: 0 <= k < |replies| && replies[k].Some? && Answer(replies[k].value) == "s"
                  && forall j :: 0 <= j < k ==> !Decisive(replies[j])
  {
    var f := FirstDecisive(replies);
    if YesNo(replies) == Some(true) {
      assert replies[f].Some? && Answer(replies[f].value) == "s";
    }
    forall k | 0 <= k < |replies| && replies[k].Some? && Answer(replies[k].value) == "s"
                  && (forall j :: 0 <= j < k ==> !Decisive(replies[j]))
      ensures YesNo(replies) == Some(true)
    {
      FirstDecisiveIs(replies, k);
    }
  }

  /** End of input answers no, and so does a first deciding "n". */
  lemma YesNoFalse(replies: seq<Option<string>>)
    ensures YesNo(replies) == Some(false) <==>
      exists k :: 0 <= k < |replies| && (replies[k].None? || Answer(replies[k].value) == "n")
                  && forall j :: 0 <= j < k ==> !Decisive(replies[j])
  {
    var f := FirstDecisive(replies);
    if YesNo(replies) == Some(false) {
      assert replies[f].None? || Answer(replies[f].value) == "n";
    }
    forall k | 0 <= k < |replies| && (replies[k].None? || Answer(replies[k].value) == "n")
                  && (forall j :: 0 <= j < k ==> !Decisive(replies[j]))
      ensures YesNo(replies) == Some(false)
    {
      FirstDecisiveIs(replies, k);
    }
  }

  // ---------------------------------------------------------------
  // formatear_moneda_clp and extraer_precio
  // ---------------------------------------------------------------

  /** `formatear_moneda_clp`: "$" and the amount with "." between thousands. */
  function FormatCLP(v: Option<nat>): string {
    match v
    case None => ""
    case Some(n) => "$" + GroupedNat(n, '.')
  }

  /** The format promised: nothing for no price, else "$" and the digits in groups of three. */
  lemma FormatCLPShape(v: Option<nat>)
    ensures v.None? <==> FormatCLP(v) == []
    ensures v.Some? ==> FormatCLP(v)[0] == '$' && ThousandsGrouped(FormatCLP(v)[1..], '.')
    ensures v.Some? ==> AllDigits(Remove(FormatCLP(v)[1..], '.')) && NatValue(Remove(FormatCLP(v)[1..], '.')) == v.value
  {
    if v.Some? {
      var g := GroupedNat(v.value, '.');
      assert FormatCLP(v)[1..] == g;
      GroupedNatShape(v.value, '.');
      GroupedNatDigits(v.value, '.');
    }
  }

  lemma FormatCLPExample()
    ensures FormatCLP(Some(12000)) == "$12.000"
  {
    assert GroupedNat(12, '.') == "12";
    assert Pad3(0) == "000";
  }

  predicate DigitOrDot(c: char) { IsDigit(c) || c == '.' }

  /** The matches of `\d[\d\.]*`. */
  function PriceRuns(text: string): seq<string> {
    Tokens(text, IsDigit, DigitOrDot)
  }

  /** A match with its dots removed is a digit string. */
  lemma RunDigits(p: string)
    requires IsRun(p)
    ensures AllDigits(Remove(p, '.'))
  {
    var d := Remove(p, '.');
    forall i | 0 <= i < |d| ensures IsDigit(d[i]) {
      assert d[i] in d;
    }
  }

  /** `int(p.replace(".", ""))` for one match; it always succeeds. */
  function RunValue(p: string): nat
    requires IsRun(p)
  {
    RunDigits(p);
    NatValue(Remove(p, '.'))
  }

  predicate IsRun(p: string) { forall i :: 0 <= i < |p| ==> DigitOrDot(p[i]) }

  /** The list `precios_int`. */
  function RunValues(ps: seq<string>): (vs: seq<nat>)
    requires forall p :: p in ps ==> IsRun(p)
    ensures |vs| == |ps|
  {
    seq(|ps|, i requires 0 <= i < |ps| => RunValue(ps[i]))
  }

  lemma RunsOfText(text: string)
    ensures forall p :: p in PriceRuns(text) ==> IsRun(p)
  {
  }

  /** The price `extraer_precio` reads: the least of the runs, `None` when there is none. */
  function LowestRun(text: string): (r: Option<nat>)
    ensures r.None? <==> forall i :: 0 <= i < |text| ==> !IsDigit(text[i])
    ensures r.Some? ==> exists p :: p in PriceRuns(text) && RunValue(p) == r.value
    ensures r.Some? ==> forall p :: p in PriceRuns(text) ==> r.value <= RunValue(p)
  {
    TokensNone(text, IsDigit, DigitOrDot);
    var ps := PriceRuns(text);
    if |ps| == 0 then None
    else
      RunValuesIn(ps);
      Some(MinNat(RunValues(ps)))
  }

  /** The values listed are exactly the values of the runs. */
  lemma RunValuesIn(ps: seq<string>)
    requires forall p :: p in ps ==> IsRun(p)
    ensures forall p :: p in ps ==> RunValue(p) in RunValues(ps)
    ensures forall v :: v in RunValues(ps) ==> exists p :: p in ps && RunValue(p) == v
  {
    var vs := RunValues(ps);
    forall p | p in ps ensures RunValue(p) in vs {
      var i :| 0 <= i < |ps| && ps[i] == p;
      assert vs[i] == RunValue(p);
    }
    forall v | v in vs ensures exists p :: p in ps && RunValue(p) == v {
      var i :| 0 <= i < |vs| && vs[i] == v;
      assert ps[i] in ps;
    }
  }

  /** `extraer_precio`: the loop over the matches, then `min`. */
  method ExtractPrice(text: string) returns (r: Option<nat>)
    ensures r == LowestRun(text)
  {
    if text == [] {
      return None;
    }
    var precios := PriceRuns(text);
    if precios == [] {
      return None;
    }
    var preciosInt: seq<nat> := [];
    var i := 0;
    while i < |precios|
      invariant 0 <= i <= |precios|
      invariant preciosInt == RunValues(precios[..i])
    {
      preciosInt := preciosInt + [RunValue(precios[i])];
      i := i + 1;
    }
    assert precios[..i] == precios;
    r := Some(MinNat(preciosInt));
  }

  /** The price column reads back as the price it was written from. */
  lemma {:induction false} PriceRoundTrip(v: Option<nat>)
    ensures LowestRun(FormatCLP(v)) == v
  {
    if v.Some? {
      var g := GroupedNat(v.value, '.');
      GroupedRun(v.value);
      TokensSkip("$", g, IsDigit, DigitOrDot);
      TokensWhole(g, IsDigit, DigitOrDot);
      assert PriceRuns(FormatCLP(v)) == [g];
      assert RunValues([g]) == [v.value];
    }
  }

  /** A grouped amount is one whole run. */
  lemma GroupedRun(n: nat)
    ensures GroupedNat(n, '.') != [] && IsDigit(GroupedNat(n, '.')[0])
    ensures forall i :: 1 <= i < |GroupedNat(n, '.')| ==> DigitOrDot(GroupedNat(n, '.')[i])
    ensures IsRun(GroupedNat(n, '.')) && RunValue(GroupedNat(n, '.')) == n
  {
    var g := GroupedNat(n, '.');
    GroupedNatChars(n, '.');
    forall i | 0 <= i < |g| ensures DigitOrDot(g[i]) { assert g[i] in g; }
    GroupedNatDigits(n, '.');
  }

  /** The runs of "$a - $b" are the two amounts. */
  lemma RangeRuns(a: string, b: string)
    requires a != [] && IsDigit(a[0]) && forall i :: 1 <= i < |a| ==> DigitOrDot(a[i])
    requires b != [] && IsDigit(b[0]) && forall i :: 1 <= i < |b| ==> DigitOrDot(b[i])
    ensures PriceRuns("$" + (a + (" – $" + b))) == [a, b]
  {
    RangeTail(b);
    TokensCons(a, " – $" + b, IsDigit, DigitOrDot);
    TokensSkip("$", a + (" – $" + b), IsDigit, DigitOrDot);
  }

  lemma RangeTail(b: string)
    requires b != [] && IsDigit(b[0]) && forall i :: 1 <= i < |b| ==> DigitOrDot(b[i])
    ensures PriceRuns(" – $" + b) == [b]
  {
    var sep := " – $";
    assert forall i :: 0 <= i < |sep| ==> !IsDigit(sep[i]);
    TokensSkip(sep, b, IsDigit, DigitOrDot);
    TokensWhole(b, IsDigit, DigitOrDot);
  }

  /** The documented range case: the lower end of a range is the price. */
  lemma LowestOfRange(lo: nat, hi: nat)
    ensures LowestRun(FormatCLP(Some(lo)) + " – " + FormatCLP(Some(hi))) == Some(if lo <= hi then lo else hi)
  {
    var a := GroupedNat(lo, '.');
    var b := GroupedNat(hi, '.');
    GroupedRun(lo);
    GroupedRun(hi);
    var text := "$" + (a + (" – $" + b));
    assert FormatCLP(Some(lo)) + " – " + FormatCLP(Some(hi)) == text;
    RangeRuns(a, b);
    assert RunValues([a, b]) == [lo, hi];
  }

  // ---------------------------------------------------------------
  // limpiar_nombre
  // ---------------------------------------------------------------

  predicate IsDash(c: char) { c == '-' || c == '–' }

  /** A match of `\s+[–-]\s+` begins at `i`. */
  predicate DashSepAt(s: string, i: nat) {
    i < |s| && IsSpace(s[i])
    && var j := i + LeadingSpaces(s[i..]);
       j + 1 < |s| && IsDash(s[j]) && IsSpace(s[j + 1])
  }

  /** Where the leftmost separator at or after `i` begins, or `|s|`. */
  function FirstDashSep(s: string, i: nat): (k: nat)
    requires i <= |s|
    ensures i <= k <= |s|
    ensures k < |s| ==> DashSepAt(s, k)
    ensures forall j :: i <= j < k ==> !DashSepAt(s, j)
    decreases |s| - i
  {
    if i == |s| then |s| else if DashSepAt(s, i) then i else FirstDashSep(s, i + 1)
  }

  /** `re.split(r"\s+[–-]\s+", s)[0]` */
  function CutAtDash(s: string): string {
    s[..FirstDashSep(s, 0)]
  }

  datatype Title = Title(name: string, foil: bool)

  /** The cut and strip applied once the groups are gone. */
  function CutAndStrip(s: string): string {
    Strip(CutAtDash(s))
  }

  /** `limpiar_nombre` of the title text. */
  function CleanName(titulo: string): Title {
    if titulo == [] then Title("", false)
    else Title(CutAndStrip(RemoveParenGroups(titulo)), SearchWord(titulo, "foil"))
  }

  /** A separator inside a slice is a separator of the whole text at the same place. */
  lemma DashSepSlice(s: string, a: nat, b: nat, j: nat)
    requires a <= b <= |s| && DashSepAt(s[a..b], j)
    ensures DashSepAt(s, a + j)
  {
    var t := s[a..b];
    assert s[a + j..] == t[j..] + s[b..];
    LeadingSpacesPrefix(t[j..], s[b..]);
  }

  /** The text before the first separator has none. */
  lemma CutAtDashClean(s: string)
    ensures forall j :: !DashSepAt(CutAtDash(s), j)
  {
    var k := FirstDashSep(s, 0);
    forall j | DashSepAt(CutAtDash(s), j) ensures false {
      DashSepSlice(s, 0, k, j);
    }
  }

  /** Nothing is cut from text that has no whitespace-surrounded dash. */
  lemma CutAtDashNone(s: string)
    requires forall j :: !DashSepAt(s, j)
    ensures CutAtDash(s) == s
  {
  }

  lemma FirstDashSepIs(s: string, k: nat)
    requires k <= |s| && (k < |s| ==> DashSepAt(s, k))
    requires forall j :: 0 <= j < k ==> !DashSepAt(s, j)
    ensures FirstDashSep(s, 0) == k
  {
  }

  /** Cutting and stripping leaves no group, no separator and no outer whitespace. */
  lemma CutAndStripSpec(s: string)
    requires NoParenGroup(s)
    ensures NoParenGroup(CutAndStrip(s))
    ensures forall j :: !DashSepAt(CutAndStrip(s), j)
    ensures NoOuterSpace(CutAndStrip(s))
  {
    var c := CutAtDash(s);
    NoParenGroupSlice(s, 0, FirstDashSep(s, 0));
    assert s[0..FirstDashSep(s, 0)] == c;
    StripNoParenGroup(c);
    StripSpec(c);
    CutAtDashClean(s);
    StripKeepsNoDash(c);
  }

  /** Stripping makes no separator. */
  lemma StripKeepsNoDash(c: string)
    requires forall j :: !DashSepAt(c, j)
    ensures forall j :: !DashSepAt(Strip(c), j)
  {
    var st := Strip(c);
    var a := LeadingSpaces(c);
    assert a + |st| <= |c| && st == c[a..a + |st|] by {
      StripSlice(c);
    }
    forall j | DashSepAt(st, j) ensures false {
      DashSepSlice(c, a, a + |st|, j);
    }
  }

  /** What `limpiar_nombre` promises. */
  lemma CleanNameSpec(titulo: string)
    ensures titulo == [] ==> CleanName(titulo) == Title("", false)
    ensures titulo != [] ==> (CleanName(titulo).foil <==> exists i :: WholeWordAt(titulo, i, "foil"))
    ensures NoParenGroup(CleanName(titulo).name)
    ensures forall j :: !DashSepAt(CleanName(titulo).name, j)
    ensures NoOuterSpace(CleanName(titulo).name)
  {
    if titulo != [] {
      SearchWordSpec(titulo, "foil");
      RemoveParenGroupsNoGroup(titulo);
      CutAndStripSpec(RemoveParenGroups(titulo));
    }
  }

  /** The name is the stripped text before the first separator, once groups are gone. */
  lemma CleanNameCut(titulo: string, k: nat)
    requires titulo != [] && k < |RemoveParenGroups(titulo)|
    requires DashSepAt(RemoveParenGroups(titulo), k)
    requires forall j :: 0 <= j < k ==> !DashSepAt(RemoveParenGroups(titulo), j)
    ensures CleanName(titulo).name == Strip(RemoveParenGroups(titulo)[..k])
  {
    FirstDashSepIs(RemoveParenGroups(titulo), k);
  }

  /** Hyphens that are not surrounded by whitespace are kept: "Jace-Beleren" stays whole. */
  lemma CleanNameKeepsHyphens(titulo: string)
    requires titulo != [] && forall j :: !DashSepAt(RemoveParenGroups(titulo), j)
    ensures CleanName(titulo).name == Strip(RemoveParenGroups(titulo))
  {
    CutAtDashNone(RemoveParenGroups(titulo));
  }

  // ---------------------------------------------------------------
  // The image file name in descargar_imagenes
  // ---------------------------------------------------------------

  /** The class `[A-Za-z0-9 _-]`. */
  predicate SafeChar(c: char) { IsAsciiLetter(c) || IsDigit(c) || c == ' ' || c == '_' || c == '-' }

  /** `re.sub(r"[^A-Za-z0-9 _-]", "", s)` */
  function KeepSafe(s: string): (r: string)
    ensures forall i :: 0 <= i < |r| ==> SafeChar(r[i])
    ensures |r| <= |s|
  {
    if s == [] then [] else (if SafeChar(s[0]) then [s[0]] else []) + KeepSafe(s[1..])
  }

  /** The file name without its extension. */
  function ImageStem(nombre: string): string {
    var t := SpacesTo(Strip(KeepSafe(nombre)), '_');
    if |t| <= 80 then t else t[..80]
  }

  predicate StemChar(c: char) { IsAsciiLetter(c) || IsDigit(c) || c == '_' || c == '-' }

  /** The stem has at most 80 characters, all of them letters, digits, "_" or "-". */
  lemma ImageStemChars(nombre: string)
    ensures |ImageStem(nombre)| <= 80
    ensures forall i :: 0 <= i < |ImageStem(nombre)| ==> StemChar(ImageStem(nombre)[i])
  {
    var st := Strip(KeepSafe(nombre));
    StrippedSafe(KeepSafe(nombre));
    var t := SpacesTo(st, '_');
    SpacesToChars(st, '_');
    assert forall c :: c in t ==> StemChar(c);
    var stem := ImageStem(nombre);
    assert forall i :: 0 <= i < |stem| ==> stem[i] in t;
  }

  lemma StrippedSafe(k: string)
    requires forall i :: 0 <= i < |k| ==> SafeChar(k[i])
    ensures forall c :: c in Strip(k) ==> SafeChar(c)
  {
    StripSlice(k);
  }

  /** A name that is already safe and has no blank is kept, up to 80 characters. */
  lemma ImageStemSafe(nombre: string)
    requires forall i :: 0 <= i < |nombre| ==> StemChar(nombre[i])
    ensures ImageStem(nombre) == if |nombre| <= 80 then nombre else nombre[..80]
  {
    KeepSafeAll(nombre);
    StripNoSpace(nombre);
    SpacesToNoSpace(nombre, '_');
  }

  lemma {:induction false} KeepSafeAll(s: string)
    requires forall i :: 0 <= i < |s| ==> SafeChar(s[i])
    ensures KeepSafe(s) == s
  {
    if s != [] {
      KeepSafeAll(s[1..]);
    }
  }

  /** `os.path.splitext(p)[1]`: from the last "." of the last path component, when it does not start that component. */
  function SplitExt(p: string): string {
    var sep := RFind(p, c => c == '/');
    var dot := RFind(p, c => c == '.');
    if dot > sep && exists i :: sep + 1 <= i < dot && p[i] != '.' then p[dot..] else ""
  }

  /** `splitext(url)[1].split("?")[0]`, with ".jpg" for no extension. */
  function ImageExt(url: string): string {
    var e := Before(SplitExt(url), '?');
    if e == [] then ".jpg" else e
  }

  /** The extension is a dot with no "/" or "?" after it, taken from the end of the URL's last component. */
  lemma ImageExtShape(url: string)
    ensures |ImageExt(url)| > 0 && ImageExt(url)[0] == '.'
    ensures '/' !in ImageExt(url) && '?' !in ImageExt(url)
    ensures ImageExt(url) == ".jpg" || exists i :: 0 <= i < |url| && ImageExt(url) <= url[i..]
  {
    var x := SplitExt(url);
    var e := Before(x, '?');
    if x != [] {
      var dot := RFind(url, c => c == '.');
      assert x == url[dot..];
      assert e[0] == '.' || e == [];
      assert forall c :: c in x ==> c != '/' by {
        forall i | 0 <= i < |x| ensures x[i] != '/' { assert x[i] == url[dot + i]; }
      }
      if e != [] {
        assert e[0] == x[0];
        assert forall c :: c in e ==> c in x;
      }
    }
  }

  /** A URL whose last component has no extension is saved as ".jpg". */
  lemma ImageExtDefault(url: string)
    requires forall i :: 0 <= i < |url| ==> url[i] != '.'
    ensures ImageExt(url) == ".jpg"
  {
  }

  /** `f"{safe_name}{ext}"` */
  function ImageFileName(nombre: string, url: string): string {
    ImageStem(nombre) + ImageExt(url)
  }

  // ---------------------------------------------------------------
  // obtener_productos_por_pagina and the page loop of main
  // ---------------------------------------------------------------

  /** The `<img>` of a product, with its `data-src` and `src` attributes. */
  datatype Img = Img(dataSrc: Option<string>, src: Option<string>)

  /**
   * One `div.thunk-product` as extracted: the product link (`None` when the
   * tag is missing, else its `href`), the title text, the image, and the
   * texts of the `woocommerce-Price-amount` and `price` spans.
   */
  datatype Container = Container(link: Option<Option<string>>, title: Option<string>, img: Option<Img>,
                                 amount: Option<string>, priceWrapper: Option<string>)

  datatype Row = Row(original: string, name: string, foil: string, price: string, url: Option<string>, image: Option<string>)

  /**
   * One page request: the answer, or `Raised` when `requests.get` raises (a
   * connection error, the 15-second timeout), which nothing in the script catches.
   */
  datatype Response = Response(status: int, containers: seq<Container>) | Raised

  /** The exception that ends the run. */
  datatype Crash = RequestFailed

  predicate Truthy(s: Option<string>) { s.Some? && s.value != [] }

  function PriceText(c: Container): string {
    if c.amount.Some? then c.amount.value else if c.priceWrapper.Some? then c.priceWrapper.value else ""
  }

  function ProductUrl(href: Option<string>): Option<string> {
    if Truthy(href) && href.value[0] == '/' then Some(Site + href.value) else href
  }

  function ImageUrl(img: Option<Img>): Option<string> {
    if img.None? then None
    else
      var u := if Truthy(img.value.dataSrc) then img.value.dataSrc else img.value.src;
      if Truthy(u) && "//" <= u.value then Some("https:" + u.value) else u
  }

  /** The row one container gives, or `None` when it has no link or no title. */
  function ProductRow(c: Container): Option<Row> {
    if c.link.None? || c.title.None? then None
    else
      var t := CleanName(c.title.value);
      Some(Row(c.title.value, t.name, if t.foil then "Sí" else "No",
               FormatCLP(LowestRun(PriceText(c))), ProductUrl(c.link.value), ImageUrl(c.img)))
  }

  /** What a row records. */
  lemma ProductRowSpec(c: Container)
    ensures ProductRow(c).Some? <==> c.link.Some? && c.title.Some?
    ensures ProductRow(c).Some? ==> LowestRun(ProductRow(c).value.price) == LowestRun(PriceText(c))
    ensures ProductRow(c).Some? ==> (ProductRow(c).value.foil == "Sí" <==> CleanName(c.title.value).foil)
    ensures ProductRow(c).Some? && ProductRow(c).value.url.Some? ==>
              ProductRow(c).value.url.value == [] || ProductRow(c).value.url.value[0] != '/'
  {
    if ProductRow(c).Some? {
      PriceRoundTrip(LowestRun(PriceText(c)));
    }
  }

  /** The loop of `obtener_productos_por_pagina` over the containers. */
  method ParseContainers(cs: seq<Container>) returns (resultados: seq<Row>)
    ensures resultados == FilterMap(cs, ProductRow)
  {
    resultados := [];
    var i := 0;
    while i < |cs|
      invariant 0 <= i <= |cs|
      invariant resultados == FilterMap(cs[..i], ProductRow)
    {
      assert cs[..i + 1][..i] == cs[..i];
      var row := ProductRow(cs[i]);
      if row.Some? {
        resultados := resultados + [row.value];
      } else {
        assert resultados + [] == resultados;
      }
      i := i + 1;
    }
    assert cs[..i] == cs;
  }

  /** The products of one page: none unless the status is 200. */
  function PageProducts(r: Response): seq<Row> {
    if r.Raised? || r.status != 200 then [] else FilterMap(r.containers, ProductRow)
  }

  /** The page that ends the loop: its request raised, or it gave no products. */
  predicate Ends(r: Response) { r.Raised? || PageProducts(r) == [] }

  /** The `q`-th page read, counting from page 1. */
  function Nth(site: int -> Response, q: nat): Response { site(1 + q) }

  /** One turn of the loop of `main`: the products and whether to go on, or the exception. */
  function Step(r: Response): Result<(seq<Row>, bool), Crash> {
    if r.Raised? then Err(RequestFailed) else Ok((PageProducts(r), PageProducts(r) != []))
  }

  function Steps(site: int -> Response): int -> Result<(seq<Row>, bool), Crash> {
    n => Step(site(n))
  }

  /**
   * The loop of `main`: pages 1, 2, ... until one gives no products, then
   * the CSV (`saved`), written even when it holds no product. A request that
   * raises ends the script before the CSV is written. The catalogue is
   * assumed to end (`last`), as the loop needs to stop.
   */
  method Scrape(site: int -> Response, ghost last: int)
    returns (todos: seq<Row>, read: nat, crash: Option<Crash>, saved: Option<seq<Row>>)
    requires last >= 1 && Ends(site(last))
    ensures Ends(Nth(site, read)) && forall q: nat :: q < read ==> !Ends(Nth(site, q))
    ensures todos == Paging.Collected(n => PageProducts(site(n)), 1, read)
    ensures crash.Some? <==> Nth(site, read).Raised?
    ensures crash.Some? ==> saved.None?
    ensures crash.None? ==> saved == Some(todos)
    ensures todos == [] <==> Ends(site(1))
  {
    var steps := Steps(site);
    assert Paging.Stops(steps(last));
    todos, read, crash := Paging.CollectUntil(steps, 1, last);
    saved := if crash.Some? then None else Some(todos);
    ghost var pages := n => PageProducts(site(n));
    forall q: nat | q <= read
      ensures Ends(Nth(site, q)) <==> Paging.Stops(Paging.At(steps, 1, q))
    {
      assert Paging.At(steps, 1, q) == Step(site(1 + q));
    }
    forall i | 1 <= i < 1 + read ensures Paging.RowPages(steps)(i) == pages(i) {
      assert Paging.RowPages(steps)(i) == Paging.Rows(Step(site(i)));
    }
    Paging.CollectedSame(Paging.RowPages(steps), pages, 1, read);
    forall q: nat | q < read ensures Paging.Page(pages, 1, q) != [] {
      assert !Ends(Nth(site, q));
    }
    Paging.CollectedEmpty(pages, 1, read);
    assert read == 0 <==> Ends(site(1)) by {
      assert Nth(site, 0) == site(1);
    }
  }

  /** A first page that does not answer 200 ends the run with nothing. */
  lemma FailedFirstPage(site: int -> Response, read: nat)
    requires site(1).Response? && site(1).status != 200
    requires forall q: nat :: q < read ==> !Ends(Nth(site, q))
    ensures read == 0
  {
    if read > 0 {
      assert Ends(Nth(site, 0));
    }
  }
}
