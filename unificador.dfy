/**
 * The CSV merger (Unificador.py): its `detectar_foil`, the field fallbacks
 * that turn one row of any `List_*.csv` file into a row of the merged table,
 * and the loops over the files and their rows. A CSV row is the map from the
 * header names to the cells; a cell missing from a short row is "", which is
 * what the merged file then holds for it.
 */
module Unificador {
  import opened Text
  import opened Patterns
  import opened Seqs

  // ---------------------------------------------------------------
  // detectar_foil
  // ---------------------------------------------------------------

  /** The text of the group opened at `s[0]`: everything up to the first ")" after it. */
  function GroupText(s: string): string
    requires s != []
  {
    s[1..1 + IndexOf(s[1..], ')')]
  }

  /** `re.search(r"\(([^)]*foil[^)]*)\)", s, flags=re.I)`, trying each start in turn. */
  predicate HasFoilGroup(s: string)
    decreases |s|
  {
    s != [] &&
    ((s[0] == '(' && IndexOf(s[1..], ')') < |s| - 1 && Contains(Lower(GroupText(s)), "foil"))
     || HasFoilGroup(s[1..]))
  }

  /** "(" at `i`, the first ")" after it at `k`, and "foil" in any case between them. */
  predicate FoilGroupAt(s: string, i: int, k: int) {
    0 <= i < k < |s| && s[i] == '(' && s[k] == ')'
    && (forall m :: i < m < k ==> s[m] != ')')
    && Contains(Lower(s[i + 1..k]), "foil")
  }

  /** The scan's test at the first character is a group opened there. */
  lemma HeadGroup(s: string)
    requires s != []
    ensures (s[0] == '(' && IndexOf(s[1..], ')') < |s| - 1 && Contains(Lower(GroupText(s)), "foil"))
            <==> exists k :: FoilGroupAt(s, 0, k)
  {
    if s[0] == '(' && IndexOf(s[1..], ')') < |s| - 1 && Contains(Lower(GroupText(s)), "foil") {
      var k := 1 + IndexOf(s[1..], ')');
      assert s[1..k] == GroupText(s);
      assert FoilGroupAt(s, 0, k);
    }
    if exists k :: FoilGroupAt(s, 0, k) {
      var k :| FoilGroupAt(s, 0, k);
      IndexOfIs(s[1..], ')', k - 1);
      assert GroupText(s) == s[1..k];
    }
  }

  /** A group opened after the first character is a group of the tail. */
  lemma ShiftGroup(s: string, i: int, k: int)
    requires s != [] && i >= 1
    ensures FoilGroupAt(s, i, k) <==> FoilGroupAt(s[1..], i - 1, k - 1)
  {
    if 0 <= i - 1 < k - 1 < |s| - 1 {
      assert s[1..][i..k - 1] == s[i + 1..k];
    }
  }

  /** The scan finds a group exactly when some parenthesised group, with no ")" inside, holds "foil" in any case. */
  lemma {:induction false} HasFoilGroupSpec(s: string)
    ensures HasFoilGroup(s) <==> exists i, k :: FoilGroupAt(s, i, k)
    decreases |s|
  {
    if s != [] {
      HasFoilGroupSpec(s[1..]);
      HeadGroup(s);
      if exists i, k :: FoilGroupAt(s[1..], i, k) {
        var i, k :| FoilGroupAt(s[1..], i, k);
        ShiftGroup(s, i + 1, k + 1);
      }
      if exists i, k :: FoilGroupAt(s, i, k) {
        var i, k :| FoilGroupAt(s, i, k);
        if i > 0 {
          ShiftGroup(s, i, k);
        }
      }
    }
  }

  /** `detectar_foil`: "No" for an empty name, else "Sí" exactly when some parenthesised group says "foil". */
  function DetectFoil(nombre: string): (r: string)
    ensures r == "Sí" || r == "No"
  {
    if nombre == [] then "No" else if HasFoilGroup(nombre) then "Sí" else "No"
  }

  /** A name with a closed group holding "Foil" is foil; the empty name never is. */
  lemma DetectFoilSpec(nombre: string)
    ensures nombre == [] ==> DetectFoil(nombre) == "No"
    ensures DetectFoil(nombre) == "Sí" <==> exists i, k :: FoilGroupAt(nombre, i, k)
  {
    HasFoilGroupSpec(nombre);
  }

  /** "Name (Foil)", whatever precedes it, is foil. */
  lemma FoilSuffix(a: string)
    requires ')' !in a
    ensures DetectFoil(a + "(Foil)") == "Sí"
  {
    var s := a + "(Foil)";
    var i, k := |a|, |a| + 5;
    assert s[i + 1..k] == "Foil";
    assert Lower("Foil") == "foil";
    ContainsAt(Lower(s[i + 1..k]), "foil", 0);
    assert FoilGroupAt(s, i, k);
    DetectFoilSpec(s);
  }

  /** A name with no "(" is never foil. */
  lemma NoGroupNoFoil(nombre: string)
    requires '(' !in nombre
    ensures DetectFoil(nombre) == "No"
  {
    DetectFoilSpec(nombre);
    forall i | 0 <= i < |nombre| ensures nombre[i] != '(' {
      assert nombre[i] in nombre;
    }
  }

  // ---------------------------------------------------------------
  // One row
  // ---------------------------------------------------------------

  /** A row read by `csv.DictReader`: header name to cell. */
  type Row = map<string, string>

  /** A row of the merged table. */
  datatype Record = Record(file: string, original: string, name: string, foil: string, price: string, url: string)

  /** `fila.get(key) or ""`: the cell, "" when the column is absent. */
  function Get(row: Row, key: string): string {
    if key in row then row[key] else ""
  }

  /** The body of the row loop of `unificar_csv`. */
  function Normalize(file: string, fila: Row): Record {
    var original := if Get(fila, "nombre_original") != "" then Get(fila, "nombre_original") else Get(fila, "nombre");
    var nombre := if Get(fila, "nombre") != "" then Get(fila, "nombre") else original;
    var foil := if "foil" in fila && fila["foil"] != "" then fila["foil"] else DetectFoil(original);
    Record(file, original, nombre, foil, Get(fila, "precio"), Get(fila, "url"))
  }

  /**
   * The fallbacks: the original name is the first non-empty of `nombre_original`
   * and `nombre`; the name is `nombre` or else the original name; a non-empty
   * `foil` cell is kept and anything else is detected from the original name;
   * the price and URL cells are copied. No output row lacks a foil value, and
   * a row lacks a name only when it has neither name column.
   */
  lemma NormalizeSpec(file: string, fila: Row)
    ensures var r := Normalize(file, fila);
      r.file == file
      && (Get(fila, "nombre_original") != "" ==> r.original == fila["nombre_original"])
      && (Get(fila, "nombre_original") == "" ==> r.original == Get(fila, "nombre"))
      && (Get(fila, "nombre") != "" ==> r.name == fila["nombre"])
      && (Get(fila, "nombre") == "" ==> r.name == r.original)
      && ("foil" in fila && fila["foil"] != "" ==> r.foil == fila["foil"])
      && (Get(fila, "foil") == "" ==> r.foil == DetectFoil(r.original))
      && r.foil != ""
      && (r.name == "" <==> Get(fila, "nombre") == "" && Get(fila, "nombre_original") == "")
      && r.price == Get(fila, "precio") && r.url == Get(fila, "url")
  {
  }

  // ---------------------------------------------------------------
  // The file and row loops
  // ---------------------------------------------------------------

  /** `f.startswith("List_") and f.endswith(".csv")` */
  predicate IsListCsv(f: string) {
    "List_" <= f && |f| >= 4 && f[|f| - 4..] == ".csv"
  }

  /** An entry of the folder listing, with the rows it would be read as. */
  datatype Entry = Entry(name: string, rows: seq<Row>)

  /** The merged rows of one file, in row order. */
  function FileRecords(file: string, rows: seq<Row>): (rs: seq<Record>)
    ensures |rs| == |rows|
    ensures forall j :: 0 <= j < |rows| ==> rs[j] == Normalize(file, rows[j])
  {
    if rows == [] then []
    else
      var init := rows[..|rows| - 1];
      assert forall j :: 0 <= j < |init| ==> init[j] == rows[j];
      FileRecords(file, init) + [Normalize(file, rows[|rows| - 1])]
  }

  /** The merged table: the rows of the `List_*.csv` entries, in listing then row order. */
  function Unified(entries: seq<Entry>): seq<Record> {
    if entries == [] then []
    else
      var e := entries[|entries| - 1];
      Unified(entries[..|entries| - 1]) + (if IsListCsv(e.name) then FileRecords(e.name, e.rows) else [])
  }

  /** Rows of the entries the merge reads. */
  function RowCount(entries: seq<Entry>): nat {
    if entries == [] then 0
    else
      var e := entries[|entries| - 1];
      RowCount(entries[..|entries| - 1]) + (if IsListCsv(e.name) then |e.rows| else 0)
  }

  /** One merged row per row of a `List_*.csv` file, each tagged with its file and carrying a foil value. */
  lemma {:induction false} UnifiedSpec(entries: seq<Entry>)
    ensures |Unified(entries)| == RowCount(entries)
    ensures forall r :: r in Unified(entries) ==> IsListCsv(r.file) && r.foil != ""
  {
    if entries != [] {
      var e := entries[|entries| - 1];
      UnifiedSpec(entries[..|entries| - 1]);
      if IsListCsv(e.name) {
        forall r | r in FileRecords(e.name, e.rows) ensures r.file == e.name && r.foil != "" {
          var j :| 0 <= j < |e.rows| && FileRecords(e.name, e.rows)[j] == r;
          NormalizeSpec(e.name, e.rows[j]);
        }
      }
    }
  }

  /** The row loop of `unificar_csv` for one file. */
  method ReadRows(file: string, rows: seq<Row>) returns (rs: seq<Record>)
    ensures rs == FileRecords(file, rows)
  {
    rs := [];
    var j := 0;
    while j < |rows|
      invariant 0 <= j <= |rows|
      invariant rs == FileRecords(file, rows[..j])
    {
      assert rows[..j + 1][..j] == rows[..j];
      rs := rs + [Normalize(file, rows[j])];
      j := j + 1;
    }
    assert rows[..j] == rows;
  }

  /** `unificar_csv` without the file I/O: the loop over the selected files, each read by the row loop. */
  method Unify(entries: seq<Entry>) returns (registros: seq<Record>)
    ensures registros == Unified(entries)
  {
    registros := [];
    var i := 0;
    while i < |entries|
      invariant 0 <= i <= |entries|
      invariant registros == Unified(entries[..i])
    {
      assert entries[..i + 1][..i] == entries[..i];
      var archivo := entries[i];
      if IsListCsv(archivo.name) {
        var filas := ReadRows(archivo.name, archivo.rows);
        registros := registros + filas;
      } else {
        assert registros + [] == registros;
      }
      i := i + 1;
    }
    assert entries[..i] == entries;
  }
}
