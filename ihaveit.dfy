/**
 * The collection marker (I_Have_it.py): reading card names from a deck list,
 * the "Tengo" column it adds to a CSV table, the folder id of a Drive link,
 * and the file choice of `elegir_archivo`. The Drive upload, the file system
 * and the prompts are replaced by their inputs.
 */
module IHaveIt {
  import opened Wrappers
  import opened Text
  import opened Patterns
  import opened Seqs

  // ---------------------------------------------------------------
  // extraer_nombre_carta
  // ---------------------------------------------------------------

  /** The characters of `[A-Za-z0-9'\-]`. */
  predicate NameChar(c: char) { IsAsciiLetter(c) || IsDigit(c) || c == '\'' || c == '-' }

  /** `\b` at position `i`: a `\w` character on exactly one side. */
  predicate Boundary(s: string, i: nat)
    requires i <= |s|
  {
    (i > 0 && IsWordChar(s[i - 1])) != (i < |s| && IsWordChar(s[i]))
  }

  /** The longest `L <= n` with a boundary after `s[i..i+L]`, `L >= 1`: how the engine backtracks the greedy run. */
  function BackTrack(s: string, i: nat, n: nat): (l: nat)
    requires i + n <= |s|
    ensures l <= n
    ensures l > 0 ==> Boundary(s, i + l)
    ensures forall j :: i + l < j <= i + n ==> !Boundary(s, j)
  {
    if n == 0 then 0 else if Boundary(s, i + n) then n else BackTrack(s, i, n - 1)
  }

  /** A match of `\b([A-Za-z][A-Za-z0-9'\-]*)\b` starting at `i`, as its length (0 for none). */
  function WordMatchAt(s: string, i: nat): (l: nat)
    requires i < |s|
    ensures i + l <= |s|
  {
    if Boundary(s, i) && IsAsciiLetter(s[i]) then BackTrack(s, i, 1 + Span(s[i + 1..], NameChar)) else 0
  }

  /** `re.search` of that pattern from position `i` on: the leftmost start with a match. */
  function FirstWordFrom(s: string, i: nat): (r: Option<string>)
    requires i <= |s|
    decreases |s| - i
  {
    if i == |s| then None
    else
      var l := WordMatchAt(s, i);
      if l > 0 then Some(s[i..i + l]) else FirstWordFrom(s, i + 1)
  }

  /** What a match is: a slice starting with an ASCII letter, made of name characters, with a word boundary on each side. */
  predicate WordAt(s: string, i: nat, w: string) {
    i + |w| <= |s| && w == s[i..i + |w|] && w != [] && IsAsciiLetter(w[0])
    && (forall j :: 0 <= j < |w| ==> NameChar(w[j]))
    && Boundary(s, i) && Boundary(s, i + |w|)
  }

  /** The fallback finds a word exactly when one of that shape starts at or after `i`. */
  lemma {:induction false} FirstWordFromSpec(s: string, i: nat)
    requires i <= |s|
    ensures FirstWordFrom(s, i).Some? ==> exists j :: i <= j < |s| && WordAt(s, j, FirstWordFrom(s, i).value)
    ensures forall j, w :: i <= j < |s| && WordAt(s, j, w) ==> FirstWordFrom(s, i).Some?
    decreases |s| - i
  {
    if i < |s| {
      FirstWordFromSpec(s, i + 1);
      forall w | WordAt(s, i, w) ensures WordMatchAt(s, i) > 0 {
        WordNotMissed(s, i, w);
      }
      if WordMatchAt(s, i) > 0 {
        MatchIsWord(s, i);
      }
    }
  }

  /** What the fallback finds is the leftmost word: it starts no later than any word of that shape. */
  lemma {:induction false} FirstWordFromLeftmost(s: string, i: nat, k: nat, w: string)
    requires i <= k < |s| && WordAt(s, k, w)
    ensures FirstWordFrom(s, i).Some?
    ensures exists j :: i <= j <= k && WordAt(s, j, FirstWordFrom(s, i).value)
    decreases k - i
  {
    if WordMatchAt(s, i) > 0 {
      MatchIsWord(s, i);
    } else if i == k {
      WordNotMissed(s, i, w);
    } else {
      FirstWordFromLeftmost(s, i + 1, k, w);
    }
  }

  /** A match of the backtracking is a word of that shape. */
  lemma MatchIsWord(s: string, i: nat)
    requires i < |s| && WordMatchAt(s, i) > 0
    ensures WordAt(s, i, s[i..i + WordMatchAt(s, i)])
  {
    var l := WordMatchAt(s, i);
    var w := s[i..i + l];
    forall j | 1 <= j < l ensures NameChar(w[j]) {
      assert w[j] == s[i + 1..][j - 1];
    }
  }

  /** A word of the right shape at `i` is seen by the backtracking. */
  lemma WordNotMissed(s: string, i: nat, w: string)
    requires i < |s| && WordAt(s, i, w)
    ensures WordMatchAt(s, i) > 0
  {
    var rest := s[i + 1..];
    var d := Span(rest, NameChar);
    assert s[i] == w[0];
    forall k | 0 <= k < |w| - 1
      ensures NameChar(rest[k])
    {
      assert rest[k] == w[k + 1];
    }
    assert |w| <= 1 + d;
    assert Boundary(s, i + |w|);
  }

  /** `extraer_nombre_carta`: the stripped text between the first space and the first "(", else the first word. */
  function CardName(linea: string): Option<string> {
    var t := Strip(linea);
    var sp := IndexOf(t, ' ');
    if sp < |t| && Strip(Before(t[sp + 1..], '(')) != [] then Some(Strip(Before(t[sp + 1..], '(')))
    else FirstWordFrom(linea, 0)
  }

  /** A stripped line split at its first space: the first branch reads the text after it up to the first "(". */
  lemma CardNameSplit(count: string, after: string)
    requires count != [] && ' ' !in count && NoOuterSpace(count + " " + after)
    requires Strip(Before(after, '(')) != []
    ensures CardName(count + " " + after) == Some(Strip(Before(after, '(')))
  {
    var linea := count + " " + after;
    StripNoSpace(linea);
    forall i | 0 <= i < |count| ensures linea[i] != ' ' {
      assert linea[i] == count[i];
    }
    IndexOfIs(linea, ' ', |count|);
    assert linea[|count| + 1..] == after;
  }

  /** A deck line "count name (SET) number", or just "count name", gives the name. */
  lemma CardNameLine(count: string, name: string, rest: string)
    requires count != [] && ' ' !in count && !IsSpace(count[0])
    requires name != [] && NoOuterSpace(name) && '(' !in name
    requires rest != [] && rest[0] == '(' && !IsSpace(rest[|rest| - 1])
    ensures CardName(count + " " + name) == Some(name)
    ensures CardName(count + " " + name + " " + rest) == Some(name)
  {
    BeforeAbsent(name, '(');
    StripNoSpace(name);
    var bare := count + " " + name;
    assert bare[0] == count[0] && bare[|bare| - 1] == name[|name| - 1];
    CardNameSplit(count, name);
    var after := name + " " + rest;
    var full := count + " " + name + " " + rest;
    assert full == count + " " + after;
    assert full[0] == count[0] && full[|full| - 1] == rest[|rest| - 1];
    NameBeforeSet(name, rest);
    CardNameSplit(count, after);
  }

  /** The text up to the "(" of the set code, stripped, is the name. */
  lemma NameBeforeSet(name: string, rest: string)
    requires name != [] && NoOuterSpace(name) && '(' !in name
    requires rest != [] && rest[0] == '('
    ensures Strip(Before(name + " " + rest, '(')) == name
  {
    BeforeAbsent(name, '(');
    BeforeConcat(name + " ", rest, '(');
    assert Before(rest, '(') == [];
    assert Before(name + " " + rest, '(') == name + " ";
    StripTrailingSpace(name, ' ');
    StripNoSpace(name);
  }

  /** A name is never empty: the first branch checks it, and a match starts with a letter. */
  lemma CardNameNonEmpty(linea: string)
    ensures CardName(linea).Some? ==> CardName(linea).value != []
  {
    FirstWordFromSpec(linea, 0);
  }

  // ---------------------------------------------------------------
  // cargar_cartas_txt
  // ---------------------------------------------------------------

  /** The name a line adds to the deck, if any (`if nombre:`). */
  function LineName(linea: string): Option<string> {
    var nombre := CardName(linea);
    if nombre.Some? && nombre.value != [] then nombre else None
  }

  /** The names read from the lines of a deck list. */
  function DeckNames(lines: seq<string>): set<string> {
    SetOf(lines, LineName)
  }

  /** The deck holds exactly the names of its lines. */
  lemma DeckNamesSpec(lines: seq<string>)
    ensures forall x :: x in DeckNames(lines) ==> exists i :: 0 <= i < |lines| && CardName(lines[i]) == Some(x)
    ensures forall i :: 0 <= i < |lines| && CardName(lines[i]).Some? ==> CardName(lines[i]).value in DeckNames(lines)
  {
    SetOfSpec(lines, LineName);
    forall i | 0 <= i < |lines| ensures LineName(lines[i]) == CardName(lines[i]) {
      CardNameNonEmpty(lines[i]);
    }
  }

  /** `cargar_cartas_txt` over the lines of the file. */
  method LoadCards(lines: seq<string>) returns (cartas: set<string>)
    ensures cartas == DeckNames(lines)
  {
    cartas := {};
    var i := 0;
    while i < |lines|
      invariant 0 <= i <= |lines|
      invariant cartas == DeckNames(lines[..i])
    {
      assert lines[..i + 1][..i] == lines[..i];
      var nombre := LineName(lines[i]);
      if nombre.Some? {
        cartas := cartas + {nombre.value};
      }
      i := i + 1;
    }
    assert lines[..i] == lines;
  }

  // ---------------------------------------------------------------
  // actualizar_csv
  // ---------------------------------------------------------------

  /** A row of the CSV file as `csv.reader` gives it. */
  type Row = seq<string>

  /**
   * How `actualizar_csv` fails: the `IndexError` of a file without rows or of
   * a row too short for the name column, and the early return when no header
   * cell reads "nombre".
   */
  datatype Failure = EmptyFile | NoNameColumn | ShortRow

  const Tengo := "Tengo"

  /** The mark of a row whose stripped name is `nombre`. */
  function Mark(nombre: string, cartas: set<string>): string {
    if nombre in cartas then "Sí" else "No"
  }

  function IsNameHeader(h: Row): nat -> bool {
    (j: nat) => NameHeaderAt(h, j)
  }

  predicate NameHeaderAt(h: Row, j: nat) {
    j < |h| && Lower(h[j]) == "nombre"
  }

  /** The first header cell that is "nombre" in any case, or `|h|` when there is none. */
  function NameColumn(h: Row): (k: nat)
    ensures k <= |h|
    ensures k < |h| ==> Lower(h[k]) == "nombre"
    ensures forall j :: 0 <= j < k ==> Lower(h[j]) != "nombre"
  {
    var k := Leftmost(|h|, 0, IsNameHeader(h));
    forall j | 0 <= j < k ensures Lower(h[j]) != "nombre" {
      assert !IsNameHeader(h)(j);
    }
    k
  }

  /** The header with "Tengo" appended when it has no such cell. */
  function WithTengo(h: Row): Row {
    if Tengo in h then h else h + [Tengo]
  }

  /** `fila` lengthened with "" cells to at least `n` cells. */
  function Padded(fila: Row, n: nat): (r: Row)
    ensures |r| == if |fila| < n then n else |fila|
    ensures r[..|fila|] == fila && forall j :: |fila| <= j < |r| ==> r[j] == ""
  {
    if |fila| < n then fila + seq(n - |fila|, _ => "") else fila
  }

  /** The body of the row loop: empty rows are dropped, the others padded and marked. */
  function MarkRow(col: nat, idx: nat, cartas: set<string>, fila: Row): Result<Option<Row>, Failure> {
    if fila == [] then Ok(None)
    else
      var p := Padded(fila, idx + 1);
      if col < |p| then Ok(Some(p[idx := Mark(Strip(p[col]), cartas)])) else Err(ShortRow)
  }

  function Marker(col: nat, idx: nat, cartas: set<string>): Row -> Result<Option<Row>, Failure> {
    fila => MarkRow(col, idx, cartas, fila)
  }

  /** The table `actualizar_csv` writes back, or why it writes nothing. */
  function Table(filas: seq<Row>, cartas: set<string>): Result<seq<Row>, Failure> {
    if filas == [] then Err(EmptyFile)
    else
      var col := NameColumn(filas[0]);
      if col == |filas[0]| then Err(NoNameColumn)
      else
        var encabezado := WithTengo(filas[0]);
        match TryFilterMap(filas[1..], Marker(col, Find(encabezado, Tengo), cartas))
        case Err(e) => Err(e)
        case Ok(rs) => Ok([encabezado] + rs)
  }

  /** `r` is `fila` marked: long enough for column `idx`, that cell set from the stripped name, every other cell kept or "". */
  predicate Marked(fila: Row, r: Row, col: nat, idx: nat, cartas: set<string>) {
    |r| == (if |fila| <= idx then idx + 1 else |fila|)
    && col < |r| && col != idx
    && r[idx] == Mark(Strip(r[col]), cartas)
    && forall j :: 0 <= j < |r| && j != idx ==> r[j] == (if j < |fila| then fila[j] else "")
  }

  /** The rows that are not empty, in order. */
  function KeepRow(fila: Row): Option<Row> {
    if fila == [] then None else Some(fila)
  }

  function DataRows(filas: seq<Row>): seq<Row> {
    FilterMap(filas, KeepRow)
  }

  /** One row: dropped exactly when empty, failing exactly when the name column lies past both its end and the Tengo column, else marked. */
  lemma MarkRowSpec(col: nat, idx: nat, cartas: set<string>, fila: Row)
    requires col != idx
    ensures MarkRow(col, idx, cartas, fila) == Ok(None) <==> fila == []
    ensures MarkRow(col, idx, cartas, fila).Err? <==> fila != [] && |fila| <= col && idx < col
    ensures MarkRow(col, idx, cartas, fila).Ok? && fila != [] ==>
              MarkRow(col, idx, cartas, fila).value.Some?
              && Marked(fila, MarkRow(col, idx, cartas, fila).value.value, col, idx, cartas)
  {
    if fila != [] {
      var p := Padded(fila, idx + 1);
      if col < |p| {
        var r := p[idx := Mark(Strip(p[col]), cartas)];
        forall j | 0 <= j < |r| && j != idx ensures r[j] == (if j < |fila| then fila[j] else "") {
          if j < |fila| {
            assert p[..|fila|][j] == p[j];
          }
        }
      }
    }
  }

  /** Without failures, the loop marks each non-empty row, in order. */
  lemma {:induction false} MarkedRows(filas: seq<Row>, col: nat, idx: nat, cartas: set<string>)
    requires col != idx && TryFilterMap(filas, Marker(col, idx, cartas)).Ok?
    ensures var out := TryFilterMap(filas, Marker(col, idx, cartas)).value;
            |out| == |DataRows(filas)|
            && forall i :: 0 <= i < |out| ==> Marked(DataRows(filas)[i], out[i], col, idx, cartas)
  {
    if filas != [] {
      var init, fila := filas[..|filas| - 1], filas[|filas| - 1];
      assert filas == init + [fila];
      var f := Marker(col, idx, cartas);
      MarkedRows(init, col, idx, cartas);
      MarkRowSpec(col, idx, cartas, fila);
      TryFilterMapSnoc(init, fila, f);
    }
  }

  /** The name column is never the Tengo column: "tengo" is not "nombre". */
  lemma NameNotTengo(h: Row)
    requires NameColumn(h) < |h|
    ensures NameColumn(h) < |WithTengo(h)| && WithTengo(h)[NameColumn(h)] == h[NameColumn(h)]
    ensures Tengo in WithTengo(h) && NameColumn(h) != Find(WithTengo(h), Tengo)
  {
    assert Lower(Tengo) == "tengo";
  }

  /** The file fails when empty, when no header cell is "nombre", or when a non-empty row ends before a name column placed after the Tengo column. */
  lemma TableFailures(filas: seq<Row>, cartas: set<string>)
    ensures Table(filas, cartas) == Err(EmptyFile) <==> filas == []
    ensures Table(filas, cartas) == Err(NoNameColumn) <==>
              filas != [] && forall j :: 0 <= j < |filas[0]| ==> Lower(filas[0][j]) != "nombre"
    ensures Table(filas, cartas) == Err(ShortRow) <==>
              filas != [] && NameColumn(filas[0]) < |filas[0]| && Find(WithTengo(filas[0]), Tengo) < NameColumn(filas[0])
              && exists i :: 1 <= i < |filas| && filas[i] != [] && |filas[i]| <= NameColumn(filas[0])
  {
    if filas != [] && NameColumn(filas[0]) < |filas[0]| {
      ShortRowFails(filas, cartas);
    }
  }

  /** With a name column, the file fails exactly when a non-empty row ends before a name column placed after the Tengo column. */
  lemma ShortRowFails(filas: seq<Row>, cartas: set<string>)
    requires filas != [] && NameColumn(filas[0]) < |filas[0]|
    ensures Table(filas, cartas).Err? ==> Table(filas, cartas) == Err(ShortRow)
    ensures Table(filas, cartas).Err? <==>
              Find(WithTengo(filas[0]), Tengo) < NameColumn(filas[0])
              && exists i :: 1 <= i < |filas| && filas[i] != [] && |filas[i]| <= NameColumn(filas[0])
  {
    var h := filas[0];
    var col, idx := NameColumn(h), Find(WithTengo(h), Tengo);
    NameNotTengo(h);
    var rows := filas[1..];
    var f := Marker(col, idx, cartas);
    assert Table(filas, cartas).Err? <==> TryFilterMap(rows, f).Err?;
    assert (TryFilterMap(rows, f).Err? <==> exists i :: 0 <= i < |rows| && f(rows[i]).Err?)
           && (TryFilterMap(rows, f).Err? ==> TryFilterMap(rows, f).error == ShortRow) by {
      TryFilterMapFails(rows, f);
    }
    forall i | 0 <= i < |rows| ensures f(rows[i]).Err? <==> rows[i] != [] && |rows[i]| <= col && idx < col {
      MarkRowSpec(col, idx, cartas, rows[i]);
    }
    if exists i :: 1 <= i < |filas| && filas[i] != [] && |filas[i]| <= col {
      var i :| 1 <= i < |filas| && filas[i] != [] && |filas[i]| <= col;
      assert rows[i - 1] == filas[i];
    }
    if exists i :: 0 <= i < |rows| && f(rows[i]).Err? {
      var i :| 0 <= i < |rows| && f(rows[i]).Err?;
      assert filas[i + 1] == rows[i];
    }
  }

  /** The rows the loop writes under the header, for a header with a name column. */
  function Body(filas: seq<Row>, cartas: set<string>): Result<seq<Row>, Failure>
    requires filas != []
  {
    TryFilterMap(filas[1..], Marker(NameColumn(filas[0]), Find(WithTengo(filas[0]), Tengo), cartas))
  }

  /** A written file is the header with a Tengo cell above the rows of the loop. */
  lemma TableBody(filas: seq<Row>, cartas: set<string>)
    requires Table(filas, cartas).Ok?
    ensures Body(filas, cartas).Ok? && Table(filas, cartas).value == [WithTengo(filas[0])] + Body(filas, cartas).value
  {
  }

  /** The written file: the header with a Tengo cell, then each non-empty row, in order, marked in the Tengo column and otherwise unchanged. */
  lemma TableRows(filas: seq<Row>, cartas: set<string>)
    requires Table(filas, cartas).Ok?
    ensures |Table(filas, cartas).value| == 1 + |DataRows(filas[1..])|
    ensures Table(filas, cartas).value[0] == WithTengo(filas[0])
    ensures Find(WithTengo(filas[0]), Tengo) < |WithTengo(filas[0])|
    ensures forall i :: 1 <= i < |Table(filas, cartas).value| ==>
              Marked(DataRows(filas[1..])[i - 1], Table(filas, cartas).value[i], NameColumn(filas[0]), Find(WithTengo(filas[0]), Tengo), cartas)
  {
    var h := filas[0];
    var col, idx := NameColumn(h), Find(WithTengo(h), Tengo);
    NameNotTengo(h);
    TableBody(filas, cartas);
    MarkedRows(filas[1..], col, idx, cartas);
    var rs := Body(filas, cartas).value;
    var out := Table(filas, cartas).value;
    forall i | 1 <= i < |out| ensures Marked(DataRows(filas[1..])[i - 1], out[i], col, idx, cartas) {
      assert out[i] == rs[i - 1];
    }
  }

  /** Updating an updated file again with the same cards changes nothing. */
  lemma TableIdempotent(filas: seq<Row>, cartas: set<string>)
    requires Table(filas, cartas).Ok?
    ensures Table(Table(filas, cartas).value, cartas) == Table(filas, cartas)
  {
    var out := Table(filas, cartas).value;
    var h := filas[0];
    var h2 := WithTengo(h);
    var col, idx := NameColumn(h), Find(h2, Tengo);
    TableRows(filas, cartas);
    NameNotTengo(h);
    assert out[0] == h2 && WithTengo(h2) == h2;
    forall j | 0 <= j < col ensures Lower(h2[j]) != "nombre" {
      assert h2[j] == h[j];
    }
    LeftmostIs(|h2|, IsNameHeader(h2), col);
    assert NameColumn(h2) == col;
    var rows := out[1..];
    var f := Marker(col, idx, cartas);
    forall i | 0 <= i < |rows| ensures f(rows[i]) == Ok(Some(rows[i])) {
      var r := rows[i];
      assert r == out[i + 1];
      assert |r| >= idx + 1;
      assert Padded(r, idx + 1) == r;
      assert r[idx := Mark(Strip(r[col]), cartas)] == r;
    }
    TryFilterMapFixed(rows, f);
    assert [h2] + rows == out;
  }

  /** `while len(fila) <= n - 1: fila.append("")` */
  method Pad(fila: Row, n: nat) returns (r: Row)
    ensures r == Padded(fila, n)
  {
    r := fila;
    while |r| < n
      invariant |fila| <= |r| && (|fila| < n ==> |r| <= n) && (|fila| >= n ==> r == fila)
      invariant r[..|fila|] == fila && forall j :: |fila| <= j < |r| ==> r[j] == ""
    {
      r := r + [""];
    }
    if |fila| < n {
      assert r == fila + seq(n - |fila|, _ => "");
    }
  }

  /** The header loop of `actualizar_csv`, with its `break` at the first "nombre". */
  method FindNameColumn(encabezado: Row) returns (col: nat)
    ensures col == NameColumn(encabezado)
  {
    col := |encabezado|;
    var i := 0;
    while i < |encabezado|
      invariant 0 <= i <= |encabezado| && col == |encabezado|
      invariant forall j :: 0 <= j < i ==> Lower(encabezado[j]) != "nombre"
    {
      if Lower(encabezado[i]) == "nombre" {
        col := i;
        break;
      }
      i := i + 1;
    }
  }

  /** The row loop of `actualizar_csv` over the rows after the header. */
  method MarkAll(filas: seq<Row>, col: nat, idx: nat, cartas: set<string>) returns (r: Result<seq<Row>, Failure>)
    ensures r == TryFilterMap(filas, Marker(col, idx, cartas))
  {
    ghost var f := Marker(col, idx, cartas);
    var nuevas: seq<Row> := [];
    var k := 0;
    while k < |filas|
      invariant 0 <= k <= |filas|
      invariant TryFilterMap(filas[..k], f) == Ok(nuevas)
    {
      var fila := filas[k];
      TryFilterMapNext(filas, k, f);
      if |fila| == 0 {
        assert nuevas + [] == nuevas;
        k := k + 1;
        continue;
      }
      fila := Pad(fila, idx + 1);
      if col >= |fila| {
        TryFilterMapErr(filas, k + 1, f);
        return Err(ShortRow);
      }
      var nombre := Strip(fila[col]);
      fila := fila[idx := if nombre in cartas then "Sí" else "No"];
      assert f(filas[k]) == Ok(Some(fila));
      nuevas := nuevas + [fila];
      k := k + 1;
    }
    assert filas[..k] == filas;
    return Ok(nuevas);
  }

  /**
   * `actualizar_csv` on the rows `csv.reader` gave: the name column search,
   * the Tengo column, then the row loop. `Ok` carries the rows written back.
   */
  method UpdateTable(filas: seq<Row>, cartas: set<string>) returns (r: Result<seq<Row>, Failure>)
    ensures r == Table(filas, cartas)
  {
    if |filas| == 0 {
      return Err(EmptyFile);
    }
    var encabezado := filas[0];
    var col := FindNameColumn(encabezado);
    if col == |encabezado| {
      return Err(NoNameColumn);
    }
    if Tengo !in encabezado {
      encabezado := encabezado + [Tengo];
    }
    var idx := Find(encabezado, Tengo);
    var nuevas := MarkAll(filas[1..], col, idx, cartas);
    if nuevas.Err? {
      return Err(nuevas.error);
    }
    return Ok([encabezado] + nuevas.value);
  }

  // ---------------------------------------------------------------
  // extraer_id_carpeta
  // ---------------------------------------------------------------

  const Folders := "/folders/"

  /** The characters of `[a-zA-Z0-9_-]`. */
  predicate IdChar(c: char) { IsAsciiLetter(c) || IsDigit(c) || c == '_' || c == '-' }

  /** `/folders/([a-zA-Z0-9_-]+)` matches from `i`: the marker, then at least one id character. */
  predicate FolderAt(url: string, i: int) {
    0 <= i && i + |Folders| < |url| && url[i..i + |Folders|] == Folders && IdChar(url[i + |Folders|])
  }

  function FolderStarts(url: string): nat -> bool {
    (i: nat) => FolderAt(url, i)
  }

  /** `extraer_id_carpeta`: the id after the leftmost "/folders/" that is followed by one, as long as it runs. */
  function FolderId(url: string): Option<string> {
    var i := Leftmost(|url|, 0, FolderStarts(url));
    if i < |url| then Some(url[i + |Folders|..][..Span(url[i + |Folders|..], IdChar)]) else None
  }

  /**
   * An id is found exactly when some "/folders/" is followed by an id
   * character; it is then the whole run of id characters after the first such
   * marker.
   */
  lemma FolderIdSpec(url: string)
    ensures FolderId(url).Some? <==> exists i :: FolderAt(url, i)
    ensures FolderId(url).Some? ==>
              var id := FolderId(url).value;
              id != [] && (forall k :: 0 <= k < |id| ==> IdChar(id[k]))
              && exists i :: FolderAt(url, i) && (forall j :: 0 <= j < i ==> !FolderAt(url, j))
                             && i + |Folders| + |id| <= |url| && url[i + |Folders|..i + |Folders| + |id|] == id
                             && (i + |Folders| + |id| == |url| || !IdChar(url[i + |Folders| + |id|]))
  {
    var i := Leftmost(|url|, 0, FolderStarts(url));
    assert FolderId(url).Some? <==> i < |url|;
    assert i < |url| <==> exists j :: FolderAt(url, j) by {
      if exists j :: FolderAt(url, j) {
        var j :| FolderAt(url, j);
        assert FolderStarts(url)(j);
      }
      if i < |url| {
        assert FolderStarts(url)(i);
      }
    }
    if i < |url| {
      FolderIdAt(url, i);
    }
  }

  /** The id read after the leftmost marker `i`. */
  lemma FolderIdAt(url: string, i: nat)
    requires i == Leftmost(|url|, 0, FolderStarts(url)) < |url|
    ensures FolderId(url).Some?
    ensures var id := FolderId(url).value;
            id != [] && (forall k :: 0 <= k < |id| ==> IdChar(id[k]))
            && FolderAt(url, i) && (forall j :: 0 <= j < i ==> !FolderAt(url, j))
            && i + |Folders| + |id| <= |url| && url[i + |Folders|..i + |Folders| + |id|] == id
            && (i + |Folders| + |id| == |url| || !IdChar(url[i + |Folders| + |id|]))
  {
    assert FolderAt(url, i) by {
      assert FolderStarts(url)(i);
    }
    var rest := url[i + |Folders|..];
    var id := rest[..Span(rest, IdChar)];
    assert rest[0] == url[i + |Folders|];
    forall j | 0 <= j < i ensures !FolderAt(url, j) {
      assert !FolderStarts(url)(j);
    }
    assert url[i + |Folders|..i + |Folders| + |id|] == id;
  }

  /**
   * A link whose prefix has no "/f" and does not end in "/", then
   * "/folders/", an id and anything that does not continue the id, gives that id.
   */
  lemma FolderIdOfLink(prefix: string, id: string, rest: string)
    requires forall j :: 0 <= j < |prefix| && prefix[j] == '/' ==> j + 1 < |prefix| && prefix[j + 1] != 'f'
    requires id != [] && forall k :: 0 <= k < |id| ==> IdChar(id[k])
    requires rest == [] || !IdChar(rest[0])
    ensures FolderId(prefix + Folders + id + rest) == Some(id)
  {
    var url := prefix + Folders + id + rest;
    var i := |prefix|;
    assert url[i..i + |Folders|] == Folders;
    assert url[i + |Folders|] == id[0];
    assert FolderAt(url, i);
    forall j | 0 <= j < i ensures !FolderStarts(url)(j) {
      if url[j] == '/' {
        assert url[j] == prefix[j] && url[j + 1] == prefix[j + 1];
        assert url[j..j + |Folders|][1] == url[j + 1];
      } else {
        assert url[j..j + |Folders|][0] == url[j];
      }
    }
    LeftmostIs(|url|, FolderStarts(url), i);
    var after := url[i + |Folders|..];
    assert after == id + rest;
    SpanOf(id, rest, IdChar);
  }

  // ---------------------------------------------------------------
  // listar_archivos and elegir_archivo
  // ---------------------------------------------------------------

  /** `f.lower().endswith(extension.lower())` */
  predicate HasExtension(f: string, ext: string) {
    |Lower(ext)| <= |Lower(f)| && Lower(f)[|Lower(f)| - |Lower(ext)|..] == Lower(ext)
  }

  function ExtensionFilter(ext: string): string -> Option<string> {
    f => WithExtension(f, ext)
  }

  function WithExtension(f: string, ext: string): Option<string> {
    if HasExtension(f, ext) then Some(f) else None
  }

  /** `listar_archivos` over the names of the folder, in listing order. */
  function ListFiles(names: seq<string>, ext: string): seq<string> {
    FilterMap(names, ExtensionFilter(ext))
  }

  /** The listed files are exactly the names ending in the extension, in any case. */
  lemma ListFilesSpec(names: seq<string>, ext: string)
    ensures forall f :: f in ListFiles(names, ext) ==> f in names && HasExtension(f, ext)
    ensures forall i :: 0 <= i < |names| && HasExtension(names[i], ext) ==> names[i] in ListFiles(names, ext)
  {
    forall f | f in ListFiles(names, ext) ensures f in names && HasExtension(f, ext) {
      FilterMapIn(names, ExtensionFilter(ext), f);
    }
    forall i | 0 <= i < |names| && HasExtension(names[i], ext) ensures names[i] in ListFiles(names, ext) {
      FilterMapHas(names, ExtensionFilter(ext), i);
    }
  }

  /** `num.isdigit() and 1 <= int(num) <= len(xs)` picks `xs[int(num) - 1]`. */
  function Pick(num: string, xs: seq<string>): (r: Option<string>)
    ensures r.Some? ==> r.value in xs
  {
    if num != [] && AllDigits(num) && 1 <= NatValue(num) <= |xs| then Some(xs[NatValue(num) - 1]) else None
  }

  /** `entrada.lower() in a.lower()` */
  predicate HoldsEntry(a: string, entrada: string) {
    Contains(Lower(a), Lower(entrada))
  }

  function SubstringFilter(entrada: string): string -> Option<string> {
    a => HoldingEntry(a, entrada)
  }

  function HoldingEntry(a: string, entrada: string): Option<string> {
    if HoldsEntry(a, entrada) then Some(a) else None
  }

  /** The files whose name holds the entry, in any case. */
  function Matches(archivos: seq<string>, entrada: string): seq<string> {
    FilterMap(archivos, SubstringFilter(entrada))
  }

  /**
   * `elegir_archivo` on the files listed, the answer to the first prompt and
   * the answer to the "Número del archivo" prompt, which is only read when
   * the choice is still open.
   */
  function Choose(archivos: seq<string>, entrada: string, num: string): Option<string> {
    if archivos == [] then None
    else
      var e := Strip(entrada);
      if e == [] then (if |archivos| == 1 then Some(archivos[0]) else Pick(Strip(num), archivos))
      else if Pick(e, archivos).Some? then Pick(e, archivos)
      else
        var co := Matches(archivos, e);
        if |co| == 1 then Some(co[0]) else if |co| > 1 then Pick(Strip(num), co) else None
  }

  /** The entries that match the entry are files that hold it. */
  lemma MatchesSpec(archivos: seq<string>, e: string)
    ensures forall a :: a in Matches(archivos, e) ==> a in archivos && HoldsEntry(a, e)
  {
    forall a | a in Matches(archivos, e) ensures a in archivos && HoldsEntry(a, e) {
      FilterMapIn(archivos, SubstringFilter(e), a);
      var i :| 0 <= i < |archivos| && SubstringFilter(e)(archivos[i]) == Some(a);
    }
  }

  /** The choice is always one of the files, and there is none without files. */
  lemma ChooseInFiles(archivos: seq<string>, entrada: string, num: string)
    ensures Choose(archivos, entrada, num).Some? ==> Choose(archivos, entrada, num).value in archivos
    ensures archivos == [] ==> Choose(archivos, entrada, num).None?
  {
    MatchesSpec(archivos, Strip(entrada));
    var co := Matches(archivos, Strip(entrada));
    if |co| > 0 {
      assert co[0] in co;
    }
  }

  /** A blank entry picks the only file; a number in range picks that file, whatever the other files are called. */
  lemma ChooseDirect(archivos: seq<string>, entrada: string, num: string)
    ensures |archivos| == 1 && Strip(entrada) == [] ==> Choose(archivos, entrada, num) == Some(archivos[0])
    ensures var e := Strip(entrada);
            e != [] && AllDigits(e) && 1 <= NatValue(e) <= |archivos| ==>
              Choose(archivos, entrada, num) == Some(archivos[NatValue(e) - 1])
  {
  }

  /**
   * An entry that is not a number in range is looked for in the names: no
   * match gives no file, a single match gives it, and a file picked this way
   * holds the entry.
   */
  lemma ChooseByName(archivos: seq<string>, entrada: string, num: string)
    requires archivos != [] && Strip(entrada) != [] && Pick(Strip(entrada), archivos).None?
    ensures Matches(archivos, Strip(entrada)) == [] ==> Choose(archivos, entrada, num).None?
    ensures forall a :: Matches(archivos, Strip(entrada)) == [a] ==> Choose(archivos, entrada, num) == Some(a)
    ensures Choose(archivos, entrada, num).Some? ==> HoldsEntry(Choose(archivos, entrada, num).value, Strip(entrada))
  {
    MatchesSpec(archivos, Strip(entrada));
    var co := Matches(archivos, Strip(entrada));
    if |co| > 0 {
      assert co[0] in co;
    }
  }

  /** A file chosen from the listing has the extension asked for. */
  lemma ChosenHasExtension(names: seq<string>, ext: string, entrada: string, num: string)
    requires Choose(ListFiles(names, ext), entrada, num).Some?
    ensures var f := Choose(ListFiles(names, ext), entrada, num).value;
            f in names && HasExtension(f, ext)
  {
    ChooseInFiles(ListFiles(names, ext), entrada, num);
    ListFilesSpec(names, ext);
  }
}
