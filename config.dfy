/**
 * The configuration loader (`load_sections` in data.py): the "Sections" sheet of the workbook,
 * its required-column check and the normalisation of the four columns every tab relies on.
 */
module Config {
  import opened Base
  import opened Text

  /** A spreadsheet cell as pandas holds it: empty (NaN), or a value whose `str()` is `text`. */
  datatype Cell = Missing | Value(text: string)

  /** The "Sections" sheet as read from the workbook: header names and data rows. */
  datatype Sheet = Sheet(columns: seq<string>, rows: seq<seq<Cell>>)

  datatype ConfigError =
    | FileNotFound
    | EmptySheet
    | MissingColumns(missing: seq<string>, found: seq<string>)
      /** `df.get("Type", "static")` yields a plain string, which has no `astype`: the call raises. */
    | TypeColumnAbsent
      /** A column the loader reads with `.str` occurs twice once the headers are stripped: pandas then
          hands back a frame, which has no `.str`, and the call raises. */
    | DuplicateColumn(name: string)

  /** One normalised configuration row; `cells` keeps the row's raw cells for the optional columns. */
  datatype ConfigRow = ConfigRow(section: string, subsection: string, command: string, kind: string, cells: seq<Cell>)

  /** The loaded table: trimmed column names and the normalised rows, in sheet order. */
  datatype Table = Table(columns: seq<string>, rows: seq<ConfigRow>)

  const SectionColumn := "Section_Title"
  const SubsectionColumn := "Subsection_Title"
  const CommandColumn := "Command"
  const TypeColumn := "Type"
  const Required: seq<string> := [SectionColumn, SubsectionColumn, CommandColumn]

  /** Position of a required column in `Required`. */
  function RequiredRank(c: string): nat
  {
    if c == SectionColumn then 0 else if c == SubsectionColumn then 1 else 2
  }

  /** The cell of a row in column `j`; a short row reads as empty, as pandas pads it. */
  function CellAt(row: seq<Cell>, j: nat): Cell
  {
    if j < |row| then row[j] else Missing
  }

  /** `astype(str)`: an empty cell becomes the text "nan". */
  function AsStr(c: Cell): string
  {
    match c
    case Missing => "nan"
    case Value(t) => t
  }

  /** `fillna(d)`: an empty cell takes the text `d`, a filled one is kept. */
  function FillNa(c: Cell, d: string): (r: Cell)
    ensures r.Value?
    ensures c.Value? ==> r == c
    ensures c.Missing? ==> r.text == d
  {
    if c.Missing? then Value(d) else c
  }

  /** `df.columns.str.strip()`. */
  function TrimAll(cols: seq<string>): (r: seq<string>)
    ensures |r| == |cols| && forall j :: 0 <= j < |cols| ==> r[j] == Trim(cols[j])
  {
    seq(|cols|, j requires 0 <= j < |cols| => Trim(cols[j]))
  }

  /** The position of the first column called `name`. */
  function ColumnIndex(cols: seq<string>, name: string): (r: Option<nat>)
    ensures r.Some? <==> name in cols
    ensures r.Some? ==> r.value < |cols| && cols[r.value] == name && name !in cols[..r.value]
  {
    if cols == [] then None
    else if cols[0] == name then Some(0)
    else match ColumnIndex(cols[1..], name)
      case None => None
      case Some(j) => Some(j + 1)
  }

  /**
   * The cell of `row` under column `name` (the first column so called), or None when the table has
   * no such column.
   */
  function Lookup(cols: seq<string>, row: seq<Cell>, name: string): (r: Option<Cell>)
    ensures r.Some? <==> name in cols
    ensures r.Some? ==> exists j :: 0 <= j < |cols| && cols[j] == name && name !in cols[..j] && r.value == CellAt(row, j)
  {
    match ColumnIndex(cols, name)
    case None => None
    case Some(j) => Some(CellAt(row, j))
  }

  /** `name` heads at least two columns of `cols`. */
  predicate Duplicated(cols: seq<string>, name: string)
  {
    exists i, j :: 0 <= i < j < |cols| && cols[i] == name && cols[j] == name
  }

  /** When `name` heads a single column, `Lookup` reads that column, whichever position it has. */
  lemma LookupUnique(cols: seq<string>, row: seq<Cell>, name: string, j: nat)
    requires j < |cols| && cols[j] == name && !Duplicated(cols, name)
    ensures Lookup(cols, row, name) == Some(CellAt(row, j))
  {
    var k := ColumnIndex(cols, name).value;
    assert forall i :: 0 <= i < k ==> cols[..k][i] == cols[i];
  }

  /** The required columns absent from `cols` (data.py:21): exactly those, each once, in the order of `Required`. */
  function MissingColumnsOf(cols: seq<string>): (missing: seq<string>)
    ensures forall c :: c in missing <==> c in Required && c !in cols
    ensures NoDup(missing)
    ensures forall i, j :: 0 <= i < j < |missing| ==> RequiredRank(missing[i]) < RequiredRank(missing[j])
  {
    (if SectionColumn in cols then [] else [SectionColumn])
    + (if SubsectionColumn in cols then [] else [SubsectionColumn])
    + (if CommandColumn in cols then [] else [CommandColumn])
  }

  /**
   * `load_sections`: fails when the file is absent, when the sheet is empty, when a required column
   * is missing (naming exactly the missing ones), when the title or subtitle column occurs twice,
   * when there is no Type column and when it occurs twice; otherwise returns
   * every row, in order, with the title trimmed, the subtitle defaulted to "" and trimmed, the command
   * defaulted to "" but not trimmed, and the type lower-cased.
   */
  method LoadSections(fileExists: bool, sheet: Sheet) returns (r: Result<Table, ConfigError>)
    ensures !fileExists ==> r == Err(FileNotFound)
    ensures fileExists && (sheet.rows == [] || sheet.columns == []) ==> r == Err(EmptySheet)
    ensures r.Err? && r.error.MissingColumns? ==>
              r.error.missing == MissingColumnsOf(TrimAll(sheet.columns)) && r.error.missing != []
    ensures r.Err? && r.error.MissingColumns? ==> r.error.found == TrimAll(sheet.columns)
    ensures fileExists && sheet.rows != [] && sheet.columns != [] && MissingColumnsOf(TrimAll(sheet.columns)) != [] ==>
              r.Err? && r.error.MissingColumns?
    ensures (&& fileExists && sheet.rows != [] && sheet.columns != [] && MissingColumnsOf(TrimAll(sheet.columns)) == []
             && Duplicated(TrimAll(sheet.columns), SectionColumn)) ==> r == Err(DuplicateColumn(SectionColumn))
    ensures (&& fileExists && sheet.rows != [] && sheet.columns != [] && MissingColumnsOf(TrimAll(sheet.columns)) == []
             && !Duplicated(TrimAll(sheet.columns), SectionColumn) && Duplicated(TrimAll(sheet.columns), SubsectionColumn))
              ==> r == Err(DuplicateColumn(SubsectionColumn))
    ensures (&& fileExists && sheet.rows != [] && sheet.columns != [] && MissingColumnsOf(TrimAll(sheet.columns)) == []
             && !Duplicated(TrimAll(sheet.columns), SectionColumn) && !Duplicated(TrimAll(sheet.columns), SubsectionColumn)
             && TypeColumn !in TrimAll(sheet.columns)) ==> r == Err(TypeColumnAbsent)
    ensures (&& fileExists && sheet.rows != [] && sheet.columns != [] && MissingColumnsOf(TrimAll(sheet.columns)) == []
             && !Duplicated(TrimAll(sheet.columns), SectionColumn) && !Duplicated(TrimAll(sheet.columns), SubsectionColumn)
             && TypeColumn in TrimAll(sheet.columns) && Duplicated(TrimAll(sheet.columns), TypeColumn))
              ==> r == Err(DuplicateColumn(TypeColumn))
    ensures r == Err(FileNotFound) <==> !fileExists
    ensures r == Err(EmptySheet) <==> fileExists && (sheet.rows == [] || sheet.columns == [])
    ensures r == Err(TypeColumnAbsent) <==>
              && fileExists && sheet.rows != [] && sheet.columns != [] && MissingColumnsOf(TrimAll(sheet.columns)) == []
              && !Duplicated(TrimAll(sheet.columns), SectionColumn) && !Duplicated(TrimAll(sheet.columns), SubsectionColumn)
              && TypeColumn !in TrimAll(sheet.columns)
    ensures r.Err? && r.error.DuplicateColumn? ==>
              r.error.name in [SectionColumn, SubsectionColumn, TypeColumn] && Duplicated(TrimAll(sheet.columns), r.error.name)
    ensures r.Ok? <==> && fileExists && sheet.rows != [] && sheet.columns != []
                       && MissingColumnsOf(TrimAll(sheet.columns)) == [] && TypeColumn in TrimAll(sheet.columns)
                       && !Duplicated(TrimAll(sheet.columns), SectionColumn)
                       && !Duplicated(TrimAll(sheet.columns), SubsectionColumn)
                       && !Duplicated(TrimAll(sheet.columns), TypeColumn)
    ensures r.Ok? ==> r.value.columns == TrimAll(sheet.columns) && |r.value.rows| == |sheet.rows|
    ensures r.Ok? ==> forall i :: 0 <= i < |sheet.rows| ==>
              var cols, raw, row := r.value.columns, sheet.rows[i], r.value.rows[i];
              && row.section == Trim(AsStr(Lookup(cols, raw, SectionColumn).value))
              && row.subsection == Trim(AsStr(FillNa(Lookup(cols, raw, SubsectionColumn).value, "")))
              && row.command == AsStr(FillNa(Lookup(cols, raw, CommandColumn).value, ""))
              && row.kind == Lower(AsStr(Lookup(cols, raw, TypeColumn).value))
              && row.cells == raw
  {
    if !fileExists {
      return Err(FileNotFound);
    }
    if sheet.rows == [] || sheet.columns == [] {
      return Err(EmptySheet);
    }
    var cols := TrimAll(sheet.columns);
    var missing := MissingColumnsOf(cols);
    if missing != [] {
      return Err(MissingColumns(missing, cols));
    }
    if Duplicated(cols, SectionColumn) {
      return Err(DuplicateColumn(SectionColumn));
    }
    if Duplicated(cols, SubsectionColumn) {
      return Err(DuplicateColumn(SubsectionColumn));
    }
    if TypeColumn !in cols {
      return Err(TypeColumnAbsent);
    }
    if Duplicated(cols, TypeColumn) {
      return Err(DuplicateColumn(TypeColumn));
    }
    var rows := Normalise(cols, sheet.rows);
    r := Ok(Table(cols, rows));
  }

  /** The four column reassignments of data.py:26-29, applied to every row. */
  method Normalise(cols: seq<string>, raw: seq<seq<Cell>>) returns (rows: seq<ConfigRow>)
    requires forall c :: c in Required ==> c in cols
    requires TypeColumn in cols
    ensures |rows| == |raw|
    ensures forall i :: 0 <= i < |raw| ==>
              var row := rows[i];
              && row.section == Trim(AsStr(Lookup(cols, raw[i], SectionColumn).value))
              && row.subsection == Trim(AsStr(FillNa(Lookup(cols, raw[i], SubsectionColumn).value, "")))
              && row.command == AsStr(FillNa(Lookup(cols, raw[i], CommandColumn).value, ""))
              && row.kind == Lower(AsStr(Lookup(cols, raw[i], TypeColumn).value))
              && row.cells == raw[i]
  {
    var sec := ColumnIndex(cols, SectionColumn).value;
    var sub := ColumnIndex(cols, SubsectionColumn).value;
    var cmd := ColumnIndex(cols, CommandColumn).value;
    var typ := ColumnIndex(cols, TypeColumn).value;
    var n := |raw|;
    // one column reassignment at a time, as the loader does
    var sections := seq(n, i requires 0 <= i < n => Trim(AsStr(CellAt(raw[i], sec))));
    var subsections := seq(n, i requires 0 <= i < n => Trim(AsStr(FillNa(CellAt(raw[i], sub), ""))));
    var commands := seq(n, i requires 0 <= i < n => AsStr(FillNa(CellAt(raw[i], cmd), "")));
    var kinds := seq(n, i requires 0 <= i < n => Lower(AsStr(CellAt(raw[i], typ))));
    rows := seq(n, i requires 0 <= i < n => ConfigRow(sections[i], subsections[i], commands[i], kinds[i], raw[i]));
    forall i | 0 <= i < n
      ensures Lookup(cols, raw[i], SectionColumn) == Some(CellAt(raw[i], sec))
      ensures Lookup(cols, raw[i], SubsectionColumn) == Some(CellAt(raw[i], sub))
      ensures Lookup(cols, raw[i], CommandColumn) == Some(CellAt(raw[i], cmd))
      ensures Lookup(cols, raw[i], TypeColumn) == Some(CellAt(raw[i], typ))
    {
    }
  }
}
