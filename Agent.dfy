/**
 * The story selector of the prompt generator (agent.py): the requested user-story IDs parsed
 * from a comma-separated string, the rows of the story table whose `ID_US` is requested, the
 * requested IDs no row has, and each selected row's cells cleaned to text for the prompt.
 */
module Agent {
  import opened Wrappers
  import opened Strings
  import opened Sequences

  /* ---------------------------------------------------------------------------------- */
  /* Requested IDs                                                                      */
  /* ---------------------------------------------------------------------------------- */

  /** The characters Python's `str.strip` removes when called without arguments. */
  predicate IsPySpace(c: char) {
    c == ' ' || ('\t' <= c <= '\r') || ('\U{001C}' <= c <= '\U{001F}') || c == '\U{0085}' || c == '\U{00A0}'
    || c == '\U{1680}' || ('\U{2000}' <= c <= '\U{200A}') || c == '\U{2028}' || c == '\U{2029}'
    || c == '\U{202F}' || c == '\U{205F}' || c == '\U{3000}'
  }

  /** `s.lstrip()`. */
  function LStrip(s: string): (r: string)
    ensures |r| <= |s| && r == s[|s| - |r|..]
    ensures r == [] || !IsPySpace(r[0])
    ensures forall i :: 0 <= i < |s| - |r| ==> IsPySpace(s[i])
  {
    if s == [] || !IsPySpace(s[0]) then s else LStrip(s[1..])
  }

  /** `s.rstrip()`. */
  function RStrip(s: string): (r: string)
    ensures |r| <= |s| && r == s[..|r|]
    ensures r == [] || !IsPySpace(r[|r| - 1])
    ensures forall i :: |r| <= i < |s| ==> IsPySpace(s[i])
  {
    if s == [] || !IsPySpace(s[|s| - 1]) then s else RStrip(s[..|s| - 1])
  }

  /** `s.strip()`. */
  function Strip(s: string): (r: string) {
    RStrip(LStrip(s))
  }

  /** `s[a..b]` is what is left of `s` once white space is cut from both ends. */
  predicate StrippedBetween(s: string, a: nat, b: nat) {
    && a <= b <= |s|
    && (forall i :: 0 <= i < a ==> IsPySpace(s[i]))
    && (forall i :: b <= i < |s| ==> IsPySpace(s[i]))
    && (a == b || (!IsPySpace(s[a]) && !IsPySpace(s[b - 1])))
  }

  /**
   * Stripping keeps the middle stretch of the string: everything before it and after it is
   * white space, and the stretch neither begins nor ends with white space.
   */
  lemma StripMeans(s: string)
    ensures exists a: nat, b: nat :: StrippedBetween(s, a, b) && Strip(s) == s[a..b]
  {
    var l := LStrip(s);
    var r := RStrip(l);
    StripAt(s, l, r);
    assert StrippedBetween(s, |s| - |l|, |s| - |l| + |r|);
  }

  /** The stretch kept starts where `LStrip`'s result starts and is as long as `RStrip`'s. */
  lemma StripAt(s: string, l: string, r: string)
    requires |l| <= |s| && l == s[|s| - |l|..] && forall i :: 0 <= i < |s| - |l| ==> IsPySpace(s[i])
    requires l == [] || !IsPySpace(l[0])
    requires |r| <= |l| && r == l[..|r|] && forall i :: |r| <= i < |l| ==> IsPySpace(l[i])
    requires r == [] || !IsPySpace(r[|r| - 1])
    ensures StrippedBetween(s, |s| - |l|, |s| - |l| + |r|) && r == s[|s| - |l|..|s| - |l| + |r|]
  {
    var a := |s| - |l|;
    var b := a + |r|;
    forall i | b <= i < |s| ensures IsPySpace(s[i]) {
      assert s[i] == l[i - a];
    }
  }

  /** A string with no white space at either end strips to itself. */
  lemma StripNoOp(s: string)
    requires s == [] || (!IsPySpace(s[0]) && !IsPySpace(s[|s| - 1]))
    ensures Strip(s) == s
  {
  }

  /** Stripping adds no character. */
  lemma StripKeeps(s: string, c: char)
    ensures c in Strip(s) ==> c in s
  {
    var l := LStrip(s);
    if c in Strip(s) {
      var j :| 0 <= j < |Strip(s)| && Strip(s)[j] == c;
      assert l[j] == c;
      assert s[|s| - |l| + j] == c;
    }
  }

  /** The requested IDs: the pieces between commas, each stripped, in the order written. */
  function RequestedIds(idsText: string): seq<string> {
    MapSeq(Strip, Split(idsText, ','))
  }

  /**
   * There is one ID per comma-separated piece, even an empty one, each ID is its piece
   * stripped and holds no comma; a text whose pieces carry no surrounding white space is
   * given back by joining its IDs with commas.
   */
  lemma RequestedIdsMeans(idsText: string)
    ensures var ids := RequestedIds(idsText);
      var pieces := Split(idsText, ',');
      && |ids| == |pieces| >= 1
      && (forall k :: 0 <= k < |ids| ==> ids[k] == Strip(pieces[k]) && ',' !in ids[k])
      && ((forall k :: 0 <= k < |pieces| ==> Strip(pieces[k]) == pieces[k]) ==> Join(ids, ",") == idsText)
  {
    var pieces := Split(idsText, ',');
    RequestedIdsPieces(pieces);
    if forall k :: 0 <= k < |pieces| ==> Strip(pieces[k]) == pieces[k] {
      RequestedIdsJoin(idsText);
    }
  }

  /** When stripping changes no piece, the IDs joined with commas give back the text. */
  lemma RequestedIdsJoin(idsText: string)
    requires var pieces := Split(idsText, ','); forall k :: 0 <= k < |pieces| ==> Strip(pieces[k]) == pieces[k]
    ensures Join(RequestedIds(idsText), ",") == idsText
  {
    assert RequestedIds(idsText) == Split(idsText, ',');
    JoinSplit(idsText, ',');
  }

  /** Stripping comma-free pieces leaves them comma-free. */
  lemma RequestedIdsPieces(pieces: seq<string>)
    requires forall k :: 0 <= k < |pieces| ==> ',' !in pieces[k]
    ensures var ids := MapSeq(Strip, pieces);
      forall k :: 0 <= k < |ids| ==> ids[k] == Strip(pieces[k]) && ',' !in ids[k]
  {
    forall k | 0 <= k < |pieces| ensures ',' !in Strip(pieces[k]) {
      StripKeeps(pieces[k], ',');
    }
  }

  /* ---------------------------------------------------------------------------------- */
  /* The story table                                                                    */
  /* ---------------------------------------------------------------------------------- */

  /**
   * A cell of the spreadsheet: `Missing` for an empty cell (NaN in the frame), otherwise the
   * text `str` gives for its value.
   */
  datatype Cell = Missing | Value(text: string)

  /** A row by column name. */
  type Row = map<string, Cell>

  /** The sheet: its column names and its rows. */
  datatype Table = Table(columns: seq<string>, rows: seq<Row>)

  /** The column holding the story ID. */
  const IdColumn: string := "ID_US"

  /** A row's cell in a column; every row of a frame has every column, so the default only fills the map out. */
  function CellAt(row: Row, column: string): Cell {
    if column in row then row[column] else Missing
  }

  /** `astype(str)` of a cell: a missing value becomes the text "nan". */
  function AsStr(c: Cell): string {
    match c
    case Missing => "nan"
    case Value(t) => t
  }

  /** A row's story ID compared as text. */
  function IdOf(row: Row): string {
    AsStr(CellAt(row, IdColumn))
  }

  /** The rows whose story ID is requested, in table order. */
  function MatchingRows(rows: seq<Row>, ids: seq<string>): seq<Row> {
    Filter(rows, row => IdOf(row) in ids)
  }

  /** What the selection hands on: the matched rows and the requested IDs that none of them has. */
  datatype Selection = Selection(rows: seq<Row>, missing: seq<string>)

  /**
   * The selection step of `generar_prompt_para_copilot`: `None` when the sheet has no ID column
   * (the lookup raises and the error is reported) or no row matches.
   */
  function SelectStories(idsText: string, table: Table): Option<Selection> {
    if IdColumn !in table.columns then None
    else
      var ids := RequestedIds(idsText);
      var found := MatchingRows(table.rows, ids);
      if |found| == 0 then None
      else
        var foundIds := MapSeq(IdOf, found);
        Some(Selection(found, Filter(ids, id => id !in foundIds)))
  }

  /** Nothing is selected exactly when the ID column is absent or no row carries a requested ID. */
  lemma SelectStoriesNone(idsText: string, table: Table)
    ensures SelectStories(idsText, table).None? <==>
      IdColumn !in table.columns
      || forall k :: 0 <= k < |table.rows| ==> IdOf(table.rows[k]) !in RequestedIds(idsText)
  {
    FilterEmpty(table.rows, row => IdOf(row) in RequestedIds(idsText));
  }

  /**
   * The selected rows are the table's rows with a requested ID, each as often as in the table,
   * and in table order: cutting the table anywhere, the rows selected from the first part come
   * before those selected from the rest.
   */
  lemma SelectedRows(idsText: string, table: Table)
    requires SelectStories(idsText, table).Some?
    ensures var s := SelectStories(idsText, table).value;
      var ids := RequestedIds(idsText);
      && (forall row :: multiset(s.rows)[row] == if IdOf(row) in ids then multiset(table.rows)[row] else 0)
      && (forall i :: 0 <= i <= |table.rows| ==>
            s.rows == MatchingRows(table.rows[..i], ids) + MatchingRows(table.rows[i..], ids))
  {
    var ids := RequestedIds(idsText);
    forall row ensures multiset(MatchingRows(table.rows, ids))[row]
                   == if IdOf(row) in ids then multiset(table.rows)[row] else 0 {
      FilterCount(table.rows, row => IdOf(row) in ids, row);
    }
    forall i | 0 <= i <= |table.rows|
      ensures MatchingRows(table.rows, ids) == MatchingRows(table.rows[..i], ids) + MatchingRows(table.rows[i..], ids)
    {
      assert table.rows == table.rows[..i] + table.rows[i..];
      FilterConcat(table.rows[..i], table.rows[i..], row => IdOf(row) in ids);
    }
  }

  /**
   * A requested ID is reported missing exactly when no row of the table has it; a missing ID
   * is listed as often as it was requested, and the missing IDs keep the request order.
   */
  lemma MissingIds(idsText: string, table: Table)
    requires SelectStories(idsText, table).Some?
    ensures var s := SelectStories(idsText, table).value;
      var ids := RequestedIds(idsText);
      && (forall x :: x in s.missing <==> x in ids && forall k :: 0 <= k < |table.rows| ==> IdOf(table.rows[k]) != x)
      && (forall x :: x in s.missing ==> multiset(s.missing)[x] == multiset(ids)[x])
      && (forall i :: 0 <= i <= |ids| ==>
            s.missing == MissingAmong(ids[..i], s.rows) + MissingAmong(ids[i..], s.rows))
  {
    var ids := RequestedIds(idsText);
    var s := SelectStories(idsText, table).value;
    var foundIds := MapSeq(IdOf, s.rows);
    assert s.missing == MissingAmong(ids, s.rows);
    forall x ensures x in s.missing <==> x in ids && forall k :: 0 <= k < |table.rows| ==> IdOf(table.rows[k]) != x {
      assert x in s.missing <==> x in ids && x !in foundIds;
      if x in ids && x in foundIds {
        var j :| 0 <= j < |s.rows| && foundIds[j] == x;
        assert s.rows[j] in s.rows;
        var k :| 0 <= k < |table.rows| && table.rows[k] == s.rows[j];
      }
      if x in ids && exists k :: 0 <= k < |table.rows| && IdOf(table.rows[k]) == x {
        var k :| 0 <= k < |table.rows| && IdOf(table.rows[k]) == x;
        assert table.rows[k] in table.rows;
        assert table.rows[k] in s.rows;
        var j :| 0 <= j < |s.rows| && s.rows[j] == table.rows[k];
        assert foundIds[j] == x;
      }
    }
    forall x | x in s.missing ensures multiset(s.missing)[x] == multiset(ids)[x] {
      FilterCount(ids, id => id !in foundIds, x);
    }
    forall i | 0 <= i <= |ids|
      ensures s.missing == MissingAmong(ids[..i], s.rows) + MissingAmong(ids[i..], s.rows)
    {
      assert ids == ids[..i] + ids[i..];
      FilterConcat(ids[..i], ids[i..], id => id !in foundIds);
    }
  }

  /** The IDs of `ids` that no row of `found` has, in order. */
  function MissingAmong(ids: seq<string>, found: seq<Row>): seq<string> {
    var foundIds := MapSeq(IdOf, found);
    Filter(ids, id => id !in foundIds)
  }

  /** IDs are compared as text: a row whose ID cell is empty is selected by the requested ID "nan". */
  lemma EmptyIdMatchesNan()
    ensures var row: Row := map[IdColumn := Missing];
      SelectStories("nan", Table([IdColumn], [row])) == Some(Selection([row], []))
  {
    var row: Row := map[IdColumn := Missing];
    StripNoOp("nan");
    assert Split("nan", ',') == ["nan"];
    assert RequestedIds("nan") == ["nan"];
    assert IdOf(row) == "nan";
    assert MatchingRows([row], ["nan"]) == [row] by {
      assert [row][..0] == [];
    }
    assert MapSeq(IdOf, [row]) == ["nan"];
    assert Filter(["nan"], id => id !in ["nan"]) == [] by {
      assert ["nan"][..0] == [];
    }
  }

  /* ---------------------------------------------------------------------------------- */
  /* Cleaning a selected row                                                            */
  /* ---------------------------------------------------------------------------------- */

  /** The text a cell contributes to the prompt: empty for a missing value, otherwise its text. */
  function Clean(c: Cell): (r: string)
    ensures c.Missing? ==> r == []
  {
    match c
    case Missing => ""
    case Value(t) => t
  }

  /** `datos`: every column of the sheet with its cleaned cell. */
  method CleanRow(columns: seq<string>, row: Row) returns (datos: map<string, string>)
    ensures forall c :: c in datos <==> c in columns
    ensures forall c :: c in datos ==> datos[c] == Clean(CellAt(row, c))
  {
    datos := map[];
    for i := 0 to |columns|
      invariant forall c :: c in datos <==> c in columns[..i]
      invariant forall c :: c in datos ==> datos[c] == Clean(CellAt(row, c))
    {
      var columna := columns[i];
      var valor := CellAt(row, columna);
      datos := datos[columna := if valor.Missing? then "" else valor.text];
      assert columns[..i + 1] == columns[..i] + [columna];
    }
    assert columns[..|columns|] == columns;
  }

  /** `datos.get(column, 'N/A')`. */
  function Field(datos: map<string, string>, column: string): string {
    if column in datos then datos[column] else "N/A"
  }

  /**
   * The prompt shows a sheet column's cleaned cell, empty for an empty cell, and "N/A" for a
   * column the sheet does not have.
   */
  lemma FieldShown(columns: seq<string>, row: Row, datos: map<string, string>, column: string)
    requires forall c :: c in datos <==> c in columns
    requires forall c :: c in datos ==> datos[c] == Clean(CellAt(row, c))
    ensures column in columns ==> Field(datos, column) == Clean(CellAt(row, column))
    ensures column in columns && CellAt(row, column).Missing? ==> Field(datos, column) == ""
    ensures column !in columns ==> Field(datos, column) == "N/A"
  {
  }
}
