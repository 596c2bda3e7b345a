/**
 * The scraper that turns the national dex table of pokemondb into `pokedex.json`.
 * The page is given as the text contents of its table rows (`table[j][c]` is the
 * text of cell `c` of `<tr>` number `j`), and Python's `int()` on a string as a
 * parameter, so fetching and HTML parsing stay outside the model.
 *
 * Part one reads the header row and the data rows below it into columns; part two
 * walks the resulting frame row by row and key by key, building the dataset.
 */
module PokedexScraper {
  import opened Outcome
  import opened PyDict
  import opened PyText

  /** A cell after conversion: its text, or the integer that text denotes. */
  datatype Cell = Text(text: string) | Int(number: int)

  /** Python's `int()` on a string: the integer, or None where it raises ValueError. */
  type IntParser = string -> Option<int>

  /** A header title with the cells collected under it. */
  type Column = (string, seq<Cell>)

  /** The frame built from the columns: an ordered dict from title to column. */
  type Frame = Dict<string, seq<Cell>>

  /** Rows of the dex table have exactly this many cells; other rows end it. */
  const Width: nat := 10

  // ---------------------------------------------------------------------------
  // Part one: from table rows to columns
  // ---------------------------------------------------------------------------

  /** The number of rows at the front of `rows` that have exactly `Width` cells. */
  function DataRows(rows: seq<seq<string>>): (n: nat)
    ensures n <= |rows|
    ensures forall r :: 0 <= r < n ==> |rows[r]| == Width
    ensures n < |rows| ==> |rows[n]| != Width
  {
    if rows == [] || |rows[0]| != Width then 0 else 1 + DataRows(rows[1..])
  }

  /** Every cell but the first of a row is replaced by its integer when it parses. */
  function CellOf(c: nat, text: string, parseInt: IntParser): (cell: Cell)
    ensures c == 0 ==> cell == Text(text)
    ensures cell.Int? <==> c > 0 && parseInt(text).Some?
    ensures cell.Int? ==> parseInt(text) == Some(cell.number)
    ensures cell.Text? ==> cell.text == text
  {
    if c > 0 && parseInt(text).Some? then Int(parseInt(text).value) else Text(text)
  }

  /** The converted cells of column `c` in the data rows `1 ..= m`. */
  function ColumnCells(table: seq<seq<string>>, c: nat, m: nat, parseInt: IntParser): (cells: seq<Cell>)
    requires m < |table| && forall r :: 1 <= r <= m ==> c < |table[r]|
    ensures |cells| == m
  {
    seq(m, r requires 0 <= r < m => CellOf(c, table[1 + r][c], parseInt))
  }

  /** The header titles paired with their columns, or IndexError. */
  function Columns(table: seq<seq<string>>, parseInt: IntParser): Result<seq<Column>> {
    if |table| == 0 then Failure(IndexError)
    else
      var n := DataRows(table[1..]);
      if n > 0 && |table[0]| < Width then Failure(IndexError)
      else
        assert forall r :: 1 <= r <= n ==> |table[r]| == Width by {
          forall r | 1 <= r <= n ensures |table[r]| == Width {
            assert table[1..][r - 1] == table[r];
          }
        }
        Success(seq(|table[0]|, c requires 0 <= c < |table[0]| =>
          (table[0][c], if c < Width then ColumnCells(table, c, n, parseInt) else [])))
  }

  /**
   * What the columns hold: one title per header cell; under each of the first
   * `Width` titles, one cell per data row, taken from that row's cell at the same
   * position; nothing under later titles. The first column keeps its text. The
   * run fails exactly when the page has no rows, or when a data row is wider than
   * the header.
   */
  lemma ColumnsShape(table: seq<seq<string>>, parseInt: IntParser)
    ensures Columns(table, parseInt).Failure? <==>
      |table| == 0 || (DataRows(table[1..]) > 0 && |table[0]| < Width)
    ensures Columns(table, parseInt).Failure? ==> Columns(table, parseInt).error == IndexError
    ensures Columns(table, parseInt).Success? ==>
      var cols := Columns(table, parseInt).value;
      var n := DataRows(table[1..]);
      && |cols| == |table[0]|
      && (forall c :: 0 <= c < |cols| ==> cols[c].0 == table[0][c])
      && (forall c :: 0 <= c < |cols| ==> |cols[c].1| == (if c < Width then n else 0))
      && (forall c, r :: 0 <= c < |cols| && 0 <= r < |cols[c].1| ==>
            1 + r < |table| && c < |table[1 + r]| && cols[c].1[r] == CellOf(c, table[1 + r][c], parseInt))
      && (forall r :: 0 <= r < |cols| && 0 < |cols| && r < |cols[0].1| ==> cols[0].1[r] == Text(table[1 + r][0]))
  {
    if |table| > 0 {
      var n := DataRows(table[1..]);
      forall r | 1 <= r <= n ensures |table[r]| == Width {
        assert table[1..][r - 1] == table[r];
      }
    }
  }

  /** Inserting one more data row's cell at the end of a column. */
  lemma ColumnCellsSnoc(table: seq<seq<string>>, c: nat, m: nat, parseInt: IntParser)
    requires m + 1 < |table| && forall r :: 1 <= r <= m + 1 ==> c < |table[r]|
    ensures ColumnCells(table, c, m + 1, parseInt) == ColumnCells(table, c, m, parseInt) + [CellOf(c, table[m + 1][c], parseInt)]
  {
  }

  /** Columns that hold every data row are the columns of the table. */
  lemma ColumnsOfAllRows(table: seq<seq<string>>, parseInt: IntParser, col: seq<Column>)
    requires |table| > 0
    requires DataRows(table[1..]) > 0 ==> |table[0]| >= Width
    requires |col| == |table[0]|
    requires forall r :: 1 <= r <= DataRows(table[1..]) ==> |table[r]| == Width
    requires forall c :: 0 <= c < |col| ==> col[c].0 == table[0][c]
    requires forall c :: 0 <= c < |col| ==>
      col[c].1 == (if c < Width then ColumnCells(table, c, DataRows(table[1..]), parseInt) else [])
    ensures Columns(table, parseInt) == Success(col)
  {
    var n := DataRows(table[1..]);
    assert !(n > 0 && |table[0]| < Width);
    var expected := seq(|table[0]|, c requires 0 <= c < |table[0]| =>
      (table[0][c], if c < Width then ColumnCells(table, c, n, parseInt) else []));
    assert Columns(table, parseInt) == Success(expected);
    assert forall c :: 0 <= c < |col| ==> col[c] == expected[c];
    assert col == expected;
  }

  /**
   * One data row of `Width` cells appended to the columns: cell `k` goes to column
   * `k`, converted to an integer when `k > 0` and it parses. None where a cell has
   * no column to go to (IndexError).
   */
  method AppendRow(col: seq<Column>, table: seq<seq<string>>, j: nat, parseInt: IntParser)
    returns (r: Option<seq<Column>>)
    requires 1 <= j < |table| && |table[j]| == Width
    requires forall r :: 1 <= r <= j ==> |table[r]| == Width
    requires forall c :: 0 <= c < |col| ==>
      col[c].1 == (if c < Width then ColumnCells(table, c, j - 1, parseInt) else [])
    ensures r.None? <==> |col| < Width
    ensures r.Some? ==> |r.value| == |col|
    ensures r.Some? ==> forall c :: 0 <= c < |col| ==> r.value[c].0 == col[c].0
    ensures r.Some? ==> forall c :: 0 <= c < |col| ==>
      r.value[c].1 == (if c < Width then ColumnCells(table, c, j, parseInt) else [])
  {
    var row := table[j];
    var next := col;
    var k := 0;
    while k < |row|
      invariant 0 <= k <= |row| && k <= |next| == |col|
      invariant forall c :: 0 <= c < |col| ==> next[c].0 == col[c].0
      invariant forall c :: 0 <= c < k ==> next[c].1 == ColumnCells(table, c, j, parseInt)
      invariant forall c :: k <= c < |col| ==> next[c].1 == col[c].1
    {
      var data := Text(row[k]);
      if k > 0 {
        match parseInt(row[k])
        case Some(v) =>
          data := Int(v);
        case None =>
      }
      if k >= |next| {
        return None;
      }
      ColumnCellsSnoc(table, k, j - 1, parseInt);
      next := next[k := (next[k].0, next[k].1 + [data])];
      k := k + 1;
    }
    return Some(next);
  }

  /**
   * The column-building loops: one empty column per header cell, then the cells of
   * each data row appended to the columns at their positions, stopping at the
   * first row that does not have `Width` cells.
   */
  method BuildColumns(table: seq<seq<string>>, parseInt: IntParser) returns (r: Result<seq<Column>>)
    ensures r == Columns(table, parseInt)
  {
    if |table| == 0 {
      return Failure(IndexError);
    }
    var header := table[0];
    var col: seq<Column> := [];
    var i := 0;
    while i < |header|
      invariant 0 <= i <= |header|
      invariant |col| == i
      invariant forall c :: 0 <= c < i ==> col[c] == (header[c], [])
    {
      col := col + [(header[i], [])];
      i := i + 1;
    }
    ghost var n := DataRows(table[1..]);
    var j := 1;
    while j < |table|
      invariant 1 <= j <= |table|
      invariant j - 1 <= n
      invariant forall r :: 1 <= r < j ==> |table[r]| == Width
      invariant j > 1 ==> |header| >= Width
      invariant |col| == |header|
      invariant forall c :: 0 <= c < |col| ==> col[c].0 == header[c]
      invariant forall c :: 0 <= c < |col| ==>
        col[c].1 == (if c < Width then ColumnCells(table, c, j - 1, parseInt) else [])
    {
      if |table[j]| != Width {
        break;
      }
      assert table[1..][j - 1] == table[j];
      var appended := AppendRow(col, table, j, parseInt);
      if appended.None? {
        return Failure(IndexError);
      }
      col := appended.value;
      j := j + 1;
    }
    assert j - 1 == n;
    ColumnsOfAllRows(table, parseInt, col);
    return Success(col);
  }

  function Title(column: Column): string {
    column.0
  }

  function Cells(column: Column): seq<Cell> {
    column.1
  }

  /** The number of rows of a frame: the length of its columns. */
  function RowCount(frame: Frame): nat {
    if frame == [] then 0 else |frame[0].1|
  }

  /** Every column of the frame has the same length. */
  predicate Rectangular(frame: Frame) {
    forall c :: 0 <= c < |frame| ==> |frame[c].1| == RowCount(frame)
  }

  /**
   * `pandas.DataFrame({title: column for (title, column) in col})`: a later column
   * under a repeated title replaces the earlier one, and columns of different
   * lengths are refused with ValueError.
   */
  function FrameOf(cols: seq<Column>): (r: Result<Frame>)
    ensures r.Success? ==> Rectangular(r.value) && Valid(r.value)
    ensures r.Success? ==> r.value == Collect(cols, Title, Cells)
    ensures r.Failure? <==> !Rectangular(Collect(cols, Title, Cells))
  {
    var frame := Collect(cols, Title, Cells);
    CollectValid(cols, Title, Cells);
    if Rectangular(frame) then Success(frame)
    else Failure(ValueError("All arrays must be of the same length"))
  }

  // ---------------------------------------------------------------------------
  // Part two: from the frame to the dataset
  // ---------------------------------------------------------------------------

  /** Six base stats: HP, Attack, Defense, Sp. Atk, Sp. Def, Speed. */
  type Stats = s: seq<int> | |s| == 6 witness [0, 0, 0, 0, 0, 0]

  /** The `stats` list the script starts each creature with. */
  const NoStats: seq<int> := [0, 0, 0, 0, 0, 0]

  /**
   * One dataset entry as the script stores it. `dexId` or `types` is None when the
   * script stores the entry before it ever assigned `id` or `type`: the entry then
   * holds Python's builtin of that name.
   */
  datatype Entry = Entry(dexId: Option<int>, types: Option<seq<string>>, stats: seq<int>, altForm: bool)

  /** The script's variables between two steps of its loops. */
  datatype State = State(
    stats: seq<int>,
    pokedex: Dict<string, Entry>,
    prevId: int,
    altForm: bool,
    id: Option<int>,
    name: Option<string>,
    types: Option<seq<string>>)

  /**
   * The variables as the loops find them. `name` still holds the last header
   * title, which the header loop of part one left in it.
   */
  function Start(leftoverName: Option<string>): State {
    State(NoStats, [], 0, false, None, leftoverName, None)
  }

  /** `int(cell)`: an integer cell as it is, a text cell parsed, or ValueError. */
  function IntOf(cell: Cell, parseInt: IntParser): (r: Result<int>)
    ensures cell.Int? ==> r == Success(cell.number)
    ensures cell.Text? && parseInt(cell.text).Some? ==> r == Success(parseInt(cell.text).value)
    ensures cell.Text? && parseInt(cell.text).None? ==> r == Failure(ValueError(cell.text))
  {
    match cell
    case Int(n) => Success(n)
    case Text(s) =>
      match parseInt(s)
      case Some(n) => Success(n)
      case None => Failure(ValueError(s))
  }

  /** Lower-casing keeps a letter a non-space character. */
  lemma LowerLettersHaveNoSpace(s: string)
    requires IsAlpha(s)
    ensures |Lower(s)| > 0 && forall i :: 0 <= i < |Lower(s)| ==> !IsSpace(Lower(s)[i])
  {
    forall i | 0 <= i < |Lower(s)| ensures !IsSpace(Lower(s)[i]) {
      assert IsLetter(s[i]);
    }
  }

  /**
   * The name a Name cell gives: the lower-cased text when it is not purely
   * alphabetic or the row is an alternate form, otherwise the first word of the
   * lower-cased text. Both ways give the whole lower-cased text: a purely
   * alphabetic text is one word. An integer cell has no `isalpha` (AttributeError).
   */
  function NameOf(cell: Cell, altForm: bool): (r: Result<string>)
    ensures cell.Int? ==> r == Failure(AttributeError)
    ensures cell.Text? ==> r == Success(Lower(cell.text))
  {
    match cell
    case Int(_) => Failure(AttributeError)
    case Text(s) =>
      if !IsAlpha(s) || altForm then Success(Lower(s))
      else
        var words := Split(Lower(s));
        LowerLettersHaveNoSpace(s);
        SplitOneWord(Lower(s));
        if |words| == 0 then Failure(IndexError) else Success(words[0])
  }

  /**
   * The types a Type cell gives: the words of its lower-cased text, sorted. An
   * integer cell has no `lower` (AttributeError).
   */
  function TypesOf(cell: Cell): (r: Result<seq<string>>)
    ensures cell.Int? ==> r == Failure(AttributeError)
    ensures cell.Text? ==> r.Success?
    ensures cell.Text? ==> multiset(r.value) == multiset(Split(Lower(cell.text)))
    ensures cell.Text? ==> PyText.Ascending(r.value)
  {
    match cell
    case Int(_) => Failure(AttributeError)
    case Text(s) => Success(SortStrings(Split(Lower(s))))
  }

  /** The slot of the stats list that a stat title before Speed fills. */
  function StatIndex(key: string): (r: Option<nat>)
    ensures r.Some? ==> r.value < 5
  {
    if key == "HP" then Some(0)
    else if key == "Attack" then Some(1)
    else if key == "Defense" then Some(2)
    else if key == "Sp. Atk" then Some(3)
    else if key == "Sp. Def" then Some(4)
    else None
  }

  /**
   * One pass of the inner loop, for the cell under title `key` of the current row.
   * "#" records the number and whether it repeats the previous row's; "Name" and
   * "Type" record name and types; the stat titles fill their slots; "Speed" fills
   * the last slot, stores the entry under the recorded name and starts a fresh
   * stats list. "Total" and every other title change nothing. The stats list is a
   * Python list: assigning past its end raises IndexError, which the six-slot list
   * the script keeps never does (`ReplayStats`).
   */
  function Step(st: State, key: string, cell: Cell, parseInt: IntParser): Result<State> {
    if key == "#" then
      match IntOf(cell, parseInt)
      case Failure(e) => Failure(e)
      case Success(id) => Success(st.(id := Some(id), altForm := st.prevId == id, prevId := id))
    else if key == "Name" then
      match NameOf(cell, st.altForm)
      case Failure(e) => Failure(e)
      case Success(name) => Success(st.(name := Some(name)))
    else if key == "Type" then
      match TypesOf(cell)
      case Failure(e) => Failure(e)
      case Success(types) => Success(st.(types := Some(types)))
    else if key == "Speed" then
      match IntOf(cell, parseInt)
      case Failure(e) => Failure(e)
      case Success(speed) =>
        if |st.stats| <= 5 then Failure(IndexError)
        else if st.name.None? then Failure(NameError("name"))
        else
          var entry := Entry(st.id, st.types, st.stats[5 := speed], st.altForm);
          Success(st.(pokedex := Put(st.pokedex, st.name.value, entry), stats := NoStats))
    else if StatIndex(key).Some? then
      match IntOf(cell, parseInt)
      case Failure(e) => Failure(e)
      case Success(v) =>
        if |st.stats| <= StatIndex(key).value then Failure(IndexError)
        else Success(st.(stats := st.stats[StatIndex(key).value := v]))
    else
      Success(st)
  }

  /** Every column of the frame reaches row `i`. */
  predicate HasRow(frame: Frame, i: nat) {
    forall c :: 0 <= c < |frame| ==> i < |frame[c].1|
  }

  /** The inner loop over the first `k` titles of row `i`, from `st`. */
  function RunKeys(frame: Frame, i: nat, k: nat, st: State, parseInt: IntParser): Result<State>
    requires k <= |frame| && HasRow(frame, i)
  {
    if k == 0 then Success(st)
    else
      match RunKeys(frame, i, k - 1, st, parseInt)
      case Failure(e) => Failure(e)
      case Success(before) => Step(before, frame[k - 1].0, frame[k - 1].1[i], parseInt)
  }

  /** The outer loop over the first `n` rows, from `st`. */
  function RunRows(frame: Frame, n: nat, st: State, parseInt: IntParser): Result<State>
    requires Rectangular(frame) && n <= RowCount(frame)
  {
    if n == 0 then Success(st)
    else
      match RunRows(frame, n - 1, st, parseInt)
      case Failure(e) => Failure(e)
      case Success(before) => RunKeys(frame, n - 1, |frame|, before, parseInt)
  }

  /** The dataset the loops leave in `pokedex`, or the exception that ends them. */
  function ScrapeFrame(frame: Frame, leftoverName: Option<string>, parseInt: IntParser): Result<Dict<string, Entry>>
    requires Rectangular(frame)
  {
    match RunRows(frame, RowCount(frame), Start(leftoverName), parseInt)
    case Failure(e) => Failure(e)
    case Success(st) => Success(st.pokedex)
  }

  /** An exception in the inner loop ends it with that exception. */
  lemma {:induction false} KeysFailLater(frame: Frame, i: nat, k: nat, m: nat, st: State, parseInt: IntParser, e: Error)
    requires k <= m <= |frame| && HasRow(frame, i)
    requires RunKeys(frame, i, k, st, parseInt) == Failure(e)
    ensures RunKeys(frame, i, m, st, parseInt) == Failure(e)
    decreases m
  {
    if k < m {
      KeysFailLater(frame, i, k, m - 1, st, parseInt, e);
    }
  }

  /** An exception in one row ends the outer loop with that exception. */
  lemma {:induction false} RowsFailLater(frame: Frame, n: nat, m: nat, st: State, parseInt: IntParser, e: Error)
    requires Rectangular(frame) && n <= m <= RowCount(frame)
    requires RunRows(frame, n, st, parseInt) == Failure(e)
    ensures RunRows(frame, m, st, parseInt) == Failure(e)
    decreases m
  {
    if n < m {
      RowsFailLater(frame, n, m - 1, st, parseInt, e);
    }
  }

  /** A failing step at title `k` of row `i` is the outcome of the whole scrape. */
  lemma StepFails(frame: Frame, leftoverName: Option<string>, i: nat, k: nat, rowStart: State, st: State,
                  parseInt: IntParser, e: Error)
    requires Rectangular(frame) && i < RowCount(frame) && k < |frame|
    requires RunRows(frame, i, Start(leftoverName), parseInt) == Success(rowStart)
    requires RunKeys(frame, i, k, rowStart, parseInt) == Success(st)
    requires Step(st, frame[k].0, frame[k].1[i], parseInt) == Failure(e)
    ensures ScrapeFrame(frame, leftoverName, parseInt) == Failure(e)
  {
    KeysFailLater(frame, i, k + 1, |frame|, rowStart, parseInt, e);
    RowsFailLater(frame, i + 1, RowCount(frame), Start(leftoverName), parseInt, e);
  }

  /**
   * The loops of part two: for each row, for each title, the branch for that
   * title updates the script's variables.
   */
  method ScrapePokedex(frame: Frame, leftoverName: Option<string>, parseInt: IntParser)
    returns (r: Result<Dict<string, Entry>>)
    requires Rectangular(frame)
    ensures r == ScrapeFrame(frame, leftoverName, parseInt)
  {
    var stats := NoStats;
    var pokedex: Dict<string, Entry> := [];
    var prevId := 0;
    var altForm := false;
    var id: Option<int> := None;
    var name := leftoverName;
    var types: Option<seq<string>> := None;
    var i := 0;
    while i < RowCount(frame)
      invariant i <= RowCount(frame) && |stats| == 6
      invariant RunRows(frame, i, Start(leftoverName), parseInt)
        == Success(State(stats, pokedex, prevId, altForm, id, name, types))
    {
      ghost var rowStart := State(stats, pokedex, prevId, altForm, id, name, types);
      var k := 0;
      while k < |frame|
        invariant k <= |frame| && |stats| == 6
        invariant RunKeys(frame, i, k, rowStart, parseInt)
          == Success(State(stats, pokedex, prevId, altForm, id, name, types))
      {
        ghost var st := State(stats, pokedex, prevId, altForm, id, name, types);
        var key := frame[k].0;
        var cell := frame[k].1[i];
        if key == "#" {
          var parsed := IntOf(cell, parseInt);
          if parsed.Failure? {
            StepFails(frame, leftoverName, i, k, rowStart, st, parseInt, parsed.error);
            return Failure(parsed.error);
          }
          id := Some(parsed.value);
          if prevId == parsed.value {
            altForm := true;
          } else {
            altForm := false;
          }
          prevId := parsed.value;
        } else if key == "Name" {
          var named := NameOf(cell, altForm);
          if named.Failure? {
            StepFails(frame, leftoverName, i, k, rowStart, st, parseInt, named.error);
            return Failure(named.error);
          }
          name := Some(named.value);
        } else if key == "Type" {
          var typed := TypesOf(cell);
          if typed.Failure? {
            StepFails(frame, leftoverName, i, k, rowStart, st, parseInt, typed.error);
            return Failure(typed.error);
          }
          types := Some(typed.value);
        } else if key == "Speed" {
          var parsed := IntOf(cell, parseInt);
          if parsed.Failure? {
            StepFails(frame, leftoverName, i, k, rowStart, st, parseInt, parsed.error);
            return Failure(parsed.error);
          }
          stats := stats[5 := parsed.value];
          if name.None? {
            StepFails(frame, leftoverName, i, k, rowStart, st, parseInt, NameError("name"));
            return Failure(NameError("name"));
          }
          pokedex := Put(pokedex, name.value, Entry(id, types, stats, altForm));
          stats := NoStats;
        } else if StatIndex(key).Some? {
          var parsed := IntOf(cell, parseInt);
          if parsed.Failure? {
            StepFails(frame, leftoverName, i, k, rowStart, st, parseInt, parsed.error);
            return Failure(parsed.error);
          }
          stats := stats[StatIndex(key).value := parsed.value];
        }
        k := k + 1;
      }
      i := i + 1;
    }
    return Success(pokedex);
  }

  // ---------------------------------------------------------------------------
  // The dataset of a page with the pokemondb header
  // ---------------------------------------------------------------------------

  /** The header of the pokemondb table. */
  const Header: seq<string> :=
    ["#", "Name", "Type", "Total", "HP", "Attack", "Defense", "Sp. Atk", "Sp. Def", "Speed"]

  /** One row of the page: number, name, type text, and the six stats. */
  datatype DexRow = DexRow(number: int, name: string, typeText: string, stats: Stats)

  /** What the loops read from a row: its number, the key it is stored under, its types, its stats. */
  datatype Parsed = Parsed(number: int, key: string, types: seq<string>, stats: Stats)

  /** The entry stored for a row read as `p` when the previous number was `prevId`. */
  function EntryOf(p: Parsed, prevId: int): Entry {
    Entry(Some(p.number), Some(p.types), p.stats, p.number == prevId)
  }

  /** The number before row `i`: that of the previous row, or 0 before the first. */
  function PreviousNumber(ps: seq<Parsed>, i: nat): int
    requires i < |ps|
  {
    if i == 0 then 0 else ps[i - 1].number
  }

  function EntryName(item: (string, Entry)): string {
    item.0
  }

  function EntryValue(item: (string, Entry)): Entry {
    item.1
  }

  /** What each row contributes, row by row: its key and its entry. */
  function Listing(ps: seq<Parsed>): seq<(string, Entry)> {
    seq(|ps|, i requires 0 <= i < |ps| => (ps[i].key, EntryOf(ps[i], PreviousNumber(ps, i))))
  }

  /** The listing put into a dict, row after row. */
  function Collected(ps: seq<Parsed>): Dict<string, Entry> {
    Collect(Listing(ps), EntryName, EntryValue)
  }

  // The loops on a frame with the standard header

  /** The number, name and type cells of row `i` are read as those of `p`, whatever the alternate-form flag. */
  predicate HeadShows(frame: Frame, i: nat, p: Parsed, parseInt: IntParser)
    requires |frame| == Width && HasRow(frame, i)
  {
    && IntOf(frame[0].1[i], parseInt) == Success(p.number)
    && NameOf(frame[1].1[i], false) == Success(p.key)
    && NameOf(frame[1].1[i], true) == Success(p.key)
    && TypesOf(frame[2].1[i]) == Success(p.types)
  }

  /** The six stat cells of row `i` are read as the stats of `p`. */
  predicate StatsShow(frame: Frame, i: nat, p: Parsed, parseInt: IntParser)
    requires |frame| == Width && HasRow(frame, i)
  {
    forall s :: 0 <= s < 6 ==> IntOf(frame[4 + s].1[i], parseInt) == Success(p.stats[s])
  }

  /** Row `i` of the frame is read as `p`. */
  predicate RowShows(frame: Frame, i: nat, p: Parsed, parseInt: IntParser)
    requires |frame| == Width && HasRow(frame, i)
  {
    HeadShows(frame, i, p, parseInt) && StatsShow(frame, i, p, parseInt)
  }

  /** The frame has the standard header and its rows are read as `ps`. */
  predicate Shows(frame: Frame, ps: seq<Parsed>, parseInt: IntParser) {
    && |frame| == Width
    && (forall c :: 0 <= c < Width ==> frame[c].0 == Header[c])
    && Rectangular(frame)
    && RowCount(frame) == |ps|
    && forall i :: 0 <= i < |ps| ==> HasRow(frame, i) && RowShows(frame, i, ps[i], parseInt)
  }

  /** The inner loop's next pass is one more step. */
  lemma KeyStep(frame: Frame, i: nat, k: nat, st: State, before: State, parseInt: IntParser)
    requires k < |frame| && HasRow(frame, i)
    requires RunKeys(frame, i, k, st, parseInt) == Success(before)
    ensures RunKeys(frame, i, k + 1, st, parseInt) == Step(before, frame[k].0, frame[k].1[i], parseInt)
  {
  }

  lemma StepNumber(st: State, cell: Cell, n: int, parseInt: IntParser)
    requires IntOf(cell, parseInt) == Success(n)
    ensures Step(st, "#", cell, parseInt) == Success(st.(id := Some(n), altForm := st.prevId == n, prevId := n))
  {
  }

  lemma StepName(st: State, cell: Cell, key: string, parseInt: IntParser)
    requires NameOf(cell, st.altForm) == Success(key)
    ensures Step(st, "Name", cell, parseInt) == Success(st.(name := Some(key)))
  {
  }

  lemma StepType(st: State, cell: Cell, types: seq<string>, parseInt: IntParser)
    requires TypesOf(cell) == Success(types)
    ensures Step(st, "Type", cell, parseInt) == Success(st.(types := Some(types)))
  {
  }

  lemma StepTotal(st: State, cell: Cell, parseInt: IntParser)
    ensures Step(st, "Total", cell, parseInt) == Success(st)
  {
  }

  lemma StepStat(st: State, key: string, cell: Cell, v: int, parseInt: IntParser)
    requires key in {"HP", "Attack", "Defense", "Sp. Atk", "Sp. Def"} && |st.stats| == 6
    requires IntOf(cell, parseInt) == Success(v)
    ensures StatIndex(key).Some?
    ensures Step(st, key, cell, parseInt) == Success(st.(stats := st.stats[StatIndex(key).value := v]))
  {
  }

  lemma StepSpeed(st: State, cell: Cell, v: int, parseInt: IntParser)
    requires IntOf(cell, parseInt) == Success(v) && st.name.Some? && |st.stats| == 6
    ensures Step(st, "Speed", cell, parseInt) == Success(st.(
      pokedex := Put(st.pokedex, st.name.value, Entry(st.id, st.types, st.stats[5 := v], st.altForm)),
      stats := NoStats))
  {
  }

  /** The standard header, title by title. */
  lemma HeaderTitles(frame: Frame)
    requires |frame| == Width && forall c :: 0 <= c < Width ==> frame[c].0 == Header[c]
    ensures frame[0].0 == "#" && frame[1].0 == "Name" && frame[2].0 == "Type" && frame[3].0 == "Total"
    ensures frame[4].0 == "HP" && frame[5].0 == "Attack" && frame[6].0 == "Defense"
    ensures frame[7].0 == "Sp. Atk" && frame[8].0 == "Sp. Def" && frame[9].0 == "Speed"
  {
  }

  /** The variables after "#", "Name", "Type" and "Total" of a row read as `p`, from `s0`. */
  function HeadState(s0: State, p: Parsed): State {
    s0.(id := Some(p.number), altForm := s0.prevId == p.number, prevId := p.number,
        name := Some(p.key), types := Some(p.types))
  }

  /** The variables after the five stat titles before "Speed" as well. */
  function FilledState(s0: State, p: Parsed): State
    requires |s0.stats| == 6
  {
    var s4 := HeadState(s0, p);
    s4.(stats := s4.stats[0 := p.stats[0]][1 := p.stats[1]][2 := p.stats[2]][3 := p.stats[3]][4 := p.stats[4]])
  }

  /** "#", "Name", "Type" and "Total" of a standard row. */
  lemma RowHead(frame: Frame, i: nat, s0: State, p: Parsed, parseInt: IntParser)
    requires |frame| == Width && HasRow(frame, i)
    requires forall c :: 0 <= c < Width ==> frame[c].0 == Header[c]
    requires HeadShows(frame, i, p, parseInt)
    ensures RunKeys(frame, i, 4, s0, parseInt) == Success(HeadState(s0, p))
  {
    HeaderTitles(frame);
    StepNumber(s0, frame[0].1[i], p.number, parseInt);
    KeyStep(frame, i, 0, s0, s0, parseInt);
    var s1 := s0.(id := Some(p.number), altForm := s0.prevId == p.number, prevId := p.number);
    StepName(s1, frame[1].1[i], p.key, parseInt);
    KeyStep(frame, i, 1, s0, s1, parseInt);
    var s2 := s1.(name := Some(p.key));
    StepType(s2, frame[2].1[i], p.types, parseInt);
    KeyStep(frame, i, 2, s0, s2, parseInt);
    var s3 := s2.(types := Some(p.types));
    StepTotal(s3, frame[3].1[i], parseInt);
    KeyStep(frame, i, 3, s0, s3, parseInt);
  }

  /** The five stat titles before "Speed" of a standard row. */
  lemma RowStats(frame: Frame, i: nat, s0: State, s4: State, p: Parsed, parseInt: IntParser)
    requires |frame| == Width && HasRow(frame, i)
    requires forall c :: 0 <= c < Width ==> frame[c].0 == Header[c]
    requires StatsShow(frame, i, p, parseInt)
    requires RunKeys(frame, i, 4, s0, parseInt) == Success(s4) && |s4.stats| == 6
    ensures RunKeys(frame, i, 9, s0, parseInt) == Success(s4.(stats :=
      s4.stats[0 := p.stats[0]][1 := p.stats[1]][2 := p.stats[2]][3 := p.stats[3]][4 := p.stats[4]]))
  {
    HeaderTitles(frame);
    assert IntOf(frame[4].1[i], parseInt) == Success(p.stats[0]);
    assert IntOf(frame[5].1[i], parseInt) == Success(p.stats[1]);
    assert IntOf(frame[6].1[i], parseInt) == Success(p.stats[2]);
    assert IntOf(frame[7].1[i], parseInt) == Success(p.stats[3]);
    assert IntOf(frame[8].1[i], parseInt) == Success(p.stats[4]);
    StepStat(s4, "HP", frame[4].1[i], p.stats[0], parseInt);
    KeyStep(frame, i, 4, s0, s4, parseInt);
    var s5 := s4.(stats := s4.stats[0 := p.stats[0]]);
    StepStat(s5, "Attack", frame[5].1[i], p.stats[1], parseInt);
    KeyStep(frame, i, 5, s0, s5, parseInt);
    var s6 := s5.(stats := s5.stats[1 := p.stats[1]]);
    StepStat(s6, "Defense", frame[6].1[i], p.stats[2], parseInt);
    KeyStep(frame, i, 6, s0, s6, parseInt);
    var s7 := s6.(stats := s6.stats[2 := p.stats[2]]);
    StepStat(s7, "Sp. Atk", frame[7].1[i], p.stats[3], parseInt);
    KeyStep(frame, i, 7, s0, s7, parseInt);
    var s8 := s7.(stats := s7.stats[3 := p.stats[3]]);
    StepStat(s8, "Sp. Def", frame[8].1[i], p.stats[4], parseInt);
    KeyStep(frame, i, 8, s0, s8, parseInt);
  }

  /** The variables after a standard row read as `p`, from `s0`. */
  function RowState(s0: State, p: Parsed): State {
    s0.(id := Some(p.number),
        altForm := s0.prevId == p.number,
        prevId := p.number,
        name := Some(p.key),
        types := Some(p.types),
        pokedex := Put(s0.pokedex, p.key, EntryOf(p, s0.prevId)),
        stats := NoStats)
  }

  /** "Speed", the last title of a standard row, fills the last stat and stores the entry. */
  lemma RowSpeed(frame: Frame, i: nat, s0: State, p: Parsed, parseInt: IntParser)
    requires |frame| == Width && HasRow(frame, i) && frame[9].0 == "Speed" && |s0.stats| == 6
    requires RunKeys(frame, i, 9, s0, parseInt) == Success(FilledState(s0, p))
    requires IntOf(frame[9].1[i], parseInt) == Success(p.stats[5])
    ensures RunKeys(frame, i, |frame|, s0, parseInt) == Success(RowState(s0, p))
  {
    var s9 := FilledState(s0, p);
    StepSpeed(s9, frame[9].1[i], p.stats[5], parseInt);
    KeyStep(frame, i, 9, s0, s9, parseInt);
    assert s9.stats[5 := p.stats[5]] == p.stats;
  }

  /** The ten titles of a standard row, from any variables. */
  lemma RowSteps(frame: Frame, i: nat, s0: State, p: Parsed, parseInt: IntParser)
    requires |frame| == Width && HasRow(frame, i)
    requires forall c :: 0 <= c < Width ==> frame[c].0 == Header[c]
    requires RowShows(frame, i, p, parseInt) && |s0.stats| == 6
    ensures RunKeys(frame, i, |frame|, s0, parseInt) == Success(RowState(s0, p))
  {
    RowHead(frame, i, s0, p, parseInt);
    RowStats(frame, i, s0, HeadState(s0, p), p, parseInt);
    HeaderTitles(frame);
    RowSpeed(frame, i, s0, p, parseInt);
  }

  /** The variables after the first `n` standard rows, from `s0`. */
  function Replay(ps: seq<Parsed>, n: nat, s0: State): State
    requires n <= |ps|
  {
    if n == 0 then s0 else RowState(Replay(ps, n - 1, s0), ps[n - 1])
  }

  /**
   * Every row `i < n` of the frame takes any variables `s` holding six stats to
   * `RowState(s, ps[i])`.
   */
  ghost predicate RowsAct(frame: Frame, ps: seq<Parsed>, n: nat, parseInt: IntParser) {
    && n <= |ps|
    && (forall i :: 0 <= i < n ==> HasRow(frame, i))
    && (forall i, s: State :: 0 <= i < n && HasRow(frame, i) && |s.stats| == 6 ==>
          RunKeys(frame, i, |frame|, s, parseInt) == Success(RowState(s, ps[i])))
  }

  /** On a standard frame every row acts as its parsed row. */
  lemma ShowsRowsAct(frame: Frame, ps: seq<Parsed>, parseInt: IntParser)
    requires Shows(frame, ps, parseInt)
    ensures RowsAct(frame, ps, |ps|, parseInt)
  {
    forall i, s: State | 0 <= i < |ps| && HasRow(frame, i) && |s.stats| == 6
      ensures RunKeys(frame, i, |frame|, s, parseInt) == Success(RowState(s, ps[i]))
    {
      RowSteps(frame, i, s, ps[i], parseInt);
    }
  }

  /** The outer loop's next pass runs the inner loop on row `n - 1`. */
  lemma RowsNext(frame: Frame, n: nat, s0: State, before: State, after: State, parseInt: IntParser)
    requires Rectangular(frame) && 0 < n <= RowCount(frame) && HasRow(frame, n - 1)
    requires RunRows(frame, n - 1, s0, parseInt) == Success(before)
    requires RunKeys(frame, n - 1, |frame|, before, parseInt) == Success(after)
    ensures RunRows(frame, n, s0, parseInt) == Success(after)
  {
  }

  /** One more row replayed is one more `RowState`. */
  lemma ReplayNext(ps: seq<Parsed>, n: nat, s0: State)
    requires 0 < n <= |ps|
    ensures Replay(ps, n, s0) == RowState(Replay(ps, n - 1, s0), ps[n - 1])
  {
  }

  /** What `RowsAct` says about one row. */
  lemma RowsActAt(frame: Frame, ps: seq<Parsed>, n: nat, i: nat, s: State, parseInt: IntParser)
    requires RowsAct(frame, ps, n, parseInt) && i < n && |s.stats| == 6
    ensures HasRow(frame, i)
    ensures RunKeys(frame, i, |frame|, s, parseInt) == Success(RowState(s, ps[i]))
  {
  }

  /** Every replayed state holds six stats. */
  lemma ReplayStats(ps: seq<Parsed>, n: nat, s0: State)
    requires n <= |ps| && |s0.stats| == 6
    ensures |Replay(ps, n, s0).stats| == 6
  {
  }

  /** One more row that acts as its parsed row keeps the loops on the replayed variables. */
  lemma RowsRunNext(frame: Frame, ps: seq<Parsed>, m: nat, n: nat, s0: State, parseInt: IntParser)
    requires Rectangular(frame) && 0 < n <= m && n <= RowCount(frame) && |s0.stats| == 6
    requires RowsAct(frame, ps, m, parseInt)
    requires RunRows(frame, n - 1, s0, parseInt) == Success(Replay(ps, n - 1, s0))
    ensures RunRows(frame, n, s0, parseInt) == Success(Replay(ps, n, s0))
  {
    var before := Replay(ps, n - 1, s0);
    ReplayStats(ps, n - 1, s0);
    RowsActAt(frame, ps, m, n - 1, before, parseInt);
    RowsNext(frame, n, s0, before, RowState(before, ps[n - 1]), parseInt);
    ReplayNext(ps, n, s0);
  }

  /**
   * After the first `n` of `m` rows that act as their parsed rows, the loops hold
   * the replayed variables.
   */
  lemma {:induction false} RowsRun(frame: Frame, ps: seq<Parsed>, m: nat, n: nat, s0: State, parseInt: IntParser)
    requires Rectangular(frame) && n <= m && n <= RowCount(frame) && |s0.stats| == 6
    requires RowsAct(frame, ps, m, parseInt)
    ensures n <= |ps|
    ensures RunRows(frame, n, s0, parseInt) == Success(Replay(ps, n, s0))
  {
    if n > 0 {
      RowsRun(frame, ps, m, n - 1, s0, parseInt);
      RowsRunNext(frame, ps, m, n, s0, parseInt);
    }
  }

  /** The dict after the first `n` rows: one `Put` per row. */
  function Stage(ps: seq<Parsed>, n: nat): Dict<string, Entry>
    requires n <= |ps|
  {
    if n == 0 then [] else Put(Stage(ps, n - 1), ps[n - 1].key, EntryOf(ps[n - 1], PreviousNumber(ps, n - 1)))
  }

  /** Replayed from the start, `prevId` is the number of the last row, 0 before any. */
  lemma {:induction false} ReplayPrevId(ps: seq<Parsed>, n: nat, leftoverName: Option<string>)
    requires n <= |ps|
    ensures Replay(ps, n, Start(leftoverName)).prevId == if n == 0 then 0 else ps[n - 1].number
  {
  }

  /** Replayed from the start, the dict is the staged one. */
  lemma {:induction false} ReplayStage(ps: seq<Parsed>, n: nat, leftoverName: Option<string>)
    requires n <= |ps|
    ensures Replay(ps, n, Start(leftoverName)).pokedex == Stage(ps, n)
  {
    if n > 0 {
      ReplayStage(ps, n - 1, leftoverName);
      ReplayPrevId(ps, n - 1, leftoverName);
    }
  }

  /** The staged dict is the listing prefix put into a dict. */
  lemma {:induction false} StagePrefix(ps: seq<Parsed>, n: nat)
    requires n <= |ps|
    ensures Stage(ps, n) == Collect(Listing(ps)[..n], EntryName, EntryValue)
  {
    if n > 0 {
      StagePrefix(ps, n - 1);
      CollectSnoc(Listing(ps), n - 1, EntryName, EntryValue);
    }
  }

  /** Staging every row builds the collected listing. */
  lemma StageAll(ps: seq<Parsed>)
    ensures Stage(ps, |ps|) == Collected(ps)
  {
    StagePrefix(ps, |ps|);
    var items := Listing(ps);
    assert items[..|items|] == items;
  }

  /**
   * A frame with the standard header whose rows are read as `ps` yields the
   * collected listing, whatever the header loop left in `name`.
   */
  lemma ScrapeStandardFrame(frame: Frame, ps: seq<Parsed>, leftoverName: Option<string>, parseInt: IntParser)
    requires Shows(frame, ps, parseInt)
    ensures ScrapeFrame(frame, leftoverName, parseInt) == Success(Collected(ps))
  {
    ShowsRowsAct(frame, ps, parseInt);
    RowsRun(frame, ps, |ps|, |ps|, Start(leftoverName), parseInt);
    ReplayStage(ps, |ps|, leftoverName);
    StageAll(ps);
  }

  // The reference dataset of a page

  /** How the loops read a page row: the name lower-cased, the type words lower-cased and sorted. */
  function Parse(row: DexRow): Parsed {
    Parsed(row.number, Lower(row.name), SortStrings(Split(Lower(row.typeText))), row.stats)
  }

  function ParseAll(rows: seq<DexRow>): seq<Parsed> {
    seq(|rows|, i requires 0 <= i < |rows| => Parse(rows[i]))
  }

  /** The reference dataset of the rows of a page. */
  function Dataset(rows: seq<DexRow>): Dict<string, Entry> {
    Collected(ParseAll(rows))
  }

  /** The entry the scrape stores for `row` when the previous number was `prevId`. */
  function RowEntry(row: DexRow, prevId: int): Entry {
    Entry(Some(row.number), Some(SortStrings(Split(Lower(row.typeText)))), row.stats, row.number == prevId)
  }

  /** The number of the row before row `i`, 0 before the first. */
  function PreviousRowNumber(rows: seq<DexRow>, i: nat): int
    requires i < |rows|
  {
    if i == 0 then 0 else rows[i - 1].number
  }

  /**
   * Row by row, the listing holds the lower-cased name, and an entry with the number,
   * the sorted lower-cased type words, the six stats, and whether the row repeats
   * the previous row's number (an alternate form).
   */
  lemma ListingShape(rows: seq<DexRow>, i: nat)
    requires i < |rows|
    ensures |Listing(ParseAll(rows))| == |rows|
    ensures Listing(ParseAll(rows))[i] == (Lower(rows[i].name), RowEntry(rows[i], PreviousRowNumber(rows, i)))
    ensures Listing(ParseAll(rows))[i].1.altForm <==> rows[i].number == PreviousRowNumber(rows, i)
    ensures PyText.Ascending(Listing(ParseAll(rows))[i].1.types.value)
    ensures multiset(Listing(ParseAll(rows))[i].1.types.value) == multiset(Split(Lower(rows[i].typeText)))
  {
    var ps := ParseAll(rows);
    assert ps[i] == Parse(rows[i]);
    assert PreviousNumber(ps, i) == PreviousRowNumber(rows, i);
    var types := SortStrings(Split(Lower(rows[i].typeText)));
    assert Listing(ps)[i].1.types == Some(types);
  }

  /** The name of every row, in order. */
  function RowNames(rows: seq<DexRow>): (names: seq<string>)
    ensures |names| == |rows| && forall i :: 0 <= i < |rows| ==> names[i] == rows[i].name
  {
    seq(|rows|, i requires 0 <= i < |rows| => rows[i].name)
  }

  /**
   * The reference dataset is a valid dict whose keys are the lower-cased names in
   * order of first occurrence.
   */
  lemma DatasetKeys(rows: seq<DexRow>)
    ensures Valid(Dataset(rows))
    ensures Keys(Dataset(rows)) == FirstOccurrences(LowerAll(RowNames(rows)))
  {
    var items := Listing(ParseAll(rows));
    CollectValid(items, EntryName, EntryValue);
    CollectKeys(items, EntryName, EntryValue);
    assert RowKeys(items, EntryName) == LowerAll(RowNames(rows));
  }

  /**
   * Under a name the reference dataset holds the entry of the LAST row with that
   * name: a later row overwrites an earlier one.
   */
  lemma DatasetLast(rows: seq<DexRow>, i: nat)
    requires i < |rows|
    requires forall j :: i < j < |rows| ==> Lower(rows[j].name) != Lower(rows[i].name)
    ensures Get(Dataset(rows), Lower(rows[i].name)) == Some(RowEntry(rows[i], PreviousRowNumber(rows, i)))
  {
    var items := Listing(ParseAll(rows));
    forall j | i < j < |items| ensures EntryName(items[j]) != EntryName(items[i]) {
      assert EntryName(items[j]) == Lower(rows[j].name);
    }
    CollectLast(items, EntryName, EntryValue, i);
    ListingShape(rows, i);
  }

  /** A name that no row has is not a key of the reference dataset. */
  lemma DatasetAbsent(rows: seq<DexRow>, k: string)
    requires forall i :: 0 <= i < |rows| ==> Lower(rows[i].name) != k
    ensures Get(Dataset(rows), k) == None
  {
    var items := Listing(ParseAll(rows));
    CollectGet(items, EntryName, EntryValue, k);
    assert forall j :: 0 <= j < |items| ==> EntryName(items[j]) == Lower(rows[j].name);
  }

  // ---------------------------------------------------------------------------
  // The whole script
  // ---------------------------------------------------------------------------

  /** The title the header loop leaves in `name`: the last header cell, if any. */
  function LeftoverName(table: seq<seq<string>>): (r: Option<string>)
    ensures r.Some? <==> |table| > 0 && |table[0]| > 0
    ensures r.Some? ==> r.value == table[0][|table[0]| - 1]
  {
    if |table| == 0 || |table[0]| == 0 then None else Some(table[0][|table[0]| - 1])
  }

  /**
   * The script from the parsed page to the dataset: the columns, the DataFrame,
   * then the loops over it.
   */
  function Scrape(table: seq<seq<string>>, parseInt: IntParser): Result<Dict<string, Entry>> {
    match Columns(table, parseInt)
    case Failure(e) => Failure(e)
    case Success(cols) =>
      match FrameOf(cols)
      case Failure(e) => Failure(e)
      case Success(frame) => ScrapeFrame(frame, LeftoverName(table), parseInt)
  }

  /**
   * A page line that shows `row`: the number, name and type text as written (the
   * name and the type text are not integers), and the six stats as integers.
   */
  predicate LineShows(line: seq<string>, row: DexRow, parseInt: IntParser) {
    && |line| == Width
    && parseInt(line[0]) == Some(row.number)
    && line[1] == row.name && parseInt(row.name).None?
    && line[2] == row.typeText && parseInt(row.typeText).None?
    && forall s :: 0 <= s < 6 ==> parseInt(line[4 + s]) == Some(row.stats[s])
  }

  /** The page has the pokemondb header and, under it, one line per row of `rows`. */
  predicate PageShows(table: seq<seq<string>>, rows: seq<DexRow>, parseInt: IntParser) {
    && |table| > 0
    && table[0] == Header
    && DataRows(table[1..]) == |rows|
    && forall i :: 0 <= i < |rows| ==> LineShows(table[1 + i], rows[i], parseInt)
  }

  /** The header titles are pairwise distinct. */
  lemma HeaderDistinct()
    ensures forall c, d :: 0 <= c < d < |Header| ==> Header[c] != Header[d]
  {
  }

  /** The columns of a standard page are already the frame: no title repeats. */
  lemma PageFrame(table: seq<seq<string>>, rows: seq<DexRow>, parseInt: IntParser)
    requires PageShows(table, rows, parseInt)
    ensures Columns(table, parseInt).Success?
    ensures Collect(Columns(table, parseInt).value, Title, Cells) == Columns(table, parseInt).value
  {
    ColumnsShape(table, parseInt);
    var cols := Columns(table, parseInt).value;
    HeaderDistinct();
    assert forall c, d :: 0 <= c < d < |cols| ==> Title(cols[c]) != Title(cols[d]) by {
      forall c, d | 0 <= c < d < |cols| ensures Title(cols[c]) != Title(cols[d]) {
        assert Title(cols[c]) == Header[c] && Title(cols[d]) == Header[d];
      }
    }
    CollectDistinct(cols, Title, Cells);
  }

  /** Row `i` of the columns of a standard page is read as row `i` of `rows`. */
  lemma PageRow(table: seq<seq<string>>, rows: seq<DexRow>, parseInt: IntParser, cols: seq<Column>, i: nat)
    requires PageShows(table, rows, parseInt) && i < |rows|
    requires Columns(table, parseInt) == Success(cols)
    ensures |cols| == Width && HasRow(cols, i)
    ensures RowShows(cols, i, Parse(rows[i]), parseInt)
  {
    ColumnsShape(table, parseInt);
    var line := table[1 + i];
    assert LineShows(line, rows[i], parseInt);
    assert cols[0].1[i] == Text(line[0]);
    assert cols[1].1[i] == CellOf(1, line[1], parseInt);
    assert cols[2].1[i] == CellOf(2, line[2], parseInt);
    forall s | 0 <= s < 6 ensures IntOf(cols[4 + s].1[i], parseInt) == Success(rows[i].stats[s]) {
      assert cols[4 + s].1[i] == CellOf(4 + s, line[4 + s], parseInt);
    }
  }

  /** The columns of a standard page show its rows, read as `Parse` reads them. */
  lemma PageColumns(table: seq<seq<string>>, rows: seq<DexRow>, parseInt: IntParser)
    requires PageShows(table, rows, parseInt)
    ensures Columns(table, parseInt).Success?
    ensures Shows(Columns(table, parseInt).value, ParseAll(rows), parseInt)
  {
    ColumnsShape(table, parseInt);
    var cols := Columns(table, parseInt).value;
    var ps := ParseAll(rows);
    forall i | 0 <= i < |rows| ensures HasRow(cols, i) && RowShows(cols, i, ps[i], parseInt) {
      PageRow(table, rows, parseInt, cols, i);
    }
  }

  /**
   * The script on a pokemondb page that shows `rows` ends with the reference
   * dataset, whatever follows the table on the page.
   */
  lemma ScrapeStandardPage(table: seq<seq<string>>, rows: seq<DexRow>, parseInt: IntParser)
    requires PageShows(table, rows, parseInt)
    ensures Scrape(table, parseInt) == Success(Dataset(rows))
  {
    PageColumns(table, rows, parseInt);
    PageFrame(table, rows, parseInt);
    var cols := Columns(table, parseInt).value;
    ScrapeStandardFrame(cols, ParseAll(rows), LeftoverName(table), parseInt);
  }
}
