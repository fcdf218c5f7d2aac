/**
  The handful of DataFrame operations the scripts apply to their tables, on a
  table of labelled columns and rows of cells, and the tab-separated text that
  `to_csv(sep='\t')` writes for it.
 */
module Frames {
  import opened Outcomes
  import opened Text

  /**
    A cell as pandas holds it: a string, a whole number (a count, an index, a
    constant), a fractional number carried as its printed form, or a missing value.
   */
  datatype Cell = Str(s: string) | Int(i: int) | Real(repr: string) | NA

  type Row = seq<Cell>

  datatype Frame = Frame(columns: seq<string>, rows: seq<Row>)

  /**
    Every row has one cell per column. Labels may repeat; a label then names its
    first column.
   */
  predicate Rectangular(f: Frame) {
    forall r | 0 <= r < |f.rows| :: |f.rows[r]| == |f.columns|
  }

  /** Position of the first column labelled `name`. */
  function IndexOf(names: seq<string>, name: string): (k: nat)
    requires name in names
    ensures k < |names| && names[k] == name
    ensures forall j | 0 <= j < k :: names[j] != name
  {
    if names[0] == name then 0 else 1 + IndexOf(names[1..], name)
  }

  /** `df[name].iloc[r]`: the cell of row `r` under label `name`. */
  function Get(f: Frame, r: nat, name: string): Cell
    requires Rectangular(f) && r < |f.rows| && name in f.columns
  {
    f.rows[r][IndexOf(f.columns, name)]
  }

  /** The first position holding `name` is IndexOf's answer. */
  lemma IndexOfAt(names: seq<string>, name: string, q: nat)
    requires q < |names| && names[q] == name
    requires forall j | 0 <= j < q :: names[j] != name
    ensures IndexOf(names, name) == q
  {
  }

  /** The elements of `xs` at positions `idx`, in that order. */
  function Pick<T>(xs: seq<T>, idx: seq<nat>): (r: seq<T>)
    requires forall j | 0 <= j < |idx| :: idx[j] < |xs|
    ensures |r| == |idx| && forall j | 0 <= j < |idx| :: r[j] == xs[idx[j]]
  {
    if idx == [] then [] else [xs[idx[0]]] + Pick(xs, idx[1..])
  }

  /** Every row cut down to the cells at positions `idx`. */
  function PickInRows(rows: seq<Row>, width: nat, idx: seq<nat>): (r: seq<Row>)
    requires forall i | 0 <= i < |rows| :: |rows[i]| == width
    requires forall j | 0 <= j < |idx| :: idx[j] < width
    ensures |r| == |rows| && forall i | 0 <= i < |rows| :: |r[i]| == |idx|
  {
    if rows == [] then [] else [Pick(rows[0], idx)] + PickInRows(rows[1..], width, idx)
  }

  lemma {:induction false} PickInRowsAt(rows: seq<Row>, width: nat, idx: seq<nat>, i: nat)
    requires forall i | 0 <= i < |rows| :: |rows[i]| == width
    requires forall j | 0 <= j < |idx| :: idx[j] < width
    requires i < |rows|
    ensures PickInRows(rows, width, idx)[i] == Pick(rows[i], idx)
  {
    if i > 0 {
      PickInRowsAt(rows[1..], width, idx, i - 1);
    }
  }

  /** The columns at positions `idx`, in that order. */
  function Project(f: Frame, idx: seq<nat>): (g: Frame)
    requires Rectangular(f)
    requires forall j | 0 <= j < |idx| :: idx[j] < |f.columns|
    ensures Rectangular(g) && |g.rows| == |f.rows| && g.columns == Pick(f.columns, idx)
  {
    Frame(Pick(f.columns, idx), PickInRows(f.rows, |f.columns|, idx))
  }

  /** Each projected row holds the cells of the original row at the chosen positions. */
  lemma ProjectRow(f: Frame, idx: seq<nat>, r: nat)
    requires Rectangular(f)
    requires forall j | 0 <= j < |idx| :: idx[j] < |f.columns|
    requires r < |f.rows|
    ensures |Project(f, idx).rows[r]| == |idx|
    ensures forall j | 0 <= j < |idx| :: Project(f, idx).rows[r][j] == f.rows[r][idx[j]]
  {
    PickInRowsAt(f.rows, |f.columns|, idx, r);
  }

  /** Strictly increasing positions. */
  predicate Increasing(xs: seq<nat>) {
    forall j, j' | 0 <= j < j' < |xs| :: xs[j] < xs[j']
  }

  /** Positions of the labels not in `names`, in increasing order. */
  function PositionsNotIn(columns: seq<string>, names: set<string>): (idx: seq<nat>)
    ensures forall j | 0 <= j < |idx| :: idx[j] < |columns| && columns[idx[j]] !in names
    decreases |columns|
  {
    if columns == [] then []
    else
      var init := PositionsNotIn(columns[..|columns| - 1], names);
      if columns[|columns| - 1] in names then init else init + [|columns| - 1]
  }

  /** The positions are listed in increasing order. */
  lemma {:induction false} PositionsNotInIncreasing(columns: seq<string>, names: set<string>)
    ensures Increasing(PositionsNotIn(columns, names))
    decreases |columns|
  {
    if columns != [] {
      var init := PositionsNotIn(columns[..|columns| - 1], names);
      PositionsNotInIncreasing(columns[..|columns| - 1], names);
      var idx := PositionsNotIn(columns, names);
      assert idx == if columns[|columns| - 1] in names then init else init + [|columns| - 1];
      forall j, j' | 0 <= j < j' < |idx| ensures idx[j] < idx[j'] {
        assert idx[j] == init[j] < |columns| - 1;
        if j' < |init| { assert idx[j'] == init[j']; assert init[j] < init[j']; }
      }
    }
  }

  /** Every label outside `names` is listed. */
  lemma {:induction false} PositionsNotInComplete(columns: seq<string>, names: set<string>, i: nat)
    requires i < |columns| && columns[i] !in names
    ensures i in PositionsNotIn(columns, names)
    decreases |columns|
  {
    if i < |columns| - 1 {
      PositionsNotInComplete(columns[..|columns| - 1], names, i);
    }
  }

  /**
    The first column labelled `n` among the kept ones is the first column labelled
    `n` overall.
   */
  lemma PositionsNotInFirst(columns: seq<string>, names: set<string>, n: string)
    requires n in columns && n !in names
    ensures var idx := PositionsNotIn(columns, names);
            n in Pick(columns, idx) && idx[IndexOf(Pick(columns, idx), n)] == IndexOf(columns, n)
  {
    var idx := PositionsNotIn(columns, names);
    var kept := Pick(columns, idx);
    var p := IndexOf(columns, n);
    PositionsNotInComplete(columns, names, p);
    var q :| 0 <= q < |idx| && idx[q] == p;
    assert kept[q] == n;
    PositionsNotInIncreasing(columns, names);
    // a kept column before position q comes from a column before p, so it is not labelled n
    forall q' | 0 <= q' < q ensures kept[q'] != n {
      assert idx[q'] < idx[q];
    }
    IndexOfAt(kept, n, q);
  }

  /** `drop(columns=...)` of labels known to be present: every other column, in order. */
  function Drop(f: Frame, names: set<string>): (g: Frame)
    requires Rectangular(f)
    ensures Rectangular(g) && |g.rows| == |f.rows|
    ensures forall n :: n in g.columns <==> n in f.columns && n !in names
  {
    var idx := PositionsNotIn(f.columns, names);
    var g := Project(f, idx);
    assert forall n | n in f.columns && n !in names :: n in g.columns by {
      forall n | n in f.columns && n !in names ensures n in g.columns {
        PositionsNotInFirst(f.columns, names, n);
      }
    }
    g
  }

  /** A label the drop keeps still reads the same cell in every row. */
  lemma DropGet(f: Frame, names: set<string>, r: nat, n: string)
    requires Rectangular(f) && r < |f.rows| && n in f.columns && n !in names
    ensures n in Drop(f, names).columns && Get(Drop(f, names), r, n) == Get(f, r, n)
  {
    var idx := PositionsNotIn(f.columns, names);
    PositionsNotInFirst(f.columns, names, n);
    ProjectRow(f, idx, r);
  }

  /** Position of the first label of `names` that is not a column. */
  function FirstAbsent(names: seq<string>, columns: seq<string>): (j: nat)
    requires exists j | 0 <= j < |names| :: names[j] !in columns
    ensures j < |names| && names[j] !in columns
    ensures forall i | 0 <= i < j :: names[i] in columns
  {
    if names[0] !in columns then 0
    else
      assert exists j | 0 <= j < |names[1..]| :: names[1..][j] !in columns by {
        var j :| 0 <= j < |names| && names[j] !in columns;
        assert names[1..][j - 1] == names[j];
      }
      1 + FirstAbsent(names[1..], columns)
  }

  /** The position of each of `names` among the columns. */
  function PositionsOf(columns: seq<string>, names: seq<string>): (idx: seq<nat>)
    requires forall j | 0 <= j < |names| :: names[j] in columns
    ensures |idx| == |names| && forall j | 0 <= j < |names| :: idx[j] == IndexOf(columns, names[j])
  {
    if names == [] then [] else [IndexOf(columns, names[0])] + PositionsOf(columns, names[1..])
  }

  /** `df[names]`: the listed columns in the listed order, or KeyError for the first absent label. */
  function Select(f: Frame, names: seq<string>): (r: Result<Frame>)
    requires Rectangular(f)
    ensures r.Err? <==> exists j | 0 <= j < |names| :: names[j] !in f.columns
    ensures r.Err? ==> r.error.MissingColumn? && r.error.name in names && r.error.name !in f.columns
    ensures r.Ok? ==> Rectangular(r.value) && r.value.columns == names && |r.value.rows| == |f.rows|
  {
    if exists j | 0 <= j < |names| :: names[j] !in f.columns then
      Err(MissingColumn(names[FirstAbsent(names, f.columns)]))
    else
      var g := Project(f, PositionsOf(f.columns, names));
      assert g.columns == names;
      Ok(g)
  }

  /** Cell j of a selected row is the original row's cell under the j-th listed label. */
  lemma SelectRow(f: Frame, names: seq<string>, row: nat)
    requires Rectangular(f) && Select(f, names).Ok? && row < |f.rows|
    ensures |Select(f, names).value.rows[row]| == |names|
    ensures forall j | 0 <= j < |names| :: names[j] in f.columns && Select(f, names).value.rows[row][j] == Get(f, row, names[j])
  {
    ProjectRow(f, PositionsOf(f.columns, names), row);
  }

  /** `astype(str)` of a cell; a missing value reads "nan". */
  function AsText(c: Cell): string {
    match c
    case Str(s) => s
    case Int(i) => IntToString(i)
    case Real(repr) => repr
    case NA => "nan"
  }

  /** A boolean mask computed cell by cell from one column. */
  datatype Mask =
    // (s != 0) & pd.notna(s)
    | NonZeroPresent
    // ~s.astype(str).str.contains(sub), for a `sub` without regular-expression syntax
    | LacksText(sub: string)

  /** Whether the mask keeps the row whose cell is `c`. */
  predicate Keeps(mask: Mask, c: Cell) {
    match mask
    case NonZeroPresent => c != Int(0) && c != NA
    case LacksText(sub) => !HasInfix(AsText(c), sub)
  }

  /** Positions of the rows whose cell in column `k` the mask keeps, in increasing order. */
  function RowsWhere(rows: seq<Row>, k: nat, mask: Mask): (idx: seq<nat>)
    requires forall r | 0 <= r < |rows| :: k < |rows[r]|
    ensures forall j | 0 <= j < |idx| :: idx[j] < |rows| && Keeps(mask, rows[idx[j]][k])
    decreases |rows|
  {
    if rows == [] then []
    else
      var init := RowsWhere(rows[..|rows| - 1], k, mask);
      if Keeps(mask, rows[|rows| - 1][k]) then init + [|rows| - 1] else init
  }

  /** The rows are listed in increasing order. */
  lemma {:induction false} RowsWhereIncreasing(rows: seq<Row>, k: nat, mask: Mask)
    requires forall r | 0 <= r < |rows| :: k < |rows[r]|
    ensures Increasing(RowsWhere(rows, k, mask))
    decreases |rows|
  {
    if rows != [] {
      var init := RowsWhere(rows[..|rows| - 1], k, mask);
      RowsWhereIncreasing(rows[..|rows| - 1], k, mask);
      var idx := RowsWhere(rows, k, mask);
      assert idx == if Keeps(mask, rows[|rows| - 1][k]) then init + [|rows| - 1] else init;
      forall j, j' | 0 <= j < j' < |idx| ensures idx[j] < idx[j'] {
        assert idx[j] == init[j] < |rows| - 1;
        if j' < |init| { assert idx[j'] == init[j']; assert init[j] < init[j']; }
      }
    }
  }

  /** Every row whose cell the mask keeps is listed. */
  lemma {:induction false} RowsWhereComplete(rows: seq<Row>, k: nat, mask: Mask, i: nat)
    requires forall r | 0 <= r < |rows| :: k < |rows[r]|
    requires i < |rows| && Keeps(mask, rows[i][k])
    ensures i in RowsWhere(rows, k, mask)
    decreases |rows|
  {
    if i < |rows| - 1 {
      RowsWhereComplete(rows[..|rows| - 1], k, mask, i);
    }
  }

  /** `df[mask]` for a mask computed from column `k`: the rows kept, in order. */
  function FilterRows(f: Frame, k: nat, mask: Mask): (g: Frame)
    requires Rectangular(f) && k < |f.columns|
    ensures Rectangular(g) && g.columns == f.columns
    ensures g.rows == Pick(f.rows, RowsWhere(f.rows, k, mask))
  {
    Frame(f.columns, Pick(f.rows, RowsWhere(f.rows, k, mask)))
  }

  /**
    `insert(loc, name, cells)`: ValueError if the label exists, IndexError if `loc`
    is past the last column; otherwise the new column sits at position `loc`.
   */
  function InsertColumn(f: Frame, loc: nat, name: string, cells: seq<Cell>): (r: Result<Frame>)
    requires Rectangular(f) && |cells| == |f.rows|
    ensures r.Err? <==> name in f.columns || loc > |f.columns|
    ensures r.Err? ==> r.error == if name in f.columns then DuplicateColumn(name) else InsertOutOfRange(loc)
    ensures r.Ok? ==> Rectangular(r.value)
                      && r.value.columns == f.columns[..loc] + [name] + f.columns[loc..]
                      && |r.value.rows| == |f.rows|
  {
    if name in f.columns then Err(DuplicateColumn(name))
    else if loc > |f.columns| then Err(InsertOutOfRange(loc))
    else
      Ok(Frame(f.columns[..loc] + [name] + f.columns[loc..], InsertInRows(f.rows, |f.columns|, loc, cells)))
  }

  /** A new label inserted in front comes first, before the old labels in their order. */
  lemma InsertInFront(f: Frame, name: string, cells: seq<Cell>)
    requires Rectangular(f) && |cells| == |f.rows| && name !in f.columns
    ensures InsertColumn(f, 0, name, cells).Ok?
    ensures InsertColumn(f, 0, name, cells).value.columns == [name] + f.columns
  {
    assert f.columns[..0] + [name] + f.columns[0..] == [name] + f.columns;
  }

  /** Each row with its cell of `cells` inserted at position `loc`. */
  function InsertInRows(rows: seq<Row>, width: nat, loc: nat, cells: seq<Cell>): (r: seq<Row>)
    requires forall i | 0 <= i < |rows| :: |rows[i]| == width
    requires loc <= width && |cells| == |rows|
    ensures |r| == |rows| && forall i | 0 <= i < |rows| :: |r[i]| == width + 1
  {
    if rows == [] then []
    else [rows[0][..loc] + [cells[0]] + rows[0][loc..]] + InsertInRows(rows[1..], width, loc, cells[1..])
  }

  lemma {:induction false} InsertInRowsAt(rows: seq<Row>, width: nat, loc: nat, cells: seq<Cell>, i: nat)
    requires forall i | 0 <= i < |rows| :: |rows[i]| == width
    requires loc <= width && |cells| == |rows| && i < |rows|
    ensures InsertInRows(rows, width, loc, cells)[i] == rows[i][..loc] + [cells[i]] + rows[i][loc..]
  {
    if i > 0 {
      InsertInRowsAt(rows[1..], width, loc, cells[1..], i - 1);
    }
  }

  /**
    After an insert, the new label holds the inserted cell and every other label
    still holds its old cell.
   */
  lemma InsertColumnGet(f: Frame, loc: nat, name: string, cells: seq<Cell>, r: nat)
    requires Rectangular(f) && |cells| == |f.rows| && r < |f.rows|
    requires InsertColumn(f, loc, name, cells).Ok?
    ensures var g := InsertColumn(f, loc, name, cells).value;
            && (forall n :: n in g.columns <==> n == name || n in f.columns)
            && Get(g, r, name) == cells[r]
            && forall n | n in f.columns :: Get(g, r, n) == Get(f, r, n)
  {
    var g := InsertColumn(f, loc, name, cells).value;
    InsertInRowsAt(f.rows, |f.columns|, loc, cells, r);
    IndexOfAt(g.columns, name, loc);
    forall n | n in f.columns ensures Get(g, r, n) == Get(f, r, n) {
      var q := IndexOf(f.columns, n);
      var q' := if q < loc then q else q + 1;
      assert g.columns[q'] == n;
      IndexOfAt(g.columns, n, q');
    }
  }
  /** Row r after the insertion: the new cell sits at position `loc`. */
  lemma InsertColumnRow(f: Frame, loc: nat, name: string, cells: seq<Cell>, r: nat)
    requires Rectangular(f) && |cells| == |f.rows| && r < |f.rows|
    requires InsertColumn(f, loc, name, cells).Ok?
    ensures InsertColumn(f, loc, name, cells).value.rows[r] == f.rows[r][..loc] + [cells[r]] + f.rows[r][loc..]
  {
    InsertInRowsAt(f.rows, |f.columns|, loc, cells, r);
  }


  /** `range(first, first + n)` as a column of whole numbers. */
  function Numbering(first: int, n: nat): (cells: seq<Cell>)
    ensures |cells| == n && forall i | 0 <= i < n :: cells[i] == Int(first + i)
    decreases n
  {
    if n == 0 then [] else [Int(first)] + Numbering(first + 1, n - 1)
  }

  /** A column of `n` copies of one value. */
  function Constant(c: Cell, n: nat): (cells: seq<Cell>)
    ensures |cells| == n && forall i | 0 <= i < n :: cells[i] == c
  {
    if n == 0 then [] else [c] + Constant(c, n - 1)
  }

  /** `df[name] = c` for a scalar: overwrite the column if present, else append it. */
  function AssignScalar(f: Frame, name: string, c: Cell): (g: Frame)
    requires Rectangular(f)
    ensures Rectangular(g) && |g.rows| == |f.rows|
    ensures g.columns == if name in f.columns then f.columns else f.columns + [name]
  {
    if name in f.columns then Frame(f.columns, SetInRows(f.rows, |f.columns|, IndexOf(f.columns, name), c))
    else Frame(f.columns + [name], AppendToRows(f.rows, |f.columns|, c))
  }

  /** Each row with its cell at position `k` set to `c`. */
  function SetInRows(rows: seq<Row>, width: nat, k: nat, c: Cell): (r: seq<Row>)
    requires forall i | 0 <= i < |rows| :: |rows[i]| == width
    requires k < width
    ensures |r| == |rows| && forall i | 0 <= i < |rows| :: |r[i]| == width
  {
    if rows == [] then [] else [rows[0][k := c]] + SetInRows(rows[1..], width, k, c)
  }

  lemma {:induction false} SetInRowsAt(rows: seq<Row>, width: nat, k: nat, c: Cell, i: nat)
    requires forall i | 0 <= i < |rows| :: |rows[i]| == width
    requires k < width && i < |rows|
    ensures SetInRows(rows, width, k, c)[i] == rows[i][k := c]
  {
    if i > 0 {
      SetInRowsAt(rows[1..], width, k, c, i - 1);
    }
  }

  /** Each row with `c` added at its end. */
  function AppendToRows(rows: seq<Row>, width: nat, c: Cell): (r: seq<Row>)
    requires forall i | 0 <= i < |rows| :: |rows[i]| == width
    ensures |r| == |rows| && forall i | 0 <= i < |rows| :: |r[i]| == width + 1
  {
    if rows == [] then [] else [rows[0] + [c]] + AppendToRows(rows[1..], width, c)
  }

  lemma {:induction false} AppendToRowsAt(rows: seq<Row>, width: nat, c: Cell, i: nat)
    requires forall i | 0 <= i < |rows| :: |rows[i]| == width
    requires i < |rows|
    ensures AppendToRows(rows, width, c)[i] == rows[i] + [c]
  {
    if i > 0 {
      AppendToRowsAt(rows[1..], width, c, i - 1);
    }
  }

  /**
    After the assignment every row holds `c` under `name`, and every other label
    still holds its old cell.
   */
  lemma AssignScalarGet(f: Frame, name: string, c: Cell, r: nat)
    requires Rectangular(f) && r < |f.rows|
    ensures var g := AssignScalar(f, name, c);
            && name in g.columns && Get(g, r, name) == c
            && forall n | n in f.columns && n != name :: Get(g, r, n) == Get(f, r, n)
  {
    var g := AssignScalar(f, name, c);
    if name in f.columns {
      SetInRowsAt(f.rows, |f.columns|, IndexOf(f.columns, name), c, r);
    } else {
      AppendToRowsAt(f.rows, |f.columns|, c, r);
      IndexOfAt(g.columns, name, |f.columns|);
      forall n | n in f.columns && n != name ensures Get(g, r, n) == Get(f, r, n) {
        IndexOfAt(g.columns, n, IndexOf(f.columns, n));
      }
    }
  }
  /** Assigning a new label appends it to the labels and its cell to every row. */
  lemma AssignNewLabel(f: Frame, name: string, c: Cell)
    requires Rectangular(f) && name !in f.columns
    ensures AssignScalar(f, name, c).columns == f.columns + [name]
    ensures forall r | 0 <= r < |f.rows| :: AssignScalar(f, name, c).rows[r] == f.rows[r] + [c]
  {
    forall r | 0 <= r < |f.rows| ensures AssignScalar(f, name, c).rows[r] == f.rows[r] + [c] {
      AppendToRowsAt(f.rows, |f.columns|, c, r);
    }
  }


  /** A cell after `replace(from, to)`. */
  function ReplaceCell(c: Cell, from: Cell, to: Cell): Cell {
    if c == from then to else c
  }

  function ReplaceInRow(row: Row, from: Cell, to: Cell): (r: Row)
    ensures |r| == |row| && forall j | 0 <= j < |row| :: r[j] == ReplaceCell(row[j], from, to)
  {
    if row == [] then [] else [ReplaceCell(row[0], from, to)] + ReplaceInRow(row[1..], from, to)
  }

  /** Replacing cell by cell commutes with concatenation. */
  lemma ReplaceInRowConcat(a: Row, b: Row, from: Cell, to: Cell)
    ensures ReplaceInRow(a + b, from, to) == ReplaceInRow(a, from, to) + ReplaceInRow(b, from, to)
  {
    var l := ReplaceInRow(a + b, from, to);
    var r := ReplaceInRow(a, from, to) + ReplaceInRow(b, from, to);
    forall j | 0 <= j < |a + b| ensures l[j] == r[j] {
      if j < |a| { assert (a + b)[j] == a[j]; } else { assert (a + b)[j] == b[j - |a|]; }
    }
  }

  /** Row r after `replace(from, to)`. */
  lemma ReplaceCellsRowIs(f: Frame, from: Cell, to: Cell, r: nat)
    requires Rectangular(f) && r < |f.rows|
    ensures ReplaceCells(f, from, to).rows[r] == ReplaceInRow(f.rows[r], from, to)
  {
    ReplaceInRowsAt(f.rows, |f.columns|, from, to, r);
  }

  function ReplaceInRows(rows: seq<Row>, width: nat, from: Cell, to: Cell): (r: seq<Row>)
    requires forall i | 0 <= i < |rows| :: |rows[i]| == width
    ensures |r| == |rows| && forall i | 0 <= i < |rows| :: |r[i]| == width
  {
    if rows == [] then [] else [ReplaceInRow(rows[0], from, to)] + ReplaceInRows(rows[1..], width, from, to)
  }

  lemma {:induction false} ReplaceInRowsAt(rows: seq<Row>, width: nat, from: Cell, to: Cell, i: nat)
    requires forall i | 0 <= i < |rows| :: |rows[i]| == width
    requires i < |rows|
    ensures ReplaceInRows(rows, width, from, to)[i] == ReplaceInRow(rows[i], from, to)
  {
    if i > 0 {
      ReplaceInRowsAt(rows[1..], width, from, to, i - 1);
    }
  }

  /** `replace(from, to)` on the whole table: every cell equal to `from` becomes `to`. */
  function ReplaceCells(f: Frame, from: Cell, to: Cell): (g: Frame)
    requires Rectangular(f)
    ensures Rectangular(g) && g.columns == f.columns && |g.rows| == |f.rows|
  {
    Frame(f.columns, ReplaceInRows(f.rows, |f.columns|, from, to))
  }

  /** Every cell equal to `from` now reads `to`; every other cell is unchanged. */
  lemma ReplaceCellsRow(f: Frame, from: Cell, to: Cell, r: nat)
    requires Rectangular(f) && r < |f.rows|
    ensures |ReplaceCells(f, from, to).rows[r]| == |f.columns|
    ensures forall j | 0 <= j < |f.columns| ::
              ReplaceCells(f, from, to).rows[r][j] == ReplaceCell(f.rows[r][j], from, to)
  {
    ReplaceInRowsAt(f.rows, |f.columns|, from, to, r);
  }

  /** A cell after `Series.replace(m)` with a dictionary of string keys. */
  function ReplaceByKey(c: Cell, m: map<string, Cell>): Cell {
    if c.Str? && c.s in m then m[c.s] else c
  }

  function ReplaceByKeyInRows(rows: seq<Row>, width: nat, k: nat, m: map<string, Cell>): (r: seq<Row>)
    requires forall i | 0 <= i < |rows| :: |rows[i]| == width
    requires k < width
    ensures |r| == |rows| && forall i | 0 <= i < |rows| :: |r[i]| == width
  {
    if rows == [] then []
    else [rows[0][k := ReplaceByKey(rows[0][k], m)]] + ReplaceByKeyInRows(rows[1..], width, k, m)
  }

  lemma {:induction false} ReplaceByKeyInRowsAt(rows: seq<Row>, width: nat, k: nat, m: map<string, Cell>, i: nat)
    requires forall i | 0 <= i < |rows| :: |rows[i]| == width
    requires k < width && i < |rows|
    ensures ReplaceByKeyInRows(rows, width, k, m)[i] == rows[i][k := ReplaceByKey(rows[i][k], m)]
  {
    if i > 0 {
      ReplaceByKeyInRowsAt(rows[1..], width, k, m, i - 1);
    }
  }

  /** `df[col] = df[col].replace(m)`: whole-cell replacement in column `k` only. */
  function ReplaceInColumn(f: Frame, k: nat, m: map<string, Cell>): (g: Frame)
    requires Rectangular(f) && k < |f.columns|
    ensures Rectangular(g) && g.columns == f.columns && |g.rows| == |f.rows|
  {
    Frame(f.columns, ReplaceByKeyInRows(f.rows, |f.columns|, k, m))
  }

  /** Column `k` holds the mapped cells; every other column is unchanged. */
  lemma ReplaceInColumnRow(f: Frame, k: nat, m: map<string, Cell>, r: nat)
    requires Rectangular(f) && k < |f.columns| && r < |f.rows|
    ensures ReplaceInColumn(f, k, m).rows[r][k] == ReplaceByKey(f.rows[r][k], m)
    ensures forall j | 0 <= j < |f.columns| && j != k :: ReplaceInColumn(f, k, m).rows[r][j] == f.rows[r][j]
  {
    ReplaceByKeyInRowsAt(f.rows, |f.columns|, k, m, r);
  }

  // ---------------------------------------------------------------------------
  // to_csv(sep='\t')

  /** Characters that make the csv writer quote a field (the separator, the quote, line breaks). */
  predicate NeedsQuotes(s: string) {
    exists i | 0 <= i < |s| :: s[i] == '\t' || s[i] == '"' || s[i] == '\n' || s[i] == '\r'
  }

  function DoubleQuotes(s: string): string {
    if s == [] then "" else (if s[0] == '"' then "\"\"" else [s[0]]) + DoubleQuotes(s[1..])
  }

  /** A string field as the csv writer emits it (minimal quoting). */
  function Field(s: string): string {
    if NeedsQuotes(s) then "\"" + DoubleQuotes(s) + "\"" else s
  }

  /** Without a quote character, doubling the quotes changes nothing. */
  lemma {:induction false} DoubleQuotesOfPlain(s: string)
    requires '"' !in s
    ensures DoubleQuotes(s) == s
    decreases |s|
  {
    if s != [] {
      assert s == [s[0]] + s[1..];
      DoubleQuotesOfPlain(s[1..]);
    }
  }

  /** A field with a line break but no quote character is written between quotes, unchanged. */
  lemma QuotedField(s: string)
    requires '\n' in s && '"' !in s
    ensures Field(s) == "\"" + s + "\""
  {
    var i :| 0 <= i < |s| && s[i] == '\n';
    assert NeedsQuotes(s);
    DoubleQuotesOfPlain(s);
  }

  /** A cell as to_csv prints it; a missing value prints as the empty string. */
  function CellText(c: Cell): string {
    match c
    case Str(s) => Field(s)
    case Int(i) => IntToString(i)
    case Real(repr) => repr
    case NA => ""
  }

  /** One record: the fields joined by tabs, ended by a line feed. */
  function Record(fields: seq<string>): string {
    Join(fields, "\t") + "\n"
  }

  /** A record of five fields, written out. */
  lemma RecordOfFive(fields: seq<string>)
    requires |fields| == 5
    ensures Record(fields) == fields[0] + "\t" + fields[1] + "\t" + fields[2] + "\t" + fields[3] + "\t" + fields[4] + "\n"
  {
    assert Join(fields[4..], "\t") == fields[4];
    assert fields[3..][1..] == fields[4..];
    assert Join(fields[3..], "\t") == fields[3] + "\t" + fields[4];
    assert fields[2..][1..] == fields[3..];
    assert Join(fields[2..], "\t") == fields[2] + "\t" + (fields[3] + "\t" + fields[4]);
    assert fields[1..][1..] == fields[2..];
    assert Join(fields[1..], "\t") == fields[1] + "\t" + (fields[2] + "\t" + (fields[3] + "\t" + fields[4]));
  }

  function CellTexts(row: Row): (fields: seq<string>)
    ensures |fields| == |row| && forall j | 0 <= j < |row| :: fields[j] == CellText(row[j])
  {
    if row == [] then [] else [CellText(row[0])] + CellTexts(row[1..])
  }

  function Fields(labels: seq<string>): (fields: seq<string>)
    ensures |fields| == |labels| && forall j | 0 <= j < |labels| :: fields[j] == Field(labels[j])
  {
    if labels == [] then [] else [Field(labels[0])] + Fields(labels[1..])
  }

  lemma FieldsOfFive(a: string, b: string, c: string, d: string, e: string)
    ensures Fields([a, b, c, d, e]) == [Field(a), Field(b), Field(c), Field(d), Field(e)]
  {
  }

  function RowTexts(rows: seq<Row>): (records: seq<string>)
    ensures |records| == |rows| && forall i | 0 <= i < |rows| :: records[i] == Record(CellTexts(rows[i]))
  {
    if rows == [] then [] else [Record(CellTexts(rows[0]))] + RowTexts(rows[1..])
  }

  /** The text of `to_csv(sep='\t', index=False, header=header)`, one write per record. */
  function ToCsv(f: Frame, header: bool): (records: seq<string>)
    ensures var h := if header then 1 else 0;
            && |records| == |f.rows| + h
            && (header ==> records[0] == Record(Fields(f.columns)))
            && forall i | 0 <= i < |f.rows| :: records[i + h] == Record(CellTexts(f.rows[i]))
  {
    (if header then [Record(Fields(f.columns))] else []) + RowTexts(f.rows)
  }
}
