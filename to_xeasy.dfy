/**
  Conversion of the NOE peak tables to XEASY peak lists (to_xeasy.py). Each table
  loses its `_object` column and gains a running Index, the constant columns `1`
  and `U` and six zero placeholders. It is then written without a header row,
  after a header that depends on the CYANA version.
 */
module ToXeasy {
  import opened Outcomes
  import opened Text
  import opened Frames

  const ObjectLabel: string := "_object"
  const IndexLabel: string := "Index"
  const OneLabel: string := "1"
  const ULabel: string := "U"
  const ExponentLabel: string := "Column_0.00e+00"

  const One: Cell := Int(1)
  const UText: Cell := Str("U")
  const ExponentText: Cell := Str("0.00e+00")
  const NoneText: Cell := Str("None")
  const Zero: Cell := Int(0)

  /** The label of the i-th zero placeholder, `f'Column_0_{i}'`; i is a single digit here. */
  function ZeroLabel(i: nat): string
    requires i < 10
  {
    "Column_0_" + [DigitChar(i)]
  }

  /** The carbon table's columns, in the order the carbon list is written. */
  const CarbonOrder: seq<string> := [ObjectLabel, "Pos F1", "Pos F3", "Pos F2", "Volume"]

  /** Which list a table becomes: 15N.peaks or 13C.peaks. */
  datatype Nucleus = Nitrogen | Carbon

  // ---------------------------------------------------------------------------
  // Headers

  /** The five lines both versions start with: dimension count, format, the three dimension names. */
  function SharedLines(nucleus: Nucleus): seq<string> {
    match nucleus
    case Nitrogen => ["# Number of dimensions 3\n", "#FORMAT xeasy3D\n", "#INAME 1 HN\n", "#INAME 2 H\n", "#INAME 3 N\n"]
    case Carbon => ["# Number of dimensions 3\n", "#FORMAT xeasy3D\n", "#INAME 1 HC\n", "#INAME 2 H\n", "#INAME 3 C\n"]
  }

  /** The line the header of version 3 ends with. */
  function SpectrumLine(nucleus: Nucleus): string {
    match nucleus
    case Nitrogen => "#SPECTRUM N15NOESY  HN H N\n"
    case Carbon => "#SPECTRUM C13NOESY  HC H C\n"
  }

  /** The line the header of version 2 ends with. */
  function FormatLine(nucleus: Nucleus): string {
    match nucleus
    case Nitrogen => "#CYANAFORMAT HhN\n"
    case Carbon => "#CYANAFORMAT HhC\n"
  }

  /** The lines of `text_n` / `text_c`, which are bound only for versions 3 and 2. */
  function HeaderLinesOf(version: int, nucleus: Nucleus): Option<seq<string>> {
    if version == 3 then Some(SharedLines(nucleus) + [SpectrumLine(nucleus)])
    else if version == 2 then Some(SharedLines(nucleus) + [FormatLine(nucleus)])
    else None
  }

  /** `text_n` / `text_c` as one string. */
  function Header(version: int, nucleus: Nucleus): Option<string> {
    match HeaderLinesOf(version, nucleus)
    case None => None
    case Some(lines) => Some(Concat(lines))
  }

  /**
    Only versions 3 and 2 have a header. Read back line by line, each header has six
    lines; the two versions agree on the first five and differ in the last.
   */
  lemma HeaderLines(version: int, nucleus: Nucleus)
    ensures Header(version, nucleus).Some? <==> version == 2 || version == 3
    ensures Header(version, nucleus).Some? ==>
              var lines := Lines(Header(version, nucleus).value);
              && |lines| == 6 && lines[..5] == SharedLines(nucleus)
              && lines[5] == if version == 3 then SpectrumLine(nucleus) else FormatLine(nucleus)
    ensures SpectrumLine(nucleus) != FormatLine(nucleus)
  {
    if version == 2 || version == 3 {
      var lines := HeaderLinesOf(version, nucleus).value;
      HeaderLinesAreLines(nucleus);
      assert forall k | 0 <= k < |lines| :: IsLine(lines[k]);
      CompleteLinesAreLines(lines);
      LinesOfConcat(lines);
    }
  }

  /** Every header line is one complete line. */
  lemma HeaderLinesAreLines(nucleus: Nucleus)
    ensures forall k | 0 <= k < 5 :: IsLine(SharedLines(nucleus)[k])
    ensures IsLine(SpectrumLine(nucleus)) && IsLine(FormatLine(nucleus))
  {
    assert IsLine("# Number of dimensions 3\n") && IsLine("#FORMAT xeasy3D\n") && IsLine("#INAME 2 H\n");
    match nucleus
    case Nitrogen =>
      assert IsLine("#INAME 1 HN\n") && IsLine("#INAME 3 N\n");
      assert IsLine("#SPECTRUM N15NOESY  HN H N\n") && IsLine("#CYANAFORMAT HhN\n");
    case Carbon =>
      assert IsLine("#INAME 1 HC\n") && IsLine("#INAME 3 C\n");
      assert IsLine("#SPECTRUM C13NOESY  HC H C\n") && IsLine("#CYANAFORMAT HhC\n");
  }

  // ---------------------------------------------------------------------------
  // change_format, as a specification

  /** The labels change_format adds at the end: the exponent column, then `Column_0_1` .. `Column_0_n`. */
  function PlaceholderLabels(n: nat): (labels: seq<string>)
    requires n < 10
    ensures |labels| == n + 1 && labels[0] == ExponentLabel
    ensures forall i | 1 <= i <= n :: labels[i] == ZeroLabel(i)
  {
    if n == 0 then [ExponentLabel] else PlaceholderLabels(n - 1) + [ZeroLabel(n)]
  }

  /** None of the labels change_format appends is already in the table. */
  predicate NoPlaceholders(columns: seq<string>, n: nat) {
    n < 10 && ExponentLabel !in columns && forall i | 1 <= i <= n :: ZeroLabel(i) !in columns
  }

  /** `file.drop(columns=['_object'])`, which raises KeyError when there is no `_object`. */
  function Unobjected(file: Frame): (r: Result<Frame>)
    requires Rectangular(file)
    ensures r.Ok? ==> Rectangular(r.value) && |r.value.rows| == |file.rows|
  {
    if ObjectLabel !in file.columns then Err(MissingColumn(ObjectLabel)) else Ok(Drop(file, {ObjectLabel}))
  }

  /** `file.insert(0, 'Index', range(1, len(file) + 1))`. */
  function Numbered(f: Frame): (r: Result<Frame>)
    requires Rectangular(f)
  {
    InsertColumn(f, 0, IndexLabel, Numbering(1, |f.rows|))
  }

  /** `file.insert(4, '1', 1)`. */
  function WithOne(f: Frame): (r: Result<Frame>)
    requires Rectangular(f)
  {
    InsertColumn(f, 4, OneLabel, Constant(One, |f.rows|))
  }

  /** `file.insert(5, 'U', 'U')`. */
  function WithU(f: Frame): (r: Result<Frame>)
    requires Rectangular(f)
  {
    InsertColumn(f, 5, ULabel, Constant(UText, |f.rows|))
  }

  /** The table after the steps before the placeholders: drop, Index, `1`, `U`, None to 0. */
  function Reshaped(file: Frame): (r: Result<Frame>)
    requires Rectangular(file)
    ensures r.Ok? ==> Rectangular(r.value)
  {
    match Unobjected(file)
    case Err(e) => Err(e)
    case Ok(dropped) =>
      match Numbered(dropped)
      case Err(e) => Err(e)
      case Ok(indexed) =>
        match WithOne(indexed)
        case Err(e) => Err(e)
        case Ok(withOne) =>
          match WithU(withOne)
          case Err(e) => Err(e)
          case Ok(withU) => Ok(ReplaceCells(withU, NoneText, Zero))
  }

  /** The exponent column, then the zero columns 1 .. n, assigned in turn. */
  function WithPlaceholders(f: Frame, n: nat): (g: Frame)
    requires Rectangular(f) && n < 10
    ensures Rectangular(g) && |g.rows| == |f.rows|
  {
    if n == 0 then AssignScalar(f, ExponentLabel, ExponentText)
    else AssignScalar(WithPlaceholders(f, n - 1), ZeroLabel(n), Zero)
  }

  /** The table change_format hands to to_csv. */
  function Formatted(file: Frame): (r: Result<Frame>)
    requires Rectangular(file)
    ensures r.Ok? ==> Rectangular(r.value)
  {
    match Reshaped(file)
    case Err(e) => Err(e)
    case Ok(f) => Ok(WithPlaceholders(f, 5))
  }

  /**
    A peak list as change_format leaves it: `content` is None when the file was never
    opened, otherwise what it holds; `failure` is the exception that ended the call.
   */
  datatype PeakFile = PeakFile(content: Option<string>, failure: Option<Error>)

  /**
    What change_format writes. A formatting error stops it before the file is opened.
    An unbound header stops it after the file is opened, leaving the file empty.
   */
  function PeakFileOf(file: Frame, version: int, nucleus: Nucleus): PeakFile
    requires Rectangular(file)
  {
    match Formatted(file)
    case Err(e) => PeakFile(None, Some(e))
    case Ok(table) =>
      var text := Concat(ToCsv(table, false));
      match Header(version, nucleus)
      case None => PeakFile(Some(""), Some(UnsupportedVersion(version)))
      case Some(h) => PeakFile(Some(h + text), None)
  }

  // ---------------------------------------------------------------------------
  // change_format and process_files

  /** `change_format`: reshape the table step by step, then write the header and the records. */
  method ChangeFormat(file: Frame, version: int, nucleus: Nucleus) returns (out: PeakFile)
    requires Rectangular(file)
    ensures out == PeakFileOf(file, version, nucleus)
  {
    var step := Unobjected(file);
    if step.Err? {
      return PeakFile(None, Some(step.error));
    }
    step := Numbered(step.value);
    if step.Err? {
      return PeakFile(None, Some(step.error));
    }
    step := WithOne(step.value);
    if step.Err? {
      return PeakFile(None, Some(step.error));
    }
    step := WithU(step.value);
    if step.Err? {
      return PeakFile(None, Some(step.error));
    }
    var f := ReplaceCells(step.value, NoneText, Zero);
    assert Reshaped(file) == Ok(f);
    f := AddPlaceholders(f);
    var text := Concat(ToCsv(f, false));
    var header := Header(version, nucleus);
    if header.None? {
      return PeakFile(Some(""), Some(UnsupportedVersion(version)));
    }
    out := PeakFile(Some(header.value + text), None);
  }

  /** The placeholder columns of change_format: the exponent column, then a loop over 1 .. 5. */
  method AddPlaceholders(reshaped: Frame) returns (f: Frame)
    requires Rectangular(reshaped)
    ensures f == WithPlaceholders(reshaped, 5)
  {
    f := AssignScalar(reshaped, ExponentLabel, ExponentText);
    for i := 1 to 6
      invariant f == WithPlaceholders(reshaped, i - 1)
    {
      f := AssignScalar(f, ZeroLabel(i), Zero);
    }
  }

  /** The two peak lists after process_files, and the exception that ended it, if any. */
  datatype PeakLists = PeakLists(carbon: Option<string>, nitrogen: Option<string>, failure: Option<Error>)

  /**
    process_files as a specification. Its guard `version == 3 or 2` is always true,
    so there is no branch for other versions. The carbon table is reordered and
    written first; the nitrogen list is written only after it succeeds.
   */
  function ProcessFilesOf(data13: Frame, data15: Frame, version: int): PeakLists
    requires Rectangular(data13) && Rectangular(data15)
  {
    match Select(data13, CarbonOrder)
    case Err(e) => PeakLists(None, None, Some(e))
    case Ok(carbon) =>
      var c := PeakFileOf(carbon, version, Carbon);
      if c.failure.Some? then PeakLists(c.content, None, c.failure)
      else
        var n := PeakFileOf(data15, version, Nitrogen);
        PeakLists(c.content, n.content, n.failure)
  }

  /** `process_files`: reorder the carbon table, format it, then format the nitrogen table. */
  method ProcessFiles(data13: Frame, data15: Frame, version: int) returns (out: PeakLists)
    requires Rectangular(data13) && Rectangular(data15)
    ensures out == ProcessFilesOf(data13, data15, version)
  {
    var selected := Select(data13, CarbonOrder);
    if selected.Err? {
      return PeakLists(None, None, Some(selected.error));
    }
    var c := ChangeFormat(selected.value, version, Carbon);
    if c.failure.Some? {
      return PeakLists(c.content, None, c.failure);
    }
    var n := ChangeFormat(data15, version, Nitrogen);
    out := PeakLists(c.content, n.content, n.failure);
  }

  // ---------------------------------------------------------------------------
  // What change_format does to a table

  /**
    The steps before the placeholders fail, in this order, when `_object` is absent,
    when the table already has an Index, when it already has a `1`, when fewer than
    three columns remain after the drop (so position 4 does not exist), and when it
    already has a `U`. Otherwise they succeed.
   */
  lemma ReshapedErrors(file: Frame)
    requires Rectangular(file)
    ensures var r := Reshaped(file);
            var width := |Drop(file, {ObjectLabel}).columns|;
            && (ObjectLabel !in file.columns ==> r == Err(MissingColumn(ObjectLabel)))
            && (ObjectLabel in file.columns && IndexLabel in file.columns ==> r == Err(DuplicateColumn(IndexLabel)))
            && ((ObjectLabel in file.columns && IndexLabel !in file.columns && OneLabel in file.columns)
                ==> r == Err(DuplicateColumn(OneLabel)))
            && ((ObjectLabel in file.columns && IndexLabel !in file.columns && OneLabel !in file.columns && width < 3)
                ==> r == Err(InsertOutOfRange(4)))
            && ((ObjectLabel in file.columns && IndexLabel !in file.columns && OneLabel !in file.columns && width >= 3
                 && ULabel in file.columns) ==> r == Err(DuplicateColumn(ULabel)))
            && (r.Ok? <==> ObjectLabel in file.columns && IndexLabel !in file.columns && OneLabel !in file.columns
                           && ULabel !in file.columns && width >= 3)
  {
    if ObjectLabel in file.columns {
      var dropped := Unobjected(file).value;
      assert IndexLabel in dropped.columns <==> IndexLabel in file.columns;
      assert OneLabel in dropped.columns <==> OneLabel in file.columns;
      assert ULabel in dropped.columns <==> ULabel in file.columns;
      if IndexLabel !in file.columns {
        InsertInFront(dropped, IndexLabel, Numbering(1, |dropped.rows|));
        var indexed := Numbered(dropped).value;
        if OneLabel !in file.columns && |dropped.columns| >= 3 {
          var withOne := WithOne(indexed).value;
          assert indexed.columns == indexed.columns[..4] + indexed.columns[4..];
          assert ULabel in withOne.columns <==> ULabel in indexed.columns;
        }
      }
    }
  }

  /** Labels `Column_0_i` for different i differ. */
  lemma ZeroLabelInjective(i: nat, k: nat)
    requires i < 10 && k < 10 && ZeroLabel(i) == ZeroLabel(k)
    ensures i == k
  {
    assert ZeroLabel(i)[9] == DigitChar(i) && ZeroLabel(k)[9] == DigitChar(k);
  }

  /** No `Column_0_i` label is one of the other labels change_format uses. */
  lemma ZeroLabelIsNew(i: nat)
    requires i < 10
    ensures ZeroLabel(i) != ExponentLabel && ZeroLabel(i) != IndexLabel
    ensures ZeroLabel(i) != OneLabel && ZeroLabel(i) != ULabel
  {
    assert ZeroLabel(i)[8] == '_' && ExponentLabel[8] == '.';
    assert |ZeroLabel(i)| == 10;
  }

  /** The n-th zero label is not among the labels assigned before it. */
  lemma ZeroLabelIsFresh(columns: seq<string>, n: nat)
    requires NoPlaceholders(columns, n) && n > 0
    ensures ZeroLabel(n) !in columns + PlaceholderLabels(n - 1)
  {
    ZeroLabelIsNew(n);
    forall i | 1 <= i < n ensures ZeroLabel(n) != ZeroLabel(i) {
      if ZeroLabel(n) == ZeroLabel(i) {
        ZeroLabelInjective(n, i);
      }
    }
    assert ZeroLabel(n) !in PlaceholderLabels(n - 1);
  }

  /**
    The placeholder labels, assigned in turn, are all new: each is appended to the
    labels, and its cell to every row, so every row ends in `0.00e+00` and n zeros.
   */
  lemma {:induction false} WithPlaceholdersShape(f: Frame, n: nat)
    requires Rectangular(f) && NoPlaceholders(f.columns, n)
    ensures WithPlaceholders(f, n).columns == f.columns + PlaceholderLabels(n)
    ensures forall r | 0 <= r < |f.rows| ::
              WithPlaceholders(f, n).rows[r] == f.rows[r] + [ExponentText] + Constant(Zero, n)
  {
    if n == 0 {
      AssignNewLabel(f, ExponentLabel, ExponentText);
    } else {
      var before := WithPlaceholders(f, n - 1);
      WithPlaceholdersShape(f, n - 1);
      ZeroLabelIsFresh(f.columns, n);
      AssignNewLabel(before, ZeroLabel(n), Zero);
      assert PlaceholderLabels(n) == PlaceholderLabels(n - 1) + [ZeroLabel(n)];
      assert Constant(Zero, n) == Constant(Zero, n - 1) + [Zero];
    }
  }

  /** The order change_format leaves a row or the labels in: first, three kept, `1`, `U`, the rest. */
  function Layout<T>(first: T, kept: seq<T>, one: T, u: T): seq<T>
    requires |kept| >= 3
  {
    [first] + kept[..3] + [one, u] + kept[3..]
  }

  /** An element of the layout is one of the inserted elements or a kept one. */
  lemma LayoutMembers<T>(first: T, kept: seq<T>, one: T, u: T, x: T)
    requires |kept| >= 3 && x in Layout(first, kept, one, u)
    ensures x == first || x == one || x == u || x in kept
  {
    assert kept == kept[..3] + kept[3..];
  }

  /** Inserting in front, then at 4, then at 5, gives the layout. */
  lemma InsertionsMakeLayout<T>(first: T, kept: seq<T>, one: T, u: T)
    requires |kept| >= 3
    ensures var s1 := [first] + kept;
            var s2 := s1[..4] + [one] + s1[4..];
            s2[..5] + [u] + s2[5..] == Layout(first, kept, one, u)
  {
    var s1 := [first] + kept;
    assert s1[..4] == [first] + kept[..3] && s1[4..] == kept[3..];
    var s2 := s1[..4] + [one] + s1[4..];
    assert s2[..5] == [first] + kept[..3] + [one] && s2[5..] == kept[3..];
  }

  /** Replacing cells in the layout replaces them in the kept part when the inserted cells are not replaced. */
  lemma ReplaceInLayout(first: Cell, kept: Row, one: Cell, u: Cell, from: Cell, to: Cell)
    requires |kept| >= 3 && first != from && one != from && u != from
    ensures |ReplaceInRow(kept, from, to)| >= 3
    ensures ReplaceInRow(Layout(first, kept, one, u), from, to) == Layout(first, ReplaceInRow(kept, from, to), one, u)
  {
    var l := ReplaceInRow(Layout(first, kept, one, u), from, to);
    var r := Layout(first, ReplaceInRow(kept, from, to), one, u);
    assert |l| == |r|;
    forall k | 0 <= k < |l| ensures l[k] == r[k] {
      if 1 <= k < 4 {
        assert Layout(first, kept, one, u)[k] == kept[k - 1];
      } else if 6 <= k {
        assert Layout(first, kept, one, u)[k] == kept[k - 3];
      }
    }
  }

  /** The labels after the reshaping steps: Index, three kept labels, `1`, `U`, the rest. */
  lemma ReshapedColumns(file: Frame)
    requires Rectangular(file) && Reshaped(file).Ok?
    ensures ObjectLabel in file.columns
    ensures var kept := Drop(file, {ObjectLabel}).columns;
            && |kept| >= 3
            && Reshaped(file).value.columns == Layout(IndexLabel, kept, OneLabel, ULabel)
  {
    var dropped := Unobjected(file).value;
    var indexed := Numbered(dropped).value;
    var withOne := WithOne(indexed).value;
    assert dropped.columns[..0] + [IndexLabel] + dropped.columns[0..] == [IndexLabel] + dropped.columns;
    InsertionsMakeLayout(IndexLabel, dropped.columns, OneLabel, ULabel);
  }

  /** Row j before None is replaced: number j + 1, three kept cells, 1, U, the other kept cells. */
  lemma InsertedRow(file: Frame, j: nat)
    requires Rectangular(file) && Reshaped(file).Ok? && j < |file.rows|
    ensures ObjectLabel in file.columns
    ensures var dropped := Drop(file, {ObjectLabel});
            var d := dropped.rows[j];
            && |d| >= 3
            && WithU(WithOne(Numbered(dropped).value).value).value.rows[j] == Layout(Int(j + 1), d, One, UText)
  {
    ReshapedColumns(file);
    var dropped := Unobjected(file).value;
    var d := dropped.rows[j];
    var numbers := Numbering(1, |dropped.rows|);
    var indexed := Numbered(dropped).value;
    InsertColumnRow(dropped, 0, IndexLabel, numbers, j);
    assert indexed.rows[j] == [Int(j + 1)] + d by {
      assert d[..0] == [] && d[0..] == d;
    }
    var withOne := WithOne(indexed).value;
    InsertColumnRow(indexed, 4, OneLabel, Constant(One, |indexed.rows|), j);
    InsertColumnRow(withOne, 5, ULabel, Constant(UText, |withOne.rows|), j);
    InsertionsMakeLayout(Int(j + 1), d, One, UText);
  }

  /** Row j after the reshaping steps; None becomes 0 in the copied cells, the inserted cells stay. */
  lemma ReshapedRow(file: Frame, j: nat)
    requires Rectangular(file) && Reshaped(file).Ok? && j < |file.rows|
    ensures ObjectLabel in file.columns
    ensures var d := Drop(file, {ObjectLabel}).rows[j];
            && |d| >= 3 && j < |Reshaped(file).value.rows|
            && Reshaped(file).value.rows[j] == Layout(Int(j + 1), ReplaceInRow(d, NoneText, Zero), One, UText)
  {
    InsertedRow(file, j);
    var dropped := Drop(file, {ObjectLabel});
    var withU := WithU(WithOne(Numbered(dropped).value).value).value;
    ReplaceCellsRowIs(withU, NoneText, Zero, j);
    ReplaceInLayout(Int(j + 1), dropped.rows[j], One, UText, NoneText, Zero);
  }

  /** The reshaped table has no placeholder label the input lacked. */
  lemma ReshapedHasNoPlaceholders(file: Frame)
    requires Rectangular(file) && Reshaped(file).Ok? && NoPlaceholders(file.columns, 5)
    ensures NoPlaceholders(Reshaped(file).value.columns, 5)
  {
    ReshapedColumns(file);
    var kept := Drop(file, {ObjectLabel}).columns;
    var columns := Reshaped(file).value.columns;
    if ExponentLabel in columns {
      LayoutMembers(IndexLabel, kept, OneLabel, ULabel, ExponentLabel);
    }
    forall i | 1 <= i <= 5 ensures ZeroLabel(i) !in columns {
      ZeroLabelIsNew(i);
      if ZeroLabel(i) in columns {
        LayoutMembers(IndexLabel, kept, OneLabel, ULabel, ZeroLabel(i));
      }
    }
  }

  /**
    The labels of the formatted table: Index, three kept labels, `1`, `U`, the other
    kept labels, then the six placeholders. This holds when the input has none of
    the placeholder labels.
   */
  lemma FormattedColumns(file: Frame)
    requires Rectangular(file) && Formatted(file).Ok? && NoPlaceholders(file.columns, 5)
    ensures ObjectLabel in file.columns
    ensures var kept := Drop(file, {ObjectLabel}).columns;
            && |kept| >= 3
            && Formatted(file).value.columns == Layout(IndexLabel, kept, OneLabel, ULabel) + PlaceholderLabels(5)
  {
    ReshapedColumns(file);
    ReshapedHasNoPlaceholders(file);
    WithPlaceholdersShape(Reshaped(file).value, 5);
  }

  /**
    Row j of the formatted table: Index j + 1, three kept cells, `1`, `U`, the
    other kept cells, then `0.00e+00` and five zeros; None is 0 in the kept cells.
   */
  lemma FormattedRow(file: Frame, j: nat)
    requires Rectangular(file) && Formatted(file).Ok? && NoPlaceholders(file.columns, 5) && j < |file.rows|
    ensures ObjectLabel in file.columns
    ensures var d := Drop(file, {ObjectLabel}).rows[j];
            && |d| >= 3 && j < |Formatted(file).value.rows|
            && Formatted(file).value.rows[j]
               == Layout(Int(j + 1), ReplaceInRow(d, NoneText, Zero), One, UText) + [ExponentText] + Constant(Zero, 5)
  {
    ReshapedRow(file, j);
    ReshapedHasNoPlaceholders(file);
    WithPlaceholdersShape(Reshaped(file).value, 5);
  }

  // ---------------------------------------------------------------------------
  // The carbon table

  /** Dropping `_object` from the reordered carbon labels keeps positions 1 to 4. */
  lemma CarbonKeptPositions()
    ensures PositionsNotIn(CarbonOrder, {ObjectLabel}) == [1, 2, 3, 4]
  {
    var names := {ObjectLabel};
    assert CarbonOrder[..1] == [ObjectLabel];
    assert PositionsNotIn(CarbonOrder[..1], names) == [];
    assert CarbonOrder[..2][..1] == CarbonOrder[..1];
    assert PositionsNotIn(CarbonOrder[..2], names) == [1];
    assert CarbonOrder[..3][..2] == CarbonOrder[..2];
    assert PositionsNotIn(CarbonOrder[..3], names) == [1, 2];
    assert CarbonOrder[..4][..3] == CarbonOrder[..3];
    assert PositionsNotIn(CarbonOrder[..4], names) == [1, 2, 3];
    assert CarbonOrder[..4] == CarbonOrder[..|CarbonOrder| - 1];
  }

  /** The reordered carbon labels include `_object` and none of the labels change_format adds. */
  lemma CarbonLabels()
    ensures ObjectLabel in CarbonOrder
    ensures IndexLabel !in CarbonOrder && OneLabel !in CarbonOrder && ULabel !in CarbonOrder
    ensures NoPlaceholders(CarbonOrder, 5)
  {
    assert CarbonOrder[0] == ObjectLabel;
    assert forall k | 0 <= k < 5 :: 6 <= |CarbonOrder[k]| <= 7;
    forall i | 1 <= i <= 5 ensures ZeroLabel(i) !in CarbonOrder {
      assert |ZeroLabel(i)| == 10;
    }
  }

  /**
    The reordered carbon table always formats: it has `_object`, none of the labels
    change_format adds, and four columns besides `_object`.
   */
  lemma CarbonFormats(carbon: Frame)
    requires Rectangular(carbon) && carbon.columns == CarbonOrder
    ensures Formatted(carbon).Ok? && NoPlaceholders(carbon.columns, 5)
    ensures PositionsNotIn(carbon.columns, {ObjectLabel}) == [1, 2, 3, 4]
  {
    CarbonKeptPositions();
    CarbonLabels();
    ReshapedErrors(carbon);
  }

  /** The carbon table has the five columns process_files selects. */
  predicate HasCarbonColumns(data13: Frame) {
    && ObjectLabel in data13.columns && "Pos F1" in data13.columns && "Pos F3" in data13.columns
    && "Pos F2" in data13.columns && "Volume" in data13.columns
  }

  /** The selection succeeds exactly when the five columns are there. */
  lemma CarbonSelects(data13: Frame)
    requires Rectangular(data13)
    ensures Select(data13, CarbonOrder).Ok? <==> HasCarbonColumns(data13)
  {
    if HasCarbonColumns(data13) {
      forall k | 0 <= k < 5 ensures CarbonOrder[k] in data13.columns {
        assert CarbonOrder[k] in [ObjectLabel, "Pos F1", "Pos F3", "Pos F2", "Volume"];
      }
    } else {
      assert ObjectLabel == CarbonOrder[0] && "Pos F1" == CarbonOrder[1] && "Pos F3" == CarbonOrder[2];
      assert "Pos F2" == CarbonOrder[3] && "Volume" == CarbonOrder[4];
    }
  }

  /** Dropping `_object` when it is the first of five labels keeps the last four cells of each row. */
  lemma DropFirstOfFive(f: Frame, j: nat)
    requires Rectangular(f) && |f.columns| == 5 && j < |f.rows|
    requires PositionsNotIn(f.columns, {ObjectLabel}) == [1, 2, 3, 4]
    ensures var row := f.rows[j];
            && j < |Drop(f, {ObjectLabel}).rows|
            && Drop(f, {ObjectLabel}).rows[j] == [row[1], row[2], row[3], row[4]]
  {
    var projected := Project(f, [1, 2, 3, 4]);
    assert Drop(f, {ObjectLabel}) == projected;
    ProjectRow(f, [1, 2, 3, 4], j);
  }

  /** Dropping `_object` from a carbon row keeps its last four cells. */
  lemma CarbonDropRow(carbon: Frame, j: nat)
    requires Rectangular(carbon) && carbon.columns == CarbonOrder && j < |carbon.rows|
    ensures var row := carbon.rows[j];
            && |row| == 5 && j < |Drop(carbon, {ObjectLabel}).rows|
            && Drop(carbon, {ObjectLabel}).rows[j] == [row[1], row[2], row[3], row[4]]
  {
    CarbonKeptPositions();
    DropFirstOfFive(carbon, j);
  }

  /** After the drop, carbon row j holds the cells under Pos F1, Pos F3, Pos F2 and Volume. */
  lemma CarbonKeptRow(data13: Frame, j: nat)
    requires Rectangular(data13) && HasCarbonColumns(data13) && j < |data13.rows|
    ensures Select(data13, CarbonOrder).Ok?
    ensures var carbon := Select(data13, CarbonOrder).value;
            && j < |Drop(carbon, {ObjectLabel}).rows|
            && Drop(carbon, {ObjectLabel}).rows[j]
               == [Get(data13, j, "Pos F1"), Get(data13, j, "Pos F3"), Get(data13, j, "Pos F2"), Get(data13, j, "Volume")]
  {
    CarbonSelects(data13);
    var carbon := Select(data13, CarbonOrder).value;
    CarbonDropRow(carbon, j);
    SelectRow(data13, CarbonOrder, j);
    var row := carbon.rows[j];
    assert row[1] == Get(data13, j, CarbonOrder[1]) && row[2] == Get(data13, j, CarbonOrder[2]);
    assert row[3] == Get(data13, j, CarbonOrder[3]) && row[4] == Get(data13, j, CarbonOrder[4]);
  }

  /**
    Row j of the carbon list: its number, the three positions in the order F1, F3, F2,
    the constants 1 and U, the volume, then `0.00e+00` and five zeros; a `None` cell
    becomes 0.
   */
  lemma CarbonRow(data13: Frame, j: nat)
    requires Rectangular(data13) && HasCarbonColumns(data13) && j < |data13.rows|
    ensures Select(data13, CarbonOrder).Ok?
    ensures var carbon := Select(data13, CarbonOrder).value;
            && Formatted(carbon).Ok? && j < |Formatted(carbon).value.rows|
            && Formatted(carbon).value.rows[j]
               == [Int(j + 1),
                   ReplaceCell(Get(data13, j, "Pos F1"), NoneText, Zero),
                   ReplaceCell(Get(data13, j, "Pos F3"), NoneText, Zero),
                   ReplaceCell(Get(data13, j, "Pos F2"), NoneText, Zero),
                   One, UText,
                   ReplaceCell(Get(data13, j, "Volume"), NoneText, Zero),
                   ExponentText, Zero, Zero, Zero, Zero, Zero]
  {
    CarbonKeptRow(data13, j);
    var carbon := Select(data13, CarbonOrder).value;
    CarbonFormats(carbon);
    FormattedRow(carbon, j);
    FormattedFourCells(Int(j + 1), Drop(carbon, {ObjectLabel}).rows[j]);
  }

  /** A formatted row built from four kept cells, written out cell by cell. */
  lemma FormattedFourCells(first: Cell, d: Row)
    requires |d| == 4
    ensures Layout(first, ReplaceInRow(d, NoneText, Zero), One, UText) + [ExponentText] + Constant(Zero, 5)
            == [first,
                ReplaceCell(d[0], NoneText, Zero), ReplaceCell(d[1], NoneText, Zero), ReplaceCell(d[2], NoneText, Zero),
                One, UText, ReplaceCell(d[3], NoneText, Zero),
                ExponentText, Zero, Zero, Zero, Zero, Zero]
  {
    var nd := ReplaceInRow(d, NoneText, Zero);
    assert Constant(Zero, 5) == [Zero, Zero, Zero, Zero, Zero];
    assert nd[..3] == [nd[0], nd[1], nd[2]] && nd[3..] == [nd[3]];
  }

  // ---------------------------------------------------------------------------
  // What change_format and process_files write

  /**
    A table that formats, under version 2 or 3, is written completely: the header,
    then one record per row, without a header row.
   */
  lemma PeakFileWritten(file: Frame, version: int, nucleus: Nucleus)
    requires Rectangular(file) && Formatted(file).Ok? && (version == 2 || version == 3)
    ensures var out := PeakFileOf(file, version, nucleus);
            && Header(version, nucleus).Some?
            && out == PeakFile(Some(Header(version, nucleus).value + Concat(RowTexts(Formatted(file).value.rows))), None)
            && |RowTexts(Formatted(file).value.rows)| == |file.rows|
  {
    assert ToCsv(Formatted(file).value, false) == RowTexts(Formatted(file).value.rows);
  }

  /**
    The version chooses only the header: under versions 2 and 3 a table fails alike,
    and when it succeeds the text after the header is the same.
   */
  lemma VersionOnlyChangesHeader(file: Frame, nucleus: Nucleus)
    requires Rectangular(file)
    ensures var three := PeakFileOf(file, 3, nucleus);
            var two := PeakFileOf(file, 2, nucleus);
            && three.failure == two.failure
            && (three.content.Some? <==> two.content.Some?)
            && (three.content.Some? ==>
                  && Header(3, nucleus).Some? && Header(2, nucleus).Some?
                  && Header(3, nucleus).value <= three.content.value
                  && Header(2, nucleus).value <= two.content.value
                  && three.content.value[|Header(3, nucleus).value|..] == two.content.value[|Header(2, nucleus).value|..])
  {
    HeaderLines(3, nucleus);
    HeaderLines(2, nucleus);
    if Formatted(file).Ok? {
      var body := Concat(ToCsv(Formatted(file).value, false));
      var h3 := Header(3, nucleus).value;
      var h2 := Header(2, nucleus).value;
      assert (h3 + body)[|h3|..] == body;
      assert (h2 + body)[|h2|..] == body;
    }
  }

  /**
    The outcome of process_files. The carbon list is opened exactly when the carbon
    table has all five reordered columns; the nitrogen list is opened, and the whole
    run succeeds, exactly when in addition the version is 2 or 3 and the nitrogen
    table formats. Any other version leaves an empty carbon list and no nitrogen list.
   */
  lemma ProcessFilesOutcome(data13: Frame, data15: Frame, version: int)
    requires Rectangular(data13) && Rectangular(data15)
    ensures var out := ProcessFilesOf(data13, data15, version);
            var selected := Select(data13, CarbonOrder).Ok?;
            var supported := version == 2 || version == 3;
            && (out.carbon.Some? <==> selected)
            && (out.nitrogen.Some? <==> selected && supported && Formatted(data15).Ok?)
            && (out.failure.None? <==> selected && supported && Formatted(data15).Ok?)
            && (selected && !supported ==> out == PeakLists(Some(""), None, Some(UnsupportedVersion(version))))
  {
    HeaderLines(version, Carbon);
    HeaderLines(version, Nitrogen);
    if Select(data13, CarbonOrder).Ok? {
      CarbonFormats(Select(data13, CarbonOrder).value);
    }
  }
}
