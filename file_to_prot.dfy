/**
  The attribution table pre-processing of file_to_prot.py: from the exported
  chemical-shift attributions to the five-column table written as name.prot.
 */
module FileToProt {
  import opened Outcomes
  import opened Text
  import opened Frames

  const PeakCount: string := "Total\nPeak Count"
  const SequenceCode: string := "SequenceCode"
  const IndexLabel: string := "Index"
  const ShiftLabel: string := "Value\n(ppm)"
  const ErrorLabel: string := "Value Error\n(ppm)"
  const AtomLabel: string := "AtomName"

  /** The columns removed before renumbering, among them the peak count itself. */
  const ColumnsToDelete: set<string> := {"uniqueId", "NmrAtom", "ResidueType", PeakCount}

  /** The columns of name.prot, in their order. */
  const ProtColumns: seq<string> := [IndexLabel, ShiftLabel, ErrorLabel, AtomLabel, SequenceCode]

  /** The peak-count filter: a count that is neither zero nor missing. */
  const PeakMask: Mask := NonZeroPresent

  /** The offset filter: a code whose text has no "-1" (an i-1 attribution). */
  const OffsetMask: Mask := LacksText("-1")

  /** None of the columns name.prot keeps is among the deleted ones. */
  lemma ProtColumnsNotDeleted()
    ensures forall j | 0 <= j < |ProtColumns| :: ProtColumns[j] !in ColumnsToDelete
    ensures forall j | 1 <= j < |ProtColumns| :: ProtColumns[j] != IndexLabel
    ensures PeakCount != SequenceCode && PeakCount != IndexLabel
  {
  }

  /** The string "None" that `replace("None", 0)` looks for, and its replacement. */
  const NoneText: Cell := Str("None")
  const Zero: Cell := Int(0)

  /** `replace("None", 0)` on one cell. */
  function NoneToZero(c: Cell): Cell {
    ReplaceCell(c, NoneText, Zero)
  }

  // ---------------------------------------------------------------------------
  // The stages, in the order the script applies them

  /** The rows whose peak count is present and non-zero. */
  function DataZero(data: Frame): (g: Frame)
    requires Rectangular(data) && PeakCount in data.columns
    ensures Rectangular(g) && g.columns == data.columns
  {
    FilterRows(data, IndexOf(data.columns, PeakCount), PeakMask)
  }

  /** DataZero without the auxiliary columns. */
  function DataColumns(data: Frame): (g: Frame)
    requires Rectangular(data) && PeakCount in data.columns
    ensures Rectangular(g)
    ensures forall n :: n in g.columns <==> n in data.columns && n !in ColumnsToDelete
  {
    Drop(DataZero(data), ColumnsToDelete)
  }

  /** DataColumns with the proline codes renumbered. */
  function Renumbered(data: Frame, proline: map<string, Cell>): (g: Frame)
    requires Rectangular(data) && PeakCount in data.columns && SequenceCode in data.columns
    ensures Rectangular(g) && g.columns == DataColumns(data).columns
  {
    var dc := DataColumns(data);
    ReplaceInColumn(dc, IndexOf(dc.columns, SequenceCode), proline)
  }

  /** Renumbered without the rows whose code contains "-1". */
  function Kept(data: Frame, proline: map<string, Cell>): (g: Frame)
    requires Rectangular(data) && PeakCount in data.columns && SequenceCode in data.columns
    ensures Rectangular(g) && g.columns == DataColumns(data).columns
  {
    var rn := Renumbered(data, proline);
    FilterRows(rn, IndexOf(rn.columns, SequenceCode), OffsetMask)
  }

  /** The columns name.prot takes from the attribution table. */
  predicate HasProtColumns(columns: seq<string>) {
    ShiftLabel in columns && ErrorLabel in columns && AtomLabel in columns && SequenceCode in columns
  }

  /** Kept with the Index column 1..n in front. */
  function Indexed(data: Frame, proline: map<string, Cell>): Result<Frame>
    requires Rectangular(data) && PeakCount in data.columns && SequenceCode in data.columns
  {
    var kept := Kept(data, proline);
    InsertColumn(kept, 0, IndexLabel, Numbering(1, |kept.rows|))
  }

  /**
    process_protein_data, up to the table it writes: the peak-count filter, the
    column drop, the proline renumbering, the removal of "-1" codes, the Index
    column, the five-column projection and None to 0.
   */
  function ProcessProteinData(data: Frame, proline: map<string, Cell>): (r: Result<Frame>)
    requires Rectangular(data)
    ensures r.Ok? ==> Rectangular(r.value) && r.value.columns == ProtColumns
  {
    if PeakCount !in data.columns then Err(PeakCountColumnAbsent)
    else if SequenceCode !in DataColumns(data).columns then Err(MissingColumn(SequenceCode))
    else
      match Indexed(data, proline)
      case Err(e) => Err(e)
      case Ok(indexed) =>
        match Select(indexed, ProtColumns)
        case Err(e) => Err(e)
        case Ok(ordered) => Ok(ReplaceCells(ordered, NoneText, Zero))
  }

  /**
    `process_protein_data` as the script runs it: one local frame updated step by
    step. The column assignment, `insert` and `replace(inplace=True)` become
    reassignments of that frame, which nothing else refers to.
   */
  method ProcessProteinDataSteps(data: Frame, proline: map<string, Cell>) returns (r: Result<Frame>)
    requires Rectangular(data)
    ensures r == ProcessProteinData(data, proline)
  {
    if PeakCount !in data.columns {
      return Err(PeakCountColumnAbsent);
    }
    var f := FilterRows(data, IndexOf(data.columns, PeakCount), PeakMask);
    f := Drop(f, ColumnsToDelete);
    if SequenceCode !in f.columns {
      return Err(MissingColumn(SequenceCode));
    }
    f := ReplaceInColumn(f, IndexOf(f.columns, SequenceCode), proline);
    f := FilterRows(f, IndexOf(f.columns, SequenceCode), OffsetMask);
    var indexed := InsertColumn(f, 0, IndexLabel, Numbering(1, |f.rows|));
    if indexed.Err? {
      return Err(indexed.error);
    }
    f := indexed.value;
    var ordered := Select(f, ProtColumns);
    if ordered.Err? {
      return Err(ordered.error);
    }
    f := ReplaceCells(ordered.value, NoneText, Zero);
    r := Ok(f);
  }

  /** The labels of the indexed table: Index and the labels the drop kept. */
  lemma IndexedColumns(data: Frame, proline: map<string, Cell>)
    requires Rectangular(data) && PeakCount in data.columns && SequenceCode in data.columns
    requires IndexLabel !in data.columns
    ensures Indexed(data, proline).Ok?
    ensures Rectangular(Indexed(data, proline).value)
    ensures forall n :: n in Indexed(data, proline).value.columns
                        <==> n == IndexLabel || (n in data.columns && n !in ColumnsToDelete)
  {
    var kept := Kept(data, proline);
    InsertInFront(kept, IndexLabel, Numbering(1, |kept.rows|));
  }

  /**
    The script fails when the peak count is absent (its filtered table is never
    bound), when SequenceCode is absent, and when the table already has an Index
    column.
   */
  lemma ProcessProteinDataErrors(data: Frame, proline: map<string, Cell>)
    requires Rectangular(data)
    ensures var r := ProcessProteinData(data, proline);
            && (PeakCount !in data.columns ==> r == Err(PeakCountColumnAbsent))
            && (PeakCount in data.columns && SequenceCode !in data.columns ==> r == Err(MissingColumn(SequenceCode)))
            && (PeakCount in data.columns && SequenceCode in data.columns && IndexLabel in data.columns
                ==> r == Err(DuplicateColumn(IndexLabel)))
  {
    ProtColumnsNotDeleted();
  }

  /**
    With the peak count present and no Index column yet, the script produces a
    table exactly when the input has the columns name.prot takes from it.
   */
  lemma ProcessProteinDataSucceeds(data: Frame, proline: map<string, Cell>)
    requires Rectangular(data) && PeakCount in data.columns && IndexLabel !in data.columns
    ensures ProcessProteinData(data, proline).Ok? <==> HasProtColumns(data.columns)
  {
    if SequenceCode in data.columns {
      ProtColumnsNotDeleted();
      IndexedColumns(data, proline);
      var indexed := Indexed(data, proline).value;
      if HasProtColumns(data.columns) {
        ProtColumnsPresent(data, proline);
      } else {
        ProtColumnAbsent(data, proline);
      }
    }
  }

  /** Every column of name.prot is present in the indexed table. */
  lemma ProtColumnsPresent(data: Frame, proline: map<string, Cell>)
    requires Rectangular(data) && PeakCount in data.columns && IndexLabel !in data.columns
    requires HasProtColumns(data.columns)
    ensures Indexed(data, proline).Ok?
    ensures forall j | 0 <= j < |ProtColumns| :: ProtColumns[j] in Indexed(data, proline).value.columns
  {
    IndexedColumns(data, proline);
    ProtColumnsNotDeleted();
  }

  /** A label other than Index that the input lacks is missing from the indexed table. */
  lemma AbsentStaysAbsent(data: Frame, proline: map<string, Cell>, n: string)
    requires Rectangular(data) && PeakCount in data.columns && SequenceCode in data.columns
    requires IndexLabel !in data.columns && n !in data.columns && n != IndexLabel
    ensures Indexed(data, proline).Ok? && n !in Indexed(data, proline).value.columns
  {
    IndexedColumns(data, proline);
  }

  /** A column of name.prot missing from the input is missing from the indexed table. */
  lemma ProtColumnAbsent(data: Frame, proline: map<string, Cell>)
    requires Rectangular(data) && PeakCount in data.columns && SequenceCode in data.columns
    requires IndexLabel !in data.columns && !HasProtColumns(data.columns)
    ensures Indexed(data, proline).Ok?
    ensures exists j | 0 <= j < |ProtColumns| :: ProtColumns[j] !in Indexed(data, proline).value.columns
  {
    ProtColumnsNotDeleted();
    var m := if ShiftLabel !in data.columns then 1 else if ErrorLabel !in data.columns then 2 else 3;
    AbsentStaysAbsent(data, proline, ProtColumns[m]);
  }

  // ---------------------------------------------------------------------------
  // Which input rows reach name.prot, and what becomes of them

  /** Input row `i` reaches name.prot: it has peaks and its renumbered code has no "-1". */
  predicate Survives(data: Frame, proline: map<string, Cell>, i: nat)
    requires Rectangular(data) && PeakCount in data.columns && SequenceCode in data.columns
    requires i < |data.rows|
  {
    Keeps(PeakMask, Get(data, i, PeakCount)) && Keeps(OffsetMask, ReplaceByKey(Get(data, i, SequenceCode), proline))
  }

  /** The input rows the peak-count filter keeps, in order. */
  function PeakRows(data: Frame): seq<nat>
    requires Rectangular(data) && PeakCount in data.columns
  {
    RowsWhere(data.rows, IndexOf(data.columns, PeakCount), PeakMask)
  }

  /** The rows of Renumbered the "-1" filter keeps, in order. */
  function CodeRows(data: Frame, proline: map<string, Cell>): seq<nat>
    requires Rectangular(data) && PeakCount in data.columns && SequenceCode in data.columns
  {
    var rn := Renumbered(data, proline);
    RowsWhere(rn.rows, IndexOf(rn.columns, SequenceCode), OffsetMask)
  }

  /** Row p of Renumbered is input row PeakRows[p], with its code renumbered. */
  lemma RenumberedCell(data: Frame, proline: map<string, Cell>, p: nat, n: string)
    requires Rectangular(data) && PeakCount in data.columns && SequenceCode in data.columns
    requires p < |Renumbered(data, proline).rows| && n in Renumbered(data, proline).columns
    ensures p < |PeakRows(data)| && PeakRows(data)[p] < |data.rows|
    ensures Get(Renumbered(data, proline), p, n)
            == if n == SequenceCode then ReplaceByKey(Get(data, PeakRows(data)[p], n), proline)
               else Get(data, PeakRows(data)[p], n)
  {
    var dz := DataZero(data);
    var dc := DataColumns(data);
    var k := IndexOf(dc.columns, SequenceCode);
    ReplaceInColumnRow(dc, k, proline, p);
    DropGet(dz, ColumnsToDelete, p, n);
    if n == SequenceCode {
      DropGet(dz, ColumnsToDelete, p, SequenceCode);
    }
  }

  /** A row kept by both filters comes from a surviving input row. */
  lemma KeptRowSurvives(data: Frame, proline: map<string, Cell>, j: nat)
    requires Rectangular(data) && PeakCount in data.columns && SequenceCode in data.columns
    requires j < |CodeRows(data, proline)|
    ensures CodeRows(data, proline)[j] < |PeakRows(data)|
    ensures PeakRows(data)[CodeRows(data, proline)[j]] < |data.rows|
    ensures Survives(data, proline, PeakRows(data)[CodeRows(data, proline)[j]])
  {
    RenumberedCell(data, proline, CodeRows(data, proline)[j], SequenceCode);
  }

  /** A row with peaks has a place among the rows the peak-count filter keeps. */
  lemma PeakPosition(data: Frame, i: nat) returns (p: nat)
    requires Rectangular(data) && PeakCount in data.columns
    requires i < |data.rows| && Keeps(PeakMask, Get(data, i, PeakCount))
    ensures p < |PeakRows(data)| && PeakRows(data)[p] == i
  {
    RowsWhereComplete(data.rows, IndexOf(data.columns, PeakCount), PeakMask, i);
    p :| 0 <= p < |PeakRows(data)| && PeakRows(data)[p] == i;
  }

  /** A renumbered row without "-1" in its code has a place among the rows the second filter keeps. */
  lemma CodePosition(data: Frame, proline: map<string, Cell>, p: nat) returns (j: nat)
    requires Rectangular(data) && PeakCount in data.columns && SequenceCode in data.columns
    requires SequenceCode in Renumbered(data, proline).columns && p < |Renumbered(data, proline).rows|
    requires Keeps(OffsetMask, Get(Renumbered(data, proline), p, SequenceCode))
    ensures j < |CodeRows(data, proline)| && CodeRows(data, proline)[j] == p
  {
    var rn := Renumbered(data, proline);
    RowsWhereComplete(rn.rows, IndexOf(rn.columns, SequenceCode), OffsetMask, p);
    j :| 0 <= j < |CodeRows(data, proline)| && CodeRows(data, proline)[j] == p;
  }

  /** A surviving input row is kept by both filters. */
  lemma SurvivorIsKept(data: Frame, proline: map<string, Cell>, i: nat)
    requires Rectangular(data) && PeakCount in data.columns && SequenceCode in data.columns
    requires i < |data.rows| && Survives(data, proline, i)
    ensures exists j | 0 <= j < |CodeRows(data, proline)| ::
              CodeRows(data, proline)[j] < |PeakRows(data)| && PeakRows(data)[CodeRows(data, proline)[j]] == i
  {
    var p := PeakPosition(data, i);
    RenumberedCell(data, proline, p, SequenceCode);
    var j := CodePosition(data, proline, p);
  }

  /** The input rows behind the rows of name.prot, in the order they are written. */
  function SourceRows(data: Frame, proline: map<string, Cell>): (src: seq<nat>)
    requires Rectangular(data) && PeakCount in data.columns && SequenceCode in data.columns
    ensures |src| == |Kept(data, proline).rows|
    ensures forall j | 0 <= j < |src| :: src[j] < |data.rows| && Survives(data, proline, src[j])
  {
    var first := PeakRows(data);
    var second := CodeRows(data, proline);
    assert forall j | 0 <= j < |second| :: second[j] < |first| && first[second[j]] < |data.rows|
                                          && Survives(data, proline, first[second[j]]) by {
      forall j | 0 <= j < |second|
        ensures second[j] < |first| && first[second[j]] < |data.rows| && Survives(data, proline, first[second[j]])
      {
        KeptRowSurvives(data, proline, j);
      }
    }
    Pick(first, second)
  }

  /** Every surviving input row is written: the source rows are exactly the survivors. */
  lemma SurvivorsAreWritten(data: Frame, proline: map<string, Cell>)
    requires Rectangular(data) && PeakCount in data.columns && SequenceCode in data.columns
    ensures forall i | 0 <= i < |data.rows| :: i in SourceRows(data, proline) <==> Survives(data, proline, i)
  {
    var src := SourceRows(data, proline);
    forall i | 0 <= i < |data.rows| && Survives(data, proline, i) ensures i in src {
      SurvivorIsKept(data, proline, i);
      var j :| 0 <= j < |CodeRows(data, proline)| && CodeRows(data, proline)[j] < |PeakRows(data)|
               && PeakRows(data)[CodeRows(data, proline)[j]] == i;
      assert src[j] == i;
    }
  }

  /** The survivors are written in their input order, each once. */
  lemma SourceRowsIncreasing(data: Frame, proline: map<string, Cell>)
    requires Rectangular(data) && PeakCount in data.columns && SequenceCode in data.columns
    ensures Increasing(SourceRows(data, proline))
  {
    var first := PeakRows(data);
    var second := CodeRows(data, proline);
    var src := SourceRows(data, proline);
    RowsWhereIncreasing(data.rows, IndexOf(data.columns, PeakCount), PeakMask);
    var rn := Renumbered(data, proline);
    RowsWhereIncreasing(rn.rows, IndexOf(rn.columns, SequenceCode), OffsetMask);
    forall j, j' | 0 <= j < j' < |src| ensures src[j] < src[j'] {
      assert second[j] < second[j'];
      assert src[j] == first[second[j]] && src[j'] == first[second[j']];
    }
  }

  /** Row j of Kept is input row SourceRows[j], with its code renumbered. */
  lemma KeptCell(data: Frame, proline: map<string, Cell>, j: nat, n: string)
    requires Rectangular(data) && PeakCount in data.columns && SequenceCode in data.columns
    requires j < |Kept(data, proline).rows| && n in Kept(data, proline).columns
    ensures Get(Kept(data, proline), j, n)
            == if n == SequenceCode then ReplaceByKey(Get(data, SourceRows(data, proline)[j], n), proline)
               else Get(data, SourceRows(data, proline)[j], n)
  {
    RenumberedCell(data, proline, CodeRows(data, proline)[j], n);
  }

  /** The name.prot row made from input row `i`, numbered `number`. */
  function ProtRow(data: Frame, proline: map<string, Cell>, number: int, i: nat): Row
    requires Rectangular(data) && i < |data.rows| && HasProtColumns(data.columns)
  {
    [Int(number),
     NoneToZero(Get(data, i, ShiftLabel)),
     NoneToZero(Get(data, i, ErrorLabel)),
     NoneToZero(Get(data, i, AtomLabel)),
     NoneToZero(ReplaceByKey(Get(data, i, SequenceCode), proline))]
  }

  /** Row j of the indexed table: number j + 1, then the cells of row j of Kept. */
  lemma IndexedCell(data: Frame, proline: map<string, Cell>, j: nat, n: string)
    requires Rectangular(data) && PeakCount in data.columns && SequenceCode in data.columns
    requires IndexLabel !in data.columns
    requires j < |Kept(data, proline).rows|
    requires n == IndexLabel || n in Kept(data, proline).columns
    ensures Indexed(data, proline).Ok?
    ensures j < |Indexed(data, proline).value.rows| && n in Indexed(data, proline).value.columns
    ensures Get(Indexed(data, proline).value, j, n)
            == if n == IndexLabel then Int(j + 1) else Get(Kept(data, proline), j, n)
  {
    var kept := Kept(data, proline);
    InsertColumnGet(kept, 0, IndexLabel, Numbering(1, |kept.rows|), j);
  }

  /** Cell j of name.prot under one of the four copied labels. */
  lemma ProtCell(data: Frame, proline: map<string, Cell>, j: nat, m: nat)
    requires Rectangular(data) && PeakCount in data.columns && IndexLabel !in data.columns
    requires HasProtColumns(data.columns)
    requires j < |Kept(data, proline).rows| && 1 <= m < 5
    ensures ProtColumns[m] in Kept(data, proline).columns && ProtColumns[m] in data.columns
    ensures j < |SourceRows(data, proline)| && SourceRows(data, proline)[j] < |data.rows|
    ensures Get(Indexed(data, proline).value, j, ProtColumns[m])
            == if m == 4 then ReplaceByKey(Get(data, SourceRows(data, proline)[j], SequenceCode), proline)
               else Get(data, SourceRows(data, proline)[j], ProtColumns[m])
  {
    ProtColumnsNotDeleted();
    IndexedCell(data, proline, j, ProtColumns[m]);
    KeptCell(data, proline, j, ProtColumns[m]);
  }

  /** Row j of the written table: the selected cells of row j of the indexed table, None read as 0. */
  lemma WrittenRow(indexed: Frame, j: nat)
    requires Rectangular(indexed) && Select(indexed, ProtColumns).Ok? && j < |indexed.rows|
    ensures var out := ReplaceCells(Select(indexed, ProtColumns).value, NoneText, Zero);
            && j < |out.rows| && |out.rows[j]| == |ProtColumns|
            && forall m | 0 <= m < |ProtColumns| ::
                 ProtColumns[m] in indexed.columns && out.rows[j][m] == NoneToZero(Get(indexed, j, ProtColumns[m]))
  {
    var ordered := Select(indexed, ProtColumns).value;
    ReplaceCellsRow(ordered, NoneText, Zero, j);
    SelectRow(indexed, ProtColumns, j);
  }

  /** Cell m of row j of the indexed table, None read as 0, is cell m of the expected row. */
  lemma ProtCellValue(data: Frame, proline: map<string, Cell>, j: nat, m: nat)
    requires Rectangular(data) && PeakCount in data.columns && IndexLabel !in data.columns
    requires HasProtColumns(data.columns)
    requires j < |SourceRows(data, proline)| && m < |ProtColumns|
    ensures Indexed(data, proline).Ok? && SourceRows(data, proline)[j] < |data.rows|
    ensures j < |Indexed(data, proline).value.rows| && ProtColumns[m] in Indexed(data, proline).value.columns
    ensures NoneToZero(Get(Indexed(data, proline).value, j, ProtColumns[m]))
            == ProtRow(data, proline, j + 1, SourceRows(data, proline)[j])[m]
  {
    if m == 0 {
      IndexCellValue(data, proline, j);
    } else {
      CopiedCellValue(data, proline, j, m);
    }
  }

  /** The Index cell of row j is j + 1. */
  lemma IndexCellValue(data: Frame, proline: map<string, Cell>, j: nat)
    requires Rectangular(data) && PeakCount in data.columns && IndexLabel !in data.columns
    requires HasProtColumns(data.columns)
    requires j < |SourceRows(data, proline)|
    ensures Indexed(data, proline).Ok? && SourceRows(data, proline)[j] < |data.rows|
    ensures j < |Indexed(data, proline).value.rows| && IndexLabel in Indexed(data, proline).value.columns
    ensures NoneToZero(Get(Indexed(data, proline).value, j, IndexLabel))
            == ProtRow(data, proline, j + 1, SourceRows(data, proline)[j])[0]
  {
    IndexedCell(data, proline, j, IndexLabel);
  }

  /** A copied cell of row j, None read as 0, is the matching cell of the expected row. */
  lemma CopiedCellValue(data: Frame, proline: map<string, Cell>, j: nat, m: nat)
    requires Rectangular(data) && PeakCount in data.columns && IndexLabel !in data.columns
    requires HasProtColumns(data.columns)
    requires j < |SourceRows(data, proline)| && 1 <= m < |ProtColumns|
    ensures Indexed(data, proline).Ok? && SourceRows(data, proline)[j] < |data.rows|
    ensures j < |Indexed(data, proline).value.rows| && ProtColumns[m] in Indexed(data, proline).value.columns
    ensures NoneToZero(Get(Indexed(data, proline).value, j, ProtColumns[m]))
            == ProtRow(data, proline, j + 1, SourceRows(data, proline)[j])[m]
  {
    ProtCell(data, proline, j, m);
  }

  /** On an input with the needed columns, the written table is the selection from the indexed one, None read as 0. */
  lemma WrittenTable(data: Frame, proline: map<string, Cell>)
    requires Rectangular(data) && PeakCount in data.columns && IndexLabel !in data.columns
    requires HasProtColumns(data.columns)
    ensures Indexed(data, proline).Ok? && Rectangular(Indexed(data, proline).value)
    ensures Select(Indexed(data, proline).value, ProtColumns).Ok?
    ensures ProcessProteinData(data, proline)
            == Ok(ReplaceCells(Select(Indexed(data, proline).value, ProtColumns).value, NoneText, Zero))
  {
    ProcessProteinDataSucceeds(data, proline);
    IndexedColumns(data, proline);
  }

  /** Row j of name.prot is made from the j-th surviving input row and numbered j + 1. */
  lemma ProtRowAt(data: Frame, proline: map<string, Cell>, j: nat)
    requires Rectangular(data) && PeakCount in data.columns && IndexLabel !in data.columns
    requires HasProtColumns(data.columns)
    requires j < |SourceRows(data, proline)|
    ensures ProcessProteinData(data, proline).Ok?
    ensures j < |ProcessProteinData(data, proline).value.rows| && SourceRows(data, proline)[j] < |data.rows|
    ensures ProcessProteinData(data, proline).value.rows[j] == ProtRow(data, proline, j + 1, SourceRows(data, proline)[j])
  {
    WrittenTable(data, proline);
    var indexed := Indexed(data, proline).value;
    var out := ReplaceCells(Select(indexed, ProtColumns).value, NoneText, Zero);
    WrittenRow(indexed, j);
    var expected := ProtRow(data, proline, j + 1, SourceRows(data, proline)[j]);
    forall m | 0 <= m < |ProtColumns| ensures out.rows[j][m] == expected[m] {
      ProtCellValue(data, proline, j, m);
    }
  }

  /**
    When the table has the columns the script needs, name.prot has one row per
    surviving input row, in input order, numbered from 1.
   */
  lemma ProtRows(data: Frame, proline: map<string, Cell>)
    requires Rectangular(data) && PeakCount in data.columns && IndexLabel !in data.columns
    requires HasProtColumns(data.columns)
    ensures var r := ProcessProteinData(data, proline);
            var src := SourceRows(data, proline);
            && r.Ok?
            && |r.value.rows| == |src|
            && forall j | 0 <= j < |src| :: r.value.rows[j] == ProtRow(data, proline, j + 1, src[j])
  {
    ProcessProteinDataSucceeds(data, proline);
    var src := SourceRows(data, proline);
    forall j | 0 <= j < |src|
      ensures ProcessProteinData(data, proline).value.rows[j] == ProtRow(data, proline, j + 1, src[j])
    {
      ProtRowAt(data, proline, j);
    }
  }

  // ---------------------------------------------------------------------------
  // The text of name.prot

  /**
    The text of name.prot: the header record, then one record per row. Two column
    labels hold a line break, so the header record is quoted and spans three lines.
   */
  function NameProtText(data: Frame, proline: map<string, Cell>): Result<string>
    requires Rectangular(data)
  {
    match ProcessProteinData(data, proline)
    case Err(e) => Err(e)
    case Ok(table) => Ok(Concat(ToCsv(table, true)))
  }

  /**
    The three physical lines of the header record of name.prot: the record breaks
    inside the quoted labels `Value\n(ppm)` and `Value Error\n(ppm)`.
   */
  const ProtHeaderLines: seq<string> := [
    IndexLabel + "\t" + "\"" + "Value\n",
    "(ppm)" + "\"" + "\t" + "\"" + "Value Error\n",
    "(ppm)" + "\"" + "\t" + AtomLabel + "\t" + SequenceCode + "\n"
  ]

  /** The fields of the header record: the two labels with a line break are quoted. */
  lemma ProtHeaderFields()
    ensures var f := Fields(ProtColumns);
            && |f| == 5 && f[0] == IndexLabel && f[1] == "\"" + ShiftLabel + "\"" && f[2] == "\"" + ErrorLabel + "\""
            && f[3] == AtomLabel && f[4] == SequenceCode
  {
    PlainLabels();
    QuotedLabels();
    FieldsOfFive(IndexLabel, ShiftLabel, ErrorLabel, AtomLabel, SequenceCode);
  }

  lemma PlainLabels()
    ensures Field(IndexLabel) == IndexLabel && Field(AtomLabel) == AtomLabel && Field(SequenceCode) == SequenceCode
  {
    assert !NeedsQuotes(IndexLabel);
    assert !NeedsQuotes(AtomLabel);
    assert !NeedsQuotes(SequenceCode);
  }

  lemma QuotedLabels()
    ensures Field(ShiftLabel) == "\"" + ShiftLabel + "\"" && Field(ErrorLabel) == "\"" + ErrorLabel + "\""
  {
    QuotedShift();
    QuotedError();
  }

  lemma QuotedShift()
    ensures Field(ShiftLabel) == "\"" + ShiftLabel + "\""
  {
    QuotedField(ShiftLabel);
  }

  lemma QuotedError()
    ensures Field(ErrorLabel) == "\"" + ErrorLabel + "\""
  {
    QuotedField(ErrorLabel);
  }

  /** Both labels with a line break end in the line `(ppm)`. */
  lemma LabelsBreak()
    ensures ShiftLabel == "Value\n" + "(ppm)" && ErrorLabel == "Value Error\n" + "(ppm)"
  {
  }

  /** Regrouping the pieces of the header record into its three lines. */
  lemma Regroup(i: string, t: string, q: string, v: string, p: string, e: string, a: string, s: string, n: string, body: string)
    ensures i + t + (q + (v + p) + q) + t + (q + (e + p) + q) + t + a + t + s + n + body
         == ((i + t + q + v) + ((p + q + t + q + e) + ((p + q + t + a + t + s + n) + ""))) + body
  {
  }

  /** The header record, followed by the body, is the three header lines followed by the body. */
  lemma ProtHeaderRecord(body: string)
    ensures Record(Fields(ProtColumns)) + body == Concat(ProtHeaderLines) + body
  {
    ConcatOfThree(ProtHeaderLines[0], ProtHeaderLines[1], ProtHeaderLines[2]);
    ProtHeaderFields();
    RecordOfFive(Fields(ProtColumns));
    LabelsBreak();
    Regroup(IndexLabel, "\t", "\"", "Value\n", "(ppm)", "Value Error\n", AtomLabel, SequenceCode, "\n", body);
  }

  /** Each of the three header lines is one complete line. */
  lemma ProtHeaderLinesAreLines()
    ensures forall k | 0 <= k < 3 :: IsLine(ProtHeaderLines[k])
  {
    assert IsLine(ProtHeaderLines[0]);
    assert IsLine(ProtHeaderLines[1]);
    assert IsLine(ProtHeaderLines[2]);
  }

  /**
    Read back line by line, name.prot is the three header lines, then the lines of
    the records of its rows.
   */
  lemma NameProtLines(data: Frame, proline: map<string, Cell>)
    requires Rectangular(data) && ProcessProteinData(data, proline).Ok?
    ensures var lines := Lines(NameProtText(data, proline).value);
            && |lines| >= 3 && lines[..3] == ProtHeaderLines
            && lines[3..] == Lines(Concat(RowTexts(ProcessProteinData(data, proline).value.rows)))
  {
    var body := Concat(RowTexts(ProcessProteinData(data, proline).value.rows));
    NameProtTextIs(data, proline);
    ProtHeaderRecord(body);
    ProtHeaderLinesAreLines();
    CompleteLinesThen(ProtHeaderLines, body);
  }

  /** name.prot is the header record followed by the records of the rows. */
  lemma NameProtTextIs(data: Frame, proline: map<string, Cell>)
    requires Rectangular(data) && ProcessProteinData(data, proline).Ok?
    ensures NameProtText(data, proline).value
            == Record(Fields(ProtColumns)) + Concat(RowTexts(ProcessProteinData(data, proline).value.rows))
  {
    var table := ProcessProteinData(data, proline).value;
    assert ToCsv(table, true) == [Record(Fields(ProtColumns))] + RowTexts(table.rows);
  }
}
