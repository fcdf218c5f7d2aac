# CCPNMR to CYANA conversion, modelled in Dafny

This project models the conversion scripts that turn CCPNMR exports into CYANA
input files:

- **fasta_to_seq.py** expands a one-letter protein sequence into three-letter
  residue codes. It writes the sequence listing `<code>\t<number>`, numbered
  consecutively from a start number.
- **file_to_prot.py** (`process_protein_data`) filters the table of chemical-shift
  attributions. It keeps rows with a non-zero peak count, drops four columns,
  renumbers prolines through a key map and removes the `-1` attributions. It then
  adds a running `Index`, projects the five `.prot` columns, turns `None` into `0`
  and writes `name.prot`.
- **monentlature.py** works in two steps:
  - `nomenclature` loads the sequence listing into a map from residue number to
    residue type. It then translates the atom name of every data line of
    `name.prot` through the nomenclature library. Eight whitelisted residue types
    use their own table first, then `GENERAL`, then the name itself; every other
    type uses `GENERAL`, then the name itself.
  - `file_transforme` copies the three header lines and rewrites token 3 of each
    data line with its translation.
- **to_xeasy.py** (`process_files`, `change_format`) turns the 13C and 15N NOE peak
  tables into XEASY peak lists. Each table loses its `_object` column and gains an
  `Index`, the constant columns `1` and `U`, and six placeholders (`0.00e+00` and
  five `0`). The carbon columns are first reordered to F1, F3, F2. Each list is
  written after a header that depends on the CYANA version (2 or 3).

Modules:

| module | file | contents |
|---|---|---|
| `Outcomes` | `outcomes.dfy` | `Option`, `Result` and the exceptions the scripts can raise |
| `Text` | `text.dfy` | The Python string operations used: `split()`, the `strip()` emptiness test, `"\t".join`, `int()`/`str()`, `upper()`, substring search, and iteration over a file's lines |
| `Frames` | `frames.dfy` | The pandas operations used: column selection and drop, masks, `insert`, scalar assignment, `replace`, and tab-separated `to_csv` with minimal quoting |
| `FastaToSeq` | `fasta_to_seq.dfy` | fasta_to_seq.py |
| `Nomenclature` | `nomenclature.dfy` | monentlature.py |
| `FileToProt` | `file_to_prot.dfy` | file_to_prot.py |
| `ToXeasy` | `to_xeasy.dfy` | to_xeasy.py |
| `Pipeline` | `pipeline.dfy` | Lemmas about how the stages fit together |

How files and failures are modelled:
- A file is its text, a `string`. Reading it line by line is `Text.Lines`: each
  line keeps its line feed, as Python's file iteration yields it for a file whose
  lines end in `\n` (see "## Left out" for `\r\n` and `\r`).
- A writer returns the chunks it passes to `write()`, and the file holds their
  concatenation.
- An exception is an `Err` value. A loop that stops at the first failing line
  returns what it wrote so far together with the failure.

Loops, and the step-by-step updates of a local table, are `method`s (with loop
invariants where there is a loop), each proved equal to a specification
function. The lemmas are stated about those functions.

Two behaviours of the code shape the model:
- **Column labels.** `process_protein_data` matches the exact labels `Value\n(ppm)`
  and `Value Error\n(ppm)`; it does not normalise them. `to_csv` therefore quotes
  them, and the header record of `name.prot` spans three physical lines. Those
  are exactly the three lines that `nomenclature` and `file_transforme` skip
  (`Pipeline.NameProtHeaderSkipped`).
- **Unsupported versions.** No version is rejected up front: the guard
  `version == 3 or 2` in to_xeasy.py is always true. For another version,
  `change_format` opens `13C.peaks` and then fails on the unbound header text,
  which leaves an empty 13C file and no 15N file.

## Model

| member | source | states |
|---|---|---|
| FastaToSeq.TableKeys | fasta_to_seq.py:4-9 | The table's keys are exactly the twenty upper-case one-letter codes, so no lower-case letter is a key |
| FastaToSeq.TableIsInjective | fasta_to_seq.py:4-9 | No two letters share a three-letter code |
| FastaToSeq.ConvertSequence | fasta_to_seq.py:11-14 | Succeeds iff every letter is a table key. Then the result has the input's length and element i is the code of letter i. Otherwise the KeyError names the first letter outside the table |
| FastaToSeq.WriteToFile | fasta_to_seq.py:16-20 | One write per code; write i is code i, a tab, `start + i` and a line feed |
| Pipeline.ListingLineLoads | fasta_to_seq.py:20 | A listing line is one complete line, and the sequence loader reads it as its number and its upper-cased code |
| Pipeline.ListingLoads | monentlature.py:15-19 | Loading the lines of a listing succeeds and maps exactly the numbers `start .. start+n-1`; `start+i` maps to the upper-cased code i |
| Pipeline.ListingRoundTrip | fasta_to_seq.py:16-20 | The same holds for the listing file read back from its text |
| Pipeline.CodesAreTokens | fasta_to_seq.py:4-9 | Every three-letter code is a single whitespace-free word, so `split()` keeps it whole |
| Pipeline.SequenceRoundTrip | fasta_to_seq.py:11-20 | Converting a sequence, writing the listing and loading it maps `start+i` to the upper-cased code of letter i, and maps nothing else |
| Pipeline.WhitelistedLetters | monentlature.py:38 | A letter's upper-cased code is whitelisted iff the letter is one of A, R, G, H, W, V, I, L |
| Pipeline.WhitelistIsUpperCodes | fasta_to_seq.py:5-8 | The translator's whitelist is exactly the set of upper-cased codes of those eight letters |
| Pipeline.NameProtHeaderSkipped | file_to_prot.py:50-53 | The three lines the translator skips in name.prot are the header record `to_csv` wrote, and the lines it translates are the records of the rows |
| Nomenclature.TranslateAtom | monentlature.py:38-55 | Whitelisted type: its own table's entry if present, else GENERAL's, else the atom name. Any other type: GENERAL's entry, else the atom name |
| Nomenclature.ResidueTableIgnoredOutsideWhitelist | monentlature.py:49-55 | Changing the table of a residue type outside the whitelist (other than GENERAL) never changes that type's translations |
| Nomenclature.TranslationIsACandidate | monentlature.py:38-55 | A translation is always the residue table's entry, GENERAL's entry or the atom name itself |
| Nomenclature.ParseSequenceLine | monentlature.py:17-19 | A line is skipped iff it is blank. It is an error iff it is non-blank and does not split into two words ending in an integer. Otherwise it is read as (that integer, the upper-cased first word) |
| Nomenclature.SequenceMapErrorPersists | monentlature.py:15-19 | Once a listing line fails, later lines do not change the outcome |
| Nomenclature.LoadSequenceMap | monentlature.py:15-19 | The loop builds the sequence map of the file's lines, or stops with the first error |
| Nomenclature.SequenceMapFailure | monentlature.py:18-19 | Loading fails iff some line fails, and the error is that of the first failing line |
| Nomenclature.ListedNumberIsKey | monentlature.py:19 | Every number listed on a line is a key of the map |
| Nomenclature.KeyIsListed | monentlature.py:19 | Every key of the map is listed on some line |
| Nomenclature.SequenceMapKeys | monentlature.py:15-19 | The keys are exactly the numbers listed on the lines |
| Nomenclature.SequenceMapLastLineWins | monentlature.py:19 | A number maps to the code of the last line listing it |
| Nomenclature.TranslateLine | monentlature.py:32-37 | A blank line yields nothing. A line yields a translation iff it has two or more words and the last is an integer in the sequence map. The translation is that of the second-to-last word for that residue type |
| Nomenclature.TranslationsErrorPersists | monentlature.py:31-55 | Once a data line fails, later lines do not change the outcome |
| Nomenclature.AtomTranslations | monentlature.py:10-56 | `nomenclature` loads the listing, then translates the lines after the first three, or fails with the first error |
| Nomenclature.TranslateDataLines | monentlature.py:31-55 | The loop appends one translation per non-blank data line, or stops with the first error |
| Nomenclature.NonBlankOfNoBlank | monentlature.py:32 | Without blank lines, every data line receives a translation |
| Nomenclature.TranslationsFailure | monentlature.py:33-37 | Translating fails iff some data line fails (too few words, a non-integer code, a code absent from the map), with the first such error |
| Nomenclature.TranslationsMeaning | monentlature.py:31-55 | A successful list has one entry per non-blank data line, in file order; entry k is the translation of the k-th non-blank line |
| Nomenclature.TransformLine | monentlature.py:72-77 | A blank line is written verbatim. A non-blank line fails iff its index is past the translation list or it has fewer than four words. Otherwise its words are re-joined by tabs with word 3 replaced by translation i |
| Nomenclature.TransformedDataStops | monentlature.py:71-77 | Once a data line fails, later lines write nothing |
| Nomenclature.FileTransform | monentlature.py:58-77 | `file_transforme` writes the header lines, then the rewritten data lines, up to the first failure |
| Nomenclature.RewriteDataLines | monentlature.py:71-77 | The loop writes the rewrite of each data line in turn, up to the first failure |
| Nomenclature.TransformedDataMeaning | monentlature.py:71-77 | No failure iff every data line rewrites; then there is one written line per data line. On failure, the rewrites before the first failing line are written, and that line's error is returned. Written line i is the rewrite of line i |
| Nomenclature.RewrittenTokens | monentlature.py:73-75 | Splitting a rewritten line gives the input's words with word 3 replaced by the translation |
| Nomenclature.FileTransformShape | monentlature.py:61-69 | The first three lines are copied verbatim (a shorter file is copied whole). Without a failure, the output has as many lines as the input |
| Nomenclature.AlignedRewrite | monentlature.py:74 | Without blank data lines, and with at least four words per line, translation i belongs to data line i, and line i is rewritten with it |
| Nomenclature.BlankLineShiftsIndex | monentlature.py:71-77 | A blank data line shifts the index of the later lines. With one translation for the one non-blank line, the rewrite asks for translation 1 and fails |
| FileToProt.ProtColumnsNotDeleted | file_to_prot.py:31-44 | None of the five kept columns is among the deleted ones |
| FileToProt.DataZero | file_to_prot.py:23-25 | The peak-count filter keeps every column |
| FileToProt.DataColumns | file_to_prot.py:31-33 | The remaining columns are exactly the input's minus `uniqueId`, `NmrAtom`, `ResidueType` and the peak count |
| FileToProt.Renumbered | file_to_prot.py:35 | The proline renumbering keeps the columns |
| FileToProt.Kept | file_to_prot.py:37 | The `-1` filter keeps the columns |
| FileToProt.ProcessProteinDataSteps | file_to_prot.py:22-47 | The steps, applied one after another to a local table (filter, drop, renumber in place, filter, insert, reorder, replace in place), give exactly `ProcessProteinData`, errors included |
| FileToProt.ProcessProteinData | file_to_prot.py:15-47 | On success, the columns are exactly `Index`, `Value\n(ppm)`, `Value Error\n(ppm)`, `AtomName`, `SequenceCode`, in that order |
| FileToProt.IndexedColumns | file_to_prot.py:31-40 | After the Index insert, the columns are `Index` and the input's non-deleted columns |
| FileToProt.ProcessProteinDataErrors | file_to_prot.py:23-40 | No peak-count column: the unbound filtered table. No `SequenceCode`: KeyError. An existing `Index`: the insert fails |
| FileToProt.ProcessProteinDataSucceeds | file_to_prot.py:43-44 | With a peak count and no `Index`, processing succeeds iff the four data columns are present |
| FileToProt.ProtColumnsPresent | file_to_prot.py:31-44 | With the four data columns present, all five output columns exist before the projection |
| FileToProt.AbsentStaysAbsent | file_to_prot.py:31-40 | No step before the projection creates a column other than `Index` |
| FileToProt.ProtColumnAbsent | file_to_prot.py:43-44 | A missing data column is still missing at the projection |
| FileToProt.RenumberedCell | file_to_prot.py:35 | Row p after renumbering is the p-th peak-filtered input row; its code is replaced when it equals a key of the map (whole value) |
| FileToProt.KeptRowSurvives | file_to_prot.py:25-37 | Every kept row comes from an input row with peaks whose renumbered code has no `-1` |
| FileToProt.PeakPosition | file_to_prot.py:25 | Every input row with a non-zero, present peak count passes the peak filter |
| FileToProt.CodePosition | file_to_prot.py:37 | Every renumbered row whose code has no `-1` passes the second filter |
| FileToProt.SurvivorIsKept | file_to_prot.py:25-37 | Every input row meeting both conditions is kept |
| FileToProt.SourceRows | file_to_prot.py:25-37 | Each kept row comes from an input row meeting both conditions |
| FileToProt.SurvivorsAreWritten | file_to_prot.py:23-37 | An input row reaches name.prot iff its peak count is non-zero and present and its renumbered code has no `-1` |
| FileToProt.SourceRowsIncreasing | file_to_prot.py:25-37 | Surviving rows keep their relative order |
| FileToProt.KeptCell | file_to_prot.py:35-37 | A cell of a kept row is the source row's cell; the code is renumbered |
| FileToProt.IndexedCell | file_to_prot.py:40 | The Index of row j is j + 1; the other cells are unchanged |
| FileToProt.ProtCell | file_to_prot.py:35-44 | The shift, error, atom and code of output row j come from its source row, the code renumbered |
| FileToProt.WrittenRow | file_to_prot.py:43-47 | Output cell m is the cell under column m with `None` replaced by 0 |
| FileToProt.ProtCellValue | file_to_prot.py:40-47 | Every output cell agrees with `ProtRow` |
| FileToProt.IndexCellValue | file_to_prot.py:40 | The Index cell agrees with `ProtRow` |
| FileToProt.CopiedCellValue | file_to_prot.py:35-47 | The copied cells agree with `ProtRow` |
| FileToProt.WrittenTable | file_to_prot.py:40-47 | The output is the projection of the indexed table with `None` replaced by 0 |
| FileToProt.ProtRowAt | file_to_prot.py:23-47 | Output row j is `ProtRow` of its source row, numbered j + 1 |
| FileToProt.ProtRows | file_to_prot.py:23-47 | The output has one row per surviving input row, in order. Row j is numbered j + 1 and holds the source's shift, error and atom, and its renumbered code, with `None` as 0 |
| FileToProt.ProtHeaderFields | file_to_prot.py:50 | The header fields are the five labels, the two with a line break quoted |
| FileToProt.ProtHeaderRecord | file_to_prot.py:50 | The header record is the three physical header lines |
| FileToProt.NameProtTextIs | file_to_prot.py:50 | name.prot is the header record followed by one record per row |
| FileToProt.NameProtLines | file_to_prot.py:50 | Read back, name.prot is the three header lines followed by the lines of the row records |
| Frames.Select | file_to_prot.py:43-44 | Selecting labels fails iff one is missing, naming a missing one; otherwise the columns are exactly the labels and the rows are kept |
| Frames.SelectRow | file_to_prot.py:44 | Cell j of a selected row is the original cell under label j |
| Frames.Drop | file_to_prot.py:31-33 | The remaining columns are exactly the input's minus the dropped names; the rows are kept |
| Frames.DropGet | file_to_prot.py:33 | A remaining cell is unchanged by the drop |
| Frames.FilterRows | file_to_prot.py:25 | The rows are the input rows the mask keeps, in order |
| Frames.RowsWhereIncreasing | file_to_prot.py:37 | Filtering keeps the relative order of the rows |
| Frames.RowsWhereComplete | file_to_prot.py:37 | Every row the mask keeps is in the filtered table |
| Frames.InsertColumn | file_to_prot.py:40 | Insert fails iff the label exists (ValueError) or the position is past the last column. Otherwise the label is placed at that position |
| Frames.InsertColumnGet | to_xeasy.py:13-15 | The inserted column holds the given cells; other cells are unchanged |
| Frames.InsertColumnRow | to_xeasy.py:13-15 | Each row gains its cell at the insert position |
| Frames.Numbering | file_to_prot.py:40 | `range(first, first+n)` as cells |
| Frames.AssignScalar | to_xeasy.py:17-19 | Assigning a scalar to a new label appends a column; to an existing one it keeps the columns |
| Frames.AssignScalarGet | to_xeasy.py:17-19 | The assigned column holds the scalar; other cells are unchanged |
| Frames.AssignNewLabel | to_xeasy.py:17-19 | A new label is appended last, and each row gains the scalar |
| Frames.ReplaceCellsRow | file_to_prot.py:47 | Every cell equal to the searched value is replaced, and no other |
| Frames.ReplaceInColumnRow | file_to_prot.py:35 | Only the chosen column changes, and a cell changes only when it equals a key of the map |
| Frames.QuotedField | file_to_prot.py:50 | A label with a line break and no quote is written between quotes |
| Frames.ToCsv | file_to_prot.py:50 | The header record, when asked for, then one tab-separated record per row |
| Text.WordsEmptyIffBlank | monentlature.py:17 | `split()` is empty iff `strip()` is empty |
| Text.WordsOfJoin | monentlature.py:75 | Splitting tab-joined words followed by whitespace gives the words back |
| Text.ConcatOfLines | monentlature.py:63 | Reading a file line by line loses no character |
| Text.LinesOfConcat | monentlature.py:68-69 | Reading back what was written line by line gives back those lines |
| Text.CompleteLinesThen | monentlature.py:30 | Complete lines before more text are read as those lines, then the lines of the rest |
| Text.IntToStringRoundTrip | monentlature.py:19 | `int(str(n)) == n`, and `str(n)` is one word |
| ToXeasy.HeaderLines | to_xeasy.py:22-27 | Only versions 2 and 3 have a header. It has six lines; the two versions share the first five and differ in the last |
| ToXeasy.PlaceholderLabels | to_xeasy.py:17-19 | The placeholder labels are `Column_0.00e+00`, then `Column_0_1` to `Column_0_n` |
| ToXeasy.Unobjected | to_xeasy.py:12 | Dropping `_object` keeps every row |
| ToXeasy.ChangeFormat | to_xeasy.py:11-37 | The step-by-step reshaping writes what `PeakFileOf` describes: nothing on a formatting error, an empty file on an unbound header, otherwise the header and the records |
| ToXeasy.AddPlaceholders | to_xeasy.py:17-19 | The exponent column, then the loop over 1..5, gives the six placeholder columns |
| ToXeasy.ProcessFiles | to_xeasy.py:10-53 | The carbon table is reordered and formatted first; the nitrogen table only after the carbon list succeeded |
| ToXeasy.ReshapedErrors | to_xeasy.py:12-15 | The steps fail, in this order: no `_object`; an existing `Index`; an existing `1`; fewer than three remaining columns; an existing `U`. Otherwise they succeed |
| ToXeasy.ZeroLabelInjective | to_xeasy.py:19 | Distinct loop indices give distinct placeholder labels |
| ToXeasy.ZeroLabelIsNew | to_xeasy.py:19 | No placeholder label equals the exponent, `Index`, `1` or `U` label |
| ToXeasy.ZeroLabelIsFresh | to_xeasy.py:18-19 | Each loop step adds a label not yet present |
| ToXeasy.WithPlaceholdersShape | to_xeasy.py:17-19 | The placeholders add their labels after the columns and `0.00e+00` and n zeros after each row |
| ToXeasy.InsertionsMakeLayout | to_xeasy.py:13-15 | Inserting at 0, 4 and 5 gives Index, three kept values, `1`, `U`, the remaining kept values |
| ToXeasy.ReplaceInLayout | to_xeasy.py:16 | `replace('None', 0)` leaves the inserted cells alone and replaces in the kept ones |
| ToXeasy.ReshapedColumns | to_xeasy.py:12-15 | The reshaped columns are Index, the first three kept labels, `1`, `U`, the remaining kept labels |
| ToXeasy.InsertedRow | to_xeasy.py:12-15 | Row j after the inserts is j + 1, three kept cells, 1, `U`, the remaining kept cells |
| ToXeasy.ReshapedRow | to_xeasy.py:12-16 | The same, with `None` replaced by 0 in the kept cells |
| ToXeasy.ReshapedHasNoPlaceholders | to_xeasy.py:12-17 | Reshaping adds no placeholder label |
| ToXeasy.FormattedColumns | to_xeasy.py:12-19 | The formatted columns are the reshaped ones followed by the six placeholder labels |
| ToXeasy.FormattedRow | to_xeasy.py:12-19 | Formatted row j is the reshaped row followed by `0.00e+00` and five zeros |
| ToXeasy.CarbonKeptPositions | to_xeasy.py:45-46 | After `_object`, the carbon order keeps positions 1 to 4 |
| ToXeasy.CarbonLabels | to_xeasy.py:45 | The carbon order has `_object` and none of the labels change_format adds |
| ToXeasy.CarbonFormats | to_xeasy.py:45-49 | A table in carbon order always formats |
| ToXeasy.CarbonSelects | to_xeasy.py:45-46 | The carbon reorder succeeds iff the five columns are present |
| ToXeasy.CarbonDropRow | to_xeasy.py:12 | Dropping `_object` from a carbon row keeps F1, F3, F2, Volume |
| ToXeasy.CarbonKeptRow | to_xeasy.py:45-46 | Those are the input row's F1, F3, F2 and Volume |
| ToXeasy.CarbonRow | to_xeasy.py:45-49 | A 13C row reads Index, F1, F3, F2, 1, U, Volume, `0.00e+00` and five 0 |
| ToXeasy.PeakFileWritten | to_xeasy.py:20-37 | For version 2 or 3 the peak list is the header, then one record per input row, with no column header |
| ToXeasy.VersionOnlyChangesHeader | to_xeasy.py:11-27 | Versions 2 and 3 fail alike, and write the same text after different headers |
| ToXeasy.ProcessFilesOutcome | to_xeasy.py:40-53 | 13C is written iff the reorder succeeds. 15N is written, and nothing fails, iff in addition the version is 2 or 3 and the 15N table formats. Another version leaves an empty 13C list and no 15N list |

## Left out

- Reading and writing the filesystem, paths, `print` and the GUI front ends (main.py, gui.py) are left out. Input tables are given as values, and output files are returned as their text.
- CSV and JSON parsing (`pd.read_csv`, `json.load`) is left out. Tables arrive as columns of typed cells (`Str`, `Int`, `Real` kept as its text, `NA`). The library is a nested map, and the proline map a map from code text to cell.
- Floating point is not modelled: shifts and volumes are carried as opaque text and never computed on.
- pandas dtype inference is left out. A cell keeps the type it arrived with; `replace` and the filters compare whole cells.
- Duplicate column labels are not modelled: a label refers to its first column.
- `str.contains('-1')` is modelled as a literal substring test; `-1` holds no regular-expression syntax.
- `Frames.Field` models the csv writer's minimal quoting only for tab, quote, carriage return and line feed.
- ToXeasy.ZeroLabel: the placeholder label is built from one digit, which covers the loop's indices 1 to 5 but not labels of two digits.
- ToXeasy.ProcessFiles: the `'out'` branch is not modelled, because `version == 3 or 2` is always true.
- ToXeasy.ChangeFormat: the empty file left by the unbound header is modelled as content `""`. The order in which the operating system creates files is not modelled.
- Nomenclature.AtomTranslations: the library is given as a map and is not read from JSON. The `aa = []` assignment before the lookup has no effect and is not modelled.
- Text.Lines: Python's text mode turns `\r\n` and a lone `\r` into `\n` (universal newlines); `Lines` splits only after `\n` and keeps `\r` as part of the line, so files with other line ends are not modelled.
- Text.ParseInt: accepts an optional sign and ASCII decimal digits only; `int()` also accepts `_` between digits (`int("1_0") == 10`) and non-ASCII decimal digits, which the model reports as an invalid literal.
- Text.Upper: upper-cases the ASCII letters only; `str.upper()` also maps other letters (`"é".upper() == "É"`) and may lengthen a string (`"ß".upper() == "SS"`).
- FileToProt.ProcessProteinDataSteps: the in-place updates at file_to_prot.py:35, 40 and 47 are reassignments of a local value; the frame is local to the function, so no aliasing is lost.
