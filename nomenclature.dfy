/**
  Atom-nomenclature translation of a `.prot` chemical-shift file (monentlature.py):
  the sequence map loader, the whitelist-gated two-tier library lookup, the
  list of translations in file order, and the rewrite of the file with the
  translated names in the fourth column.
 */
module Nomenclature {
  import opened Outcomes
  import opened Text

  /** The nomenclature library: residue type (or GENERAL) -> atom name -> translated name. */
  type Library = map<string, map<string, string>>

  /** The sequence map: residue number -> upper-case residue type. */
  type SequenceMap = map<int, string>

  const General: string := "GENERAL"

  /** The residue types whose own library table is consulted before GENERAL. */
  const Whitelist: set<string> := {"ALA", "ARG", "GLY", "HIS", "TRP", "VAL", "ILE", "LEU"}

  /** Number of lines `islice(f, 3)` takes off the top of a `.prot` file. */
  const HeaderLength: nat := 3

  // ---------------------------------------------------------------------------
  // The translation rule

  /** `lib[table][atom]`, or None where Python would raise KeyError. */
  function Lookup(lib: Library, table: string, atom: string): Option<string> {
    if table in lib && atom in lib[table] then Some(lib[table][atom]) else None
  }

  /**
    The name of `atom` on a residue of type `residue`: for a whitelisted type its own
    table first, then GENERAL, then the atom name itself; for any other type
    GENERAL, then the atom name itself.
   */
  function TranslateAtom(lib: Library, residue: string, atom: string): (r: string)
    ensures residue in Whitelist && Lookup(lib, residue, atom).Some? ==> r == lib[residue][atom]
    ensures (residue !in Whitelist || Lookup(lib, residue, atom).None?) && Lookup(lib, General, atom).Some?
            ==> r == lib[General][atom]
    ensures (residue !in Whitelist || Lookup(lib, residue, atom).None?) && Lookup(lib, General, atom).None?
            ==> r == atom
  {
    var specific := if residue in Whitelist then Lookup(lib, residue, atom) else None;
    match specific
    case Some(name) => name
    case None =>
      match Lookup(lib, General, atom)
      case Some(name) => name
      case None => atom
  }

  /**
    Outside the whitelist the residue's own table is never consulted: replacing it
    by any other table (or adding one) leaves every translation unchanged.
   */
  lemma ResidueTableIgnoredOutsideWhitelist(lib: Library, residue: string, atom: string, table: map<string, string>)
    requires residue !in Whitelist && residue != General
    ensures TranslateAtom(lib[residue := table], residue, atom) == TranslateAtom(lib, residue, atom)
  {
    assert Lookup(lib[residue := table], General, atom) == Lookup(lib, General, atom);
  }

  /** Every translation is the residue entry, the GENERAL entry or the atom name itself. */
  lemma TranslationIsACandidate(lib: Library, residue: string, atom: string)
    ensures var r := TranslateAtom(lib, residue, atom);
            || (residue in Whitelist && residue in lib && atom in lib[residue] && r == lib[residue][atom])
            || (General in lib && atom in lib[General] && r == lib[General][atom])
            || r == atom
  {
  }

  // ---------------------------------------------------------------------------
  // The sequence map

  /**
    One line of the sequence listing: a blank line is skipped; any other line must
    split into exactly a residue type and an integer.
   */
  function ParseSequenceLine(line: string): (r: Result<Option<(int, string)>>)
    ensures r == Ok(None) <==> IsBlank(line)
    ensures r.Err? <==> !IsBlank(line) && (|Words(line)| != 2 || ParseInt(Words(line)[1]).None?)
    ensures r.Ok? && r.value.Some? ==>
              |Words(line)| == 2 && ParseInt(Words(line)[1]) == Some(r.value.value.0)
              && r.value.value.1 == Upper(Words(line)[0])
  {
    WordsEmptyIffBlank(line);
    var w := Words(line);
    if w == [] then Ok(None)
    else if |w| != 2 then Err(UnpackMismatch(line))
    else
      match ParseInt(w[1])
      case None => Err(InvalidLiteral(w[1]))
      case Some(n) => Ok(Some((n, Upper(w[0]))))
  }

  /** The map built from the listing line by line, later lines overwriting earlier ones. */
  function SequenceMapOf(lines: seq<string>): Result<SequenceMap>
    decreases |lines|
  {
    if lines == [] then Ok(map[])
    else
      match SequenceMapOf(lines[..|lines| - 1])
      case Err(e) => Err(e)
      case Ok(m) =>
        match ParseSequenceLine(lines[|lines| - 1])
        case Err(e) => Err(e)
        case Ok(None) => Ok(m)
        case Ok(Some(entry)) => Ok(m[entry.0 := entry.1])
  }

  /** Once a prefix of the listing has failed, the whole listing fails with the same error. */
  lemma {:induction false} SequenceMapErrorPersists(lines: seq<string>, i: nat)
    requires i <= |lines|
    requires SequenceMapOf(lines[..i]).Err?
    ensures SequenceMapOf(lines) == SequenceMapOf(lines[..i])
    decreases |lines| - i
  {
    if i < |lines| {
      assert lines[..i + 1][..i] == lines[..i];
      SequenceMapErrorPersists(lines, i + 1);
    } else {
      assert lines[..i] == lines;
    }
  }

  /** The loop that fills `seq_dic` from the listing, stopping at the first bad line. */
  method LoadSequenceMap(text: string) returns (r: Result<SequenceMap>)
    ensures r == SequenceMapOf(Lines(text))
  {
    var lines := Lines(text);
    var seqDic: SequenceMap := map[];
    for i := 0 to |lines|
      invariant SequenceMapOf(lines[..i]) == Ok(seqDic)
    {
      assert lines[..i + 1][..i] == lines[..i];
      var parsed := ParseSequenceLine(lines[i]);
      if parsed.Err? {
        SequenceMapErrorPersists(lines, i + 1);
        return Err(parsed.error);
      }
      if parsed.value.Some? {
        seqDic := seqDic[parsed.value.value.0 := parsed.value.value.1];
      }
    }
    assert lines[..|lines|] == lines;
    r := Ok(seqDic);
  }

  /** A line `i` that is not blank parses to the entry `(n, residue)`. */
  ghost predicate EntryAt(lines: seq<string>, i: int, n: int, residue: string)
    requires 0 <= i < |lines|
  {
    ParseSequenceLine(lines[i]) == Ok(Some((n, residue)))
  }

  /**
    Loading fails exactly when some non-blank line is malformed (not two tokens, or
    a non-integer number), and the error is that of the first such line.
   */
  lemma {:induction false} SequenceMapFailure(lines: seq<string>)
    ensures SequenceMapOf(lines).Err? <==> exists i | 0 <= i < |lines| :: ParseSequenceLine(lines[i]).Err?
    ensures SequenceMapOf(lines).Err? ==>
              exists i | 0 <= i < |lines| :: ParseSequenceLine(lines[i]) == Err(SequenceMapOf(lines).error)
                                             && forall j | 0 <= j < i :: ParseSequenceLine(lines[j]).Ok?
    decreases |lines|
  {
    if lines != [] {
      var init := lines[..|lines| - 1];
      SequenceMapFailure(init);
      assert forall i | 0 <= i < |init| :: init[i] == lines[i];
      if SequenceMapOf(init).Err? {
        var i :| 0 <= i < |init| && ParseSequenceLine(init[i]) == Err(SequenceMapOf(init).error)
                 && forall j | 0 <= j < i :: ParseSequenceLine(init[j]).Ok?;
        assert ParseSequenceLine(lines[i]) == Err(SequenceMapOf(init).error);
      }
    }
  }

  /** A number listed on some line is a key of the loaded map. */
  lemma {:induction false} ListedNumberIsKey(lines: seq<string>, i: nat, n: int, res: string)
    requires SequenceMapOf(lines).Ok?
    requires i < |lines| && EntryAt(lines, i, n, res)
    ensures n in SequenceMapOf(lines).value
    decreases |lines|
  {
    var init := lines[..|lines| - 1];
    if i < |lines| - 1 {
      assert init[i] == lines[i];
      ListedNumberIsKey(init, i, n, res);
    }
  }

  /** Every key of the loaded map was listed on some line; returns that line and its type. */
  lemma {:induction false} KeyIsListed(lines: seq<string>, n: int) returns (i: nat, res: string)
    requires SequenceMapOf(lines).Ok? && n in SequenceMapOf(lines).value
    ensures i < |lines| && EntryAt(lines, i, n, res)
    decreases |lines|
  {
    var init := lines[..|lines| - 1];
    var p := ParseSequenceLine(lines[|lines| - 1]);
    if p.value.Some? && p.value.value.0 == n {
      i, res := |lines| - 1, p.value.value.1;
    } else {
      i, res := KeyIsListed(init, n);
      assert init[i] == lines[i];
    }
  }

  /** A loaded map has an entry for a residue number exactly when some line lists that number. */
  lemma SequenceMapKeys(lines: seq<string>)
    requires SequenceMapOf(lines).Ok?
    ensures forall n :: n in SequenceMapOf(lines).value <==>
              exists i, res | 0 <= i < |lines| :: EntryAt(lines, i, n, res)
  {
    forall n ensures n in SequenceMapOf(lines).value <==> exists i, res | 0 <= i < |lines| :: EntryAt(lines, i, n, res) {
      if n in SequenceMapOf(lines).value {
        var i, res := KeyIsListed(lines, n);
      }
      if exists i, res | 0 <= i < |lines| :: EntryAt(lines, i, n, res) {
        var i, res :| 0 <= i < |lines| && EntryAt(lines, i, n, res);
        ListedNumberIsKey(lines, i, n, res);
      }
    }
  }

  /**
    A loaded map gives each listed residue number the (upper-cased) type of the LAST
    line listing that number: a later line overwrites an earlier one.
   */
  lemma {:induction false} SequenceMapLastLineWins(lines: seq<string>, i: nat, n: int, res: string)
    requires SequenceMapOf(lines).Ok?
    requires i < |lines| && EntryAt(lines, i, n, res)
    requires forall j, res' | i < j < |lines| :: !EntryAt(lines, j, n, res')
    ensures n in SequenceMapOf(lines).value && SequenceMapOf(lines).value[n] == res
    decreases |lines|
  {
    var init := lines[..|lines| - 1];
    var last := |lines| - 1;
    if i < last {
      assert EntryAt(init, i, n, res);
      forall j, res' | i < j < |init| ensures !EntryAt(init, j, n, res') {
        assert !EntryAt(lines, j, n, res');
      }
      SequenceMapLastLineWins(init, i, n, res);
      match ParseSequenceLine(lines[last])
      case Ok(Some(entry)) =>
        assert entry.0 != n by { assert !EntryAt(lines, last, n, entry.1); }
      case _ =>
    }
  }

  // ---------------------------------------------------------------------------
  // The list of translations

  /**
    One data line of the `.prot` file: blank lines yield nothing; otherwise the
    second-to-last token is the atom name and the last token, as an integer, the
    sequence code, whose residue type must be in the sequence map.
   */
  function TranslateLine(lib: Library, seqMap: SequenceMap, line: string): (r: Result<Option<string>>)
    ensures r == Ok(None) <==> IsBlank(line)
    ensures r.Ok? && r.value.Some? <==>
              && |Words(line)| >= 2
              && ParseInt(Words(line)[|Words(line)| - 1]).Some?
              && ParseInt(Words(line)[|Words(line)| - 1]).value in seqMap
    ensures r.Ok? && r.value.Some? ==>
              var w := Words(line);
              r.value.value == TranslateAtom(lib, seqMap[ParseInt(w[|w| - 1]).value], w[|w| - 2])
  {
    WordsEmptyIffBlank(line);
    var w := Words(line);
    if w == [] then Ok(None)
    else if |w| < 2 then Err(MissingToken(line))
    else
      match ParseInt(w[|w| - 1])
      case None => Err(InvalidLiteral(w[|w| - 1]))
      case Some(code) =>
        if code !in seqMap then Err(UnknownSequenceCode(code))
        else Ok(Some(TranslateAtom(lib, seqMap[code], w[|w| - 2])))
  }

  /** The translations of the data lines, in file order (a prefix fold, like the loop). */
  function TranslationsOf(lib: Library, seqMap: SequenceMap, lines: seq<string>): Result<seq<string>>
    decreases |lines|
  {
    if lines == [] then Ok([])
    else
      match TranslationsOf(lib, seqMap, lines[..|lines| - 1])
      case Err(e) => Err(e)
      case Ok(ts) =>
        match TranslateLine(lib, seqMap, lines[|lines| - 1])
        case Err(e) => Err(e)
        case Ok(None) => Ok(ts)
        case Ok(Some(t)) => Ok(ts + [t])
  }

  /** The lines after the three header lines. */
  function DataLines(lines: seq<string>): seq<string> {
    if |lines| <= HeaderLength then [] else lines[HeaderLength..]
  }

  /** The header lines: the first three, or all of a shorter file. */
  function HeaderLines(lines: seq<string>): seq<string> {
    if |lines| <= HeaderLength then lines else lines[..HeaderLength]
  }

  /** What `nomenclature` returns, or the exception it raises. */
  function AtomTranslationsOf(lib: Library, seqText: string, protText: string): Result<seq<string>> {
    match SequenceMapOf(Lines(seqText))
    case Err(e) => Err(e)
    case Ok(seqMap) => TranslationsOf(lib, seqMap, DataLines(Lines(protText)))
  }

  lemma {:induction false} TranslationsErrorPersists(lib: Library, seqMap: SequenceMap, lines: seq<string>, i: nat)
    requires i <= |lines|
    requires TranslationsOf(lib, seqMap, lines[..i]).Err?
    ensures TranslationsOf(lib, seqMap, lines) == TranslationsOf(lib, seqMap, lines[..i])
    decreases |lines| - i
  {
    if i < |lines| {
      assert lines[..i + 1][..i] == lines[..i];
      TranslationsErrorPersists(lib, seqMap, lines, i + 1);
    } else {
      assert lines[..i] == lines;
    }
  }

  /**
    `nomenclature`: load the sequence map, then translate every data line of the
    `.prot` file, appending to `atom_translet`; the first exception aborts.
   */
  method AtomTranslations(lib: Library, seqText: string, protText: string) returns (r: Result<seq<string>>)
    ensures r == AtomTranslationsOf(lib, seqText, protText)
  {
    var loaded := LoadSequenceMap(seqText);
    if loaded.Err? {
      return Err(loaded.error);
    }
    r := TranslateDataLines(lib, loaded.value, DataLines(Lines(protText)));
  }

  /** The loop over the data lines: one translation per non-blank line, in file order. */
  method TranslateDataLines(lib: Library, seqDic: SequenceMap, lines: seq<string>) returns (r: Result<seq<string>>)
    ensures r == TranslationsOf(lib, seqDic, lines)
  {
    var atomTranslet: seq<string> := [];
    for i := 0 to |lines|
      invariant TranslationsOf(lib, seqDic, lines[..i]) == Ok(atomTranslet)
    {
      assert lines[..i + 1][..i] == lines[..i];
      var t := TranslateLine(lib, seqDic, lines[i]);
      if t.Err? {
        TranslationsErrorPersists(lib, seqDic, lines, i + 1);
        return Err(t.error);
      }
      if t.value.Some? {
        atomTranslet := atomTranslet + [t.value.value];
      }
    }
    assert lines[..|lines|] == lines;
    r := Ok(atomTranslet);
  }

  /** The non-blank lines, in order: the lines that receive a translation. */
  function NonBlank(lines: seq<string>): (r: seq<string>)
    ensures |r| <= |lines|
    ensures forall k | 0 <= k < |r| :: !IsBlank(r[k])
  {
    if lines == [] then []
    else
      var init := NonBlank(lines[..|lines| - 1]);
      if IsBlank(lines[|lines| - 1]) then init else init + [lines[|lines| - 1]]
  }

  /** Without blank lines, the k-th translation belongs to the k-th data line. */
  lemma {:induction false} NonBlankOfNoBlank(lines: seq<string>)
    requires forall k | 0 <= k < |lines| :: !IsBlank(lines[k])
    ensures NonBlank(lines) == lines
    decreases |lines|
  {
    if lines != [] {
      NonBlankOfNoBlank(lines[..|lines| - 1]);
      assert lines[..|lines| - 1] + [lines[|lines| - 1]] == lines;
    }
  }

  /**
    The translation list fails exactly when some data line fails (too few tokens,
    a non-integer code, or a code absent from the sequence map), with the error of
    the first such line.
   */
  lemma {:induction false} TranslationsFailure(lib: Library, seqMap: SequenceMap, lines: seq<string>)
    ensures TranslationsOf(lib, seqMap, lines).Err? <==>
              exists i | 0 <= i < |lines| :: TranslateLine(lib, seqMap, lines[i]).Err?
    ensures TranslationsOf(lib, seqMap, lines).Err? ==>
              exists i | 0 <= i < |lines| :: TranslateLine(lib, seqMap, lines[i]) == Err(TranslationsOf(lib, seqMap, lines).error)
                                             && forall j | 0 <= j < i :: TranslateLine(lib, seqMap, lines[j]).Ok?
    decreases |lines|
  {
    if lines != [] {
      var init := lines[..|lines| - 1];
      TranslationsFailure(lib, seqMap, init);
      assert forall i | 0 <= i < |init| :: init[i] == lines[i];
      match TranslationsOf(lib, seqMap, init)
      case Err(e) =>
        var i :| 0 <= i < |init| && TranslateLine(lib, seqMap, init[i]) == Err(e)
                 && forall j | 0 <= j < i :: TranslateLine(lib, seqMap, init[j]).Ok?;
        assert TranslateLine(lib, seqMap, lines[i]) == Err(e);
      case Ok(ts) =>
    }
  }

  /**
    A successful translation list has one entry per non-blank data line, in file
    order, each the translation of that line.
   */
  lemma {:induction false} TranslationsMeaning(lib: Library, seqMap: SequenceMap, lines: seq<string>)
    requires TranslationsOf(lib, seqMap, lines).Ok?
    ensures var ts := TranslationsOf(lib, seqMap, lines).value;
            && |ts| == |NonBlank(lines)|
            && forall k | 0 <= k < |ts| :: TranslateLine(lib, seqMap, NonBlank(lines)[k]) == Ok(Some(ts[k]))
    decreases |lines|
  {
    if lines != [] {
      var init := lines[..|lines| - 1];
      TranslationsMeaning(lib, seqMap, init);
    }
  }

  // ---------------------------------------------------------------------------
  // Rewriting the file

  /** What was written to the output file, and the exception that stopped the writing, if any. */
  datatype Written = Written(writes: seq<string>, failure: Option<Error>)

  /**
    Data line `i`: a blank line is written verbatim; any other line becomes its
    tokens joined by tabs with token 3 replaced by `translations[i]`.
   */
  function TransformLine(translations: seq<string>, i: nat, line: string): (r: Result<string>)
    ensures IsBlank(line) ==> r == Ok(line)
    ensures r.Err? <==> !IsBlank(line) && (i >= |translations| || |Words(line)| < 4)
    ensures r.Ok? && !IsBlank(line) ==>
              r.value == Join(Words(line)[3 := translations[i]], "\t") + "\n"
  {
    if IsBlank(line) then Ok(line)
    else if i >= |translations| then Err(NoTranslation(i))
    else
      var parts := Words(line);
      if |parts| < 4 then Err(MissingToken(line))
      else Ok(Join(parts[3 := translations[i]], "\t") + "\n")
  }

  /** The data lines written, up to the first failing one (a prefix fold, like the loop). */
  function TransformedData(translations: seq<string>, lines: seq<string>): Written
    decreases |lines|
  {
    if lines == [] then Written([], None)
    else
      var w := TransformedData(translations, lines[..|lines| - 1]);
      if w.failure.Some? then w
      else
        match TransformLine(translations, |lines| - 1, lines[|lines| - 1])
        case Err(e) => Written(w.writes, Some(e))
        case Ok(l) => Written(w.writes + [l], None)
  }

  /** What `file_transforme` writes: the header verbatim, then the rewritten data lines. */
  function FileTransformOf(translations: seq<string>, protText: string): Written {
    var lines := Lines(protText);
    var data := TransformedData(translations, DataLines(lines));
    Written(HeaderLines(lines) + data.writes, data.failure)
  }

  lemma {:induction false} TransformedDataStops(translations: seq<string>, lines: seq<string>, i: nat)
    requires i <= |lines|
    requires TransformedData(translations, lines[..i]).failure.Some?
    ensures TransformedData(translations, lines) == TransformedData(translations, lines[..i])
    decreases |lines| - i
  {
    if i < |lines| {
      assert lines[..i + 1][..i] == lines[..i];
      TransformedDataStops(translations, lines, i + 1);
    } else {
      assert lines[..i] == lines;
    }
  }

  /** `file_transforme`: copy three header lines, then rewrite each data line in turn. */
  method FileTransform(translations: seq<string>, protText: string) returns (out: Written)
    ensures out == FileTransformOf(translations, protText)
  {
    var all := Lines(protText);
    var header := HeaderLines(all);
    var writes: seq<string> := [];
    for k := 0 to |header|
      invariant writes == header[..k]
    {
      writes := writes + [header[k]];
    }
    assert header[..|header|] == header;
    var data := RewriteDataLines(translations, DataLines(all));
    out := Written(writes + data.writes, data.failure);
  }

  /** The second loop of `file_transforme`: each data line rewritten in turn, up to the first failure. */
  method RewriteDataLines(translations: seq<string>, lines: seq<string>) returns (w: Written)
    ensures w == TransformedData(translations, lines)
  {
    var writes: seq<string> := [];
    for i := 0 to |lines|
      invariant TransformedData(translations, lines[..i]) == Written(writes, None)
    {
      assert lines[..i + 1][..i] == lines[..i];
      var l := TransformLine(translations, i, lines[i]);
      if l.Err? {
        TransformedDataStops(translations, lines, i + 1);
        return Written(writes, Some(l.error));
      }
      writes := writes + [l.value];
    }
    assert lines[..|lines|] == lines;
    w := Written(writes, None);
  }

  /**
    The rewritten data: on success one line per input data line, each the rewrite of
    that line; on failure the rewrites of the lines before the first failing line,
    and that line's error.
   */
  lemma {:induction false} TransformedDataMeaning(translations: seq<string>, lines: seq<string>)
    ensures var w := TransformedData(translations, lines);
            && (w.failure.None? <==> forall i | 0 <= i < |lines| :: TransformLine(translations, i, lines[i]).Ok?)
            && (w.failure.None? ==> |w.writes| == |lines|)
            && (w.failure.Some? ==> |w.writes| < |lines|
                                    && TransformLine(translations, |w.writes|, lines[|w.writes|]) == Err(w.failure.value))
            && (forall i | 0 <= i < |w.writes| :: TransformLine(translations, i, lines[i]) == Ok(w.writes[i]))
    decreases |lines|
  {
    if lines != [] {
      var init := lines[..|lines| - 1];
      TransformedDataMeaning(translations, init);
      assert forall i | 0 <= i < |init| :: init[i] == lines[i];
    }
  }

  /**
    A rewritten data line keeps every token of the input line except token 3, which
    becomes the translation.
   */
  lemma RewrittenTokens(translations: seq<string>, i: nat, line: string)
    requires !IsBlank(line) && i < |translations| && |Words(line)| >= 4
    requires IsToken(translations[i])
    ensures TransformLine(translations, i, line).Ok?
    ensures Words(TransformLine(translations, i, line).value) == Words(line)[3 := translations[i]]
  {
    var parts := Words(line)[3 := translations[i]];
    assert forall k | 0 <= k < |parts| :: IsToken(parts[k]);
    WordsOfJoin(parts, "\n");
  }

  /**
    file_transforme keeps the first three lines verbatim (a shorter file entirely)
    and, when no data line fails, writes exactly one line per input line.
   */
  lemma FileTransformShape(translations: seq<string>, protText: string)
    ensures var lines := Lines(protText);
            var out := FileTransformOf(translations, protText);
            && (|lines| <= HeaderLength ==> out == Written(lines, None))
            && (|lines| > HeaderLength ==> |out.writes| >= HeaderLength && out.writes[..HeaderLength] == lines[..HeaderLength])
            && (out.failure.None? ==> |out.writes| == |lines|)
  {
    var lines := Lines(protText);
    TransformedDataMeaning(translations, DataLines(lines));
    if |lines| <= HeaderLength {
      assert TransformedData(translations, []) == Written([], None);
      assert lines + [] == lines;
    }
  }

  /**
    With no blank data line and at least four tokens on each, the list of translations
    and the rewrite line up: data line i is rewritten with the translation of line i.
   */
  lemma AlignedRewrite(lib: Library, seqMap: SequenceMap, lines: seq<string>)
    requires forall k | 0 <= k < |lines| :: !IsBlank(lines[k]) && |Words(lines[k])| >= 4
    requires TranslationsOf(lib, seqMap, lines).Ok?
    ensures var ts := TranslationsOf(lib, seqMap, lines).value;
            var w := TransformedData(ts, lines);
            && |ts| == |lines| && w.failure.None? && |w.writes| == |lines|
            && forall i | 0 <= i < |lines| ::
                 && TranslateLine(lib, seqMap, lines[i]) == Ok(Some(ts[i]))
                 && w.writes[i] == Join(Words(lines[i])[3 := ts[i]], "\t") + "\n"
  {
    var ts := TranslationsOf(lib, seqMap, lines).value;
    TranslationsMeaning(lib, seqMap, lines);
    NonBlankOfNoBlank(lines);
    TransformedDataMeaning(ts, lines);
  }

  /**
    A blank data line shifts the index of every later line: with the one translation
    the one non-blank line receives, the rewrite of that line asks for translation 1.
   */
  lemma BlankLineShiftsIndex(translations: seq<string>, blank: string, line: string)
    requires IsBlank(blank) && !IsBlank(line) && |Words(line)| >= 4 && |translations| == 1
    ensures TransformedData(translations, [blank, line]) == Written([blank], Some(NoTranslation(1)))
  {
    assert [blank, line][..1] == [blank];
    assert [blank][..0] == [];
    assert TransformLine(translations, 0, blank) == Ok(blank);
    assert TransformedData(translations, [blank]) == Written([blank], None);
    assert TransformLine(translations, 1, line) == Err(NoTranslation(1));
  }
}
