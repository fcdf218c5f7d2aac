/**
  How the stages fit together: the sequence listing written by fasta_to_seq.py is
  the listing monentlature.py loads, the three lines monentlature.py skips in
  name.prot are the header file_to_prot.py wrote, and the residue codes of the twenty standard
  residues meet the translator's whitelist.
 */
module Pipeline {
  import opened Outcomes
  import opened Text
  import FastaToSeq
  import Nomenclature
  import FileToProt
  import Frames

  /** A listing line is one complete line that the loader reads as its number and upper-cased code. */
  lemma ListingLineLoads(code: string, number: int)
    requires IsToken(code)
    ensures IsLine(FastaToSeq.SequenceLine(code, number))
    ensures Nomenclature.ParseSequenceLine(FastaToSeq.SequenceLine(code, number)) == Ok(Some((number, Upper(code))))
  {
    var digits := IntToString(number);
    IntToStringRoundTrip(number);
    var line := FastaToSeq.SequenceLine(code, number);
    assert line == Join([code, digits], "\t") + "\n";
    assert IsBlank("\n") by { assert IsSpace('\n'); }
    WordsOfJoin([code, digits], "\n");
    forall i | 0 <= i < |line| - 1 ensures line[i] != '\n' {
      if i < |code| {
        assert line[i] == code[i] && !IsSpace(code[i]);
      } else if i > |code| {
        assert line[i] == digits[i - |code| - 1] && !IsSpace(digits[i - |code| - 1]);
      }
    }
  }

  /** The writes of write_to_file for `codes`, numbered from `start`. */
  predicate IsListing(writes: seq<string>, codes: seq<string>, start: int) {
    |writes| == |codes| && forall i | 0 <= i < |codes| :: writes[i] == FastaToSeq.SequenceLine(codes[i], start + i)
  }

  /**
    Loading the lines of a listing succeeds, and maps exactly the numbers
    start .. start + |codes| - 1, number start + i to the upper-cased i-th code.
   */
  lemma {:induction false} ListingLoads(writes: seq<string>, codes: seq<string>, start: int)
    requires forall i | 0 <= i < |codes| :: IsToken(codes[i])
    requires IsListing(writes, codes, start)
    ensures Nomenclature.SequenceMapOf(writes).Ok?
    ensures var m := Nomenclature.SequenceMapOf(writes).value;
            && (forall n :: n in m <==> start <= n < start + |codes|)
            && forall i | 0 <= i < |codes| :: m[start + i] == Upper(codes[i])
    decreases |codes|
  {
    if codes != [] {
      var k := |codes| - 1;
      assert IsListing(writes[..k], codes[..k], start);
      ListingLoads(writes[..k], codes[..k], start);
      ListingLineLoads(codes[k], start + k);
      var m := Nomenclature.SequenceMapOf(writes[..k]).value;
      assert writes[..k] == writes[..|writes| - 1];
      assert Nomenclature.SequenceMapOf(writes) == Ok(m[start + k := Upper(codes[k])]);
      ListedMapGrows(m, codes, start);
    }
  }

  /** The map of the listing so far, plus the entry of the next line. */
  lemma ListedMapGrows(m: map<int, string>, codes: seq<string>, start: int)
    requires |codes| > 0
    requires var k := |codes| - 1;
             && (forall n :: n in m <==> start <= n < start + k)
             && forall i | 0 <= i < k :: m[start + i] == Upper(codes[..k][i])
    ensures var k := |codes| - 1;
            var m' := m[start + k := Upper(codes[k])];
            && (forall n :: n in m' <==> start <= n < start + |codes|)
            && forall i | 0 <= i < |codes| :: m'[start + i] == Upper(codes[i])
  {
    var k := |codes| - 1;
    forall i | 0 <= i < k ensures m[start + i] == Upper(codes[i]) {
      assert codes[..k][i] == codes[i];
    }
  }

  /**
    The round trip of the sequence listing: the file write_to_file produces, read
    back by the loader of the nomenclature step, gives the map
    start + i ↦ upper(codes[i]), and nothing else.
   */
  lemma ListingRoundTrip(codes: seq<string>, start: int, writes: seq<string>)
    requires forall i | 0 <= i < |codes| :: IsToken(codes[i])
    requires IsListing(writes, codes, start)
    ensures Nomenclature.SequenceMapOf(Lines(Concat(writes))).Ok?
    ensures var m := Nomenclature.SequenceMapOf(Lines(Concat(writes))).value;
            && (forall n :: n in m <==> start <= n < start + |codes|)
            && forall i | 0 <= i < |codes| :: m[start + i] == Upper(codes[i])
  {
    forall k | 0 <= k < |writes| ensures IsLine(writes[k]) {
      ListingLineLoads(codes[k], start + k);
    }
    CompleteLinesAreLines(writes);
    LinesOfConcat(writes);
    ListingLoads(writes, codes, start);
  }

  /** Every three-letter code of the table is a single word. */
  lemma CodesAreTokens()
    ensures forall c | c in FastaToSeq.OneToThree :: IsToken(FastaToSeq.OneToThree[c])
  {
    forall c | c in FastaToSeq.OneToThree ensures IsToken(FastaToSeq.OneToThree[c]) {
      var code := FastaToSeq.OneToThree[c];
      assert |code| == 3 && 'A' <= code[0] <= 'Z' && 'a' <= code[1] <= 'z' && 'a' <= code[2] <= 'z';
    }
  }

  /**
    A one-letter sequence that converts, written from `start` and read back, maps
    start + i to the upper-cased three-letter code of the i-th letter.
   */
  lemma SequenceRoundTrip(s: string, start: int, writes: seq<string>)
    requires FastaToSeq.ConvertSequence(s).Ok?
    requires IsListing(writes, FastaToSeq.ConvertSequence(s).value, start)
    ensures Nomenclature.SequenceMapOf(Lines(Concat(writes))).Ok?
    ensures var m := Nomenclature.SequenceMapOf(Lines(Concat(writes))).value;
            && (forall n :: n in m <==> start <= n < start + |s|)
            && forall i | 0 <= i < |s| :: m[start + i] == Upper(FastaToSeq.OneToThree[s[i]])
  {
    CodesAreTokens();
    ListingRoundTrip(FastaToSeq.ConvertSequence(s).value, start, writes);
  }

  /** The one-letter codes whose residues have their own nomenclature table. */
  const WhitelistLetters: set<char> := {'A', 'R', 'G', 'H', 'W', 'V', 'I', 'L'}

  lemma UpperOfCode(code: string)
    requires |code| == 3
    ensures Upper(code) == [UpperChar(code[0]), UpperChar(code[1]), UpperChar(code[2])]
  {
  }

  /** A residue from the listing gets its own nomenclature table exactly when its letter is one of the eight. */
  lemma WhitelistedLetters()
    ensures WhitelistLetters <= FastaToSeq.OneToThree.Keys
    ensures forall c | c in FastaToSeq.OneToThree ::
              Upper(FastaToSeq.OneToThree[c]) in Nomenclature.Whitelist <==> c in WhitelistLetters
  {
    forall c | c in FastaToSeq.OneToThree
      ensures Upper(FastaToSeq.OneToThree[c]) in Nomenclature.Whitelist <==> c in WhitelistLetters
    {
      UpperOfCode(FastaToSeq.OneToThree[c]);
    }
  }

  /** The upper-cased codes of the eight letters, one by one. */
  lemma UpperCodesOfWhitelistLetters()
    ensures Upper(FastaToSeq.OneToThree['A']) == "ALA" && Upper(FastaToSeq.OneToThree['R']) == "ARG"
    ensures Upper(FastaToSeq.OneToThree['G']) == "GLY" && Upper(FastaToSeq.OneToThree['H']) == "HIS"
    ensures Upper(FastaToSeq.OneToThree['W']) == "TRP" && Upper(FastaToSeq.OneToThree['V']) == "VAL"
    ensures Upper(FastaToSeq.OneToThree['I']) == "ILE" && Upper(FastaToSeq.OneToThree['L']) == "LEU"
  {
    UpperOfCode("Ala");
    UpperOfCode("Arg");
    UpperOfCode("Gly");
    UpperOfCode("His");
    UpperOfCode("Trp");
    UpperOfCode("Val");
    UpperOfCode("Ile");
    UpperOfCode("Leu");
  }

  /** The translator's whitelist is exactly the upper-cased codes of A, R, G, H, W, V, I and L. */
  lemma WhitelistIsUpperCodes()
    ensures WhitelistLetters <= FastaToSeq.OneToThree.Keys
    ensures Nomenclature.Whitelist == set c | c in WhitelistLetters :: Upper(FastaToSeq.OneToThree[c])
  {
    WhitelistedLetters();
    UpperCodesOfWhitelistLetters();
    var codes := set c | c in WhitelistLetters :: Upper(FastaToSeq.OneToThree[c]);
    assert "ALA" in codes && "ARG" in codes && "GLY" in codes && "HIS" in codes;
    assert "TRP" in codes && "VAL" in codes && "ILE" in codes && "LEU" in codes;
  }

  /**
    The three lines the translator skips in name.prot are exactly the header record
    file_to_prot.py wrote, so the lines it translates are the records of the rows.
   */
  lemma NameProtHeaderSkipped(data: Frames.Frame, proline: map<string, Frames.Cell>)
    requires Frames.Rectangular(data) && FileToProt.ProcessProteinData(data, proline).Ok?
    ensures var lines := Lines(FileToProt.NameProtText(data, proline).value);
            && Nomenclature.HeaderLines(lines) == FileToProt.ProtHeaderLines
            && Nomenclature.DataLines(lines)
               == Lines(Concat(Frames.RowTexts(FileToProt.ProcessProteinData(data, proline).value.rows)))
  {
    var lines := Lines(FileToProt.NameProtText(data, proline).value);
    FileToProt.NameProtLines(data, proline);
    HeaderThenData(lines);
  }

  lemma HeaderThenData(lines: seq<string>)
    requires |lines| >= Nomenclature.HeaderLength
    ensures Nomenclature.HeaderLines(lines) == lines[..Nomenclature.HeaderLength]
    ensures Nomenclature.DataLines(lines) == lines[Nomenclature.HeaderLength..]
  {
  }
}
