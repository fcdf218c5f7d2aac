/**
  Expansion of a one-letter protein sequence into three-letter residue codes,
  and the `<code>\t<number>` sequence listing written from it (fasta_to_seq.py).
 */
module FastaToSeq {
  import opened Outcomes
  import opened Text

  /** The one-letter to three-letter table of the twenty standard residues. */
  const OneToThree: map<char, string> := map[
    'A' := "Ala", 'R' := "Arg", 'N' := "Asn", 'D' := "Asp", 'C' := "Cys",
    'E' := "Glu", 'Q' := "Gln", 'G' := "Gly", 'H' := "His", 'I' := "Ile",
    'L' := "Leu", 'K' := "Lys", 'M' := "Met", 'F' := "Phe", 'P' := "Pro",
    'S' := "Ser", 'T' := "Thr", 'W' := "Trp", 'Y' := "Tyr", 'V' := "Val"
  ]

  /** The twenty upper-case one-letter codes of the standard residues. */
  const OneLetterCodes: set<char> := {'A', 'R', 'N', 'D', 'C', 'E', 'Q', 'G', 'H', 'I',
                                      'L', 'K', 'M', 'F', 'P', 'S', 'T', 'W', 'Y', 'V'}

  /** The table's keys are exactly the twenty upper-case one-letter codes. */
  lemma TableKeys()
    ensures OneToThree.Keys == OneLetterCodes
  {
  }

  /** No two keys share a three-letter code. */
  lemma TableIsInjective()
    ensures forall a, b | a in OneToThree && b in OneToThree && a != b :: OneToThree[a] != OneToThree[b]
  {
  }

  /**
    `[one_to_three[aa] for aa in seq]`: the code of every letter, in order; the
    first letter outside the table raises KeyError.
   */
  function ConvertSequence(s: string): (r: Result<seq<string>>)
    ensures r.Ok? <==> forall i | 0 <= i < |s| :: s[i] in OneToThree
    ensures r.Ok? ==> |r.value| == |s| && forall i | 0 <= i < |s| :: r.value[i] == OneToThree[s[i]]
    ensures r.Err? ==> exists i | 0 <= i < |s| :: r.error == UnknownResidueLetter(s[i]) && s[i] !in OneToThree
                                                  && forall j | 0 <= j < i :: s[j] in OneToThree
  {
    if s == [] then Ok([])
    else if s[0] !in OneToThree then Err(UnknownResidueLetter(s[0]))
    else
      match ConvertSequence(s[1..])
      case Err(e) => Err(e)
      case Ok(rest) => Ok([OneToThree[s[0]]] + rest)
  }

  /** One line of the sequence listing: the code, a tab, the residue number. */
  function SequenceLine(code: string, number: int): string {
    code + "\t" + IntToString(number) + "\n"
  }

  /**
    write_to_file: one write per residue, numbered consecutively from `start`;
    the listing is the concatenation of the returned writes.
   */
  method WriteToFile(codes: seq<string>, start: int) returns (writes: seq<string>)
    ensures |writes| == |codes|
    ensures forall i | 0 <= i < |codes| :: writes[i] == SequenceLine(codes[i], start + i)
  {
    writes := [];
    for i := 0 to |codes|
      invariant |writes| == i
      invariant forall k | 0 <= k < i :: writes[k] == SequenceLine(codes[k], start + k)
    {
      writes := writes + [SequenceLine(codes[i], start + i)];
    }
  }
}
