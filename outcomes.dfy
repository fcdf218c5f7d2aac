/** Option and Result wrappers, and the Python exceptions the pipeline can raise. */
module Outcomes {

  datatype Option<+T> = None | Some(value: T)

  /** One exception of the original scripts, with the datum that triggered it. */
  datatype Error =
    // ValueError: a sequence line does not unpack into exactly two values
    | UnpackMismatch(line: string)
    // ValueError: int() of a token that is not an integer literal
    | InvalidLiteral(token: string)
    // IndexError: a list of tokens is too short for parts[-2] or parts[3]
    | MissingToken(line: string)
    // IndexError: atom_translet[i] with i past the end of the translation list
    | NoTranslation(index: nat)
    // KeyError: a sequence code absent from the sequence map
    | UnknownSequenceCode(code: int)
    // KeyError: a one-letter residue code absent from the conversion table
    | UnknownResidueLetter(letter: char)
    // KeyError: a column label absent from a table
    | MissingColumn(name: string)
    // ValueError: DataFrame.insert of a label that already exists
    | DuplicateColumn(name: string)
    // IndexError: DataFrame.insert at a position past the last column
    | InsertOutOfRange(loc: nat)
    // UnboundLocalError: the peak-count column is absent, so no filtered table exists
    | PeakCountColumnAbsent
    // UnboundLocalError: no header text is bound for a version other than 2 or 3
    | UnsupportedVersion(version: int)

  datatype Result<+T> = Ok(value: T) | Err(error: Error)
}
