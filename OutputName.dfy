/** The name given to the exported file in `--type pgn` mode: the output name
    from the command line, with `.pgn` added unless its last dot-separated
    component already reads `pgn` in any case. */
module OutputName {
  import opened PyText

  const PgnExtension: string := ".pgn"

  /** Whether the name already ends in `.pgn`, ignoring case. */
  predicate HasPgnExtension(name: string)
  {
    var l := Lower(name);
    |l| >= |PgnExtension| && l[|l| - |PgnExtension|..] == PgnExtension
  }

  /** The rule as written: `if output.lower().split('.')[-1] != 'pgn':
      output += '.pgn'`. */
  function PgnOutputName(output: string): (r: string)
    ensures r == output || r == output + PgnExtension
    ensures LastPiece(Lower(r), '.') == "pgn"
  {
    if LastPiece(Lower(output), '.') != "pgn" then
      LastPieceOfExtended(output);
      output + PgnExtension
    else output
  }

  /** After `.pgn` is appended, the last component of the lowered name is `pgn`. */
  lemma LastPieceOfExtended(output: string)
    ensures Lower(output + PgnExtension) == Lower(output) + PgnExtension
    ensures LastPiece(Lower(output + PgnExtension), '.') == "pgn"
    ensures HasPgnExtension(output + PgnExtension)
  {
    LowerConcat(output, PgnExtension);
    assert Lower(PgnExtension) == PgnExtension;
    assert Lower(output) + PgnExtension == Lower(output) + ['.'] + "pgn";
    LastPieceAfterSeparator(Lower(output), "pgn", '.');
  }

  /** The last dot-separated component of `l` is `pgn` exactly when `l` is `pgn`
      itself or ends in `.pgn`. */
  lemma LastPieceIsPgn(l: string)
    ensures LastPiece(l, '.') == "pgn" <==> l == "pgn" || (|l| >= 4 && l[|l| - 4..] == PgnExtension)
  {
    if l == "pgn" {
      SplitNoSeparator(l, '.');
    } else if |l| >= 4 && l[|l| - 4..] == PgnExtension {
      assert l == l[..|l| - 4] + ['.'] + "pgn";
      LastPieceAfterSeparator(l[..|l| - 4], "pgn", '.');
    } else {
      LastPieceShape(l, '.');
    }
  }

  /** The name is kept as given exactly when, lower-cased, it is `pgn` or ends in
      `.pgn`; otherwise `.pgn` is appended. */
  lemma PgnOutputNameKeeps(output: string)
    ensures PgnOutputName(output) == output <==> Lower(output) == "pgn" || HasPgnExtension(output)
    ensures PgnOutputName(output) != output ==> PgnOutputName(output) == output + PgnExtension
  {
    LastPieceIsPgn(Lower(output));
  }

  /** Applying the rule a second time changes nothing. */
  lemma PgnOutputNameIdempotent(output: string)
    ensures PgnOutputName(PgnOutputName(output)) == PgnOutputName(output)
  {
  }

  /** `FOO.PGN` already has the extension and is left as it is. */
  lemma UpperCaseExtensionKept()
    ensures PgnOutputName("FOO.PGN") == "FOO.PGN"
  {
    var l := Lower("FOO.PGN");
    assert l[3..] == PgnExtension;
    PgnOutputNameKeeps("FOO.PGN");
  }

  /** `foo` becomes `foo.pgn`. */
  lemma MissingExtensionAdded()
    ensures PgnOutputName("foo") == "foo.pgn"
  {
    SplitNoSeparator(Lower("foo"), '.');
  }

  /** A name that is just `pgn`, in any case, passes the check as written, so the
      file is saved under a name without the `.pgn` extension. */
  lemma BareNameKeepsNoExtension()
    ensures PgnOutputName("pgn") == "pgn"
    ensures PgnOutputName("PGN") == "PGN"
    ensures !HasPgnExtension(PgnOutputName("pgn"))
  {
    SplitNoSeparator("pgn", '.');
    assert Lower("PGN") == "pgn";
  }

  /** The rule as evidently intended: append `.pgn` unless the name already ends
      in `.pgn`, ignoring case. */
  function CorrectedPgnOutputName(output: string): (r: string)
    ensures r == output || r == output + PgnExtension
    ensures HasPgnExtension(r)
    ensures r == output <==> HasPgnExtension(output)
  {
    if HasPgnExtension(output) then output
    else
      LastPieceOfExtended(output);
      output + PgnExtension
  }

  /** The corrected rule is idempotent too. */
  lemma CorrectedPgnOutputNameIdempotent(output: string)
    ensures CorrectedPgnOutputName(CorrectedPgnOutputName(output)) == CorrectedPgnOutputName(output)
  {
  }

  /** The two rules disagree on exactly one lower-cased name: `pgn`. */
  lemma RulesAgreeExceptBareName(output: string)
    ensures PgnOutputName(output) == CorrectedPgnOutputName(output) <==> Lower(output) != "pgn"
  {
    PgnOutputNameKeeps(output);
    if Lower(output) == "pgn" {
      assert !HasPgnExtension(output);
    }
  }
}
