/** The last step of the program: the downloaded PGN file, kept under a
    temporary name, is moved to the output name in `pgn` mode or converted into
    a Scid database in `scid` mode. */
module ExportTarget {
  import opened OutputName
  import opened ScidGuard
  import opened PyText

  /** What happens to the temporary PGN file. */
  datatype Finish =
    | MovedTo(dest: string)          // `shutil.move(temp_pgn_filename, output)`
    | ScidBase(conversion: Conversion)
    | WrongType                      // logged and `sys.exit(1)`

  /** The `if args.type == ...` dispatch; `--type` takes only `pgn` and `scid`,
      so the last branch is reached only past the argument parser. */
  function FinishExport(outputType: string, tempPgn: string, output: string, existing: set<string>): (f: Finish)
    ensures outputType == "pgn" ==> f.MovedTo? && f.dest == PgnOutputName(output)
    ensures outputType == "scid" ==> f == ScidBase(CreateScidFromPgn(tempPgn, output, false, existing))
    ensures outputType != "pgn" && outputType != "scid" ==> f == WrongType
  {
    if outputType == "pgn" then MovedTo(PgnOutputName(output))
    else if outputType == "scid" then ScidBase(CreateScidFromPgn(tempPgn, output, false, existing))
    else WrongType
  }

  /** In `pgn` mode the file is moved to the output name itself when, lower-cased,
      that name is `pgn` or ends in `.pgn`, and to the name plus `.pgn` otherwise. */
  lemma PgnModeDestination(tempPgn: string, output: string, existing: set<string>)
    ensures Lower(output) == "pgn" || HasPgnExtension(output) ==>
            FinishExport("pgn", tempPgn, output, existing) == MovedTo(output)
    ensures Lower(output) != "pgn" && !HasPgnExtension(output) ==>
            FinishExport("pgn", tempPgn, output, existing) == MovedTo(output + PgnExtension)
  {
    PgnOutputNameKeeps(output);
  }

  /** `foo` is saved as `foo.pgn`. */
  lemma PgnModeFoo(tempPgn: string, existing: set<string>)
    ensures FinishExport("pgn", tempPgn, "foo", existing) == MovedTo("foo.pgn")
  {
    MissingExtensionAdded();
  }
}
