/** `createScidFromPgn`: converting the downloaded PGN file into a Scid
    database. The file system is reduced to the set of paths that exist; the
    converter run and the file removal become the decision returned. */
module ScidGuard {
  import opened PyText

  /** The three files of a Scid database share its base name. */
  const IndexExtension: string := ".si4"
  const GameExtension: string := ".sg4"
  const NameExtension: string := ".sn4"

  const ConvertTemplate: string := "pgnscid -f \"{}\" \"{}\""
  const ConvertPrefix: string := "pgnscid -f \""
  const ConvertMiddle: string := "\" \""
  const ConvertSuffix: string := "\""

  /** What the function goes on to do. */
  datatype Conversion =
    | AlreadyExists                                      // warn and `sys.exit(1)`
    | Convert(command: string, removed: Option<string>)  // `os.system(command)`, then maybe `os.remove`

  /** Whether some file of the database `scidName` is among `existing`. */
  predicate BaseExists(scidName: string, existing: set<string>)
  {
    scidName + IndexExtension in existing
    || scidName + GameExtension in existing
    || scidName + NameExtension in existing
  }

  /** The shell command run for the conversion. */
  function ConvertCommand(pgnName: string, scidName: string): (command: string)
    ensures command == ConvertPrefix + pgnName + ConvertMiddle + scidName + ConvertSuffix
  {
    FormatTwoFields(ConvertTemplate, ConvertPrefix, ConvertMiddle, ConvertSuffix, pgnName, scidName);
    Format(ConvertTemplate, [pgnName, scidName]).value
  }

  /** `createScidFromPgn(pgn_name, scid_name, is_save_pgn=False)`. */
  function CreateScidFromPgn(pgnName: string, scidName: string, isSavePgn: bool, existing: set<string>): (c: Conversion)
    ensures c.AlreadyExists? <==> BaseExists(scidName, existing)
    ensures c.Convert? ==> c.command == ConvertPrefix + pgnName + ConvertMiddle + scidName + ConvertSuffix
    ensures c.Convert? ==> (c.removed.Some? <==> !isSavePgn)
    ensures c.Convert? && c.removed.Some? ==> c.removed.value == pgnName
  {
    if BaseExists(scidName, existing) then AlreadyExists
    else Convert(ConvertCommand(pgnName, scidName), if isSavePgn then None else Some(pgnName))
  }

  /** The guard looks at nothing but the three database paths: two file systems
      that agree on them lead to the same decision. */
  lemma GuardSeesOnlyBasePaths(pgnName: string, scidName: string, isSavePgn: bool, e1: set<string>, e2: set<string>)
    requires scidName + IndexExtension in e1 <==> scidName + IndexExtension in e2
    requires scidName + GameExtension in e1 <==> scidName + GameExtension in e2
    requires scidName + NameExtension in e1 <==> scidName + NameExtension in e2
    ensures CreateScidFromPgn(pgnName, scidName, isSavePgn, e1) == CreateScidFromPgn(pgnName, scidName, isSavePgn, e2)
  {
  }

  /** More files on disk can only turn a conversion into a refusal. */
  lemma GuardMonotone(pgnName: string, scidName: string, isSavePgn: bool, e1: set<string>, e2: set<string>)
    requires e1 <= e2
    ensures CreateScidFromPgn(pgnName, scidName, isSavePgn, e1).AlreadyExists?
            ==> CreateScidFromPgn(pgnName, scidName, isSavePgn, e2).AlreadyExists?
  {
  }

  /** With `out.si4` on disk, converting into `out` stops before the converter
      runs and leaves the PGN file in place, whatever else exists. */
  lemma ExistingIndexStopsConversion(pgnName: string, existing: set<string>)
    requires "out.si4" in existing
    ensures CreateScidFromPgn(pgnName, "out", false, existing) == AlreadyExists
  {
    assert "out" + IndexExtension == "out.si4";
  }
}
