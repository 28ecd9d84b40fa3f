/** The command-line arguments: source path, file suffix, destination path, and an
    optional converter type. The file system is consulted only for whether a path is a
    regular file, a directory, or neither; it is given as a map. */
module ArgsParser {
  import opened Faults
  import opened Model

  /** What `java.io.File` reports for a path: a regular file, a directory, or neither
      (missing, or something else). */
  datatype PathKind = RegularFile | Directory | Missing

  function KindOf(kinds: map<string, PathKind>, path: string): PathKind {
    if path in kinds then kinds[path] else Missing
  }

  const MandatoryArgsMessage := "Source path, extension and Destination path arguments are required."
  const InvalidLocationMessage := "Arguments are invalid."

  /** `validateMandatoryArgs`: at least three arguments, the first three non-empty. */
  function ValidateMandatoryArgs(args: seq<string>): (r: Outcome)
    ensures r.Pass? <==> |args| >= 3 && args[0] != "" && args[1] != "" && args[2] != ""
    ensures r.Fail? ==> r.fault == IllegalArgument(MandatoryArgsMessage)
  {
    if |args| < 3 || args[0] == "" || args[1] == "" || args[2] == "" then
      Fail(IllegalArgument(MandatoryArgsMessage))
    else
      Pass
  }

  /** `validateFileLocation`: a file may be converted into a file or into a directory, a
      directory only into a directory; every other combination is refused. */
  function ValidateFileLocation(args: seq<string>, kinds: map<string, PathKind>): (r: Outcome)
    requires |args| >= 3
    ensures r.Pass? <==>
      (KindOf(kinds, args[0]) == RegularFile && KindOf(kinds, args[2]) in {RegularFile, Directory}) ||
      (KindOf(kinds, args[0]) == Directory && KindOf(kinds, args[2]) == Directory)
    ensures r.Fail? ==> r.fault == IllegalArgument(InvalidLocationMessage)
  {
    var src := KindOf(kinds, args[0]);
    var dest := KindOf(kinds, args[2]);
    if !((src == RegularFile && dest == RegularFile) || (src == Directory && dest == Directory) ||
         (src == RegularFile && dest == Directory)) then
      Fail(IllegalArgument(InvalidLocationMessage))
    else
      Pass
  }

  /** `getConverterType`: with exactly four arguments it reads the fifth, which does not
      exist, so it faults; with any other count it is the only converter type. */
  function GetConverterType(args: seq<string>): (r: Result<ConverterType>)
    ensures r.Err? <==> |args| == 4
    ensures r.Err? ==> r.fault == ArrayIndexOutOfBounds(4)
    ensures r.Ok? ==> r.value == HBMToORM
  {
    if |args| == 4 then Err(ArrayIndexOutOfBounds(4)) else Ok(HBMToORM)
  }

  /** `parseInputArgs`: the two validations and the converter type in order; the first
      failure is the result. */
  function ParseInputArgs(args: seq<string>, kinds: map<string, PathKind>): Result<InputModel> {
    var mandatory := ValidateMandatoryArgs(args);
    if mandatory.Fail? then Err(mandatory.fault)
    else
      var location := ValidateFileLocation(args, kinds);
      if location.Fail? then Err(location.fault)
      else
        match GetConverterType(args)
        case Err(f) => Err(f)
        case Ok(converterType) => Ok(InputModel(args[0], args[1], args[2], converterType))
  }

  /** Parsing succeeds exactly for three (or five or more) arguments, the first three
      non-empty, whose source and destination kinds fit together; the model then holds
      the first three arguments in order. */
  lemma ParseInputArgsOkIff(args: seq<string>, kinds: map<string, PathKind>)
    ensures ParseInputArgs(args, kinds).Ok? <==>
      |args| >= 3 && |args| != 4 && args[0] != "" && args[1] != "" && args[2] != "" &&
      ((KindOf(kinds, args[0]) == RegularFile && KindOf(kinds, args[2]) in {RegularFile, Directory}) ||
       (KindOf(kinds, args[0]) == Directory && KindOf(kinds, args[2]) == Directory))
    ensures ParseInputArgs(args, kinds).Ok? ==>
      ParseInputArgs(args, kinds).value == InputModel(args[0], args[1], args[2], HBMToORM)
  {
  }

  /** The faults of a failed parse, in the order the checks run: missing arguments
      first, then the location check, then the converter type. */
  lemma ParseInputArgsFaults(args: seq<string>, kinds: map<string, PathKind>)
    ensures ValidateMandatoryArgs(args).Fail? ==>
      ParseInputArgs(args, kinds) == Err(IllegalArgument(MandatoryArgsMessage))
    ensures ValidateMandatoryArgs(args).Pass? && ValidateFileLocation(args, kinds).Fail? ==>
      ParseInputArgs(args, kinds) == Err(IllegalArgument(InvalidLocationMessage))
    ensures ValidateMandatoryArgs(args).Pass? && ValidateFileLocation(args, kinds).Pass? && |args| == 4 ==>
      ParseInputArgs(args, kinds) == Err(ArrayIndexOutOfBounds(4))
  {
  }
}
