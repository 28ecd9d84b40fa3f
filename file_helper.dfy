/** The file helper: which source files to convert, whether a source file may be
    converted, where the generated file goes, and writing it. The file system it probes
    is given as fields: the directories and their entries, the paths a writer cannot be
    opened on, where the template resource lies, and the files written so far. */
module FileHelpers {
  import opened Faults
  import opened JavaStrings
  import opened Dom
  import opened Model
  import Constants

  /** A source file as `java.io.File` reports it, and the document parsing it yields
      (`None` when it cannot be opened or is not well-formed markup). Its name is
      `NameOf(path)`. */
  datatype HbmFile = HbmFile(
    path: string,
    fileExists: bool,
    isFile: bool,
    canRead: bool,
    canWrite: bool,
    parsed: Option<Document>)

  /** The part of `path` from `start` on is either the whole path or follows a '/'. */
  predicate SlashBefore(path: string, start: nat) {
    start == 0 || (start <= |path| && path[start - 1] == '/')
  }

  /** `File.getName()`: the part of the path after its last '/'. */
  function NameOf(path: string): (name: string)
    ensures '/' !in name
    ensures EndsWith(path, name)
    ensures SlashBefore(path, |path| - |name|)
  {
    if path == [] || path[|path| - 1] == '/' then []
    else NameOf(path[..|path| - 1]) + [path[|path| - 1]]
  }

  /** The entries whose name ends with `suffix`, case-sensitively, in listing order. */
  function MatchingEntries(entries: seq<string>, suffix: string): (r: seq<string>)
    ensures |r| <= |entries|
    ensures forall f :: f in r <==> f in entries && EndsWith(NameOf(f), suffix)
  {
    if entries == [] then []
    else if EndsWith(NameOf(entries[0]), suffix) then [entries[0]] + MatchingEntries(entries[1..], suffix)
    else MatchingEntries(entries[1..], suffix)
  }

  /** Where a generated file goes: inside a destination directory, the directory path,
      the base name and ".xml" joined with no separator added; otherwise the destination
      path itself. */
  function OutputPath(destDirectoryPath: string, fileName: string, destIsDirectory: bool): (p: string)
    ensures destIsDirectory ==>
      (|p| == |destDirectoryPath| + |fileName| + 4 &&
       p[..|destDirectoryPath|] == destDirectoryPath &&
       p[|destDirectoryPath|..|destDirectoryPath| + |fileName|] == fileName && EndsWith(p, ".xml"))
    ensures !destIsDirectory ==> p == destDirectoryPath
  {
    if destIsDirectory then destDirectoryPath + fileName + Constants.FileEndsWithOrmExt else destDirectoryPath
  }

  class FileHelper {
    /** Each directory's path and the paths of its entries, in listing order. */
    const directories: map<string, seq<string>>
    /** Where the template resource was found, `None` when it is missing. */
    const templateLocation: Option<string>
    /** Paths on which a writer cannot be opened. */
    const unwritable: set<string>
    /** Paths whose existing file cannot be deleted. */
    const undeletable: set<string>
    /** Generated files written so far, each holding the model bound to its template. */
    var outputs: map<string, OrmModel>

    constructor (directories: map<string, seq<string>>, templateLocation: Option<string>, unwritable: set<string>,
                 undeletable: set<string>, outputs: map<string, OrmModel>)
      ensures this.directories == directories && this.templateLocation == templateLocation
      ensures this.unwritable == unwritable && this.undeletable == undeletable && this.outputs == outputs
    {
      this.directories := directories;
      this.templateLocation := templateLocation;
      this.unwritable := unwritable;
      this.undeletable := undeletable;
      this.outputs := outputs;
    }

    /** `getFiles`: a directory yields its entries whose name ends with the suffix
        (case-sensitive); any other path yields itself when its name ends with the suffix
        ignoring case, and an error otherwise. */
    function GetFiles(directoryPath: string, fileEndsWith: string): (r: Result<seq<string>>)
      ensures directoryPath in directories ==>
        (r.Ok? && forall f :: f in r.value <==> f in directories[directoryPath] && EndsWith(NameOf(f), fileEndsWith))
      ensures directoryPath in directories ==> |r.value| <= |directories[directoryPath]|
      ensures directoryPath !in directories ==>
        (r.Ok? <==> EndsWith(Lower(NameOf(directoryPath)), Lower(fileEndsWith))) &&
        (r.Ok? ==> r.value == [directoryPath]) &&
        (r.Err? ==> r.fault == FileConversion("destination file and file ends ext should match"))
    {
      if directoryPath in directories then
        Ok(MatchingEntries(directories[directoryPath], fileEndsWith))
      else if EndsWith(Lower(NameOf(directoryPath)), Lower(fileEndsWith)) then
        Ok([directoryPath])
      else
        Err(FileConversion("destination file and file ends ext should match"))
    }

    /** `validateInputFile`: the file must exist, be a regular file, and be readable and
        writable. */
    function ValidateInputFile(file: HbmFile): (r: Outcome)
      ensures r.Pass? <==> file.fileExists && file.isFile && file.canRead && file.canWrite
      ensures r.Fail? ==> r.fault == FileConversion("Ensure File Existence and Permissions")
    {
      if !file.fileExists || !file.isFile || !file.canRead || !file.canWrite then
        Fail(FileConversion("Ensure File Existence and Permissions"))
      else
        Pass
    }

    /** `readInputFile`: the parsed document, or the wrapped read failure. */
    function ReadInputFile(file: HbmFile): (r: Result<Document>)
      ensures r.Ok? <==> file.parsed.Some?
      ensures r.Ok? ==> r.value == file.parsed.value
      ensures r.Err? ==> r.fault == FileConversion("ReadInputFile Status=Failed")
    {
      match file.parsed
      case None => Err(FileConversion("ReadInputFile Status=Failed"))
      case Some(d) => Ok(d)
    }

    /** `getTemplateLocation`: the resource path, or an error when it is missing. */
    function GetTemplateLocation(): (r: Result<string>)
      ensures r.Ok? <==> templateLocation.Some?
      ensures r.Ok? ==> r.value == templateLocation.value
      ensures r.Err? ==> r.fault == IllegalState("Unable to locate resource path: templates")
    {
      match templateLocation
      case None => Err(IllegalState("Unable to locate resource path: templates"))
      case Some(p) => Ok(p)
    }

    /** The file `writeFile` targets for a destination and base name. */
    function Target(destDirectoryPath: string, fileName: string): string {
      OutputPath(destDirectoryPath, fileName, destDirectoryPath in directories)
    }

    /** The generated files once `writeFile` has tried to delete the target: the
        outcome of the deletion is not checked, so an undeletable file simply stays. */
    function AfterDelete(before: map<string, OrmModel>, target: string): (after: map<string, OrmModel>)
      ensures target in undeletable ==> after == before
      ensures target !in undeletable ==> target !in after && forall p :: p != target ==> (p in after <==> p in before)
      ensures forall p :: p in after ==> p in before && after[p] == before[p]
    {
      if target in undeletable then before else before - {target}
    }

    /** `writeFile`: tries to delete any file at the target, ignoring whether that
        worked, then writes the template there. When the writer cannot be opened the
        failure surfaces as a file-conversion error and the target is as the deletion
        left it; on success the target holds exactly the template. */
    method WriteFile(t: OrmModel, destDirectoryPath: string, fileName: string) returns (r: Outcome)
      modifies this`outputs
      ensures r.Pass? <==> Target(destDirectoryPath, fileName) !in unwritable
      ensures r.Pass? ==> outputs == old(outputs)[Target(destDirectoryPath, fileName) := t]
      ensures r.Fail? ==> outputs == AfterDelete(old(outputs), Target(destDirectoryPath, fileName))
      ensures r.Fail? ==> r.fault == FileConversion("Failed to write to file due to an exception")
    {
      var hbmFullFileName;
      if destDirectoryPath in directories {
        hbmFullFileName := destDirectoryPath + fileName + Constants.FileEndsWithOrmExt;
      } else {
        hbmFullFileName := destDirectoryPath;
      }
      // deleting the existing file, if any; a failed deletion goes unnoticed
      if hbmFullFileName !in undeletable {
        outputs := outputs - {hbmFullFileName};
      }
      if hbmFullFileName in unwritable {
        return Fail(FileConversion("Failed to write to file due to an exception"));
      }
      outputs := outputs[hbmFullFileName := t];
      return Pass;
    }
  }
}
