/** The per-file conversion: validate, read, convert, write. Every fault on the way
    becomes a `false` result; a step runs only when every earlier step succeeded. */
module ConverterServices {
  import opened Faults
  import opened Dom
  import opened Model
  import opened FileHelpers
  import HbmToJpaConverter

  /** The step at which a conversion stopped; a failed write names the file it targeted
      and whether the old file there was deleted before the writer failed. */
  datatype Stage = Validating | Reading | Converting | Writing(target: string, deleted: bool)

  /** How one conversion ends: the model written to its target, or the step that failed
      and the fault it raised. */
  datatype Run = Converted(target: string, model: OrmModel) | Failed(stage: Stage, fault: Fault)

  /** The generated files after a run: a successful run adds or replaces its target; a
      failed write has removed its target only if the deletion went through; an earlier
      failure writes nothing. */
  function OutputsAfter(before: map<string, OrmModel>, run: Run): map<string, OrmModel> {
    match run
    case Converted(target, model) => before[target := model]
    case Failed(Writing(target, deleted), _) => if deleted then before - {target} else before
    case Failed(_, _) => before
  }

  class ConverterService {
    const fileHelper: FileHelper

    constructor (fileHelper: FileHelper)
      ensures this.fileHelper == fileHelper
    {
      this.fileHelper := fileHelper;
    }

    /** The steps of one conversion in order; the first failure decides the run. The
        converter gets exactly the parsed document, and the writer gets the caller's base
        name and destination and the converter's model. */
    function Conversion(hbmFile: HbmFile, filename: string, destDirectoryPath: string): Run {
      var validated := fileHelper.ValidateInputFile(hbmFile);
      if validated.Fail? then Failed(Validating, validated.fault)
      else
        var hbmDoc := fileHelper.ReadInputFile(hbmFile);
        if hbmDoc.Err? then Failed(Reading, hbmDoc.fault)
        else
          var t := HbmToJpaConverter.Convert(hbmDoc.value, fileHelper.GetTemplateLocation());
          if t.Err? then Failed(Converting, t.fault)
          else
            var target := fileHelper.Target(destDirectoryPath, filename);
            if target in fileHelper.unwritable then
              Failed(Writing(target, target !in fileHelper.undeletable),
                     FileConversion("Failed to write to file due to an exception"))
            else
              Converted(target, t.value)
    }

    /** `performConversion`: true exactly when all four steps complete; it never lets a
        fault escape, and only a run that reaches the write step touches the outputs. */
    method PerformConversion(hbmFile: HbmFile, filename: string, destDirectoryPath: string) returns (ok: bool)
      modifies fileHelper`outputs
      ensures ok <==> Conversion(hbmFile, filename, destDirectoryPath).Converted?
      ensures fileHelper.outputs == OutputsAfter(old(fileHelper.outputs), Conversion(hbmFile, filename, destDirectoryPath))
    {
      var validated := fileHelper.ValidateInputFile(hbmFile);
      if validated.Fail? {
        return false;
      }
      var hbmDoc := fileHelper.ReadInputFile(hbmFile);
      if hbmDoc.Err? {
        return false;
      }
      var t := HbmToJpaConverter.ConvertFile(hbmDoc.value, filename, destDirectoryPath, fileHelper.GetTemplateLocation());
      if t.Err? {
        return false;
      }
      var written := fileHelper.WriteFile(t.value, destDirectoryPath, filename);
      if written.Fail? {
        return false;
      }
      return true;
    }
  }

  /** A conversion succeeds exactly when the file passes validation and parses into a
      document with a root, the template is found and the target can be written; the
      file written then holds the converted document's model. */
  lemma ConversionSucceedsIff(service: ConverterService, hbmFile: HbmFile, filename: string, destDirectoryPath: string)
    ensures service.Conversion(hbmFile, filename, destDirectoryPath).Converted? <==>
      hbmFile.fileExists && hbmFile.isFile && hbmFile.canRead && hbmFile.canWrite &&
      hbmFile.parsed.Some? && hbmFile.parsed.value.root.Some? &&
      service.fileHelper.templateLocation.Some? &&
      service.fileHelper.Target(destDirectoryPath, filename) !in service.fileHelper.unwritable
    ensures service.Conversion(hbmFile, filename, destDirectoryPath).Converted? ==>
      service.Conversion(hbmFile, filename, destDirectoryPath) ==
        Converted(service.fileHelper.Target(destDirectoryPath, filename),
                  HbmToJpaConverter.Convert(hbmFile.parsed.value, Ok(service.fileHelper.templateLocation.value)).value)
  {
    if hbmFile.parsed.Some? {
      HbmToJpaConverter.ConvertShape(hbmFile.parsed.value, service.fileHelper.GetTemplateLocation());
    }
  }

  /** A run that stops before the write step leaves every generated file as it was. */
  lemma NoWriteAfterEarlierFailure(service: ConverterService, hbmFile: HbmFile, filename: string,
                                   destDirectoryPath: string, before: map<string, OrmModel>)
    requires service.Conversion(hbmFile, filename, destDirectoryPath).Failed?
    requires !service.Conversion(hbmFile, filename, destDirectoryPath).stage.Writing?
    ensures OutputsAfter(before, service.Conversion(hbmFile, filename, destDirectoryPath)) == before
  {
  }

  /** A run that fails at the write step leaves the target as the deletion left it:
      gone when it could be deleted, untouched when it could not. */
  lemma FailedWriteKeepsUndeletable(service: ConverterService, hbmFile: HbmFile, filename: string,
                                    destDirectoryPath: string, before: map<string, OrmModel>)
    requires service.Conversion(hbmFile, filename, destDirectoryPath).Failed?
    requires service.Conversion(hbmFile, filename, destDirectoryPath).stage.Writing?
    ensures service.Conversion(hbmFile, filename, destDirectoryPath).stage.target ==
      service.fileHelper.Target(destDirectoryPath, filename)
    ensures OutputsAfter(before, service.Conversion(hbmFile, filename, destDirectoryPath)) ==
      service.fileHelper.AfterDelete(before, service.fileHelper.Target(destDirectoryPath, filename))
  {
  }
}
