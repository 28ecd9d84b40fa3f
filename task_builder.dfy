/** Turns the discovered source files into one deferred conversion per file, all bound to
    the one conversion service made for the requested converter type. */
module ConversionTaskBuilder {
  import opened Faults
  import opened JavaStrings
  import opened Model
  import opened FileHelpers
  import opened ConverterServices

  /** A deferred conversion: what its closure captures. */
  datatype ConversionTask = ConversionTask(service: ConverterService, file: HbmFile, fileName: string, destDirectoryPath: string)

  /** `name.split("\\.")[0]`: the text before the first '.', the whole name when it has
      none; a non-empty name made only of dots splits into nothing, and indexing it
      faults. */
  function BaseName(name: string): (r: Result<string>)
    ensures r.Err? <==> |name| > 0 && AllDots(name)
    ensures r.Err? ==> r.fault == ArrayIndexOutOfBounds(0)
    ensures r.Ok? ==> r.value == PrefixBeforeDot(name)
  {
    SplitOnDotFirst(name);
    var parts := SplitOnDot(name);
    if |parts| == 0 then Err(ArrayIndexOutOfBounds(0)) else Ok(parts[0])
  }

  /** The file name of the repository's own sample maps to "Paycheck". */
  lemma BaseNameOfSample()
    ensures BaseName("Paycheck.query.hbm.xml") == Ok("Paycheck")
  {
    var p := "Paycheck.query.hbm.xml";
    assert p == "Paycheck" + p[8..];
    assert p[8..][0] == '.';
    PrefixStops("Paycheck", p[8..]);
    assert p[0] != '.';
  }

  /** Edge cases of the base-name rule: no dot, a leading dot, the empty name, and a
      name made only of dots. */
  lemma BaseNameEdgeCases()
    ensures BaseName("Paycheck") == Ok("Paycheck")
    ensures BaseName(".hbm") == Ok("")
    ensures BaseName("") == Ok("")
    ensures BaseName("..") == Err(ArrayIndexOutOfBounds(0))
  {
    NoDotPrefix("Paycheck");
    assert "Paycheck"[0] != '.';
    assert ".hbm"[1] != '.';
    assert AllDots("..");
  }

  /** The text before the first dot of `w + rest` is `w` when `w` has no dot and `rest`
      starts with one. */
  lemma {:induction false} PrefixStops(w: string, rest: string)
    requires '.' !in w && rest != [] && rest[0] == '.'
    ensures PrefixBeforeDot(w + rest) == w
  {
    if w == [] {
      assert w + rest == rest;
    } else {
      assert (w + rest)[0] == w[0];
      assert (w + rest)[1..] == w[1..] + rest;
      assert '.' !in w[1..] by { assert forall i :: 0 <= i < |w[1..]| ==> w[1..][i] == w[i + 1]; }
      PrefixStops(w[1..], rest);
      assert w == [w[0]] + w[1..];
    }
  }

  /** `buildTask`: binds the file, its base name, the destination and the service. */
  function BuildTask(file: HbmFile, destDirectoryPath: string, service: ConverterService): (r: Result<ConversionTask>)
    ensures r.Err? <==> |NameOf(file.path)| > 0 && AllDots(NameOf(file.path))
    ensures r.Err? ==> r.fault == ArrayIndexOutOfBounds(0)
    ensures r.Ok? ==> r.value == ConversionTask(service, file, PrefixBeforeDot(NameOf(file.path)), destDirectoryPath)
  {
    match BaseName(NameOf(file.path))
    case Ok(fileName) => Ok(ConversionTask(service, file, fileName, destDirectoryPath))
    case Err(f) => Err(f)
  }

  /** Tasks that each file's `buildTask` yields are the specified tasks, and then no
      file's base name faults. */
  lemma BuiltTasks(files: seq<HbmFile>, destDirectoryPath: string, service: ConverterService, tasks: seq<ConversionTask>)
    requires |tasks| == |files|
    requires forall i :: 0 <= i < |files| ==> BuildTask(files[i], destDirectoryPath, service) == Ok(tasks[i])
    ensures !exists i :: 0 <= i < |files| && |NameOf(files[i].path)| > 0 && AllDots(NameOf(files[i].path))
    ensures forall i :: 0 <= i < |files| ==>
      tasks[i] == ConversionTask(service, files[i], PrefixBeforeDot(NameOf(files[i].path)), destDirectoryPath)
  {
    forall i | 0 <= i < |files|
      ensures !(|NameOf(files[i].path)| > 0 && AllDots(NameOf(files[i].path)))
      ensures tasks[i] == ConversionTask(service, files[i], PrefixBeforeDot(NameOf(files[i].path)), destDirectoryPath)
    {
      assert BuildTask(files[i], destDirectoryPath, service).Ok?;
    }
  }

  /** The loop of `buildTasks`: one task per file, in order, each bound to `service`;
      the first file whose base name cannot be taken aborts the loop with its fault. */
  method BuildTasksWith(files: seq<HbmFile>, destDirectoryPath: string, service: ConverterService)
    returns (r: Result<seq<ConversionTask>>)
    ensures r.Err? <==> exists i :: 0 <= i < |files| && |NameOf(files[i].path)| > 0 && AllDots(NameOf(files[i].path))
    ensures r.Err? ==> r.fault == ArrayIndexOutOfBounds(0)
    ensures r.Ok? ==> |r.value| == |files|
    ensures r.Ok? ==> forall i :: 0 <= i < |files| ==>
      r.value[i] == ConversionTask(service, files[i], PrefixBeforeDot(NameOf(files[i].path)), destDirectoryPath)
  {
    var tasks: seq<ConversionTask> := [];
    for k := 0 to |files|
      invariant |tasks| == k
      invariant forall i :: 0 <= i < k ==> BuildTask(files[i], destDirectoryPath, service) == Ok(tasks[i])
    {
      var task := BuildTask(files[k], destDirectoryPath, service);
      if task.Err? {
        return Err(task.fault);
      }
      tasks := tasks + [task.value];
    }
    BuiltTasks(files, destDirectoryPath, service, tasks);
    return Ok(tasks);
  }

  /** `buildTasks`: one task per file, in order, all sharing one new service over the
      given file helper; a file whose base name cannot be taken aborts the whole call. */
  method BuildTasks(files: seq<HbmFile>, destDirectoryPath: string, converterType: ConverterType, fileHelper: FileHelper)
    returns (r: Result<seq<ConversionTask>>)
    ensures r.Err? <==> exists i :: 0 <= i < |files| && |NameOf(files[i].path)| > 0 && AllDots(NameOf(files[i].path))
    ensures r.Err? ==> r.fault == ArrayIndexOutOfBounds(0)
    ensures r.Ok? ==> |r.value| == |files|
    ensures r.Ok? ==> forall i :: 0 <= i < |files| ==>
      r.value[i].file == files[i] && r.value[i].fileName == PrefixBeforeDot(NameOf(files[i].path)) &&
      r.value[i].destDirectoryPath == destDirectoryPath
    ensures r.Ok? ==> forall i :: 0 <= i < |files| ==>
      r.value[i].service == r.value[0].service && r.value[i].service.fileHelper == fileHelper
  {
    var converterService;
    match converterType {
      case HBMToORM => converterService := new ConverterService(fileHelper);
    }
    r := BuildTasksWith(files, destDirectoryPath, converterService);
  }

  /** Running a task is exactly `performConversion` on what it captured. */
  method Call(task: ConversionTask) returns (ok: bool)
    modifies task.service.fileHelper`outputs
    ensures ok <==> task.service.Conversion(task.file, task.fileName, task.destDirectoryPath).Converted?
    ensures task.service.fileHelper.outputs ==
      OutputsAfter(old(task.service.fileHelper.outputs), task.service.Conversion(task.file, task.fileName, task.destDirectoryPath))
  {
    ok := task.service.PerformConversion(task.file, task.fileName, task.destDirectoryPath);
  }
}
