# HBM-to-JPA converter: a verified model of its core

The converter reads Hibernate `*.hbm.xml` mapping files and writes JPA `orm.xml`-style
files. This project models the part that decides what gets written:

- **HbmToJpaConverter**: the walk over a parsed mapping document. It yields
  - the named queries (`query` children of the root, text trimmed);
  - the named native queries (`sql-query` children), each with a result class and a
    `<name>Mapping` result-set-mapping name;
  - the per-query result-set mappings, whose column types are translated through a fixed
    table that falls back to the identity;
  - the positional list of those mappings, which holds a null slot for every query
    without one.
  The four values are bound to the "OrmFile" template, and every fault becomes one
  "File conversion fail" error.
- **NamedNativeQuery**: a class whose four constructor fields never change. Its attached
  mapping starts null and is set in place by the converter. Its two derived predicates
  fault on a null string.
- **ConverterService**: validate, read, convert, write. It returns `true` exactly when all
  four steps succeed, never lets a fault out, and only a run that reaches the write
  touches the generated files.
- **ConversionTaskBuilder**: one deferred conversion per source file, in order, all
  sharing one service. The base name is `name.split("\\.")[0]`, with Java's rules:
  - a name without '.' is kept whole;
  - trailing empty tokens are dropped, so a non-empty name made only of dots faults.
- **ConcurrentTaskExecutor**: the pool size (twice the processors) and the tally of job
  outcomes in submission order. A fault while waiting counts as one failure. The pool
  is shut down on every path.
- **FileHelper**: source-file discovery by suffix, the four-way validity check, the
  output-path choice, and the delete-then-write step, whose deletion result is not
  checked. The file system it consults is given as fields of the class: directory
  listings, unwritable and undeletable paths, the template location, and the files
  written so far. A source file's name is the part of its path after the last '/'.
- **ArgsParser**: the mandatory-argument check, the allowed source/destination kinds,
  the converter type, and their sequencing.

Java semantics made explicit:

- `null` is `Option.None`, and a thrown exception is a `Fault` inside `Result`/`Outcome`.
- `String.trim` removes characters up to U+0020 from both ends.
- `null + "Mapping"` is `"nullMapping"`.
- `toLowerCase` is modelled for ASCII letters only.
- `getOrDefault(null, null)` is `null`.
- dom4j's `element(tag)` and `elements(tag)` look at the same list of direct children,
  so the first match of one is the head of the other (`Dom.ElementNamedIsFirstOfElements`).

A `sql-query` may contain several `return` children; the converter reads the first
(dom4j `element(RETURN)`) and ignores the rest, and the model does the same.

With exactly four arguments, `getConverterType` reads `args[4]`, one past the end, so
parsing fails with an index fault. The model reproduces this as written
(`ArgsParser.GetConverterType`, `ArgsParser.ParseInputArgsFaults`).

Files: `faults.dfy`, `java_strings.dfy`, `dom.dfy`, `constants.dfy`, `model.dfy`,
`converter.dfy`, `file_helper.dfy`, `converter_service.dfy`, `task_builder.dfy`,
`task_executor.dfy`, `args_parser.dfy`.

## Model

| member | source | states |
|---|---|---|
| HbmToJpaConverter.MapColumnTypeTable | src/main/java/com/intuit/hbm/converters/converter/HbmToJpaConverter.java:30-37 | "string", "double", "int" and "boolean" map to java.lang.String, Double, Integer and Boolean |
| HbmToJpaConverter.MapColumnTypeFallback | src/main/java/com/intuit/hbm/converters/converter/HbmToJpaConverter.java:159-161 | every other type, and null, is returned unchanged |
| HbmToJpaConverter.MapColumnTypeIdempotent | src/main/java/com/intuit/hbm/converters/converter/HbmToJpaConverter.java:30-37 | translating a translated type changes nothing: no Java class name is itself a table key |
| HbmToJpaConverter.GetNamedQueries | src/main/java/com/intuit/hbm/converters/converter/HbmToJpaConverter.java:84-92 | one record per `query` child of the root, in document order, holding the `name` attribute and the trimmed text; a missing root is a null-pointer fault |
| HbmToJpaConverter.GetColumnResults | src/main/java/com/intuit/hbm/converters/converter/HbmToJpaConverter.java:143-151 | one column per `return-scalar` child, in order, holding the `column` attribute and the translated `type` |
| HbmToJpaConverter.NewNativeQuery | src/main/java/com/intuit/hbm/converters/converter/HbmToJpaConverter.java:106-108 | a new object whose four constructor fields are the element's name, trimmed text, first `return` child's class (or "") and mapping name (or ""), with no mapping attached |
| HbmToJpaConverter.AppendNativeQuery | src/main/java/com/intuit/hbm/converters/converter/HbmToJpaConverter.java:104-114 | the callback appends one new object; the running index names the object just appended, so the mapping is attached to that object only, and the list before it is unchanged |
| HbmToJpaConverter.GetNamedNativeQueries | src/main/java/com/intuit/hbm/converters/converter/HbmToJpaConverter.java:100-118 | one distinct object per `sql-query` child, in order, each holding its element's specified native query with its mapping; a missing root is a null-pointer fault |
| HbmToJpaConverter.NativeQueryMapping | src/main/java/com/intuit/hbm/converters/converter/HbmToJpaConverter.java:110-113 | a mapping is attached iff the element has a `return-scalar` child, and it is named `name + "Mapping"` with the element's columns |
| HbmToJpaConverter.GetSqlResultSetMappings | src/main/java/com/intuit/hbm/converters/converter/HbmToJpaConverter.java:126-135 | the same length as the input, and slot i is query i's attached mapping, possibly null |
| HbmToJpaConverter.ConvertFile | src/main/java/com/intuit/hbm/converters/converter/HbmToJpaConverter.java:59-76 | the bound attributes equal the specified conversion of the document; a missing template or root gives the single wrapped error |
| HbmToJpaConverter.NamedQueryText | src/main/java/com/intuit/hbm/converters/converter/HbmToJpaConverter.java:88 | a query's text surrounded by any blanks comes back exactly |
| HbmToJpaConverter.NativeQueryShape | src/main/java/com/intuit/hbm/converters/converter/HbmToJpaConverter.java:104-113 | the mapping name is never null; it is non-empty iff a mapping is attached iff there is a `return-scalar` child; the mapping has that name, the name is `name + "Mapping"`, and there is one column per `return-scalar`; the result class is "" without a `return` child, else the first one's `class` |
| HbmToJpaConverter.ConvertShape | src/main/java/com/intuit/hbm/converters/converter/HbmToJpaConverter.java:59-76 | error iff the template or the root is missing, always "File conversion fail"; otherwise one record per `query` and per `sql-query` child, `package` from the root, the mapping list positional with slot i non-null iff query i names a mapping, and every query text trimmed |
| HbmToJpaConverter.NoNativeQueries | src/main/java/com/intuit/hbm/converters/converter/HbmToJpaConverter.java:126-135 | without `sql-query` children, no native queries and no mappings are bound |
| HbmToJpaConverter.ConvertSampleDocument | src/main/java/com/intuit/hbm/converters/converter/HbmToJpaConverter.java:59-76 | a document with package "com.acme", query q1 "from Foo" and native query n1 returning class Foo binds exactly those records, n1 with an empty mapping name and no mapping, and one null mapping slot |
| HbmToJpaConverter.NativeQueryScalarSample | src/main/java/com/intuit/hbm/converters/converter/HbmToJpaConverter.java:108-113 | a native query n1 with one `return-scalar` of column c1 and type string gets the mapping "n1Mapping" with the single column (c1, java.lang.String) |
| Model.NamedNativeQuery.constructor | src/main/java/com/intuit/hbm/converters/model/NamedNativeQuery.java:33-38 | the four arguments are stored unchanged and the attached mapping starts null |
| Model.NamedNativeQuery.SetResultSetMappings | src/main/java/com/intuit/hbm/converters/model/NamedNativeQuery.java:22-23 | only the attached mapping changes |
| Model.NamedNativeQuery.IsReturnClass | src/main/java/com/intuit/hbm/converters/model/NamedNativeQuery.java:45-48 | true iff the result class is non-empty; a null result class is a null-pointer fault |
| Model.NamedNativeQuery.IsResultSetMapping | src/main/java/com/intuit/hbm/converters/model/NamedNativeQuery.java:55-58 | true iff the mapping name is non-empty; a null name is a null-pointer fault |
| ConverterServices.ConverterService.PerformConversion | src/main/java/com/intuit/hbm/converters/service/ConverterService.java:86-103 | true iff the run converts; the generated files change only as that run dictates (a write adds or replaces its target, a failed write removes the old target only if it could be deleted, an earlier failure touches nothing) |
| ConverterServices.ConversionSucceedsIff | src/main/java/com/intuit/hbm/converters/service/ConverterService.java:86-103 | success iff the file passes all four probes, parses into a document with a root, the template exists and the target is writable; the written model is the conversion of exactly the parsed document, at the target for the caller's name and destination |
| ConverterServices.NoWriteAfterEarlierFailure | src/main/java/com/intuit/hbm/converters/service/ConverterService.java:90-96 | a failure before the write step leaves every generated file as it was |
| ConverterServices.FailedWriteKeepsUndeletable | src/main/java/com/intuit/hbm/converters/helper/FileHelper.java:117-126 | a run that fails at the write step targets the caller's output path and leaves the files as the unchecked deletion left them: the old target gone if it could be deleted, untouched otherwise |
| ConversionTaskBuilder.BaseName | src/main/java/com/intuit/hbm/converters/task/ConversionTaskBuilder.java:46 | the text before the first '.'; an index fault iff the name is non-empty and made only of dots |
| ConversionTaskBuilder.BaseNameOfSample | src/main/java/com/intuit/hbm/converters/task/ConversionTaskBuilder.java:46 | "Paycheck.query.hbm.xml" gives "Paycheck" |
| ConversionTaskBuilder.BaseNameEdgeCases | src/main/java/com/intuit/hbm/converters/task/ConversionTaskBuilder.java:46 | a name without '.' is kept whole, ".hbm" and "" give "", ".." faults |
| ConversionTaskBuilder.PrefixStops | src/main/java/com/intuit/hbm/converters/task/ConversionTaskBuilder.java:46 | the base name of a dot-free word followed by a '.' and anything else is that word |
| ConversionTaskBuilder.BuildTask | src/main/java/com/intuit/hbm/converters/task/ConversionTaskBuilder.java:45-50 | the task captures the file, the base name of its name (the path after its last '/'), the destination unchanged and the service; it faults exactly when the base name does, with the same `[0]` index fault |
| ConversionTaskBuilder.BuildTasksWith | src/main/java/com/intuit/hbm/converters/task/ConversionTaskBuilder.java:30-32 | the loop over the files: an index fault iff some file name is made only of dots, otherwise exactly one task per file, in order, each holding that file, its base name, the destination and the given service |
| ConversionTaskBuilder.BuildTasks | src/main/java/com/intuit/hbm/converters/task/ConversionTaskBuilder.java:28-33 | one task per file, in order, all sharing one service over the given file helper; an index fault iff some file name is made only of dots |
| ConversionTaskBuilder.Call | src/main/java/com/intuit/hbm/converters/task/ConversionTaskBuilder.java:47-49 | running a task is exactly the service's conversion of the captured file, base name and destination |
| ConcurrentTaskExecutor.TallyCounts | src/main/java/com/intuit/hbm/converters/task/ConcurrentTaskExecutor.java:54-66 | successes are the jobs that returned true, and successes plus failures is the number of jobs |
| ConcurrentTaskExecutor.TallyOrderIndependent | src/main/java/com/intuit/hbm/converters/task/ConcurrentTaskExecutor.java:54-66 | the counts do not depend on the order in which the outcomes are visited |
| ConcurrentTaskExecutor.WaitForCompletion | src/main/java/com/intuit/hbm/converters/task/ConcurrentTaskExecutor.java:49-70 | the counts are the submission-order tally: each outcome adds one to one counter, a fault is one failure and the loop goes on |
| ConcurrentTaskExecutor.ExecuteTasks | src/main/java/com/intuit/hbm/converters/task/ConcurrentTaskExecutor.java:24-35 | for at least one processor, the pool has twice the processors, the counts are the tally, an interruption aborts the wait, and the pool is shut down on every path |
| FileHelpers.NameOf | src/main/java/com/intuit/hbm/converters/task/ConversionTaskBuilder.java:46 | the file name is everything after the last '/' of the path: it ends the path, has no '/', and is the whole path or preceded by a '/' |
| FileHelpers.MatchingEntries | src/main/java/com/intuit/hbm/converters/helper/FileHelper.java:49-50 | exactly the entries whose name ends with the suffix, no more entries than listed |
| FileHelpers.OutputPath | src/main/java/com/intuit/hbm/converters/helper/FileHelper.java:109-115 | in a directory, the path, the base name and ".xml" joined with no separator; otherwise the destination itself |
| FileHelpers.FileHelper.GetFiles | src/main/java/com/intuit/hbm/converters/helper/FileHelper.java:46-59 | a directory yields its entries ending with the suffix (case-sensitive), no more of them than it lists; another path yields itself iff its name ends with the suffix ignoring case, else "destination file and file ends ext should match" |
| FileHelpers.FileHelper.ValidateInputFile | src/main/java/com/intuit/hbm/converters/helper/FileHelper.java:89-96 | accepted iff the file exists, is a regular file, and is readable and writable; else "Ensure File Existence and Permissions" |
| FileHelpers.FileHelper.ReadInputFile | src/main/java/com/intuit/hbm/converters/helper/FileHelper.java:67-81 | the parsed document, or "ReadInputFile Status=Failed" when there is none |
| FileHelpers.FileHelper.GetTemplateLocation | src/main/java/com/intuit/hbm/converters/helper/FileHelper.java:137-145 | the template resource's own path when it exists, or "Unable to locate resource path: templates" |
| FileHelpers.FileHelper.AfterDelete | src/main/java/com/intuit/hbm/converters/helper/FileHelper.java:117-118 | the result of `delete()` is ignored: an undeletable target stays, any other target is gone, and no other file changes |
| FileHelpers.FileHelper.WriteFile | src/main/java/com/intuit/hbm/converters/helper/FileHelper.java:106-128 | the write succeeds iff the target is writable, and the target then holds exactly the template; on failure the files are as the unchecked deletion left them, and the fault is "Failed to write to file due to an exception" |
| ArgsParser.ValidateMandatoryArgs | src/main/java/com/intuit/hbm/converters/helper/ArgsParser.java:44-48 | accepted iff there are at least three arguments and the first three are non-empty; else the "required" message |
| ArgsParser.ValidateFileLocation | src/main/java/com/intuit/hbm/converters/helper/ArgsParser.java:57-65 | accepted iff a file goes to a file or directory, or a directory goes to a directory; else "Arguments are invalid." |
| ArgsParser.GetConverterType | src/main/java/com/intuit/hbm/converters/helper/ArgsParser.java:75-81 | an index fault at 4 iff there are exactly four arguments, otherwise HBMToORM |
| ArgsParser.ParseInputArgsOkIff | src/main/java/com/intuit/hbm/converters/helper/ArgsParser.java:25-36 | parsing succeeds iff both validations pass and there are not exactly four arguments; the model then holds the first three arguments in order |
| ArgsParser.ParseInputArgsFaults | src/main/java/com/intuit/hbm/converters/helper/ArgsParser.java:28-31 | the checks run in order: a missing argument is reported first, then a bad location, then the four-argument fault |
| JavaStrings.TrimCharacterized | src/main/java/com/intuit/hbm/converters/converter/HbmToJpaConverter.java:88 | the trimmed text has no blank at either end, and the text is blanks, the trimmed text, blanks |
| JavaStrings.TrimPadded | src/main/java/com/intuit/hbm/converters/converter/HbmToJpaConverter.java:88 | trimming blanks around a trimmed text gives that text back |
| JavaStrings.TrimIdempotent | src/main/java/com/intuit/hbm/converters/converter/HbmToJpaConverter.java:88 | trimming twice is trimming once |
| JavaStrings.Concat | src/main/java/com/intuit/hbm/converters/converter/HbmToJpaConverter.java:108 | a name followed by the suffix; a null name reads "null" |
| JavaStrings.Lower | src/main/java/com/intuit/hbm/converters/helper/FileHelper.java:53 | same length, each character lower-cased |
| JavaStrings.SplitOnDotFirst | src/main/java/com/intuit/hbm/converters/task/ConversionTaskBuilder.java:46 | the split is empty iff the name is non-empty and only dots; otherwise its first token is the text before the first '.' |
| JavaStrings.NoDotPrefix | src/main/java/com/intuit/hbm/converters/task/ConversionTaskBuilder.java:46 | a name without '.' is its own text before the first '.' |
| Dom.ElementNamedIsFirstOfElements | src/main/java/com/intuit/hbm/converters/converter/HbmToJpaConverter.java:107-110 | `element(tag)` finds a child iff `elements(tag)` is non-empty, and it is the head of that list |
| Dom.WithTag | src/main/java/com/intuit/hbm/converters/converter/HbmToJpaConverter.java:146 | exactly the children with the tag, no more than there are children |
| Dom.WithTagAppend | src/main/java/com/intuit/hbm/converters/converter/HbmToJpaConverter.java:87 | `elements(tag)` keeps document order: the matches of two consecutive runs of children are those of the first followed by those of the second |
| Dom.WithTagSingle | src/main/java/com/intuit/hbm/converters/converter/HbmToJpaConverter.java:87 | a single child is kept exactly when its tag matches |

## Left out

- The thread pool itself (`newFixedThreadPool`, `invokeAll`, blocking `Future.get`): jobs are represented by their outcomes in submission order. The processor count is a parameter.
- XML parsing: a file's parse result is given as a document tree, or none when parsing fails.
- Template rendering: a generated file's content is the model bound to the "OrmFile" template, not the rendered text.
- Real file-system effects: existence and permission probes, directory listings, paths whose file cannot be deleted and paths a writer cannot be opened on are given as fields and parameters.
- Logging throughout, and the counts that `waitForCompletion` only logs, which the model returns instead.
- The application glue (the tool's entry point, the file-conversion handler, the service facade), the interfaces, and the converter factory. The factory's single case is inlined in `ConversionTaskBuilder.BuildTasks`.
- The `converter` field of `ConverterService`: the one converter is called directly.
- The converter's own file helper: the model takes the template location from the service's helper, and the code uses the same singleton for both.
- The detailed message of the inner write exception ("Failed to write to file at …"): the outer handler rewraps it, and only the outer message is observable.
- `FileHelpers.NameOf`: does not model `java.io.File` normalisation of trailing separators or platform separators other than '/'.
- `JavaStrings.Lower`: lower-cases ASCII letters only, with no Unicode or locale case mapping.
- `ConcurrentTaskExecutor.ExecuteTasks`: the pool is not modelled as an object, so its shutdown is a flag set after both the interrupted and the completed path (the `finally` block), not a state change of a pool that is otherwise in use.
- `ArgsParser.ValidateFileLocation`: a path's kind is looked up in a given map rather than probed.
