/** The records the converter builds and hands to the "OrmFile" template. */
module Model {
  import opened Faults

  /** A named query: its name (null when the element has no `name`) and its trimmed text. */
  datatype NamedQuery = NamedQuery(name: Option<string>, query: string)

  /** One column of a result-set mapping: the column name and the Java class of its values. */
  datatype ColumnResult = ColumnResult(name: Option<string>, classes: Option<string>)

  /** A named result-set mapping and its columns, in document order. */
  datatype SqlResultSetMapping = SqlResultSetMapping(name: string, columnResults: seq<ColumnResult>)

  /** The observable state of a `NamedNativeQuery` object: its four constructor
      arguments and the mapping attached through the setter (null when none). */
  datatype NativeQueryFields = NativeQueryFields(
    name: Option<string>,
    query: string,
    resultClass: Option<string>,
    resultSetMapping: Option<string>,
    resultSetMappings: Option<SqlResultSetMapping>)

  /** A named native SQL query. The four constructor arguments never change; the
      attached result-set mapping starts null and is changed only by its setter. */
  class NamedNativeQuery {
    const name: Option<string>
    const query: string
    const resultClass: Option<string>
    const resultSetMapping: Option<string>
    var resultSetMappings: Option<SqlResultSetMapping>

    constructor (name: Option<string>, query: string, resultClass: Option<string>, resultSetMapping: Option<string>)
      ensures Fields() == NativeQueryFields(name, query, resultClass, resultSetMapping, None)
    {
      this.name := name;
      this.query := query;
      this.resultClass := resultClass;
      this.resultSetMapping := resultSetMapping;
      this.resultSetMappings := None;
    }

    function Fields(): NativeQueryFields
      reads this
    {
      NativeQueryFields(name, query, resultClass, resultSetMapping, resultSetMappings)
    }

    /** The `resultSetMappings` setter: only that field changes. */
    method SetResultSetMappings(m: Option<SqlResultSetMapping>)
      modifies this`resultSetMappings
      ensures Fields() == old(Fields()).(resultSetMappings := m)
    {
      resultSetMappings := m;
    }

    /** `getIsReturnClass()`: whether a result class is named; dereferencing a null
        result class is a fault. */
    function IsReturnClass(): (r: Result<bool>)
      ensures r.Err? <==> resultClass.None?
      ensures r.Err? ==> r.fault == NullPointer
      ensures r.Ok? ==> (r.value <==> resultClass.value != "")
    {
      match resultClass
      case None => Err(NullPointer)
      case Some(c) => Ok(c != "")
    }

    /** `getIsResultSetMapping()`: whether a result-set mapping name is set; dereferencing
        a null name is a fault. */
    function IsResultSetMapping(): (r: Result<bool>)
      ensures r.Err? <==> resultSetMapping.None?
      ensures r.Err? ==> r.fault == NullPointer
      ensures r.Ok? ==> (r.value <==> resultSetMapping.value != "")
    {
      match resultSetMapping
      case None => Err(NullPointer)
      case Some(m) => Ok(m != "")
    }
  }

  /** The four attributes bound to the "OrmFile" template: NamedQueries,
      NamedNativeQueries, package and SqlResultSetMappings. */
  datatype OrmModel = OrmModel(
    namedQueries: seq<NamedQuery>,
    namedNativeQueries: seq<NativeQueryFields>,
    packageName: Option<string>,
    sqlResultSetMappings: seq<Option<SqlResultSetMapping>>)

  /** The kinds of conversion the tool offers; there is one. */
  datatype ConverterType = HBMToORM

  /** The validated command line: source path, file suffix, destination path, converter kind. */
  datatype InputModel = InputModel(srcDirectoryPath: string, fileEndsWith: string, destDirPath: string, converterType: ConverterType)
}
