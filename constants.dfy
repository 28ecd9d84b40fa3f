/** Tag names, attribute names and template slot names shared by the converter. */
module Constants {
  /** Extension of every generated file. */
  const FileEndsWithOrmExt: string := ".xml"

  // Tags and attributes read from the mapping document.
  const Name: string := "name"
  const Query: string := "query"
  const ReturnTag: string := "return"
  const ReturnScalar: string := "return-scalar"
  const SqlQuery: string := "sql-query"
  const Column: string := "column"
  const Mapping: string := "Mapping"
  const ClassTag: string := "class"
  const Type: string := "type"
  const Package: string := "package"

  // Slots of the "OrmFile" template.
  const NamedQueries: string := "NamedQueries"
  const NamedNativeQueries: string := "NamedNativeQueries"
  const SqlResultSetMappings: string := "SqlResultSetMappings"

  /** Message of the error `convertFile` raises for any fault while converting. */
  const FileConversionFail: string := "File conversion fail"
}
