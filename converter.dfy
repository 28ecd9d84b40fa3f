/** The HBM-to-ORM extraction: walks a parsed mapping document and builds the named
    queries, the named native queries with their result-set mappings, and the positional
    list of those mappings that the "OrmFile" template receives. */
module HbmToJpaConverter {
  import opened Faults
  import opened JavaStrings
  import opened Dom
  import opened Model
  import Constants

  /** Source column types and the Java classes they become. */
  const TypeMapping: map<string, string> := map[
    "string" := "java.lang.String",
    "double" := "java.lang.Double",
    "int" := "java.lang.Integer",
    "boolean" := "java.lang.Boolean"]

  /** `mapColumnType`: the table's class for a known type, the type itself otherwise
      (a null type stays null). */
  function MapColumnType(t: Option<string>): Option<string> {
    if t.Some? && t.value in TypeMapping then Some(TypeMapping[t.value]) else t
  }

  /** The four table entries. */
  lemma MapColumnTypeTable()
    ensures MapColumnType(Some("string")) == Some("java.lang.String")
    ensures MapColumnType(Some("double")) == Some("java.lang.Double")
    ensures MapColumnType(Some("int")) == Some("java.lang.Integer")
    ensures MapColumnType(Some("boolean")) == Some("java.lang.Boolean")
  {
  }

  /** Every type outside the table, and null, is returned unchanged. */
  lemma MapColumnTypeFallback(t: Option<string>)
    requires t.None? || t.value !in {"string", "double", "int", "boolean"}
    ensures MapColumnType(t) == t
  {
  }

  /** Mapping a mapped type again changes nothing: no class name is itself a table key. */
  lemma MapColumnTypeIdempotent(t: Option<string>)
    ensures MapColumnType(MapColumnType(t)) == MapColumnType(t)
  {
    if t.Some? && t.value in TypeMapping {
      assert TypeMapping[t.value] !in TypeMapping;
    }
  }

  // ---------------------------------------------------------------------------
  // What each extraction step is specified to produce

  function NamedQueryOf(e: Element): NamedQuery {
    NamedQuery(AttributeValue(e, Constants.Name), Trim(e.text))
  }

  function NamedQueriesOf(root: Element): seq<NamedQuery> {
    var qs := Elements(root, Constants.Query);
    seq(|qs|, i requires 0 <= i < |qs| => NamedQueryOf(qs[i]))
  }

  function ColumnResultOf(e: Element): ColumnResult {
    ColumnResult(AttributeValue(e, Constants.Column), MapColumnType(AttributeValue(e, Constants.Type)))
  }

  function ColumnResultsOf(q: Element): seq<ColumnResult> {
    var rs := Elements(q, Constants.ReturnScalar);
    seq(|rs|, i requires 0 <= i < |rs| => ColumnResultOf(rs[i]))
  }

  /** The state of the `NamedNativeQuery` object built for a `sql-query` element. */
  function NativeQueryOf(e: Element): NativeQueryFields {
    var name := AttributeValue(e, Constants.Name);
    var returnTag := ElementNamed(e, Constants.ReturnTag);
    var hasScalar := ElementNamed(e, Constants.ReturnScalar).Some?;
    var mappingName := Concat(name, Constants.Mapping);
    NativeQueryFields(
      name,
      Trim(e.text),
      if returnTag.Some? then AttributeValue(returnTag.value, Constants.ClassTag) else Some(""),
      if hasScalar then Some(mappingName) else Some(""),
      if hasScalar then Some(SqlResultSetMapping(mappingName, ColumnResultsOf(e))) else None)
  }

  function NativeQueriesOf(root: Element): seq<NativeQueryFields> {
    var qs := Elements(root, Constants.SqlQuery);
    seq(|qs|, i requires 0 <= i < |qs| => NativeQueryOf(qs[i]))
  }

  /** Slot i holds query i's attached mapping, null when it has none. */
  function MappingsOf(qs: seq<NativeQueryFields>): seq<Option<SqlResultSetMapping>> {
    seq(|qs|, i requires 0 <= i < |qs| => qs[i].resultSetMappings)
  }

  /** The four template attributes `convertFile` binds, or its single wrapped error
      when the template cannot be located or the document has no root. */
  function Convert(hbmDoc: Document, templateLocation: Result<string>): Result<OrmModel> {
    if templateLocation.Err? || hbmDoc.root.None? then Err(FileConversion(Constants.FileConversionFail))
    else
      var root := hbmDoc.root.value;
      var natives := NativeQueriesOf(root);
      Ok(OrmModel(NamedQueriesOf(root), natives, AttributeValue(root, Constants.Package), MappingsOf(natives)))
  }

  // ---------------------------------------------------------------------------
  // The extraction as the converter performs it

  /** `getNamedQueries`: one record per `query` child of the root, in document order. */
  method GetNamedQueries(hbmDoc: Document) returns (r: Result<seq<NamedQuery>>)
    ensures r.Err? <==> hbmDoc.root.None?
    ensures r.Err? ==> r.fault == NullPointer
    ensures r.Ok? ==> |r.value| == |Elements(hbmDoc.root.value, Constants.Query)|
    ensures r.Ok? ==> forall i :: 0 <= i < |r.value| ==>
      var e := Elements(hbmDoc.root.value, Constants.Query)[i];
      r.value[i].name == AttributeValue(e, Constants.Name) && r.value[i].query == Trim(e.text)
  {
    if hbmDoc.root.None? {
      return Err(NullPointer);
    }
    var queryElements := Elements(hbmDoc.root.value, Constants.Query);
    var namedQueries: seq<NamedQuery> := [];
    for k := 0 to |queryElements|
      invariant |namedQueries| == k
      invariant forall i :: 0 <= i < k ==> namedQueries[i] == NamedQueryOf(queryElements[i])
    {
      var e := queryElements[k];
      namedQueries := namedQueries + [NamedQuery(AttributeValue(e, Constants.Name), Trim(e.text))];
    }
    return Ok(namedQueries);
  }

  /** `getColumnResults`: one column per `return-scalar` child, in order, with its type
      translated by `mapColumnType`. */
  method GetColumnResults(sqlQueryElement: Element) returns (columnResults: seq<ColumnResult>)
    ensures |columnResults| == |Elements(sqlQueryElement, Constants.ReturnScalar)|
    ensures forall i :: 0 <= i < |columnResults| ==>
      var c := Elements(sqlQueryElement, Constants.ReturnScalar)[i];
      columnResults[i] == ColumnResult(AttributeValue(c, Constants.Column), MapColumnType(AttributeValue(c, Constants.Type)))
  {
    var scalars := Elements(sqlQueryElement, Constants.ReturnScalar);
    columnResults := [];
    for k := 0 to |scalars|
      invariant |columnResults| == k
      invariant forall i :: 0 <= i < k ==> columnResults[i] == ColumnResultOf(scalars[i])
    {
      var c := scalars[k];
      columnResults := columnResults + [ColumnResult(AttributeValue(c, Constants.Column), MapColumnType(AttributeValue(c, Constants.Type)))];
    }
  }

  /** The object built for one `sql-query` element before any mapping is attached: its
      four constructor arguments are the element's specified native query. */
  method NewNativeQuery(sqlQueryElement: Element) returns (q: NamedNativeQuery)
    ensures fresh(q)
    ensures q.Fields() == NativeQueryOf(sqlQueryElement).(resultSetMappings := None)
  {
    var name := AttributeValue(sqlQueryElement, Constants.Name);
    var returnTag := ElementNamed(sqlQueryElement, Constants.ReturnTag);
    var returnScalar := ElementNamed(sqlQueryElement, Constants.ReturnScalar);
    q := new NamedNativeQuery(
      name,
      Trim(sqlQueryElement.text),
      if returnTag.Some? then AttributeValue(returnTag.value, Constants.ClassTag) else Some(""),
      if returnScalar.Some? then Some(Concat(name, Constants.Mapping)) else Some(""));
  }

  /** The `forEach` callback of `getNamedNativeQueries`: appends the object for one
      `sql-query` element, then attaches its mapping through the running index, which
      names the object just appended. Nothing that existed before is changed. */
  method AppendNativeQuery(nativeNamedQueries: seq<NamedNativeQuery>, index: nat, sqlQueryElement: Element)
    returns (appended: seq<NamedNativeQuery>, nextIndex: nat)
    requires index == |nativeNamedQueries|
    ensures nextIndex == index + 1 == |appended|
    ensures appended[..index] == nativeNamedQueries
    ensures fresh(appended[index])
    ensures appended[index].Fields() == NativeQueryOf(sqlQueryElement)
  {
    var currentIndex := index;
    nextIndex := index + 1;
    var q := NewNativeQuery(sqlQueryElement);
    NativeQueryMapping(sqlQueryElement);
    appended := nativeNamedQueries + [q];
    if ElementNamed(sqlQueryElement, Constants.ReturnScalar).Some? {
      var columns := GetColumnResults(sqlQueryElement);
      assert columns == ColumnResultsOf(sqlQueryElement);
      var mapping := SqlResultSetMapping(Concat(AttributeValue(sqlQueryElement, Constants.Name), Constants.Mapping), columns);
      assert appended[currentIndex] == q;
      appended[currentIndex].SetResultSetMappings(Some(mapping));
    }
    assert appended[..index] == nativeNamedQueries;
  }

  /** `getNamedNativeQueries`: one distinct object per `sql-query` child, in order, each
      holding the specified native query of its element, its mapping included. */
  method GetNamedNativeQueries(hbmDoc: Document) returns (r: Result<seq<NamedNativeQuery>>)
    ensures r.Err? <==> hbmDoc.root.None?
    ensures r.Err? ==> r.fault == NullPointer
    ensures r.Ok? ==> |r.value| == |Elements(hbmDoc.root.value, Constants.SqlQuery)|
    ensures r.Ok? ==> forall i :: 0 <= i < |r.value| ==>
      r.value[i].Fields() == NativeQueryOf(Elements(hbmDoc.root.value, Constants.SqlQuery)[i])
    ensures r.Ok? ==> forall i, j :: 0 <= i < j < |r.value| ==> r.value[i] != r.value[j]
  {
    if hbmDoc.root.None? {
      return Err(NullPointer);
    }
    var sqlQueries := Elements(hbmDoc.root.value, Constants.SqlQuery);
    var nativeNamedQueries: seq<NamedNativeQuery> := [];
    var index := 0;
    for k := 0 to |sqlQueries|
      invariant index == |nativeNamedQueries| == k
      invariant forall i :: 0 <= i < k ==> nativeNamedQueries[i].Fields() == NativeQueryOf(sqlQueries[i])
      invariant forall i, j :: 0 <= i < j < k ==> nativeNamedQueries[i] != nativeNamedQueries[j]
    {
      ghost var before := nativeNamedQueries;
      nativeNamedQueries, index := AppendNativeQuery(nativeNamedQueries, index, sqlQueries[k]);
      assert forall i :: 0 <= i < k ==> nativeNamedQueries[i] == before[i];
    }
    return Ok(nativeNamedQueries);
  }

  /** The mapping attached to a native query is built from the element's name and its
      `return-scalar` children exactly when it has one. */
  lemma NativeQueryMapping(e: Element)
    ensures ElementNamed(e, Constants.ReturnScalar).Some? ==>
      NativeQueryOf(e).resultSetMappings ==
        Some(SqlResultSetMapping(Concat(AttributeValue(e, Constants.Name), Constants.Mapping), ColumnResultsOf(e)))
    ensures ElementNamed(e, Constants.ReturnScalar).None? ==> NativeQueryOf(e).resultSetMappings.None?
  {
  }

  /** `getSqlResultSetMappings`: a positional projection, not a filter; slot i is the
      mapping attached to query i, possibly null. */
  method GetSqlResultSetMappings(namedNativeQueries: seq<NamedNativeQuery>) returns (mappings: seq<Option<SqlResultSetMapping>>)
    ensures |mappings| == |namedNativeQueries|
    ensures forall i :: 0 <= i < |mappings| ==> mappings[i] == namedNativeQueries[i].resultSetMappings
  {
    mappings := [];
    if namedNativeQueries != [] {
      for k := 0 to |namedNativeQueries|
        invariant |mappings| == k
        invariant forall i :: 0 <= i < k ==> mappings[i] == namedNativeQueries[i].resultSetMappings
      {
        mappings := mappings + [namedNativeQueries[k].resultSetMappings];
      }
    }
  }

  /** The state of each object, as the template reads it when rendering. */
  function Snapshots(qs: seq<NamedNativeQuery>): (r: seq<NativeQueryFields>)
    reads set q | q in qs
    ensures |r| == |qs|
    ensures forall i :: 0 <= i < |qs| ==> r[i] == qs[i].Fields()
  {
    seq(|qs|, i reads set q | q in qs requires 0 <= i < |qs| => qs[i].Fields())
  }

  /** `convertFile`: binds the four template attributes; the missing template and any
      fault while extracting surface as the one "File conversion fail" error. */
  method ConvertFile(hbmDoc: Document, fileName: string, destDirectoryPath: string, templateLocation: Result<string>)
    returns (r: Result<OrmModel>)
    ensures r == Convert(hbmDoc, templateLocation)
  {
    if templateLocation.Err? {
      return Err(FileConversion(Constants.FileConversionFail));
    }
    var namedQueries := GetNamedQueries(hbmDoc);
    if namedQueries.Err? {
      return Err(FileConversion(Constants.FileConversionFail));
    }
    // The root was dereferenced above, so the remaining lookups cannot fault.
    var natives := GetNamedNativeQueries(hbmDoc);
    var root := hbmDoc.root.value;
    var packageName := AttributeValue(root, Constants.Package);
    var mappings := GetSqlResultSetMappings(natives.value);
    var snapshots := Snapshots(natives.value);
    assert namedQueries.value == NamedQueriesOf(root);
    assert snapshots == NativeQueriesOf(root);
    assert mappings == MappingsOf(snapshots);
    r := Ok(OrmModel(namedQueries.value, snapshots, packageName, mappings));
  }

  // ---------------------------------------------------------------------------
  // Properties of the extraction

  /** A named query's text is the element's text with surrounding blanks removed:
      whatever indentation surrounds it, the query text comes back unchanged. */
  lemma NamedQueryText(e: Element, pre: string, t: string, post: string)
    requires e.text == pre + t + post
    requires AllBlank(pre) && AllBlank(post) && IsTrimmed(t)
    ensures NamedQueryOf(e).query == t
  {
    TrimPadded(pre, t, post);
  }

  /** For a native query: the mapping name is never null; it is non-empty exactly when
      a mapping is attached, which happens exactly when the element has a
      `return-scalar` child; the attached mapping carries that name and one column per
      `return-scalar` child. The result class is "" without a `return` child and the
      first `return` child's `class` otherwise (null when it has none). */
  lemma NativeQueryShape(e: Element)
    ensures NativeQueryOf(e).resultSetMapping.Some?
    ensures NativeQueryOf(e).resultSetMapping.value != "" <==> NativeQueryOf(e).resultSetMappings.Some?
    ensures NativeQueryOf(e).resultSetMappings.Some? <==> |Elements(e, Constants.ReturnScalar)| > 0
    ensures NativeQueryOf(e).resultSetMappings.Some? ==>
      NativeQueryOf(e).resultSetMappings.value.name == NativeQueryOf(e).resultSetMapping.value &&
      NativeQueryOf(e).resultSetMapping.value == Concat(AttributeValue(e, Constants.Name), Constants.Mapping) &&
      |NativeQueryOf(e).resultSetMappings.value.columnResults| == |Elements(e, Constants.ReturnScalar)|
    ensures |Elements(e, Constants.ReturnTag)| == 0 ==> NativeQueryOf(e).resultClass == Some("")
    ensures |Elements(e, Constants.ReturnTag)| > 0 ==>
      NativeQueryOf(e).resultClass == AttributeValue(Elements(e, Constants.ReturnTag)[0], Constants.ClassTag)
  {
    ElementNamedIsFirstOfElements(e, Constants.ReturnScalar);
    ElementNamedIsFirstOfElements(e, Constants.ReturnTag);
    var m := Concat(AttributeValue(e, Constants.Name), Constants.Mapping);
    assert EndsWith(m, Constants.Mapping);
  }

  /** The bound model's shape: one named query per `query` child and one native query
      per `sql-query` child, and the mapping list has one slot per native query, in the
      same order, holding a mapping exactly when that query names one. */
  lemma ConvertShape(hbmDoc: Document, templateLocation: Result<string>)
    ensures Convert(hbmDoc, templateLocation).Err? <==> templateLocation.Err? || hbmDoc.root.None?
    ensures Convert(hbmDoc, templateLocation).Err? ==>
      Convert(hbmDoc, templateLocation).fault == FileConversion("File conversion fail")
    ensures Convert(hbmDoc, templateLocation).Ok? ==>
      var m := Convert(hbmDoc, templateLocation).value;
      var root := hbmDoc.root.value;
      |m.namedQueries| == |Elements(root, Constants.Query)| &&
      |m.namedNativeQueries| == |Elements(root, Constants.SqlQuery)| &&
      |m.sqlResultSetMappings| == |m.namedNativeQueries| &&
      m.packageName == AttributeValue(root, Constants.Package) &&
      (forall i :: 0 <= i < |m.namedQueries| ==> IsTrimmed(m.namedQueries[i].query)) &&
      forall i :: 0 <= i < |m.sqlResultSetMappings| ==>
        m.sqlResultSetMappings[i] == m.namedNativeQueries[i].resultSetMappings &&
        (m.sqlResultSetMappings[i].Some? <==> m.namedNativeQueries[i].resultSetMapping != Some("")) &&
        IsTrimmed(m.namedNativeQueries[i].query)
  {
    if Convert(hbmDoc, templateLocation).Ok? {
      var m := Convert(hbmDoc, templateLocation).value;
      var named := Elements(hbmDoc.root.value, Constants.Query);
      forall i | 0 <= i < |m.namedQueries|
        ensures IsTrimmed(m.namedQueries[i].query)
      {
        TrimCharacterized(named[i].text);
      }
      var qs := Elements(hbmDoc.root.value, Constants.SqlQuery);
      forall i | 0 <= i < |m.sqlResultSetMappings|
        ensures m.sqlResultSetMappings[i].Some? <==> m.namedNativeQueries[i].resultSetMapping != Some("")
        ensures IsTrimmed(m.namedNativeQueries[i].query)
      {
        NativeQueryShape(qs[i]);
        TrimCharacterized(qs[i].text);
      }
    }
  }

  /** A whole document: package "com.acme", a named query q1 "from Foo", and a native
      query n1 with a `return` of class Foo and no `return-scalar`. The native query gets
      an empty mapping name and no mapping, and its positional slot is null. */
  lemma ConvertSampleDocument(templateLocation: string)
    ensures
      var q1 := Element("query", map["name" := "q1"], "from Foo", []);
      var n1 := Element("sql-query", map["name" := "n1"], "", [Element("return", map["class" := "Foo"], "", [])]);
      var root := Element("hibernate-mapping", map["package" := "com.acme"], "", [q1, n1]);
      Convert(Document(Some(root)), Ok(templateLocation)) ==
        Ok(OrmModel([NamedQuery(Some("q1"), "from Foo")],
                    [NativeQueryFields(Some("n1"), "", Some("Foo"), Some(""), None)],
                    Some("com.acme"),
                    [None]))
  {
    var q1 := Element("query", map["name" := "q1"], "from Foo", []);
    var n1 := Element("sql-query", map["name" := "n1"], "", [Element("return", map["class" := "Foo"], "", [])]);
    var root := Element("hibernate-mapping", map["package" := "com.acme"], "", [q1, n1]);
    SampleChildren(q1, n1, root);
    SampleNamedQuery(q1);
    SampleNativeQuery(n1);
    assert NamedQueriesOf(root) == [NamedQuery(Some("q1"), "from Foo")];
    assert NativeQueriesOf(root) == [NativeQueryFields(Some("n1"), "", Some("Foo"), Some(""), None)];
    assert MappingsOf(NativeQueriesOf(root)) == [None];
  }

  lemma SampleChildren(q1: Element, n1: Element, root: Element)
    requires q1.tag == "query" && n1.tag == "sql-query" && root.children == [q1, n1]
    ensures Elements(root, Constants.Query) == [q1]
    ensures Elements(root, Constants.SqlQuery) == [n1]
  {
    assert [q1, n1][1..] == [n1];
    assert n1.tag != Constants.Query by { assert |n1.tag| != |Constants.Query|; }
    assert q1.tag != Constants.SqlQuery by { assert |q1.tag| != |Constants.SqlQuery|; }
    assert WithTag([n1], Constants.Query) == [];
  }

  lemma SampleNamedQuery(q1: Element)
    requires q1 == Element("query", map["name" := "q1"], "from Foo", [])
    ensures NamedQueryOf(q1) == NamedQuery(Some("q1"), "from Foo")
  {
    TrimPadded("", "from Foo", "");
    assert "" + "from Foo" + "" == "from Foo";
  }

  lemma SampleNativeQuery(n1: Element)
    requires n1 == Element("sql-query", map["name" := "n1"], "", [Element("return", map["class" := "Foo"], "", [])])
    ensures NativeQueryOf(n1) == NativeQueryFields(Some("n1"), "", Some("Foo"), Some(""), None)
  {
    var ret := n1.children[0];
    assert ret.tag != Constants.ReturnScalar by { assert |ret.tag| != |Constants.ReturnScalar|; }
    assert ElementNamed(n1, Constants.ReturnTag) == Some(ret);
    assert FirstWithTag(n1.children[1..], Constants.ReturnScalar).None?;
    assert ElementNamed(n1, Constants.ReturnScalar).None?;
  }

  /** A native query with one `return-scalar` of column c1 and type string gets the
      mapping "n1Mapping" whose single column has class java.lang.String. */
  lemma NativeQueryScalarSample()
    ensures
      var n1 := Element("sql-query", map["name" := "n1"], "", [Element("return-scalar", map["column" := "c1", "type" := "string"], "", [])]);
      NativeQueryOf(n1).resultSetMapping == Some("n1Mapping") &&
      NativeQueryOf(n1).resultSetMappings ==
        Some(SqlResultSetMapping("n1Mapping", [ColumnResult(Some("c1"), Some("java.lang.String"))]))
  {
    var c1 := Element("return-scalar", map["column" := "c1", "type" := "string"], "", []);
    var n1 := Element("sql-query", map["name" := "n1"], "", [c1]);
    assert Elements(n1, Constants.ReturnScalar) == [c1];
    assert ElementNamed(n1, Constants.ReturnScalar) == Some(c1);
    assert Concat(Some("n1"), Constants.Mapping) == "n1Mapping";
    assert ColumnResultsOf(n1) == [ColumnResult(Some("c1"), Some("java.lang.String"))];
  }

  /** A document without `sql-query` children yields no native queries and no mappings. */
  lemma NoNativeQueries(hbmDoc: Document, templateLocation: Result<string>)
    requires Convert(hbmDoc, templateLocation).Ok?
    requires |Elements(hbmDoc.root.value, Constants.SqlQuery)| == 0
    ensures Convert(hbmDoc, templateLocation).value.namedNativeQueries == []
    ensures Convert(hbmDoc, templateLocation).value.sqlResultSetMappings == []
  {
  }
}
