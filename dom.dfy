/** The parsed markup document as a tree: the surface of the XML document object model
    the converter uses (root element, attribute lookup, text, first child by tag, all
    children by tag). Parsing itself is outside this model. */
module Dom {
  import opened Faults

  /** An element: its tag, its attributes, its text content and its child elements
      in document order. */
  datatype Element = Element(tag: string, attributes: map<string, string>, text: string, children: seq<Element>)

  /** A parsed document; `root` is `None` when the document has no root element. */
  datatype Document = Document(root: Option<Element>)

  /** `Element.attributeValue(name)`: the attribute's value, or null when absent. */
  function AttributeValue(e: Element, name: string): (v: Option<string>)
    ensures v.Some? <==> name in e.attributes
    ensures v.Some? ==> v.value == e.attributes[name]
  {
    if name in e.attributes then Some(e.attributes[name]) else None
  }

  /** The elements of `cs` whose tag is `tag`, in their order. */
  function WithTag(cs: seq<Element>, tag: string): (r: seq<Element>)
    ensures |r| <= |cs|
    ensures forall x :: x in r ==> x in cs && x.tag == tag
    ensures forall x :: x in cs && x.tag == tag ==> x in r
  {
    if cs == [] then []
    else if cs[0].tag == tag then [cs[0]] + WithTag(cs[1..], tag)
    else WithTag(cs[1..], tag)
  }

  /** Filtering keeps document order: the matches in two consecutive runs of children
      are the matches of the first run followed by those of the second. */
  lemma {:induction false} WithTagAppend(a: seq<Element>, b: seq<Element>, tag: string)
    ensures WithTag(a + b, tag) == WithTag(a, tag) + WithTag(b, tag)
  {
    if a == [] {
      assert a + b == b;
    } else {
      assert (a + b)[0] == a[0];
      assert (a + b)[1..] == a[1..] + b;
      WithTagAppend(a[1..], b, tag);
    }
  }

  /** One child is kept exactly when it has the tag. */
  lemma WithTagSingle(x: Element, tag: string)
    ensures WithTag([x], tag) == (if x.tag == tag then [x] else [])
  {
    assert [x][1..] == [];
  }

  /** The first element of `cs` whose tag is `tag`, or null. */
  function FirstWithTag(cs: seq<Element>, tag: string): Option<Element> {
    if cs == [] then None
    else if cs[0].tag == tag then Some(cs[0])
    else FirstWithTag(cs[1..], tag)
  }

  /** `Element.elements(tag)`: every direct child with that tag. */
  function Elements(e: Element, tag: string): seq<Element> {
    WithTag(e.children, tag)
  }

  /** `Element.element(tag)`: the first direct child with that tag, or null. */
  function ElementNamed(e: Element, tag: string): Option<Element> {
    FirstWithTag(e.children, tag)
  }

  lemma {:induction false} FirstIsHeadOfAll(cs: seq<Element>, tag: string)
    ensures FirstWithTag(cs, tag).Some? <==> |WithTag(cs, tag)| > 0
    ensures FirstWithTag(cs, tag).Some? ==> FirstWithTag(cs, tag).value == WithTag(cs, tag)[0]
  {
    if cs != [] && cs[0].tag != tag {
      FirstIsHeadOfAll(cs[1..], tag);
    }
  }

  /** `element(tag)` and `elements(tag)` look at the same children: the first is present
      exactly when the second is non-empty, and then it is the second's first entry. */
  lemma ElementNamedIsFirstOfElements(e: Element, tag: string)
    ensures ElementNamed(e, tag).Some? <==> |Elements(e, tag)| > 0
    ensures ElementNamed(e, tag).Some? ==> ElementNamed(e, tag).value == Elements(e, tag)[0]
  {
    FirstIsHeadOfAll(e.children, tag);
  }
}
