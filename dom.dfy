/**
 * The parsed XML document the reader walks: elements with a qualified name, a namespace URI,
 * attributes and ordered children, and the non-element nodes (text, comments) it skips.
 */
module Dom {

  /** A child node: an element, or any other DOM node. */
  datatype Node = ElementNode(element: Element) | OtherNode(text: string)

  /**
   * An element. `nodeName` is the qualified name (`beans:bean`), `localName` the name without
   * prefix; an element without a namespace has the empty `namespaceUri`.
   */
  datatype Element = Element(
    nodeName: string,
    localName: string,
    namespaceUri: string,
    attributes: map<string, string>,
    children: seq<Node>)

  datatype Document = Document(documentElement: Element)

  /** The namespace of Spring's own bean-definition vocabulary. */
  const BeansNamespaceUri := "http://www.springframework.org/schema/beans"

  /** DOM `getAttribute`: the value, or the empty string for an absent attribute. */
  function GetAttribute(e: Element, name: string): (r: string)
    ensures name in e.attributes ==> r == e.attributes[name]
    ensures name !in e.attributes ==> r == ""
  {
    if name in e.attributes then e.attributes[name] else ""
  }

  /** The parser delegate's test: no namespace at all, or the beans namespace. */
  predicate IsDefaultNamespace(e: Element): (r: bool)
    ensures e.namespaceUri == "" ==> r
    ensures r && e.namespaceUri != "" ==> e.namespaceUri == BeansNamespaceUri
  {
    e.namespaceUri == "" || e.namespaceUri == BeansNamespaceUri
  }

  /** The parser delegate's name test: the qualified name or the local name matches. */
  predicate NodeNameEquals(e: Element, desiredName: string): (r: bool)
    ensures e.localName == desiredName ==> r
    ensures r && e.localName != desiredName ==> e.nodeName == desiredName
  {
    desiredName == e.nodeName || desiredName == e.localName
  }
}
