/**
 * A DOM document as a value: elements with their attributes in document order and their
 * children, and text nodes. Namespaces are part of the qualified names (`mets:file`,
 * `xlink:href`).
 */
module Xml {
  import opened Assoc

  datatype Node =
    | Element(name: string, attrs: Entries, children: seq<Node>)
    | Text(content: string)

  /** `$parent->appendChild($child)`: the child becomes the last child of the element. */
  function AppendChild(parent: Node, child: Node): (r: Node)
    requires parent.Element?
    ensures r.Element? && r.name == parent.name && r.attrs == parent.attrs
    ensures |r.children| == |parent.children| + 1
    ensures r.children[..|parent.children|] == parent.children && r.children[|parent.children|] == child
  {
    Element(parent.name, parent.attrs, parent.children + [child])
  }
}
