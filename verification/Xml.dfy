/** XML documents as trees of elements. */
module Xml {

  /** An element: local name, attributes, child elements. */
  datatype Node = Node(tag: string, attrs: map<string, string>, kids: seq<Node>)
}
