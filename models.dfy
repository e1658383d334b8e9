/** The outline a guide is generated from. */
module Models {
  /** One entry of the outline: an id, a title, a heading level (1, 2 or 3) and
      its sub-entries in order. */
  datatype OutlineNode = OutlineNode(id: string, title: string, level: int, children: seq<OutlineNode>)
}
