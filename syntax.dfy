/**
 * The read-only syntax tree the renderer consumes: a tree-sitter node of the
 * bmake grammar, reduced to the parts the renderer looks at.
 */
module Syntax {
  import opened Wrappers

  /**
   * One tree-sitter node.
   *  - `kind` is the node's grammar symbol (`Node.type` in tree-sitter), e.g.
   *    "body", "if", "identifier", or an anonymous token such as "%error" or "(";
   *  - `text` is the source slice the node covers, already decoded;
   *  - `children` are all children in document order (named and anonymous);
   *  - `namedChildren` are the named ones, also in document order;
   *  - `cond` is the child stored under the field name "cond", if any.
   * The renderer never distinguishes named from anonymous nodes, so the
   * node carries no "is named" flag.
   */
  datatype Node = Node(
    kind: string,
    text: string,
    children: seq<Node>,
    namedChildren: seq<Node>,
    cond: Option<Node>)
}
