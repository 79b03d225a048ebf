/** The document tree shared by the parser, the macro expander and the
    layout engine (src/ast.rs). */
module Ast {

  /** Rendering style of a text leaf. */
  datatype TextStyle = Normal | Bold | Italic

  /** The closed set of tree nodes. Each node owns its children; the tree
      has no sharing, so it is a plain inductive value. */
  datatype Node =
    | Text(text: string)
    | StyledText(text: string, style: TextStyle)
    | Macro(name: string, args: seq<Node>)
    | Seq(children: seq<Node>)

  /** `Node::text`: a text leaf holding exactly `s`. */
  function TextNode(s: string): (n: Node)
    ensures n.Text? && n.text == s
  {
    Text(s)
  }

  /** `Node::r#macro`: a macro node holding exactly the given name and
      arguments. */
  function MacroNode(name: string, args: seq<Node>): (n: Node)
    ensures n.Macro? && n.name == name && n.args == args
  {
    Macro(name, args)
  }

  /** `Node::seq`: a sequence node holding exactly `children`, in order. */
  function SeqNode(children: seq<Node>): (n: Node)
    ensures n.Seq? && n.children == children
  {
    Seq(children)
  }
}
