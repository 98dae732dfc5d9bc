/** The rewrite-node model the plugin builds, and the patch builder it feeds.
    Rendering a node tree into generated text and code mappings belongs to the
    builder's `build`, which is not part of this model. */
module Patcher {
  import opened Ast

  /** What to emit and where it came from. */
  datatype RewriteNode =
    | Text(text: string)                          // literal text, no origin
    | Copied(node: SyntaxNode)                    // an original node's own text, origin = its span
    | Mapped(inner: RewriteNode, origin: Span)    // inner's rendering, attributed as a whole to origin
    | Modified(children: seq<RewriteNode>)        // children rendered in order
    | Interpolated(template: string, patches: map<string, RewriteNode>)  // `$name$` placeholders bound to nodes

  /** The append-only builder that collects the patches of one generated file. */
  class PatchBuilder {
    var patches: seq<RewriteNode>

    constructor ()
      ensures patches == []
    {
      patches := [];
    }

    /** `add_modified`: appends one node tree to the generated file. */
    method AddModified(node: RewriteNode)
      modifies this
      ensures patches == old(patches) + [node]
    {
      patches := patches + [node];
    }
  }
}
