/** The part of the host compiler's syntax tree that the plugin reads.
    The host hands over an already-parsed, immutable tree; only the node
    kinds, texts and spans the plugin looks at are kept here. */
module Ast {

  /** A byte range of the original source, without leading or trailing trivia. */
  datatype Span = Span(start: nat, end: nat)

  /** An original syntax node: its rendered text and its span. */
  datatype SyntaxNode = SyntaxNode(text: string, span: Span)

  /** A function parameter: the whole parameter node, plus the texts of its
      name, its modifier list and the type of its type clause, each as the
      host renders it (possibly with surrounding whitespace). */
  datatype Param = Param(node: SyntaxNode, nameText: string, modifiersText: string, tyText: string)

  /** A function with a body inside an impl. `declSpan` is the span of the
      declaration (the signature part), `retTyText` the text of the optional
      return type clause, `stmts` the statements of the body. */
  datatype FunctionAst = FunctionAst(
    name: string,
    params: seq<Param>,
    retTyText: string,
    declSpan: Span,
    stmts: seq<SyntaxNode>)

  /** An item of an impl body: a function, or anything else (constants,
      type aliases, ...), which the plugin only copies. */
  datatype ImplItem =
    | Function(fn: FunctionAst)
    | OtherImplItem(node: SyntaxNode)

  /** An `impl <name> of <trait path> { ... }` item. `body` is None when the
      impl is declared without a body. */
  datatype ImplAst = ImplAst(
    node: SyntaxNode,
    attributesText: string,
    name: string,
    traitPathText: string,
    body: Option<seq<ImplItem>>)

  /** An attribute on an item: its path (such as `custom::contract`) and span. */
  datatype Attribute = Attribute(path: string, span: Span)

  /** A `mod <name> { ... }` item; `body` is None for `mod <name>;`. */
  datatype ModuleAst = ModuleAst(
    node: SyntaxNode,
    attributes: seq<Attribute>,
    name: string,
    body: Option<seq<ModuleItem>>)

  /** A top-level item of a module. */
  datatype ModuleItem =
    | Impl(impl: ImplAst)
    | Module(mod: ModuleAst)
    | OtherItem(node: SyntaxNode)

  datatype Option<+T> = None | Some(value: T)

  /** The syntax node of any module item. */
  function ItemNode(item: ModuleItem): SyntaxNode
  {
    match item
    case Impl(i) => i.node
    case Module(m) => m.node
    case OtherItem(n) => n
  }

  /** `has_attr`: some attribute of the item has the given path. */
  predicate HasAttr(attrs: seq<Attribute>, path: string)
  {
    exists k :: 0 <= k < |attrs| && attrs[k].path == path
  }

  /** `attrs[k]` is the first attribute of `attrs` with the path. */
  predicate FirstWithPath(attrs: seq<Attribute>, path: string, k: nat)
    requires k < |attrs|
  {
    attrs[k].path == path && forall j :: 0 <= j < k ==> attrs[j].path != path
  }

  /** `find_attr`: the first attribute with the given path, if any. */
  function FindAttr(attrs: seq<Attribute>, path: string): (r: Option<Attribute>)
    ensures r.Some? <==> HasAttr(attrs, path)
    ensures r.Some? ==> r.value.path == path && r.value in attrs
    ensures r.Some? ==> exists k :: 0 <= k < |attrs| && attrs[k] == r.value && FirstWithPath(attrs, path, k)
  {
    if attrs == [] then None
    else if attrs[0].path == path then Some(attrs[0])
    else
      var rest := FindAttr(attrs[1..], path);
      assert HasAttr(attrs[1..], path) ==> HasAttr(attrs, path) by {
        if HasAttr(attrs[1..], path) {
          var k :| 0 <= k < |attrs[1..]| && attrs[1..][k].path == path;
          assert attrs[k + 1].path == path;
        }
      }
      assert HasAttr(attrs, path) ==> HasAttr(attrs[1..], path) by {
        if HasAttr(attrs, path) {
          var k :| 0 <= k < |attrs| && attrs[k].path == path;
          assert attrs[1..][k - 1].path == path;
        }
      }
      assert rest.Some? ==> exists k :: 0 <= k < |attrs| && attrs[k] == rest.value && FirstWithPath(attrs, path, k) by {
        if rest.Some? {
          var k :| 0 <= k < |attrs[1..]| && attrs[1..][k] == rest.value && FirstWithPath(attrs[1..], path, k);
          assert attrs[k + 1] == rest.value;
          assert FirstWithPath(attrs, path, k + 1);
        }
      }
      rest
  }
}
