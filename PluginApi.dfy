/** What a macro plugin hands back to the host compiler for one item. */
module PluginApi {
  import opened Ast
  import opened Patcher

  datatype Severity = Error | Warning

  /** A diagnostic located at a node of the original source (the node's
      stable pointer in the host, its span here). */
  datatype Diagnostic = Diagnostic(severity: Severity, message: string, location: Span)

  /** A generated file: its name and the patches added to the builder, from
      which the builder renders the content and the code mappings. */
  datatype GeneratedFile = GeneratedFile(name: string, patches: seq<RewriteNode>)

  datatype PluginResult = PluginResult(
    code: Option<GeneratedFile>,
    diagnostics: seq<Diagnostic>,
    removeOriginalItem: bool)

  /** `PluginResult::default()`: no code, no diagnostics, keep the original. */
  const DefaultResult := PluginResult(None, [], false)
}
