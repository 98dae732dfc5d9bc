/** The earlier version of the `custom::contract` plugin (src/plugin.rs):
    every impl of the annotated module is replaced by one stub impl attributed
    to the original impl, every other item is copied, and no diagnostic is
    ever raised. */
module LegacyPlugin {
  import opened Ast
  import opened Patcher
  import opened PluginApi
  import opened Iter

  /** The trigger attribute, `MY_ATTR`. */
  const ContractAttr := "custom::contract"

  const ImplStub := "impl A of B {}"
  const StandaloneStruct := "struct S {}"
  const ModuleTemplate :=
    "\n            #[starknet::contract]\n            mod $name$ {\n\n                $body$\n\n            }\n            "

  /** The one node an item of the module becomes. */
  function ItemNodes(item: ModuleItem): seq<RewriteNode>
  {
    match item
    case Impl(impl) => [Mapped(Text(ImplStub), impl.node.span)]
    case _ => [Copied(ItemNode(item))]
  }

  /** The item walk, a `flat_map` over the module's items. */
  function BodyNodes(items: seq<ModuleItem>): seq<RewriteNode>
  {
    FlatMap(items, ItemNodes)
  }

  function ModulePatch(name: string, bodyNodes: seq<RewriteNode>): RewriteNode
  {
    Interpolated(ModuleTemplate, map["name" := Text(name), "body" := Modified(bodyNodes)])
  }

  /** What `handle_mod` returns for a module. */
  function ModResult(m: ModuleAst): PluginResult
  {
    if !HasAttr(m.attributes, ContractAttr) then PluginResult(None, [], false)
    else match m.body
      case None => DefaultResult
      case Some(items) =>
        PluginResult(Some(GeneratedFile(m.name, [ModulePatch(m.name, BodyNodes(items) + [Text(StandaloneStruct)])])),
                     [], true)
  }

  /** `BuiltinDemoPlugin::handle_mod`: looks the attribute up (the lookup
      cannot fail once `has_attr` held), walks the items, appends the
      standalone struct and hands the module template to the builder. */
  method HandleMod(m: ModuleAst) returns (r: PluginResult)
    ensures r == ModResult(m)
    ensures !HasAttr(m.attributes, ContractAttr) ==> r == PluginResult(None, [], false)
    ensures m.body.None? ==> r == DefaultResult
    ensures r.diagnostics == []
    ensures HasAttr(m.attributes, ContractAttr) && m.body.Some? ==>
              && r.code.Some? && r.code.value.name == m.name && r.removeOriginalItem
  {
    if !HasAttr(m.attributes, ContractAttr) {
      return PluginResult(None, [], false);
    }
    // `find_attr(...).unwrap()`; the span is computed but never used.
    var customAttr := FindAttr(m.attributes, ContractAttr);
    var origin := customAttr.value.span;
    var name := m.name;
    if m.body.Some? {
      var builder := new PatchBuilder();
      var bodyNodes := BodyNodes(m.body.value);
      // `body_nodes.append(...)`
      bodyNodes := bodyNodes + [Text(StandaloneStruct)];
      builder.AddModified(ModulePatch(name, bodyNodes));
      assert builder.patches == [ModulePatch(name, bodyNodes)];
      return PluginResult(Some(GeneratedFile(name, builder.patches)), [], true);
    }
    return DefaultResult;
  }

  /** `MacroPlugin::declared_attributes`: the one trigger attribute. */
  function DeclaredAttributes(): (attrs: seq<string>)
    ensures attrs == [ContractAttr]
  {
    [ContractAttr]
  }

  /** `MacroPlugin::generate_code`: modules go to `handle_mod`, any other
      item yields the default result. */
  method GenerateCode(item: ModuleItem) returns (r: PluginResult)
    ensures !item.Module? ==> r == DefaultResult
    ensures item.Module? ==> r == ModResult(item.mod)
    ensures r.code.Some? || r.removeOriginalItem ==>
              item.Module? && HasAttr(item.mod.attributes, DeclaredAttributes()[0])
  {
    match item
    case Module(m) =>
      r := HandleMod(m);
    case _ =>
      r := DefaultResult;
  }

  /** One node per item, in the items' order: an impl becomes the stub
      attributed to the impl's span, anything else is copied verbatim. */
  lemma OneNodePerItem(items: seq<ModuleItem>)
    ensures |BodyNodes(items)| == |items|
    ensures forall k :: 0 <= k < |items| ==>
              BodyNodes(items)[k] == if items[k].Impl? then Mapped(Text(ImplStub), items[k].impl.node.span)
                                     else Copied(ItemNode(items[k]))
  {
    FlatMapOfSingletons(items, ItemNodes);
  }

  /** The generated module holds exactly the rewritten items followed by the
      standalone struct, and is named after the original module. */
  lemma StructAppendedLast(m: ModuleAst)
    requires HasAttr(m.attributes, ContractAttr) && m.body.Some?
    ensures var r := ModResult(m);
      && r.code.Some? && r.code.value.name == m.name && |r.code.value.patches| == 1
      && var patch := r.code.value.patches[0];
      && patch.Interpolated? && patch.template == ModuleTemplate
      && patch.patches.Keys == {"name", "body"}
      && patch.patches["name"] == Text(m.name)
      && patch.patches["body"].Modified?
      && var children := patch.patches["body"].children;
      && |children| == |m.body.value| + 1
      && children[..|children| - 1] == BodyNodes(m.body.value)
      && children[|children| - 1] == Text(StandaloneStruct)
  {
    OneNodePerItem(m.body.value);
  }
}
