/** The `custom::contract` macro plugin (crates/plugin/src/plugin.rs): it
    rewrites an annotated module into a Starknet contract module, giving every
    impl function a receiver parameter and two injected statements, while
    keeping each generated piece attributed to the original code it replaces. */
module ContractPlugin {
  import opened Ast
  import opened SyntaxUtils
  import opened Patcher
  import opened PluginApi
  import opened Joining
  import opened Iter

  /** The trigger attribute, `MY_ATTR`. */
  const ContractAttr := "custom::contract"

  const RefReceiver := "ref self: ContractState"
  const SnapshotReceiver := "self: @ContractState"
  const InjectedLetA := "let a = 32;\n"
  const InjectedLetB := "let _b = a + 4;\n"
  const ClosingBrace := "\n}"
  const StandaloneStruct := "\nstruct S {}\n"
  const InvalidImplName := "bad"
  const InvalidImplMessage := "Invalid impl name"
  const ImplBodyTemplate := "$body$"
  const ModuleTemplate :=
    "\n            #[starknet::contract]\n            mod $name$ {\n\n                $body$\n\n            }\n            "

  // ---------------------------------------------------------------------------
  // rewrite_parameters
  // ---------------------------------------------------------------------------

  /** The marker parameter `r: R`, recognised on the trimmed name and type. */
  predicate IsMarker(param: Param)
  {
    var info := GetParameterInfo(param);
    info.name == "r" && info.paramType == "R"
  }

  predicate HasMarker(params: seq<Param>)
  {
    exists k :: 0 <= k < |params| && IsMarker(params[k])
  }

  /** The number of parameters that are not the marker, counted one by one. */
  function NonMarkerCount(params: seq<Param>): (n: nat)
    ensures n <= |params|
    ensures n == |params| <==> !HasMarker(params)
  {
    if params == [] then 0
    else
      var init := params[..|params| - 1];
      assert forall k :: 0 <= k < |init| ==> init[k] == params[k];
      NonMarkerCount(init) + (if IsMarker(params[|params| - 1]) then 0 else 1)
  }

  /** The `filter_map` step: a marker parameter is dropped, any other
      parameter contributes its verbatim text. */
  function KeptText(param: Param): seq<string>
  {
    if IsMarker(param) then [] else [param.node.text]
  }

  function KeptParams(params: seq<Param>): seq<string>
  {
    FlatMap(params, KeptText)
  }

  function Receiver(useRef: bool): string
  {
    if useRef then RefReceiver else SnapshotReceiver
  }

  /** The entries of the rewritten parameter list, before joining. */
  function ParamEntries(params: seq<Param>): seq<string>
  {
    [Receiver(HasMarker(params))] + KeptParams(params)
  }

  /** The rewritten parameter list as `rewrite_parameters` returns it. */
  function RewrittenParams(params: seq<Param>): string
  {
    Join(ParamEntries(params), Separator)
  }

  /** `rewrite_parameters`: drops every `r: R` parameter, remembers whether
      one was seen, puts the matching receiver in front and joins with ", ". */
  method RewriteParameters(params: seq<Param>) returns (s: string)
    ensures s == RewrittenParams(params)
    ensures HasMarker(params) ==> s[..|RefReceiver|] == RefReceiver
    ensures !HasMarker(params) ==> s[..|SnapshotReceiver|] == SnapshotReceiver
  {
    var useRef := false;
    var kept: seq<string> := [];
    for i := 0 to |params|
      invariant useRef == HasMarker(params[..i])
      invariant kept == FlatMap(params[..i], KeptText)
    {
      ParamStep(params, i);
      var info := GetParameterInfo(params[i]);
      if info.name == "r" && info.paramType == "R" {
        useRef := true;
      } else {
        kept := kept + [params[i].node.text];
      }
    }
    assert params[..|params|] == params;
    // `params.insert(0, ...)`
    if useRef {
      kept := [RefReceiver] + kept;
    } else {
      kept := [SnapshotReceiver] + kept;
    }
    s := Join(kept, Separator);
  }

  /** One step of the parameter walk: the next parameter extends the marker
      flag and the kept texts. */
  lemma ParamStep(params: seq<Param>, i: nat)
    requires i < |params|
    ensures HasMarker(params[..i + 1]) == (HasMarker(params[..i]) || IsMarker(params[i]))
    ensures FlatMap(params[..i + 1], KeptText) == FlatMap(params[..i], KeptText) + KeptText(params[i])
  {
    assert params[..i + 1][..i] == params[..i];
    assert forall k :: 0 <= k < i + 1 ==> params[..i + 1][k] == params[k];
  }

  /** Neither receiver contains the separator. */
  lemma ReceiversSeparatorFree()
    ensures !ContainsSeparator(RefReceiver) && !ContainsSeparator(SnapshotReceiver)
  {
  }

  /** Each parameter contributes at most one kept text: the kept list is as
      long as the number of non-marker parameters. */
  lemma {:induction false} KeptCount(params: seq<Param>)
    ensures |KeptParams(params)| == NonMarkerCount(params)
  {
    if params != [] {
      KeptCount(params[..|params| - 1]);
    }
  }

  /** A marker parameter is dropped wherever it stands, so every marker is
      removed and not only the first; the receiver is then `ref self`. */
  lemma MarkerDropped(before: seq<Param>, marker: Param, after: seq<Param>)
    requires IsMarker(marker)
    ensures ParamEntries(before + [marker] + after)
         == [RefReceiver] + KeptParams(before) + KeptParams(after)
  {
    var params := before + [marker] + after;
    assert params[|before|] == marker;
    FlatMapSplit(before, marker, after, KeptText);
  }

  /** A non-marker parameter keeps its verbatim text, in its place. */
  lemma NonMarkerKept(before: seq<Param>, param: Param, after: seq<Param>)
    requires !IsMarker(param)
    ensures KeptParams(before + [param] + after)
         == KeptParams(before) + [param.node.text] + KeptParams(after)
  {
    FlatMapSplit(before, param, after, KeptText);
  }

  /** Without a marker the receiver is `self: @ContractState`, followed by
      every original parameter text in the original order. */
  lemma NoMarkerKeepsAll(params: seq<Param>)
    requires !HasMarker(params)
    ensures ParamEntries(params)
         == [SnapshotReceiver] + seq(|params|, k requires 0 <= k < |params| => params[k].node.text)
  {
    FlatMapOfSingletons(params, KeptText);
  }

  /** The first entry is `ref self: ContractState` exactly when some parameter
      is the marker, and `self: @ContractState` exactly when none is. */
  lemma ReceiverChoice(params: seq<Param>)
    ensures ParamEntries(params)[0] == RefReceiver <==> HasMarker(params)
    ensures ParamEntries(params)[0] == SnapshotReceiver <==> !HasMarker(params)
  {
    assert RefReceiver[0] != SnapshotReceiver[0];
  }

  /** The rewritten list has one entry more than there are non-marker
      parameters. */
  lemma EntryCount(params: seq<Param>)
    ensures |ParamEntries(params)| == 1 + NonMarkerCount(params)
  {
    KeptCount(params);
  }

  lemma {:induction false} KeptSeparatorFree(params: seq<Param>)
    requires forall k :: 0 <= k < |params| ==> !ContainsSeparator(params[k].node.text)
    ensures forall j :: 0 <= j < |KeptParams(params)| ==> !ContainsSeparator(KeptParams(params)[j])
  {
    if params != [] {
      var init, last := params[..|params| - 1], params[|params| - 1];
      KeptSeparatorFree(init);
      assert KeptParams(params) == KeptParams(init) + KeptText(last);
    }
  }

  /** No entry of the rewritten list contains the separator when no
      parameter text does. */
  lemma EntriesSeparatorFree(params: seq<Param>)
    requires forall k :: 0 <= k < |params| ==> !ContainsSeparator(params[k].node.text)
    ensures forall k :: 0 <= k < |ParamEntries(params)| ==> !ContainsSeparator(ParamEntries(params)[k])
  {
    KeptSeparatorFree(params);
    ReceiversSeparatorFree();
    var entries := ParamEntries(params);
    forall k | 0 <= k < |entries|
      ensures !ContainsSeparator(entries[k])
    {
      if k > 0 {
        assert entries[k] == KeptParams(params)[k - 1];
      }
    }
  }

  /** Splitting the rewritten list at ", " finds 1 + (non-marker count)
      entries, the entries themselves, provided no parameter text contains
      ", " (a tuple type such as `(u8, u8)` does; see SplitMiscountsTuple). */
  lemma SplitEntryCount(params: seq<Param>)
    requires forall k :: 0 <= k < |params| ==> !ContainsSeparator(params[k].node.text)
    ensures SplitEntries(RewrittenParams(params)) == ParamEntries(params)
    ensures |SplitEntries(RewrittenParams(params))| == 1 + NonMarkerCount(params)
  {
    EntriesSeparatorFree(params);
    EntryCount(params);
    SplitJoin(ParamEntries(params));
  }

  /** A parameter typed by a pair, `p: (u8, u8)`. */
  const TupleParam := Param(SyntaxNode("p: (u8, u8)", Span(0, 11)), "p", "", "(u8, u8)")

  lemma TupleParamRewritten()
    ensures NonMarkerCount([TupleParam]) == 1
    ensures RewrittenParams([TupleParam]) == SnapshotReceiver + (", " + ("p: (u8" + (", " + "u8)")))
  {
    assert GetParameterInfo(TupleParam).name == "p";
    assert !HasMarker([TupleParam]);
    assert KeptParams([TupleParam]) == FlatMap([], KeptText) + KeptText(TupleParam);
    assert ParamEntries([TupleParam]) == [SnapshotReceiver, "p: (u8, u8)"];
    assert Join(["p: (u8, u8)"], Separator) == "p: (u8, u8)";
    assert "p: (u8, u8)" == "p: (u8" + (", " + "u8)");
  }

  lemma SplitTupleText()
    ensures |SplitEntries(SnapshotReceiver + (", " + ("p: (u8" + (", " + "u8)"))))| == 3
  {
    SplitPrefix("u8)", []);
    assert SplitEntries([]) == [[]];
    assert "u8)" + [] == "u8)";
    assert SplitEntries(", " + "u8)") == [[]] + SplitEntries("u8)");
    SplitPrefix("p: (u8", ", " + "u8)");
    var tail := "p: (u8" + (", " + "u8)");
    assert |SplitEntries(tail)| == 2;
    assert SplitEntries(", " + tail) == [[]] + SplitEntries(tail);
    assert !ContainsSeparator(SnapshotReceiver);
    SplitPrefix(SnapshotReceiver, ", " + tail);
  }

  /** Without the separator-free condition the count fails: a parameter
      typed by a pair splits into two entries, so one non-marker parameter
      yields three pieces instead of two. */
  lemma SplitMiscountsTuple()
    ensures NonMarkerCount([TupleParam]) == 1
    ensures |SplitEntries(RewrittenParams([TupleParam]))| == 3
  {
    TupleParamRewritten();
    SplitTupleText();
  }

  /** Surrounding whitespace in the name or the type text does not change
      whether a parameter is the marker. */
  lemma MarkerIgnoresPadding(node: SyntaxNode, name: string, modifiers: string, ty: string,
                             w1: string, w2: string, w3: string, w4: string)
    requires AllWhitespace(w1) && AllWhitespace(w2) && AllWhitespace(w3) && AllWhitespace(w4)
    ensures IsMarker(Param(node, w1 + name + w2, modifiers, w3 + ty + w4))
        <==> IsMarker(Param(node, name, modifiers, ty))
  {
    TrimIgnoresPadding(w1, name, w2);
    TrimIgnoresPadding(w3, ty, w4);
  }

  // ---------------------------------------------------------------------------
  // rewrite_function
  // ---------------------------------------------------------------------------

  /** `fn {name}({params}) {ret} {\n`. */
  function FunctionHeader(fn: FunctionAst): string
  {
    "fn " + fn.name + "(" + RewrittenParams(fn.params) + ") " + fn.retTyText + " {\n"
  }

  /** The nodes `rewrite_function` returns for one function. */
  function FunctionNodes(fn: FunctionAst): seq<RewriteNode>
  {
    [Mapped(Text(FunctionHeader(fn)), fn.declSpan), Text(InjectedLetA), Text(InjectedLetB)]
    + seq(|fn.stmts|, k requires 0 <= k < |fn.stmts| => Mapped(Copied(fn.stmts[k]), fn.stmts[k].span))
    + [Text(ClosingBrace)]
  }

  /** `rewrite_function`: the rewritten header attributed to the declaration,
      two injected statements, each original statement attributed to itself,
      then the closing brace. */
  method RewriteFunction(fn: FunctionAst) returns (nodes: seq<RewriteNode>)
    ensures nodes == FunctionNodes(fn)
    ensures |nodes| == 4 + |fn.stmts|
    ensures nodes[0] == Mapped(Text(FunctionHeader(fn)), fn.declSpan)
    ensures nodes[1] == Text(InjectedLetA) && nodes[2] == Text(InjectedLetB)
    ensures forall k :: 0 <= k < |fn.stmts| ==> nodes[3 + k] == Mapped(Copied(fn.stmts[k]), fn.stmts[k].span)
    ensures nodes[|nodes| - 1] == Text(ClosingBrace)
  {
    var params := RewriteParameters(fn.params);
    var declaration := Mapped(Text("fn " + fn.name + "(" + params + ") " + fn.retTyText + " {\n"), fn.declSpan);
    nodes := [declaration, Text(InjectedLetA), Text(InjectedLetB)];
    // `nodes.extend(func_nodes)`
    for k := 0 to |fn.stmts|
      invariant |nodes| == 3 + k
      invariant nodes[..3] == [declaration, Text(InjectedLetA), Text(InjectedLetB)]
      invariant forall j :: 0 <= j < k ==> nodes[3 + j] == Mapped(Copied(fn.stmts[j]), fn.stmts[j].span)
    {
      nodes := nodes + [Mapped(Copied(fn.stmts[k]), fn.stmts[k].span)];
    }
    assert declaration == FunctionNodes(fn)[0];
    assert nodes[3..] == seq(|fn.stmts|, k requires 0 <= k < |fn.stmts| => Mapped(Copied(fn.stmts[k]), fn.stmts[k].span));
    assert nodes == nodes[..3] + nodes[3..];
    nodes := nodes + [Text(ClosingBrace)];
  }

  // ---------------------------------------------------------------------------
  // handle_mod: impls
  // ---------------------------------------------------------------------------

  /** `{attributes} impl {name} of {trait path} {\n`. */
  function ImplHeader(impl: ImplAst): string
  {
    impl.attributesText + " impl " + impl.name + " of " + impl.traitPathText + " {\n"
  }

  /** One impl item: functions are rewritten, anything else copied. */
  function ImplItemNodes(item: ImplItem): seq<RewriteNode>
  {
    match item
    case Function(fn) => FunctionNodes(fn)
    case OtherImplItem(node) => [Copied(node)]
  }

  /** The impl-body walk: `iter_items_in_cfg` keeps the items `inCfg`
      accepts, each of which is then rewritten or copied. */
  function ImplItemRewrite(inCfg: ImplItem -> bool): ImplItem -> seq<RewriteNode>
  {
    item => if inCfg(item) then ImplItemNodes(item) else []
  }

  function ImplBodyNodes(items: seq<ImplItem>, inCfg: ImplItem -> bool): seq<RewriteNode>
  {
    FlatMap(items, ImplItemRewrite(inCfg))
  }

  /** The nodes an impl becomes. */
  function ImplNodes(impl: ImplAst, inCfg: ImplItem -> bool): seq<RewriteNode>
  {
    [Mapped(Text(ImplHeader(impl)), impl.node.span)]
    + (match impl.body
       case None => []
       case Some(items) =>
         [Mapped(Interpolated(ImplBodyTemplate, map["body" := Modified(ImplBodyNodes(items, inCfg))]),
                 impl.node.span)])
    + [Text(ClosingBrace)]
  }

  /** The walk over an impl body, as the loop over its items. */
  method RewriteImplBody(items: seq<ImplItem>, inCfg: ImplItem -> bool) returns (nodes: seq<RewriteNode>)
    ensures nodes == ImplBodyNodes(items, inCfg)
  {
    nodes := [];
    for i := 0 to |items|
      invariant nodes == FlatMap(items[..i], ImplItemRewrite(inCfg))
    {
      assert items[..i + 1][..i] == items[..i];
      var item := items[i];
      if inCfg(item) {
        match item
        case Function(fn) =>
          var fnNodes := RewriteFunction(fn);
          nodes := nodes + fnNodes;
        case OtherImplItem(node) =>
          nodes := nodes + [Copied(node)];
      }
    }
    assert items[..|items|] == items;
  }

  /** One impl: a header attributed to the whole impl, its rewritten body
      (when it has one) attributed to the whole impl too, and a closing brace. */
  method RewriteImpl(impl: ImplAst, inCfg: ImplItem -> bool) returns (implNodes: seq<RewriteNode>)
    ensures implNodes == ImplNodes(impl, inCfg)
    ensures |implNodes| == if impl.body.Some? then 3 else 2
    ensures implNodes[0] == Mapped(Text(ImplHeader(impl)), impl.node.span)
    ensures impl.body.Some? ==> implNodes[1].Mapped? && implNodes[1].origin == impl.node.span
    ensures implNodes[|implNodes| - 1] == Text(ClosingBrace)
  {
    implNodes := [Mapped(Text(ImplHeader(impl)), impl.node.span)];
    if impl.body.Some? {
      var bodyNodes := RewriteImplBody(impl.body.value, inCfg);
      var mapped := Mapped(Interpolated(ImplBodyTemplate, map["body" := Modified(bodyNodes)]), impl.node.span);
      implNodes := implNodes + [mapped];
    }
    implNodes := implNodes + [Text(ClosingBrace)];
  }

  // ---------------------------------------------------------------------------
  // handle_mod: the module
  // ---------------------------------------------------------------------------

  /** A module item: impls are rewritten, everything else is copied. */
  function ItemNodes(item: ModuleItem, inCfg: ImplItem -> bool): seq<RewriteNode>
  {
    match item
    case Impl(impl) => ImplNodes(impl, inCfg)
    case _ => [Copied(ItemNode(item))]
  }

  function ItemRewrite(inCfg: ImplItem -> bool): ModuleItem -> seq<RewriteNode>
  {
    item => ItemNodes(item, inCfg)
  }

  function BodyNodes(items: seq<ModuleItem>, inCfg: ImplItem -> bool): seq<RewriteNode>
  {
    FlatMap(items, ItemRewrite(inCfg))
  }

  /** The diagnostic an impl named `bad` raises, located at that impl. */
  function ItemDiagnostics(item: ModuleItem): seq<Diagnostic>
  {
    if item.Impl? && item.impl.name == InvalidImplName
    then [Diagnostic(Error, InvalidImplMessage, item.impl.node.span)]
    else []
  }

  function BodyDiagnostics(items: seq<ModuleItem>): seq<Diagnostic>
  {
    FlatMap(items, ItemDiagnostics)
  }

  /** The module template interpolated with the module name and the body. */
  function ModulePatch(name: string, bodyNodes: seq<RewriteNode>): RewriteNode
  {
    Interpolated(ModuleTemplate, map["name" := Text(name), "body" := Modified(bodyNodes)])
  }

  /** What `handle_mod` returns for a module. */
  function ModResult(m: ModuleAst, inCfg: ImplItem -> bool): PluginResult
  {
    if !HasAttr(m.attributes, ContractAttr) then PluginResult(None, [], false)
    else match m.body
      case None => DefaultResult
      case Some(items) =>
        PluginResult(Some(GeneratedFile(m.name, [ModulePatch(m.name, BodyNodes(items, inCfg) + [Text(StandaloneStruct)])])),
                     BodyDiagnostics(items), true)
  }

  /** The walk over the module's items (the `flat_map` closure of
      `handle_mod`): impls are rewritten and an impl named `bad` pushes a
      diagnostic, any other item is copied. */
  method RewriteModuleItems(items: seq<ModuleItem>, inCfg: ImplItem -> bool)
    returns (bodyNodes: seq<RewriteNode>, diagnostics: seq<Diagnostic>)
    ensures bodyNodes == BodyNodes(items, inCfg)
    ensures diagnostics == BodyDiagnostics(items)
  {
    bodyNodes, diagnostics := [], [];
    for i := 0 to |items|
      invariant bodyNodes == FlatMap(items[..i], ItemRewrite(inCfg))
      invariant diagnostics == FlatMap(items[..i], ItemDiagnostics)
    {
      assert items[..i + 1][..i] == items[..i];
      var el := items[i];
      if el.Impl? {
        var impl := el.impl;
        if impl.name == InvalidImplName {
          diagnostics := diagnostics + [Diagnostic(Error, InvalidImplMessage, impl.node.span)];
        }
        var implNodes := RewriteImpl(impl, inCfg);
        bodyNodes := bodyNodes + implNodes;
      } else {
        bodyNodes := bodyNodes + [Copied(ItemNode(el))];
      }
    }
    assert items[..|items|] == items;
  }

  /** `BuiltinDemoPlugin::handle_mod`. */
  method HandleMod(m: ModuleAst, inCfg: ImplItem -> bool) returns (r: PluginResult)
    ensures r == ModResult(m, inCfg)
    ensures !HasAttr(m.attributes, ContractAttr) ==> r == PluginResult(None, [], false)
    ensures m.body.None? ==> r == DefaultResult
    ensures HasAttr(m.attributes, ContractAttr) && m.body.Some? ==>
              && r.code.Some? && r.code.value.name == m.name
              && r.diagnostics == BodyDiagnostics(m.body.value)
              && r.removeOriginalItem
  {
    if !HasAttr(m.attributes, ContractAttr) {
      return PluginResult(None, [], false);
    }
    var name := m.name;
    if m.body.Some? {
      var builder := new PatchBuilder();
      var bodyNodes, diagnostics := RewriteModuleItems(m.body.value, inCfg);
      // `body_nodes.append(...)`
      bodyNodes := bodyNodes + [Text(StandaloneStruct)];
      builder.AddModified(ModulePatch(name, bodyNodes));
      assert builder.patches == [ModulePatch(name, bodyNodes)];
      assert ModResult(m, inCfg).code.value.patches == [ModulePatch(name, bodyNodes)];
      return PluginResult(Some(GeneratedFile(name, builder.patches)), diagnostics, true);
    }
    return DefaultResult;
  }

  /** `MacroPlugin::declared_attributes`: the one trigger attribute. */
  function DeclaredAttributes(): (attrs: seq<string>)
    ensures attrs == [ContractAttr]
  {
    [ContractAttr]
  }

  /** `MacroPlugin::generate_code`: only a module carrying a declared
      attribute is handed to `handle_mod`; every other item is left alone. */
  method GenerateCode(item: ModuleItem, inCfg: ImplItem -> bool) returns (r: PluginResult)
    ensures !item.Module? ==> r == DefaultResult
    ensures item.Module? ==> r == ModResult(item.mod, inCfg)
    ensures r.code.Some? || r.removeOriginalItem || r.diagnostics != [] ==>
              item.Module? && HasAttr(item.mod.attributes, DeclaredAttributes()[0])
  {
    match item
    case Module(m) =>
      if HasAttr(m.attributes, ContractAttr) {
        r := HandleMod(m, inCfg);
      } else {
        r := DefaultResult;
      }
    case _ =>
      r := DefaultResult;
  }

  // ---------------------------------------------------------------------------
  // Properties of the generated module
  // ---------------------------------------------------------------------------

  /** An impl named `bad` contributes exactly one error diagnostic, located at
      that impl, wherever it stands among its siblings; generation goes on
      and the impl is rewritten like any other. */
  lemma BadImplDiagnosed(before: seq<ModuleItem>, impl: ImplAst, after: seq<ModuleItem>,
                         inCfg: ImplItem -> bool)
    requires impl.name == InvalidImplName
    ensures BodyDiagnostics(before + [Impl(impl)] + after)
         == BodyDiagnostics(before) + [Diagnostic(Error, InvalidImplMessage, impl.node.span)]
            + BodyDiagnostics(after)
    ensures BodyNodes(before + [Impl(impl)] + after, inCfg)
         == BodyNodes(before, inCfg) + ImplNodes(impl, inCfg) + BodyNodes(after, inCfg)
  {
    FlatMapSplit(before, Impl(impl), after, ItemDiagnostics);
    FlatMapSplit(before, Impl(impl), after, ItemRewrite(inCfg));
  }

  /** An item that is not an impl named `bad` adds no diagnostic. */
  lemma OtherItemNotDiagnosed(before: seq<ModuleItem>, item: ModuleItem, after: seq<ModuleItem>)
    requires !(item.Impl? && item.impl.name == InvalidImplName)
    ensures BodyDiagnostics(before + [item] + after) == BodyDiagnostics(before) + BodyDiagnostics(after)
  {
    FlatMapSplit(before, item, after, ItemDiagnostics);
  }

  /** Every diagnostic is the invalid-name error, located at an impl of the
      module that is named `bad`. */
  lemma {:induction false} DiagnosticsPointAtBadImpls(items: seq<ModuleItem>)
    ensures forall d :: d in BodyDiagnostics(items) ==>
              d.severity == Error && d.message == InvalidImplMessage
              && exists k :: 0 <= k < |items| && items[k].Impl? && items[k].impl.name == InvalidImplName
                               && items[k].impl.node.span == d.location
  {
    if items != [] {
      var init := items[..|items| - 1];
      DiagnosticsPointAtBadImpls(init);
      assert forall k :: 0 <= k < |init| ==> init[k] == items[k];
    }
  }

  function KeepCopied(node: RewriteNode): seq<RewriteNode>
  {
    if node.Copied? then [node] else []
  }

  function CopiedIfNotImpl(item: ModuleItem): seq<RewriteNode>
  {
    if item.Impl? then [] else [Copied(ItemNode(item))]
  }

  /** The only top-level copies in the rewritten body are the module's
      non-impl items, each copied verbatim, in their original order. */
  lemma {:induction false} NonImplItemsCopiedInOrder(items: seq<ModuleItem>, inCfg: ImplItem -> bool)
    ensures FlatMap(BodyNodes(items, inCfg), KeepCopied) == FlatMap(items, CopiedIfNotImpl)
  {
    if items != [] {
      var init := items[..|items| - 1];
      var last := items[|items| - 1];
      NonImplItemsCopiedInOrder(init, inCfg);
      FlatMapAppend(BodyNodes(init, inCfg), ItemNodes(last, inCfg), KeepCopied);
      var lastNodes := ItemNodes(last, inCfg);
      if last.Impl? {
        var header := lastNodes[0];
        var close := lastNodes[|lastNodes| - 1];
        if last.impl.body.Some? {
          assert lastNodes == [header] + [lastNodes[1]] + [close];
          FlatMapSplit([header], lastNodes[1], [close], KeepCopied);
          assert FlatMap([header], KeepCopied) == FlatMap([], KeepCopied) + KeepCopied(header);
          assert [header][..0] == [];
        } else {
          assert lastNodes == [header] + [close];
          assert FlatMap([header], KeepCopied) == FlatMap([], KeepCopied) + KeepCopied(header);
          assert [header] + [close] == [header] + [close] + [];
          FlatMapSplit([header], close, [], KeepCopied);
        }
      } else {
        assert FlatMap(lastNodes, KeepCopied) == FlatMap([], KeepCopied) + KeepCopied(lastNodes[0]);
      }
    }
  }

  /** The generated module always ends with the standalone struct, after the
      rewritten items, and is named after the original module. */
  lemma StructAppendedLast(m: ModuleAst, inCfg: ImplItem -> bool)
    requires HasAttr(m.attributes, ContractAttr) && m.body.Some?
    ensures var r := ModResult(m, inCfg);
      && r.code.Some? && r.code.value.name == m.name && |r.code.value.patches| == 1
      && var patch := r.code.value.patches[0];
      && patch.Interpolated? && patch.template == ModuleTemplate
      && patch.patches.Keys == {"name", "body"}
      && patch.patches["name"] == Text(m.name)
      && patch.patches["body"].Modified?
      && var children := patch.patches["body"].children;
      && |children| >= 1 && children[|children| - 1] == Text(StandaloneStruct)
      && children[..|children| - 1] == BodyNodes(m.body.value, inCfg)
  {
  }
}

/** A worked scenario: `impl Foo of Bar { fn f(r: R) { stmt1; } }`
    beside one unrelated item, with every impl item active in the cfg. Spans
    are offsets into the impl's text followed by a space and the item. */
module ContractScenario {
  import opened Ast
  import SyntaxUtils
  import opened Patcher
  import opened Iter
  import opened ContractPlugin

  const Marker := Param(SyntaxNode("r: R", Span(23, 27)), "r", "", "R")
  const Stmt := SyntaxNode("stmt1;", Span(31, 37))
  const Fn := FunctionAst("f", [Marker], "", Span(18, 28), [Stmt])
  const FooImpl := ImplAst(SyntaxNode("impl Foo of Bar { fn f(r: R) { stmt1; } }", Span(0, 41)),
                           "", "Foo", "Bar", Some([Function(Fn)]))
  const Unrelated := SyntaxNode("const X: u8 = 1;", Span(42, 58))

  function AllActive(item: ImplItem): bool
  {
    true
  }

  lemma MarkerRecognised()
    ensures IsMarker(Marker)
  {
  }

  lemma ScenarioParams()
    ensures RewrittenParams([Marker]) == RefReceiver
  {
    MarkerRecognised();
    MarkerDropped([], Marker, []);
    assert [] + [Marker] + [] == [Marker];
    assert ParamEntries([Marker]) == [RefReceiver];
  }

  lemma ScenarioHeader()
    ensures FunctionHeader(Fn) == "fn f(" + RefReceiver + ")  {\n"
  {
    ScenarioParams();
    assert Fn.params == [Marker] && Fn.name == "f" && Fn.retTyText == "";
    var h := FunctionHeader(Fn);
    assert h == "fn " + "f" + "(" + RefReceiver + ") " + "" + " {\n";
    assert "fn " + "f" + "(" == "fn f(";
    assert ") " + "" + " {\n" == ")  {\n";
  }

  lemma ScenarioFunctionNodes()
    ensures FunctionNodes(Fn) == [
      Mapped(Text("fn f(" + RefReceiver + ")  {\n"), Fn.declSpan),
      Text(InjectedLetA),
      Text(InjectedLetB),
      Mapped(Copied(Stmt), Stmt.span),
      Text(ClosingBrace)]
  {
    ScenarioHeader();
    assert Fn.stmts == [Stmt];
  }

  lemma ScenarioImplHeader()
    ensures ImplHeader(FooImpl) == " impl Foo of Bar {\n"
  {
  }

  /** The unrelated item is copied verbatim, the impl header and body are
      attributed to the impl, `f` receives `ref self: ContractState` and the
      two injected statements before `stmt1;`, and no diagnostic is raised. */
  lemma ScenarioRewrite()
    ensures BodyNodes([Impl(FooImpl), OtherItem(Unrelated)], AllActive) == [
      Mapped(Text(" impl Foo of Bar {\n"), FooImpl.node.span),
      Mapped(Interpolated(ImplBodyTemplate, map["body" := Modified([
        Mapped(Text("fn f(" + RefReceiver + ")  {\n"), Fn.declSpan),
        Text(InjectedLetA),
        Text(InjectedLetB),
        Mapped(Copied(Stmt), Stmt.span),
        Text(ClosingBrace)])]), FooImpl.node.span),
      Text(ClosingBrace),
      Copied(Unrelated)]
    ensures BodyDiagnostics([Impl(FooImpl), OtherItem(Unrelated)]) == []
  {
    ScenarioFunctionNodes();
    ScenarioImplHeader();
    assert ImplBodyNodes([Function(Fn)], AllActive) == FunctionNodes(Fn) by {
      assert [Function(Fn)][..0] == [];
      assert ImplBodyNodes([Function(Fn)], AllActive)
          == FlatMap([], ImplItemRewrite(AllActive)) + ImplItemRewrite(AllActive)(Function(Fn));
      assert AllActive(Function(Fn));
      assert ImplItemRewrite(AllActive)(Function(Fn)) == ImplItemNodes(Function(Fn));
    }
    FlatMapSplit([], Impl(FooImpl), [OtherItem(Unrelated)], ItemRewrite(AllActive));
    FlatMapSplit([], Impl(FooImpl), [OtherItem(Unrelated)], ItemDiagnostics);
    assert [] + [Impl(FooImpl)] + [OtherItem(Unrelated)] == [Impl(FooImpl), OtherItem(Unrelated)];
    assert FlatMap([OtherItem(Unrelated)], ItemRewrite(AllActive))
        == FlatMap([], ItemRewrite(AllActive)) + ItemRewrite(AllActive)(OtherItem(Unrelated));
    assert FlatMap([OtherItem(Unrelated)], ItemDiagnostics)
        == FlatMap([], ItemDiagnostics) + ItemDiagnostics(OtherItem(Unrelated));
  }
}
