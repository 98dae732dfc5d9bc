# custom::contract macro plugin — Dafny model

This project models the rewrite logic of the `custom::contract` Cairo macro
plugin. The host compiler hands the plugin one module item. If the module
carries the `custom::contract` attribute, the plugin builds a tree of rewrite
nodes that replaces the module with a `#[starknet::contract]` module:

- each `impl` gets a new header, attributed to the original impl;
- every function in an impl body gets a receiver parameter
  (`ref self: ContractState` when an `r: R` parameter is present, otherwise
  `self: @ContractState`) and two injected statements, and each original
  statement stays attributed to its own span;
- every other item is copied verbatim;
- a `struct S {}` is appended at the end.

An impl named `bad` raises an error diagnostic, and generation goes on anyway.
The earlier version of the plugin (`src/plugin.rs`) is modelled too. It
replaces every impl with a single stub and never raises a diagnostic.

Modules:

- `Ast`: the part of the host's syntax tree the plugin reads (spans, nodes,
  parameters, functions, impls, modules, attributes) and attribute lookup.
- `SyntaxUtils`: Rust's `str::trim` and `get_parameter_info`.
- `Patcher`: the rewrite-node datatype (`Text`, `Copied`, `Mapped`,
  `Modified`, `Interpolated`) and the patch builder class that
  `add_modified` appends to.
- `PluginApi`: the plugin result, generated file and diagnostic types.
- `Joining`: `join(", ")`, and the split at ", " that inverts it.
- `Iter`: `flat_map` over a sequence and its append lemmas.
- `ContractPlugin`: `crates/plugin/src/plugin.rs`.
- `ContractScenario`: a worked example.
- `LegacyPlugin`: `src/plugin.rs`.

The walks of `crates/plugin/src/plugin.rs` are methods with loop invariants.
Two of them have closures that change state: the `filter_map` of
`rewrite_parameters` sets `use_ref`, and the item `flat_map` of `handle_mod`
pushes diagnostics. The other two are the impl-body `flat_map` and the
statement `map` with `extend` in `rewrite_function`.
Each is proved equal to a specification function. The parameter, impl-body and
item walks equal a `FlatMap`, and `RewriteFunction` equals the closed-form
`FunctionNodes`. The `flat_map` of `src/plugin.rs` has a pure closure, so it
is the function `LegacyPlugin.BodyNodes` itself. The properties of the source are
proved as lemmas about these functions.

The cfg filter `iter_items_in_cfg` is a parameter `inCfg: ImplItem -> bool`.
The builder's `build()` is not modelled, so a generated file records the node
trees handed to the builder instead of the rendered text and code mappings.

`filter_map` drops every `r: R` parameter, not only the first; see
`ContractPlugin.MarkerDropped`.

## Model

| member | source | states |
|---|---|---|
| `Ast.FindAttr` | src/plugin.rs:29-37 | `find_attr` finds an attribute exactly when `has_attr` holds, so the `unwrap` after the `has_attr` check cannot fail; the one found is the first attribute with the path |
| `SyntaxUtils.TrimStartSpec` | crates/plugin/src/syntax_utils.rs:23 | `trim_start` leaves the suffix after a whitespace prefix, and that suffix does not start with whitespace |
| `SyntaxUtils.TrimEndSpec` | crates/plugin/src/syntax_utils.rs:23 | `trim_end` leaves the prefix before a whitespace suffix, and that prefix does not end with whitespace |
| `SyntaxUtils.TrimParts` | crates/plugin/src/syntax_utils.rs:23 | every string is whitespace, then its trimmed text, then whitespace; the trimmed text has no whitespace at either end |
| `SyntaxUtils.TrimUnique` | crates/plugin/src/syntax_utils.rs:23 | trim is determined by that decomposition: whitespace + trimmed r + whitespace trims to r |
| `SyntaxUtils.TrimIdempotent` | crates/plugin/src/syntax_utils.rs:23-36 | trimming a trimmed string changes nothing |
| `SyntaxUtils.TrimIgnoresPadding` | crates/plugin/src/syntax_utils.rs:23-36 | whitespace added around a text does not change its trimmed form |
| `SyntaxUtils.ParameterInfoTrimmed` | crates/plugin/src/syntax_utils.rs:22-43 | name, modifiers and type are the trimmed texts of the parameter's parts; none starts or ends with whitespace, and re-trimming leaves each unchanged |
| `Joining.Join` | crates/plugin/src/plugin.rs:318 | joining nothing gives the empty string; a joined list starts with its first entry |
| `Joining.SplitJoin` | crates/plugin/src/plugin.rs:318 | splitting at ", " gives back the joined entries when none of them contains ", " |
| `Patcher.PatchBuilder.constructor` | crates/plugin/src/plugin.rs:47 | a new builder holds no patches |
| `Patcher.PatchBuilder.AddModified` | crates/plugin/src/plugin.rs:119-132 | `add_modified` appends exactly one node tree and changes nothing else |
| `ContractPlugin.NonMarkerCount` | crates/plugin/src/plugin.rs:297-310 | the count of non-`r: R` parameters is at most the number of parameters, and equals it exactly when no parameter is the marker |
| `ContractPlugin.RewriteParameters` | crates/plugin/src/plugin.rs:294-319 | the loop with the `use_ref` flag, the `insert(0, …)` and the join yields the specified list; it starts with `ref self: ContractState` when a marker is present and with `self: @ContractState` otherwise |
| `ContractPlugin.KeptCount` | crates/plugin/src/plugin.rs:300-310 | `filter_map` keeps exactly one text per non-marker parameter |
| `ContractPlugin.MarkerDropped` | crates/plugin/src/plugin.rs:300-313 | a marker parameter anywhere in the list is dropped and makes the receiver `ref self: ContractState`, so every marker is removed, not only the first |
| `ContractPlugin.NonMarkerKept` | crates/plugin/src/plugin.rs:306-308 | a non-marker parameter is emitted as its verbatim text, in its own place among the kept ones |
| `ContractPlugin.NoMarkerKeepsAll` | crates/plugin/src/plugin.rs:297-318 | without a marker, the list is `self: @ContractState` followed by every parameter's text in the original order |
| `ContractPlugin.ReceiverChoice` | crates/plugin/src/plugin.rs:312-316 | the first entry is the `ref` receiver if and only if some parameter is the marker, and the snapshot receiver if and only if none is |
| `ContractPlugin.EntryCount` | crates/plugin/src/plugin.rs:307-318 | the list has 1 + (number of non-marker parameters) entries |
| `ContractPlugin.SplitEntryCount` | crates/plugin/src/plugin.rs:307-318 | splitting the joined string at ", " gives back the entries, 1 + (number of non-marker parameters) of them, when no parameter text contains ", " |
| `ContractPlugin.SplitMiscountsTuple` | crates/plugin/src/plugin.rs:307-318 | with a `p: (u8, u8)` parameter the joined string splits into 3 pieces for 1 non-marker parameter, so the side condition above is needed |
| `ContractPlugin.MarkerIgnoresPadding` | crates/plugin/src/plugin.rs:303 | because name and type are trimmed first, whitespace around them does not change whether a parameter is `r: R` |
| `ContractPlugin.RewriteFunction` | crates/plugin/src/plugin.rs:238-280 | exactly 4 + (number of statements) nodes: the header `fn name(params) ret {` attributed to the declaration span, `let a = 32;`, `let _b = a + 4;`, each statement copied and attributed to its own span in order, then the closing brace |
| `ContractPlugin.RewriteImplBody` | crates/plugin/src/plugin.rs:80-90 | the impl body walk keeps the items the cfg accepts, rewrites functions with `rewrite_function` and copies other items |
| `ContractPlugin.RewriteImpl` | crates/plugin/src/plugin.rs:66-108 | an impl becomes a header attributed to the impl, then, if it has a body, the interpolated body attributed to the impl too, then the closing brace: 3 nodes, or 2 without a body |
| `ContractPlugin.RewriteModuleItems` | crates/plugin/src/plugin.rs:49-114 | the item walk produces the specified nodes and one diagnostic per impl named `bad` |
| `ContractPlugin.HandleMod` | crates/plugin/src/plugin.rs:28-152 | without the attribute: no code, no diagnostics, keep the original; without a body: the default result; otherwise code named after the module, the collected diagnostics, and remove the original |
| `ContractPlugin.DeclaredAttributes` | crates/plugin/src/plugin.rs:215-217 | the plugin declares exactly `custom::contract` |
| `ContractPlugin.GenerateCode` | crates/plugin/src/plugin.rs:197-213 | a non-module item gets the default result; a module gets what `handle_mod` gives it; code, removal or diagnostics arise only for a module carrying the declared attribute |
| `ContractPlugin.BadImplDiagnosed` | crates/plugin/src/plugin.rs:57-64 | an impl named `bad` adds exactly one `Invalid impl name` error at its own span, wherever it stands, and it is still rewritten like any other impl |
| `ContractPlugin.OtherItemNotDiagnosed` | crates/plugin/src/plugin.rs:57-64 | any item other than an impl named `bad` adds no diagnostic |
| `ContractPlugin.DiagnosticsPointAtBadImpls` | crates/plugin/src/plugin.rs:57-64 | every diagnostic is the `Invalid impl name` error located at an impl of the module named `bad` |
| `ContractPlugin.NonImplItemsCopiedInOrder` | crates/plugin/src/plugin.rs:68-112 | the only top-level copies in the rewritten body are the non-impl items, copied verbatim, in their original order |
| `ContractPlugin.StructAppendedLast` | crates/plugin/src/plugin.rs:116-147 | the generated file is named after the module and holds one patch: the module template with the module name and a body of the rewritten items followed by `struct S {}` |
| `ContractScenario.ScenarioRewrite` | crates/plugin/src/plugin.rs:49-114 | for `impl Foo of Bar { fn f(r: R) { stmt1; } }` beside an unrelated item: the item is copied, `f` gets `(ref self: ContractState)` and the two statements before `stmt1;`, and there are no diagnostics |
| `LegacyPlugin.HandleMod` | src/plugin.rs:28-106 | without the attribute: no code, no diagnostics, keep the original; without a body: the default result; otherwise code named after the module, never any diagnostic, and remove the original |
| `LegacyPlugin.OneNodePerItem` | src/plugin.rs:47-70 | one node per item in item order: an impl becomes `impl A of B {}` attributed to the impl's span, every other item is copied |
| `LegacyPlugin.StructAppendedLast` | src/plugin.rs:72-102 | the generated module holds the rewritten items followed by `struct S {}`, and the file is named after the module |
| `LegacyPlugin.DeclaredAttributes` | src/plugin.rs:165-167 | the plugin declares exactly `custom::contract` |
| `LegacyPlugin.GenerateCode` | src/plugin.rs:153-163 | a non-module item gets the default result and a module goes to `handle_mod`; code or removal arise only for a module carrying the declared attribute |

## Left out

- `PatchBuilder::build`: rendering the node tree into text and code mappings happens in the host's `cairo_lang_defs` crate, which is not part of this model. So no property of the generated text or of the mappings (origin substitution by `Mapped`) is stated.
- `RewriteNode::interpolate_patched`: modelled as the `Interpolated` constructor. Placeholder substitution and the failure on an unbound placeholder belong to the same crate.
- `PatchBuilder::new`'s origin argument is not modelled. It only matters to rendering.
- Diagnostics point at the impl through its stable syntax pointer. The model locates them at the impl's span.
- `iter_items_in_cfg`: cfg evaluation is the host's. It is the parameter `inCfg`.
- `CairoPlugin::id`, `instantiate`, `demo_plugin_suite` and `CairoPluginRepository` are left out. They are plugin identity (URL and version parsing) and registration with the host, with no rewrite logic.
- `crates/plugin/src/compiler.rs`, `bins/compiler/src/main.rs`, `src/main.rs` and `bins/ls/src/main.rs` are left out. They are file I/O, compilation driving, command-line parsing and language-server start-up.
- The `println!` of the code mappings in `src/plugin.rs` is left out. It is debug output.
- ContractPlugin.SplitEntryCount: the entry count ("1 + non-marker parameters") is proved only when no parameter text contains ", ". A tuple-typed parameter breaks it (`ContractPlugin.SplitMiscountsTuple`). The unconditional count is proved on the list before joining (`ContractPlugin.EntryCount`).
