# URL scheme grabber: a Dafny model of its core

The extension registers four commands that copy a
`vscode://file/...:line[:column]` URL for the cursor position, optionally as
a markdown link and with the selected text as a fenced code block, and a
fifth that asks the language service for the document's symbols, logs them
and logs the one covering the cursor line, copying nothing.

Its source also holds helpers for a dotted path such as
`package.module.Class.method` (the file's place under the workspace root and
the definitions that enclose a line) and a tree view of document symbols. No
command registered in `src/extension.ts` (lines 172-281) uses them: the two
dotted-path functions are called only from commented-out usage blocks, and
nothing in these files calls the segment helpers or the tree view.

This project models the data computations of the commands and the helpers:

- `wrappers.dfy`, `strings.dfy`: `Option`/`Result`, and the JavaScript string
  operations the source relies on (`indexOf`, `split` on a character, `join`,
  `replace` of the first occurrence, numbers printed in decimal, and the
  end-of-input anchor of `/\.py$/`).
- `dotted_path_helpers.dfy` (module `DottedPathHelpers`): keeping the last `n`
  segments of a dotted string, and cutting a dotted string after the first
  occurrence of a fragment when that occurrence ends on a segment boundary.
- `current_file_dotted_path.dfy` (module `CurrentFileDottedPath`): the dotted
  module path of a file from the workspace root and the file path, optionally
  prefixed by the root's basename.
- `related_defined_symbols.dfy` (module `RelatedDefinedSymbols`): for the
  definition on a line, the chain of shallower `class`/`def` definitions the
  climb picks, meant as the enclosing ones, from the flat list of definitions
  (name, line, column) with the column as depth.
- `document_symbols.dfy` (module `DocumentSymbols`): the editor's hierarchical
  document symbols and their pre-order enumeration.
- `extension.dfy` (module `Extension`): the search for the symbol whose range
  covers a line, and the text of the link the copy command produces.
- `symbol_provider.dfy` (module `SymbolProvider`): the tree view's items, the
  pre-order label search, and the provider class whose stored forest
  `Refresh` replaces and whose `GetChildren` answers the view.

Inputs the extension reads from the editor host are parameters: the workspace
root (`None` when undefined), the active editor (`None` when there is none),
the `includeColumn` setting, the platform's path separator, the definitions
the Python parser's listener records, and the document symbols the language
service returns.

Three behaviours of the code that a reader might not expect; the model follows
the code in both:

- The line search returns the first covering symbol it meets, without looking
  at its children, so for nested symbols it returns the outer one. Its
  descent into the children of a symbol that does not cover the line can only
  find something when a child's range strays outside its parent's
  (`Extension.WellNestedGivesOutermost`), which suggests the innermost
  covering symbol was meant (see "## Findings").
- Cutting `a.b.c.d` after the fragment `b` finds `b` at index 2, followed by
  `.`, and returns `a.b` (`DottedPathHelpers.FindSymbolExampleSingle`).
- The parent climb keeps every definition with a smaller column, wherever it
  stands in the file. A function indented under a module-level `if` on line 2
  and followed by a class on line 3 is reported as `C, f`, although `C` does
  not enclose it (`RelatedDefinedSymbols.LaterShallowerDefinitionExample`).

The order in which the parent search sorts candidates comes from a
comparator that is not a consistent ordering, so the JavaScript engine decides
which candidate comes first. The model takes that choice as a parameter
(`Picker`) and every property of the chain holds for every choice. A separate
choice, `NearestPreceding`, picks what the comparator evidently aims at: the
nearest definition above the line. It is proved to do that.

## Model

| member | source | states |
|---|---|---|
| Strings.IndexOf | src/utils/dottedPathHelpers.ts:17 | the result is -1 or the first index where the fragment occurs; -1 exactly when it occurs nowhere |
| Strings.ReplaceFirst | src/utils/getCurrentFileDottedPath.ts:57 | the pattern's first occurrence, wherever it stands, is swapped for the replacement and the rest is kept; a string without the pattern is unchanged |
| Strings.ReplaceAtFirstOccurrence | src/utils/getCurrentFileDottedPath.ts:57 | where the pattern first occurs at a given index, the result is the text before it, the replacement, then the text after it |
| Strings.Split | src/utils/dottedPathHelpers.ts:4 | splitting on a character always gives at least one part and no part holds the separator |
| Strings.Join | src/utils/dottedPathHelpers.ts:10 | the empty list joins to the empty string; the result starts with the first part, with the separator right after it when more parts follow (with `JoinSplit` and `SplitJoin`, the inverse of `Split`) |
| Strings.JoinSplit | src/utils/dottedPathHelpers.ts:4-10 | joining the parts of a split with the same separator gives back the string |
| Strings.SplitJoin | src/utils/dottedPathHelpers.ts:10 | splitting a join of separator-free parts gives back the parts |
| Strings.SplitLastIsSuffix | src/utils/getCurrentFileDottedPath.ts:62 | the last part of a split ends the string, is shorter than it when there are several parts, and is preceded by the separator when shorter |
| Strings.DecimalValueOfNatToString | src/extension.ts:149 | the decimal text of a line or column number reads back as that number |
| Strings.NatToString | src/extension.ts:149 | a number in a template literal is a non-empty string of decimal digits, starting with `0` exactly when the number is 0 |
| DottedPathHelpers.LastNPeriodSeparatedElements | src/utils/dottedPathHelpers.ts:3-13 | a non-positive `n` gives the empty string; fewer than `n` segments gives the input unchanged |
| DottedPathHelpers.LastNSegmentsAreTheLastN | src/utils/dottedPathHelpers.ts:8-10 | with at least `n >= 1` segments, the result has exactly `n` segments, they are the input's last `n`, and the result is a suffix of the input |
| DottedPathHelpers.LastNIsIdempotent | src/utils/dottedPathHelpers.ts:3-13 | shortening the result again to `n` segments changes nothing |
| DottedPathHelpers.LastTwoOfFourSegments | src/utils/dottedPathHelpers.ts:8-10 | `a.b.c.d` with `n = 2` gives `c.d` |
| DottedPathHelpers.FindSymbolInString | src/utils/dottedPathHelpers.ts:16-28 | nothing when the fragment does not occur; a result, when there is one, is a prefix of the input that ends with the fragment, at a `.` or the end of the input, with no earlier occurrence of the fragment (when there is one: `FindSymbolAtBoundary`, `FindSymbolOnlyFirstOccurrenceCounts`) |
| DottedPathHelpers.FindSymbolAtBoundary | src/utils/dottedPathHelpers.ts:18-25 | when the first occurrence is followed by `.` or ends the input, the result is the input up to the end of that occurrence |
| DottedPathHelpers.FindSymbolOnlyFirstOccurrenceCounts | src/utils/dottedPathHelpers.ts:17-27 | when the first occurrence is followed by anything but `.`, the result is nothing, whatever later occurrences exist |
| DottedPathHelpers.FindSymbolExampleInner | src/utils/dottedPathHelpers.ts:20-21 | `a.b.c.d` searched for `b.c` gives `a.b.c` |
| DottedPathHelpers.FindSymbolExampleLast | src/utils/dottedPathHelpers.ts:22-24 | `a.b.c.d` searched for `d` gives the whole input |
| DottedPathHelpers.FindSymbolExampleSingle | src/utils/dottedPathHelpers.ts:17-21 | `a.b.c.d` searched for `b` gives `a.b` |
| DottedPathHelpers.FindSymbolExampleAbsent | src/utils/dottedPathHelpers.ts:27 | `a.b.c.d` searched for `x` gives nothing |
| DottedPathHelpers.FindSymbolExampleFirstOnly | src/utils/dottedPathHelpers.ts:17-27 | `ab.a` searched for `a` gives nothing: only the first occurrence is considered |
| CurrentFileDottedPath.SeparatorsToDots | src/utils/getCurrentFileDottedPath.ts:58 | every separator becomes `.` and every other character is kept in place |
| CurrentFileDottedPath.NoSeparatorRemains | src/utils/getCurrentFileDottedPath.ts:58 | no separator is left after the replacement |
| CurrentFileDottedPath.DotsKeepComponents | src/utils/getCurrentFileDottedPath.ts:58 | for a path without dots, the dotted segments are the path's components |
| CurrentFileDottedPath.JoinedComponentsToDots | src/utils/getCurrentFileDottedPath.ts:58 | separator-free components joined by the separator become the same components joined by dots |
| CurrentFileDottedPath.StripPyExtension | src/utils/getCurrentFileDottedPath.ts:59 | `.py` is removed only when it ends the string, and then exactly it is removed |
| CurrentFileDottedPath.SliceFromOne | src/utils/getCurrentFileDottedPath.ts:59 | the first character, if any, is dropped and the rest kept |
| CurrentFileDottedPath.StripTrailingSeparators | src/utils/getCurrentFileDottedPath.ts:62 | the result is a prefix of the path that does not end in a separator, and only separators were dropped |
| CurrentFileDottedPath.Basename | src/utils/getCurrentFileDottedPath.ts:62 | the basename holds no separator |
| CurrentFileDottedPath.BasenameIsLastComponent | src/utils/getCurrentFileDottedPath.ts:62 | the path without its trailing separators ends with the basename, and a separator stands just before it unless it is the whole of that path |
| CurrentFileDottedPath.BasenameOfChild | src/utils/getCurrentFileDottedPath.ts:62 | the basename of `dir/name`, with any trailing separators, is `name` |
| CurrentFileDottedPath.DottedPath | src/utils/getCurrentFileDottedPath.ts:57-59 | with a separator other than `.`, no separator is left in the dotted path |
| CurrentFileDottedPath.GetCurrentFileDottedPath | src/utils/getCurrentFileDottedPath.ts:57-67 | without a true flag the result is the root-relative dotted path; with it, the root's basename, a dot, then that path |
| CurrentFileDottedPath.RelativePathUnderRoot | src/utils/getCurrentFileDottedPath.ts:57 | removing the root from a path that starts with it leaves the rest of the path |
| CurrentFileDottedPath.RelativePathToDots | src/utils/getCurrentFileDottedPath.ts:58 | the relative path `/p1/.../pk.py` becomes `.p1. ... .pk.py` |
| CurrentFileDottedPath.DottedPathOfRelative | src/utils/getCurrentFileDottedPath.ts:57-59 | the file `root/rel.py` gets the dotted path `dots` once `/rel.py` becomes `.dots.py` |
| CurrentFileDottedPath.DottedPathUnderRoot | src/utils/getCurrentFileDottedPath.ts:57-59 | the file `root/p1/.../pk.py` gets the dotted path `p1. ... .pk` |
| CurrentFileDottedPath.ModulePathOfFileUnderRoot | src/utils/getCurrentFileDottedPath.ts:57-67 | for a `.py` file under the root, the result is the path components joined by dots, prefixed by the root's basename exactly when the flag is true; with dot-free names its segments are exactly those names |
| CurrentFileDottedPath.ProjectDottedPathExample | src/utils/getCurrentFileDottedPath.ts:57-59 | `/proj/pkg/mod.py` under `/proj` gives `pkg.mod` |
| CurrentFileDottedPath.ProjectBasenameExample | src/utils/getCurrentFileDottedPath.ts:62 | the basename of `/proj` is `proj` |
| CurrentFileDottedPath.PlainBasenameExample | src/utils/getCurrentFileDottedPath.ts:62 | a path without a separator is its own basename: `proj` gives `proj` |
| CurrentFileDottedPath.ProjectModuleExample | src/utils/getCurrentFileDottedPath.ts:61-66 | with the flag undefined, `/proj/pkg/mod.py` gives `pkg.mod` |
| CurrentFileDottedPath.RootFirstAtTwo | src/utils/getCurrentFileDottedPath.ts:57 | in `/x/p/a.py`, `/p` first occurs at index 2 |
| CurrentFileDottedPath.FirstRootOccurrenceExample | src/utils/getCurrentFileDottedPath.ts:57 | `/p` is removed from `/x/p/a.py` where it first occurs, giving `/x/a.py` |
| CurrentFileDottedPath.DottedPathOfPyFile | src/utils/getCurrentFileDottedPath.ts:57-59 | once the relative path's dotted form is `.d.py`, the dotted path is `d` |
| CurrentFileDottedPath.OutsideDotsWithExtension | src/utils/getCurrentFileDottedPath.ts:58 | `/x/a.py` becomes `.x.a.py` |
| CurrentFileDottedPath.OutsideDottedPath | src/utils/getCurrentFileDottedPath.ts:57-59 | `/x/p/a.py` with root `/p` has the dotted path `x.a` |
| CurrentFileDottedPath.RootRemovalIsNotAnchored | src/utils/getCurrentFileDottedPath.ts:57-59 | a file outside the root whose path contains the root still loses it: `/x/p/a.py` under `/p` gives `x.a` |
| RelatedDefinedSymbols.Shallower | src/utils/getRelatedDefinedSymbols.ts:4 | the candidates are exactly the definitions with a smaller column |
| RelatedDefinedSymbols.ParentOf | src/utils/getRelatedDefinedSymbols.ts:4-12 | no parent exactly when no definition has a smaller column; a parent is a recorded definition with a smaller column |
| RelatedDefinedSymbols.DefinedParentSymbols | src/utils/getRelatedDefinedSymbols.ts:3-19 | the climb fails (reading `.column` of `undefined`) exactly when the start is at column 0 or no definition is at column 0 |
| RelatedDefinedSymbols.ExtendParentChain | src/utils/getRelatedDefinedSymbols.ts:18 | putting a parent in front of a chain that starts below it keeps a parent chain |
| RelatedDefinedSymbols.ParentSymbolsFormAChain | src/utils/getRelatedDefinedSymbols.ts:3-19 | a successful climb returns a parent chain of the start followed by the accumulated result: starting at column 0, columns strictly increasing, all left of the start |
| RelatedDefinedSymbols.FirstIndexOnLine | src/utils/getRelatedDefinedSymbols.ts:103 | the first definition on the line, or none exactly when no definition is on it |
| RelatedDefinedSymbols.Names | src/utils/getRelatedDefinedSymbols.ts:111 | one name per definition, in order, each that definition's name |
| RelatedDefinedSymbols.RelatedDefinedSymbols | src/utils/getRelatedDefinedSymbols.ts:103-112 | the empty list exactly when no definition is on the line; an error exactly when that definition is off column 0 and none is at column 0; otherwise a list ending with that definition's name |
| RelatedDefinedSymbols.RelatedSymbolsFollowAParentChain | src/utils/getRelatedDefinedSymbols.ts:107-112 | the names are the target's alone at column 0, otherwise the names of a parent chain of it followed by its own |
| RelatedDefinedSymbols.NearestFrom | src/utils/getRelatedDefinedSymbols.ts:5-8 | the candidate above the line with the smallest distance, or none when no candidate is above |
| RelatedDefinedSymbols.NearestPreceding | src/utils/getRelatedDefinedSymbols.ts:4-12 | when some candidate is above the line, the chosen index is one above it and no candidate above is nearer; when none is, the first |
| RelatedDefinedSymbols.ParentOfNearest | src/utils/getRelatedDefinedSymbols.ts:4-12 | with the nearest-above choice, the parent is the candidate `NearestFrom` finds |
| RelatedDefinedSymbols.NearestPrecedingPicksNearestParent | src/utils/getRelatedDefinedSymbols.ts:4-12 | with the nearest-above choice, whenever a shallower definition is above the line the parent is above it and no shallower definition above is nearer |
| RelatedDefinedSymbols.ClassAndMethodExample | src/utils/getRelatedDefinedSymbols.ts:103-112 | for `class A` and its method `b`, line 2 gives `A, b`, line 1 gives `A`, line 3 gives nothing, whatever the sort order |
| RelatedDefinedSymbols.OneLevelChain | src/utils/getRelatedDefinedSymbols.ts:14-15 | a definition off column 0 whose chosen parent is at column 0 gives the parent's name then its own |
| RelatedDefinedSymbols.TwoClassesTarget | src/utils/getRelatedDefinedSymbols.ts:103 | in the two-class example the definition on line 4 is the method `g` |
| RelatedDefinedSymbols.TwoClassesCandidates | src/utils/getRelatedDefinedSymbols.ts:4 | for the method of the second class, both classes are candidates |
| RelatedDefinedSymbols.TwoClassesNearest | src/utils/getRelatedDefinedSymbols.ts:5-8 | the nearest candidate above is the second class |
| RelatedDefinedSymbols.NearestChoiceExample | src/utils/getRelatedDefinedSymbols.ts:103-112 | with the nearest-above choice, the method of the second class gives `B, g` |
| RelatedDefinedSymbols.LaterShallowerDefinitionExample | src/utils/getRelatedDefinedSymbols.ts:4 | `f` at line 2, column 4 and `C` at line 3, column 0 give `C, f` on line 2 for every sort order: the candidates are not restricted to lines above |
| RelatedDefinedSymbols.OtherSortOrderExample | src/utils/getRelatedDefinedSymbols.ts:4-12 | if the engine puts the first class first, the same line gives `A, g` |
| DocumentSymbols.RootsArePreOrderNodes | src/SymbolProvider.ts:78 | every root is a node of the pre-order enumeration |
| DocumentSymbols.ChildrenNodesArePreOrderNodes | src/SymbolProvider.ts:83 | every node below a node of the forest is a node of the forest |
| Extension.ContainsLine | src/extension.ts:38 | a symbol covers a line when its range starts at or before it and ends at or after it, so only a range that does not end before it starts covers any line |
| Extension.GetContainingSymbol | src/extension.ts:36-47 | a result covers the line and is a node of the forest; nothing exactly when no node of the forest covers the line |
| Extension.Visited | src/extension.ts:36-47 | the nodes the search would test if it did not stop at a covering node, with covering subtrees cut: nodes of the forest, no more of them than the forest has; the search's result is the first covering one (`ContainingSymbolIsFirstVisited`) |
| Extension.FirstContaining | src/extension.ts:37-39 | the first node of a list that covers the line, nothing exactly when none does |
| Extension.ContainingSymbolIsFirstVisited | src/extension.ts:36-47 | the result is the first covering node among those visited, where a covering node's subtree is skipped and an uncovering node's children come before its later siblings |
| Extension.NothingBelowUncoveredRoots | src/extension.ts:40-44 | in a well-nested forest where no root covers the line, the search finds nothing |
| Extension.WellNestedGivesOutermost | src/extension.ts:36-47 | when every child's range lies within its parent's, the result is the first root covering the line |
| Extension.OuterInnerExample | src/extension.ts:38-39 | `Outer` (lines 0-10) holding `Inner` (lines 2-5): line 3 and line 8 both give `Outer`, line 20 gives nothing |
| Extension.ChildBeforeLaterSiblingExample | src/extension.ts:40-43 | a child of an uncovering symbol is found before a covering later sibling |
| Extension.InnermostKeepsTheDescent | src/extension.ts:40-43 | the corrected search too returns a stray child of an uncovering symbol before a covering later sibling |
| Extension.InnermostContainingSymbol | src/extension.ts:36-47 | the corrected search: a result covers the line, is a node of the forest, and nothing below it covers the line; nothing exactly when no node covers the line |
| Extension.InnermostFindsWhatTheSearchFinds | src/extension.ts:36-47 | the corrected search finds a symbol for exactly the lines the original finds one for |
| Extension.InnermostExample | src/extension.ts:36-47 | on the same tree the corrected search gives `Inner` for line 3 and `Outer` for line 8 |
| Extension.Location | src/extension.ts:149 | the `:`-separated fields of the location are the decimal line and, when included, the decimal column, nothing else |
| Extension.Url | src/extension.ts:149 | the URL starts with `vscode://file`, ends with the location, and its `:`-separated fields are those of `vscode://file` and the path followed by those of the location |
| Extension.MarkdownLink | src/extension.ts:151 | the link is `[`, the relative path, `:`, the location, then `](`, the URL and `)` |
| Extension.CodeBlock | src/extension.ts:155 | the block is the opening fence with the language on its own line, the selection unchanged, then a newline and the closing fence |
| Extension.CopyCurrentFilePathWithCurrentLineNumber | src/extension.ts:128-161 | no workspace, no editor and an untitled document fail in that order, each exactly in its case; otherwise the URL with the 1-based line (and column when configured), as a markdown link labelled with the root-relative path when asked, followed by a fenced code block of the selection in the document's language when asked |
| Extension.UrlLocationRoundTrip | src/extension.ts:145-149 | the line, and the column when included, are the URL's last `:`-separated fields and read back as those numbers |
| Extension.UrlExample | src/extension.ts:149 | the URL of `/proj/a.py` at location `5` is `vscode://file/proj/a.py:5` |
| Extension.LinkExamples | src/extension.ts:128-161 | cursor line 4 of `/proj/a.py` in workspace `/proj` gives `vscode://file/proj/a.py:5`; no workspace and an untitled document give their errors |
| SymbolProvider.Label | src/SymbolProvider.ts:71 | the label starts with the symbol's name and ends with `)` |
| SymbolProvider.LabelLinesReadBack | src/SymbolProvider.ts:71 | the label's last two `(`-separated fields hold, before their closing text, the digits of the 1-based first and last lines, whatever the name holds |
| SymbolProvider.SymbolTreeItem.Tooltip | src/SymbolProvider.ts:14 | the tooltip is the label, `-`, then the detail |
| SymbolProvider.SymbolTreeItem.Description | src/SymbolProvider.ts:15 | the description is the detail; `ItemTooltipAndDescription` ties it to the item's symbol |
| SymbolProvider.SymbolTreeItem.ContextValue | src/SymbolProvider.ts:22 | every item has the context value `symbol`; the items themselves are built by `TreeItem`, see `ItemTooltipAndDescription` |
| SymbolProvider.TreeItem | src/SymbolProvider.ts:71-73 | the item is labelled as the search expects, detailed with the kind, never expanded, and collapsed exactly when the symbol has children |
| SymbolProvider.SymbolsToTreeItems | src/SymbolProvider.ts:66-75 | one item per symbol in order, labelled with the name and 1-based first and last lines, detailed with the kind, collapsed exactly when the symbol has children and otherwise not expandable |
| SymbolProvider.ItemTooltipAndDescription | src/SymbolProvider.ts:14-15 | each item's tooltip is its label, `-`, then the kind detail; its description is the kind detail |
| SymbolProvider.FindSymbol | src/SymbolProvider.ts:77-88 | a result has the label and is a node of the forest |
| SymbolProvider.FirstWithLabel | src/SymbolProvider.ts:78-82 | the first node of a list with the label, nothing exactly when none has it |
| SymbolProvider.FindSymbolIsFirstInPreOrder | src/SymbolProvider.ts:77-88 | the search returns exactly the first node in pre-order (a node, then its children, then its later siblings) with the label |
| SymbolProvider.FindSymbolNoneIff | src/SymbolProvider.ts:77-88 | nothing exactly when no node at any depth has the label |
| SymbolProvider.FindSymbolRoundTrip | src/SymbolProvider.ts:71-79 | searching for the label of any node of the forest finds a node with that label |
| SymbolProvider.FindSymbolInverse | src/SymbolProvider.ts:71-79 | with unique labels, searching for a node's label gives back that node |
| SymbolProvider.SymbolProvider.constructor | src/SymbolProvider.ts:31-33 | the provider stores the forest it is given |
| SymbolProvider.SymbolProvider.Refresh | src/SymbolProvider.ts:35-38 | the stored forest is replaced as a whole |
| SymbolProvider.SymbolProvider.GetChildren | src/SymbolProvider.ts:44-63 | no forest gives no items; the view's root gives the items of the roots; an element whose label the search finds gives the items of that node's children; an unmatched label gives no items |
| SymbolProvider.ExpandingShowsChildren | src/SymbolProvider.ts:54-56 | with unique labels, expanding the item of any node shows exactly the items of that node's children |
| SymbolProvider.ChildItemsCanBeExpanded | src/SymbolProvider.ts:54-56 | the label of every item shown below a node finds a node of the stored forest |
| SymbolProvider.AppLabel | src/SymbolProvider.ts:71 | a class on lines 0-2 named `App` is labelled `App Range: l(1) - l(3)` |
| SymbolProvider.RunLabel | src/SymbolProvider.ts:71 | a method on lines 1-2 named `run` is labelled `run Range: l(2) - l(3)` |
| SymbolProvider.TreeViewSession | src/SymbolProvider.ts:31-63 | a provider made without a forest shows nothing; after `Refresh` with the class, the root shows its one collapsed item, which expands to its method's item, not expandable |

## Left out

- The editor host: command registration, clipboard writes, information and
  error messages, reading the active editor, the workspace root and the
  configuration, and the call to the document symbol provider. Their results
  are parameters.
- The tree item base class, the change event and its `fire` in `refresh`,
  `getTreeItem` (it returns its argument) and the optional `command` of an
  item: view plumbing with no data computation.
- The name lookup of a symbol kind: the kind is an opaque string.
- The Python parser and its listener that record the definitions: the list
  of definitions is the input.
- The platform test and Node's `path.basename`: the separator is a
  parameter and basename is the POSIX rule.
- CurrentFileDottedPath.Basename: its own contract states only that no
  separator is left; `BasenameIsLastComponent` states that it is the last
  component and `BasenameOfChild` its value for `dir/name`. Windows drive
  letters and the Windows rule of accepting both separators are not modelled.
- RelatedDefinedSymbols.ParentOf: which shallower candidate the sort puts
  first is engine-dependent and is a parameter; only membership and the column
  bound are stated.
- The command `copyCurrentLanguageServerSymbols` (src/extension.ts:49-79):
  its checks and logging are I/O; it copies nothing. Its line search is
  modelled as `GetContainingSymbol`. The reading of the selected text is a
  parameter.
- The chain mode of the line search and the joining of the two dotted paths
  with a selected fragment: no function in the modelled files does them.
- `async` and promises: the functions are modelled as plain functions.
- Extension.CopyCurrentFilePathWithCurrentLineNumber: the `includeColumn`
  setting is a `bool`; an unset setting counts as `false`.
- The special `$` patterns of JavaScript's `replace`: every replacement
  here is the empty string.
- A non-integer `n` for the last-segments helper: `n` is an integer.
- JavaScript strings are sequences of UTF-16 code units; here a string is a
  sequence of characters, so lengths, `indexOf` positions, indexing and
  `slice(1)` differ from JavaScript for characters outside the Basic
  Multilingual Plane (a first character of that kind would be dropped whole
  by `SliceFromOne`, but only its first code unit by `slice(1)`).

## Findings

| source | as written | input that shows it | evidently intended | confidence | as-written member | corrected member |
|---|---|---|---|---|---|---|
| src/extension.ts:37-44 | a symbol covering the line is returned before its children are looked at, so nested symbols yield the outermost one | `Outer` (lines 0-10) holding `Inner` (lines 2-5), line 3: gives `Outer` | the innermost symbol covering the line, `Inner`; the corrected member keeps the descent into uncovering symbols (`Extension.InnermostKeepsTheDescent`) | medium; not executed | Extension.OuterInnerExample | Extension.InnermostContainingSymbol |
