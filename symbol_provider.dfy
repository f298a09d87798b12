/** The symbol tree view: the items shown for a forest of document symbols,
    and the provider that stores the forest and answers the view's requests
    for the children of an item. */
module SymbolProvider {
  import opened Wrappers
  import opened Strings
  import opened DocumentSymbols

  /** An item's label: the symbol's name and its 1-based first and last lines.
      The same text is built when items are made and when they are looked up. */
  function Label(symbol: DocumentSymbol): (text: string)
    ensures |symbol.name| < |text| && text[..|symbol.name|] == symbol.name && text[|text| - 1] == ')'
  {
    symbol.name + " Range: l(" + NatToString(symbol.range.start.line + 1)
    + ") - l(" + NatToString(symbol.range.end.line + 1) + ")"
  }

  /** The symbol's 1-based first and last lines can be read back from its
      label: they are the digits of its last two `(`-separated fields, whatever
      the name holds. */
  lemma LabelLinesReadBack(symbol: DocumentSymbol)
    ensures var parts := Split(Label(symbol), '(');
      var n := |parts|;
      && n >= 3
      && |parts[n - 2]| > 5 && |parts[n - 1]| > 1
      && var first, last := parts[n - 2][..|parts[n - 2]| - 5], parts[n - 1][..|parts[n - 1]| - 1];
      && IsDigits(first) && DecimalValue(first) == symbol.range.start.line + 1
      && IsDigits(last) && DecimalValue(last) == symbol.range.end.line + 1
  {
    var first := NatToString(symbol.range.start.line + 1);
    var last := NatToString(symbol.range.end.line + 1);
    var head, middle, tail := symbol.name + " Range: l", first + ") - l", last + ")";
    assert Label(symbol) == head + ['('] + (middle + ['('] + tail);
    DigitsExclude(first, '(');
    DigitsExclude(last, '(');
    SplitWithoutSeparator(middle, '(');
    SplitWithoutSeparator(tail, '(');
    SplitAroundSeparator(middle, tail, '(');
    SplitAroundSeparator(head, middle + ['('] + tail, '(');
    assert middle[..|middle| - 5] == first;
    assert tail[..|tail| - 1] == last;
    DecimalValueOfNatToString(symbol.range.start.line + 1);
    DecimalValueOfNatToString(symbol.range.end.line + 1);
  }

  /** Whether the view shows an item as expandable (`None` in the editor's
      terms is `NotCollapsible` here). */
  datatype CollapsibleState = NotCollapsible | Collapsed | Expanded

  /** An item of the view.  Its tooltip and description are derived from its
      label and detail when it is made. */
  datatype SymbolTreeItem = SymbolTreeItem(itemLabel: string, detail: string, collapsibleState: CollapsibleState)
  {
    /** The label, a dash, then the detail. */
    function Tooltip(): (tooltip: string)
      ensures |tooltip| == |itemLabel| + 1 + |detail|
      ensures tooltip[..|itemLabel|] == itemLabel && tooltip[|itemLabel|] == '-'
      ensures tooltip[|itemLabel| + 1..] == detail
    {
      itemLabel + "-" + detail
    }

    /** The detail, shown beside the label. */
    function Description(): (description: string)
      ensures description == detail
    {
      detail
    }

    /** Every item has the context value `symbol`. */
    function ContextValue(): (contextValue: string)
      ensures contextValue == "symbol"
    {
      "symbol"
    }
  }

  /** The item shown for one symbol: never shown expanded at first. */
  function TreeItem(symbol: DocumentSymbol): (item: SymbolTreeItem)
    ensures item.itemLabel == Label(symbol) && item.detail == "Kind: " + symbol.kind
    ensures item.collapsibleState != Expanded
    ensures item.collapsibleState == Collapsed <==> |symbol.children| > 0
  {
    SymbolTreeItem(Label(symbol), "Kind: " + symbol.kind,
                   if |symbol.children| > 0 then Collapsed else NotCollapsible)
  }

  /** `symbolsToTreeItems`: one item per symbol, in order; a symbol with
      children is shown collapsed, one without is not expandable. */
  function SymbolsToTreeItems(symbols: seq<DocumentSymbol>): (items: seq<SymbolTreeItem>)
    ensures |items| == |symbols|
    ensures forall i :: 0 <= i < |symbols| ==>
      && items[i].itemLabel == Label(symbols[i])
      && items[i].detail == "Kind: " + symbols[i].kind
      && (items[i].collapsibleState == Collapsed <==> |symbols[i].children| > 0)
      && (items[i].collapsibleState == NotCollapsible <==> |symbols[i].children| == 0)
    decreases symbols
  {
    if symbols == [] then [] else [TreeItem(symbols[0])] + SymbolsToTreeItems(symbols[1..])
  }

  /** Each item's tooltip is its label, a dash and the symbol's kind; its
      description is the kind. */
  lemma {:induction false} ItemTooltipAndDescription(symbols: seq<DocumentSymbol>, i: nat)
    requires i < |symbols|
    ensures SymbolsToTreeItems(symbols)[i].Tooltip() == Label(symbols[i]) + "-" + "Kind: " + symbols[i].kind
    ensures SymbolsToTreeItems(symbols)[i].Description() == "Kind: " + symbols[i].kind
    ensures SymbolsToTreeItems(symbols)[i] == TreeItem(symbols[i])
    decreases i
  {
    if i > 0 {
      ItemTooltipAndDescription(symbols[1..], i - 1);
    }
  }

  /** `findSymbol`: a pre-order search for a symbol whose label is `text`.  A node is
      tested before its children and its children before its later siblings. */
  function FindSymbol(symbols: seq<DocumentSymbol>, text: string): (r: Option<DocumentSymbol>)
    ensures r.Some? ==> Label(r.value) == text && r.value in PreOrder(symbols)
    decreases symbols
  {
    if symbols == [] then None
    else if Label(symbols[0]) == text then Some(symbols[0])
    else match FindSymbol(symbols[0].children, text)
      case Some(found) => Some(found)
      case None => FindSymbol(symbols[1..], text)
  }

  /** The first node of a flat list with the label. */
  function FirstWithLabel(nodes: seq<DocumentSymbol>, text: string): (r: Option<DocumentSymbol>)
    ensures r.None? <==> forall i :: 0 <= i < |nodes| ==> Label(nodes[i]) != text
    ensures r.Some? ==> exists i :: 0 <= i < |nodes| && nodes[i] == r.value && Label(nodes[i]) == text
                                   && forall j :: 0 <= j < i ==> Label(nodes[j]) != text
  {
    if nodes == [] then None
    else if Label(nodes[0]) == text then Some(nodes[0])
    else
      var r := FirstWithLabel(nodes[1..], text);
      if r.Some? then
        var i :| 0 <= i < |nodes[1..]| && nodes[1..][i] == r.value && Label(nodes[1..][i]) == text
                  && forall j :: 0 <= j < i ==> Label(nodes[1..][j]) != text;
        assert nodes[i + 1] == r.value && forall j :: 0 <= j < i + 1 ==> Label(nodes[j]) != text;
        r
      else r
  }

  lemma {:induction false} FirstWithLabelAppend(a: seq<DocumentSymbol>, b: seq<DocumentSymbol>, text: string)
    ensures FirstWithLabel(a + b, text)
         == if FirstWithLabel(a, text).Some? then FirstWithLabel(a, text) else FirstWithLabel(b, text)
  {
    if a != [] {
      assert (a + b)[1..] == a[1..] + b;
      FirstWithLabelAppend(a[1..], b, text);
    } else {
      assert a + b == b;
    }
  }

  /** The search returns exactly the first node, in pre-order, whose label
      matches. */
  lemma {:induction false} FindSymbolIsFirstInPreOrder(symbols: seq<DocumentSymbol>, text: string)
    ensures FindSymbol(symbols, text) == FirstWithLabel(PreOrder(symbols), text)
    decreases symbols
  {
    if symbols != [] {
      var head := symbols[0];
      FirstWithLabelAppend([head] + PreOrder(head.children), PreOrder(symbols[1..]), text);
      FirstWithLabelAppend([head], PreOrder(head.children), text);
      FindSymbolIsFirstInPreOrder(head.children, text);
      FindSymbolIsFirstInPreOrder(symbols[1..], text);
    }
  }

  /** The search finds nothing exactly when no node of the forest, at any
      depth, has the label. */
  lemma FindSymbolNoneIff(symbols: seq<DocumentSymbol>, text: string)
    ensures FindSymbol(symbols, text).None? <==> forall n :: n in PreOrder(symbols) ==> Label(n) != text
  {
    FindSymbolIsFirstInPreOrder(symbols, text);
  }

  /** Looking up the label of any node of the forest finds a node with that
      label. */
  lemma FindSymbolRoundTrip(symbols: seq<DocumentSymbol>, n: DocumentSymbol)
    requires n in PreOrder(symbols)
    ensures FindSymbol(symbols, Label(n)).Some?
    ensures Label(FindSymbol(symbols, Label(n)).value) == Label(n)
  {
    FindSymbolNoneIff(symbols, Label(n));
  }

  /** No two distinct nodes of the forest share a label. */
  predicate UniqueLabels(symbols: seq<DocumentSymbol>)
  {
    forall m, n :: m in PreOrder(symbols) && n in PreOrder(symbols) && Label(m) == Label(n) ==> m == n
  }

  /** With unique labels, looking up a node's label gives back that node. */
  lemma FindSymbolInverse(symbols: seq<DocumentSymbol>, n: DocumentSymbol)
    requires UniqueLabels(symbols) && n in PreOrder(symbols)
    ensures FindSymbol(symbols, Label(n)) == Some(n)
  {
    FindSymbolRoundTrip(symbols, n);
  }

  /** The data behind the view.  The stored forest may be missing, as the
      symbol provider's answer is when the document has no symbols. */
  class SymbolProvider {
    var symbols: Option<seq<DocumentSymbol>>

    constructor(symbols: Option<seq<DocumentSymbol>>)
      ensures this.symbols == symbols
    {
      this.symbols := symbols;
    }

    /** `refresh`: the stored forest is replaced as a whole. */
    method Refresh(symbols: Option<seq<DocumentSymbol>>)
      modifies this
      ensures this.symbols == symbols
    {
      this.symbols := symbols;
    }

    /** `getChildren`: no items without a forest; the root items for the
        view's root; otherwise the items for the children of the symbol the
        element's label finds, or none when the label finds no symbol. */
    function GetChildren(element: Option<SymbolTreeItem>): (items: seq<SymbolTreeItem>)
      reads this
      ensures symbols.None? ==> items == []
      ensures symbols.Some? && element.None? ==> items == SymbolsToTreeItems(symbols.value)
      ensures symbols.Some? && element.Some? && FindSymbol(symbols.value, element.value.itemLabel).Some? ==>
        items == SymbolsToTreeItems(FindSymbol(symbols.value, element.value.itemLabel).value.children)
      ensures symbols.Some? && element.None? ==> |items| == |symbols.value|
      ensures symbols.Some? && element.Some? && FindSymbol(symbols.value, element.value.itemLabel).None? ==> items == []
      ensures items != [] ==>
        && symbols.Some?
        && (if element.None? then |symbols.value| > 0
            else exists n :: n in PreOrder(symbols.value) && Label(n) == element.value.itemLabel && |items| == |n.children|)
    {
      if symbols.None? then []
      else if element.None? then SymbolsToTreeItems(symbols.value)
      else match FindSymbol(symbols.value, element.value.itemLabel)
        case Some(matching) => SymbolsToTreeItems(matching.children)
        case None => SymbolsToTreeItems([])
    }
  }

  /** When labels are unique, expanding the item of any node of the stored
      forest shows the items of exactly that node's children. */
  lemma ExpandingShowsChildren(provider: SymbolProvider, n: DocumentSymbol)
    requires provider.symbols.Some? && UniqueLabels(provider.symbols.value) && n in PreOrder(provider.symbols.value)
    ensures provider.GetChildren(Some(TreeItem(n))) == SymbolsToTreeItems(n.children)
  {
    FindSymbolInverse(provider.symbols.value, n);
  }

  /** Every item shown below a node can itself be expanded: its label finds
      a node with the same label in the stored forest. */
  lemma ChildItemsCanBeExpanded(provider: SymbolProvider, n: DocumentSymbol, i: nat)
    requires provider.symbols.Some? && n in PreOrder(provider.symbols.value) && i < |n.children|
    ensures FindSymbol(provider.symbols.value, SymbolsToTreeItems(n.children)[i].itemLabel).Some?
  {
    var forest := provider.symbols.value;
    assert n.children[i] in PreOrder(n.children) by {
      RootsArePreOrderNodes(n.children, i);
    }
    ChildrenNodesArePreOrderNodes(forest, n, n.children[i]);
    FindSymbolRoundTrip(forest, n.children[i]);
  }

  /** A class `App` on lines 0-2 holding its method `run` on lines 1-2. */
  function RunMethod(): DocumentSymbol
  {
    DocumentSymbol("run", "Method", Range(Position(1, 4), Position(2, 0)), [])
  }

  function AppClass(): DocumentSymbol
  {
    DocumentSymbol("App", "Class", Range(Position(0, 0), Position(2, 0)), [RunMethod()])
  }

  lemma AppLabel()
    ensures Label(AppClass()) == "App Range: l(1) - l(3)"
  {
    assert NatToString(1) == "1" && NatToString(3) == "3";
  }

  lemma RunLabel()
    ensures Label(RunMethod()) == "run Range: l(2) - l(3)"
  {
    assert NatToString(2) == "2" && NatToString(3) == "3";
  }

  /** The view's requests against a provider whose forest is swapped: no
      items before the first forest; afterwards the root's one item, labelled
      for its symbol and collapsed, which expands to the item of its child. */
  method TreeViewSession() returns (before: seq<SymbolTreeItem>, roots: seq<SymbolTreeItem>,
                                    expanded: seq<SymbolTreeItem>)
    ensures before == []
    ensures |roots| == 1 && roots[0].itemLabel == "App Range: l(1) - l(3)" && roots[0].collapsibleState == Collapsed
    ensures |expanded| == 1 && expanded[0].itemLabel == "run Range: l(2) - l(3)"
            && expanded[0].collapsibleState == NotCollapsible
  {
    var root, leaf := AppClass(), RunMethod();
    var provider := new SymbolProvider(None);
    before := provider.GetChildren(None);
    provider.Refresh(Some([root]));
    roots := provider.GetChildren(None);
    assert roots == [TreeItem(root)];
    expanded := provider.GetChildren(Some(roots[0]));
    assert FindSymbol([root], Label(root)) == Some(root);
    assert expanded == [TreeItem(leaf)];
    AppLabel();
    RunLabel();
  }


}
