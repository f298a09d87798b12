/** The host editor's document symbols, as values: the forest its symbol
    provider returns for a document. */
module DocumentSymbols {

  /** A 0-based line and character. */
  datatype Position = Position(line: nat, character: nat)

  datatype Range = Range(start: Position, end: Position)

  /** A symbol with its nested symbols, in source order.  `kind` stands for
      the name the host gives the symbol's kind (`Class`, `Method`, ...). */
  datatype DocumentSymbol = DocumentSymbol(name: string, kind: string, range: Range, children: seq<DocumentSymbol>)

  /** Every node of the forest in pre-order: a node, then the subtrees of its
      children, then those of its later siblings. */
  function PreOrder(symbols: seq<DocumentSymbol>): seq<DocumentSymbol>
    decreases symbols
  {
    if symbols == [] then [] else [symbols[0]] + PreOrder(symbols[0].children) + PreOrder(symbols[1..])
  }

  /** Every root of the forest is one of its nodes. */
  lemma RootsArePreOrderNodes(symbols: seq<DocumentSymbol>, i: nat)
    requires i < |symbols|
    ensures symbols[i] in PreOrder(symbols)
    decreases i
  {
    if i > 0 {
      RootsArePreOrderNodes(symbols[1..], i - 1);
    }
  }

  /** The nodes of a node's children are nodes of the forest. */
  lemma ChildrenNodesArePreOrderNodes(symbols: seq<DocumentSymbol>, n: DocumentSymbol, m: DocumentSymbol)
    requires n in PreOrder(symbols) && m in PreOrder(n.children)
    ensures m in PreOrder(symbols)
    decreases symbols
  {
    if n != symbols[0] || m !in PreOrder(symbols[0].children) {
      if n in PreOrder(symbols[0].children) {
        ChildrenNodesArePreOrderNodes(symbols[0].children, n, m);
      } else if n in PreOrder(symbols[1..]) {
        ChildrenNodesArePreOrderNodes(symbols[1..], n, m);
      }
    }
  }
}
