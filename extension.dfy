/** The extension's commands, with the editor's state passed in: the symbol
    search by line, and the text of the link the copy commands produce. */
module Extension {
  import opened Wrappers
  import opened Strings
  import opened DocumentSymbols

  /** The symbol's range covers the line, both ends included; only a range
      that does not end before it starts covers any line. */
  predicate ContainsLine(symbol: DocumentSymbol, lineNumber: nat)
    ensures ContainsLine(symbol, lineNumber) ==> symbol.range.start.line <= symbol.range.end.line
  {
    symbol.range.start.line <= lineNumber && symbol.range.end.line >= lineNumber
  }

  /** `getContainingSymbol`: the first symbol, in order, whose range covers the
      line.  A covering symbol is returned at once, without looking inside it;
      only a symbol that does not cover the line has its children searched,
      before its later siblings. */
  function GetContainingSymbol(lineNumber: nat, symbols: seq<DocumentSymbol>): (r: Option<DocumentSymbol>)
    ensures r.Some? ==> ContainsLine(r.value, lineNumber) && r.value in PreOrder(symbols)
    ensures r.None? <==> forall n :: n in PreOrder(symbols) ==> !ContainsLine(n, lineNumber)
    decreases symbols
  {
    if symbols == [] then None
    else if ContainsLine(symbols[0], lineNumber) then Some(symbols[0])
    else match GetContainingSymbol(lineNumber, symbols[0].children)
      case Some(found) => Some(found)
      case None => GetContainingSymbol(lineNumber, symbols[1..])
  }

  /** The nodes the search would test, in the order it would test them, if it
      did not stop at a covering node: a covering node is listed but its
      subtree is not, and the later siblings follow.  The search's result is
      the first covering one (`ContainingSymbolIsFirstVisited`). */
  function Visited(lineNumber: nat, symbols: seq<DocumentSymbol>): (visited: seq<DocumentSymbol>)
    ensures forall n :: n in visited ==> n in PreOrder(symbols)
    ensures |visited| <= |PreOrder(symbols)|
    decreases symbols
  {
    if symbols == [] then []
    else
      [symbols[0]]
      + (if ContainsLine(symbols[0], lineNumber) then [] else Visited(lineNumber, symbols[0].children))
      + Visited(lineNumber, symbols[1..])
  }

  /** The first node of a flat list that covers the line. */
  function FirstContaining(lineNumber: nat, nodes: seq<DocumentSymbol>): (r: Option<DocumentSymbol>)
    ensures r.None? <==> forall i :: 0 <= i < |nodes| ==> !ContainsLine(nodes[i], lineNumber)
    ensures r.Some? ==> r.value in nodes && ContainsLine(r.value, lineNumber)
  {
    if nodes == [] then None
    else if ContainsLine(nodes[0], lineNumber) then Some(nodes[0])
    else FirstContaining(lineNumber, nodes[1..])
  }

  lemma {:induction false} FirstContainingAppend(lineNumber: nat, a: seq<DocumentSymbol>, b: seq<DocumentSymbol>)
    ensures FirstContaining(lineNumber, a + b)
         == if FirstContaining(lineNumber, a).Some? then FirstContaining(lineNumber, a) else FirstContaining(lineNumber, b)
  {
    if a != [] {
      assert (a + b)[1..] == a[1..] + b;
      FirstContainingAppend(lineNumber, a[1..], b);
    } else {
      assert a + b == b;
    }
  }

  /** The search returns the first covering node among those it visits, and
      nothing exactly when no visited node covers the line. */
  lemma {:induction false} ContainingSymbolIsFirstVisited(lineNumber: nat, symbols: seq<DocumentSymbol>)
    ensures GetContainingSymbol(lineNumber, symbols) == FirstContaining(lineNumber, Visited(lineNumber, symbols))
    decreases symbols
  {
    if symbols != [] {
      var head := symbols[0];
      var inner := if ContainsLine(head, lineNumber) then [] else Visited(lineNumber, head.children);
      FirstContainingAppend(lineNumber, [head] + inner, Visited(lineNumber, symbols[1..]));
      FirstContainingAppend(lineNumber, [head], inner);
      if !ContainsLine(head, lineNumber) {
        ContainingSymbolIsFirstVisited(lineNumber, head.children);
        ContainingSymbolIsFirstVisited(lineNumber, symbols[1..]);
      }
    }
  }

  /** A range lies within another, by lines. */
  predicate RangeWithin(inner: Range, outer: Range)
  {
    outer.start.line <= inner.start.line && inner.end.line <= outer.end.line
  }

  /** Every child's range lies within its parent's, at every depth. */
  predicate WellNested(symbols: seq<DocumentSymbol>)
    decreases symbols
  {
    forall i :: 0 <= i < |symbols| ==>
      && (forall c :: c in symbols[i].children ==> RangeWithin(c.range, symbols[i].range))
      && WellNested(symbols[i].children)
  }

  /** When no root covers the line in a well-nested forest, no node does. */
  lemma {:induction false} NothingBelowUncoveredRoots(lineNumber: nat, symbols: seq<DocumentSymbol>)
    requires WellNested(symbols)
    requires forall i :: 0 <= i < |symbols| ==> !ContainsLine(symbols[i], lineNumber)
    ensures GetContainingSymbol(lineNumber, symbols) == None
    decreases symbols
  {
    if symbols != [] {
      var head := symbols[0];
      forall i | 0 <= i < |head.children| ensures !ContainsLine(head.children[i], lineNumber) {
        assert head.children[i] in head.children;
      }
      NothingBelowUncoveredRoots(lineNumber, head.children);
      assert WellNested(symbols[1..]) by {
        forall i | 0 <= i < |symbols[1..]|
          ensures (forall c :: c in symbols[1..][i].children ==> RangeWithin(c.range, symbols[1..][i].range))
          ensures WellNested(symbols[1..][i].children)
        {
          assert symbols[1..][i] == symbols[i + 1];
        }
      }
      NothingBelowUncoveredRoots(lineNumber, symbols[1..]);
    }
  }

  /** In a well-nested forest the search never goes below the roots: it
      returns the first root that covers the line (the outermost symbol). */
  lemma {:induction false} WellNestedGivesOutermost(lineNumber: nat, symbols: seq<DocumentSymbol>)
    requires WellNested(symbols)
    ensures GetContainingSymbol(lineNumber, symbols) == FirstContaining(lineNumber, symbols)
    decreases symbols
  {
    if symbols != [] && !ContainsLine(symbols[0], lineNumber) {
      var head := symbols[0];
      forall i | 0 <= i < |head.children| ensures !ContainsLine(head.children[i], lineNumber) {
        assert head.children[i] in head.children;
      }
      NothingBelowUncoveredRoots(lineNumber, head.children);
      assert WellNested(symbols[1..]) by {
        forall i | 0 <= i < |symbols[1..]|
          ensures (forall c :: c in symbols[1..][i].children ==> RangeWithin(c.range, symbols[1..][i].range))
          ensures WellNested(symbols[1..][i].children)
        {
          assert symbols[1..][i] == symbols[i + 1];
        }
      }
      WellNestedGivesOutermost(lineNumber, symbols[1..]);
    }
  }

  /** The symbol the search evidently means to return: the innermost one
      covering the line.  A covering symbol's children are searched first and
      the symbol itself is returned only when nothing below it covers the line.
      Like the original, it also searches the children of a symbol that does
      not cover the line, before that symbol's later siblings: in a tree whose
      child ranges stray outside their parent's, a stray child can win over a
      covering later sibling (`InnermostKeepsTheDescent`). */
  function InnermostContainingSymbol(lineNumber: nat, symbols: seq<DocumentSymbol>): (r: Option<DocumentSymbol>)
    ensures r.Some? ==> ContainsLine(r.value, lineNumber) && r.value in PreOrder(symbols)
    ensures r.Some? ==> forall n :: n in PreOrder(r.value.children) ==> !ContainsLine(n, lineNumber)
    ensures r.None? <==> forall n :: n in PreOrder(symbols) ==> !ContainsLine(n, lineNumber)
    decreases symbols
  {
    if symbols == [] then None
    else match InnermostContainingSymbol(lineNumber, symbols[0].children)
      case Some(inner) => Some(inner)
      case None =>
        if ContainsLine(symbols[0], lineNumber) then Some(symbols[0])
        else InnermostContainingSymbol(lineNumber, symbols[1..])
  }

  /** Both searches find a symbol for exactly the same lines. */
  lemma InnermostFindsWhatTheSearchFinds(lineNumber: nat, symbols: seq<DocumentSymbol>)
    ensures InnermostContainingSymbol(lineNumber, symbols).None? <==> GetContainingSymbol(lineNumber, symbols).None?
  {
  }

  function Span(name: string, first: nat, last: nat, children: seq<DocumentSymbol>): DocumentSymbol
  {
    DocumentSymbol(name, "Class", Range(Position(first, 0), Position(last, 0)), children)
  }

  /** `Outer` spans lines 0 to 10 and holds `Inner`, lines 2 to 5: line 3 and
      line 8 both give `Outer`, line 20 gives nothing. */
  lemma OuterInnerExample()
    ensures var inner := Span("Inner", 2, 5, []);
      var outer := Span("Outer", 0, 10, [inner]);
      && GetContainingSymbol(3, [outer]) == Some(outer)
      && GetContainingSymbol(8, [outer]) == Some(outer)
      && GetContainingSymbol(20, [outer]) == None
  {
    var inner := Span("Inner", 2, 5, []);
    var outer := Span("Outer", 0, 10, [inner]);
    assert [inner][1..] == [] && [outer][1..] == [];
  }

  /** On the same tree the innermost search gives `Inner` for line 3 and
      still `Outer` for line 8. */
  lemma InnermostExample()
    ensures var inner := Span("Inner", 2, 5, []);
      var outer := Span("Outer", 0, 10, [inner]);
      && InnermostContainingSymbol(3, [outer]) == Some(inner)
      && InnermostContainingSymbol(8, [outer]) == Some(outer)
  {
    var inner := Span("Inner", 2, 5, []);
    var outer := Span("Outer", 0, 10, [inner]);
    assert [inner][1..] == [] && [outer][1..] == [];
  }

  /** A symbol that does not cover the line has its children searched before
      its later siblings, even when a later sibling covers the line. */
  lemma ChildBeforeLaterSiblingExample()
    ensures var stray := Span("stray", 7, 7, []);
      var first := Span("first", 0, 2, [stray]);
      var second := Span("second", 5, 9, []);
      GetContainingSymbol(7, [first, second]) == Some(stray)
  {
    var stray := Span("stray", 7, 7, []);
    var first := Span("first", 0, 2, [stray]);
    var second := Span("second", 5, 9, []);
    assert [stray][1..] == [];
  }

  /** The corrected search keeps the descent into symbols that do not cover
      the line: it too returns the stray child. */
  lemma InnermostKeepsTheDescent()
    ensures var stray := Span("stray", 7, 7, []);
      var first := Span("first", 0, 2, [stray]);
      var second := Span("second", 5, 9, []);
      InnermostContainingSymbol(7, [first, second]) == Some(stray)
  {
    var stray := Span("stray", 7, 7, []);
    assert [stray][1..] == [];
  }

  /** The document shown in the active editor. */
  datatype TextDocument = TextDocument(uriPath: string, isUntitled: bool, languageId: string)

  /** The active editor: its document, the cursor's 0-based line and
      character, and the text of the selection. */
  datatype TextEditor = TextEditor(document: TextDocument, activeLine: nat, activeCharacter: nat, selectedText: string)

  /** The errors the copy commands raise, in the order they are checked. */
  datatype LinkError = NoWorkspaceOpen | NoTextEditorOpen | DocumentIsUntitled

  /** `line`, then `:column` when the column is included: its `:`-separated
      fields are the decimal numbers, nothing else. */
  function Location(lineNumber: nat, columnNumber: nat, includeColumn: bool): (location: string)
    ensures Split(location, ':')
         == [NatToString(lineNumber)] + (if includeColumn then [NatToString(columnNumber)] else [])
  {
    var line, column := NatToString(lineNumber), NatToString(columnNumber);
    DigitsExclude(line, ':');
    SplitWithoutSeparator(line, ':');
    if includeColumn then
      DigitsExclude(column, ':');
      SplitWithoutSeparator(column, ':');
      SplitAroundSeparator(line, column, ':');
      assert line + (":" + column) == line + [':'] + column;
      line + (":" + column)
    else
      assert line + "" == line;
      line + ""
  }

  /** The editor URL that opens the file at the location: the location's
      fields are the URL's last `:`-separated fields. */
  function Url(path: string, location: string): (url: string)
    ensures |url| >= 13 && url[..13] == "vscode://file" && EndsWith(url, location)
    ensures Split(url, ':') == Split("vscode://file" + path, ':') + Split(location, ':')
  {
    var head := "vscode://file" + path;
    SplitAroundSeparator(head, location, ':');
    assert head + ":" + location == head + [':'] + location;
    head + ":" + location
  }

  /** A markdown link: the relative path and location in brackets, then the
      URL in parentheses. */
  function MarkdownLink(relativePath: string, location: string, url: string): (link: string)
    ensures |link| == |relativePath| + |location| + |url| + 5
    ensures link[..|relativePath| + 1] == "[" + relativePath
    ensures link[|relativePath| + 1] == ':' && link[|relativePath| + 1 + 1..|relativePath| + 1 + 1 + |location|] == location
    ensures link[|relativePath| + 1 + 1 + |location|..] == "](" + url + ")"
  {
    "[" + relativePath + ":" + location + "](" + url + ")"
  }

  /** A fenced code block tagged with the document's language: the selection
      stands alone between the opening fence line and the closing fence. */
  function CodeBlock(languageId: string, selectedText: string): (block: string)
    ensures |block| == |languageId| + |selectedText| + 8
    ensures block[..3 + |languageId| + 1] == "```" + languageId + "\n"
    ensures block[3 + |languageId| + 1..|block| - 4] == selectedText
    ensures block[|block| - 4..] == "\n```"
  {
    "```" + languageId + "\n" + selectedText + "\n```"
  }

  /** `copyCurrentFilePathWithCurrentLineNumber`, with the workspace root
      (`undefined` as `None`), the active editor and the `includeColumn`
      setting passed in. */
  method CopyCurrentFilePathWithCurrentLineNumber(rootPath: Option<string>, editor: Option<TextEditor>,
                                                  includeColumn: bool, markdown: bool,
                                                  includeHighlightedTextAsCodeBlock: bool)
    returns (r: Result<string, LinkError>)
    ensures r == Err(NoWorkspaceOpen) <==> rootPath == None || rootPath == Some("")
    ensures r == Err(NoTextEditorOpen) <==> rootPath != None && rootPath != Some("") && editor == None
    ensures r == Err(DocumentIsUntitled) <==>
      rootPath != None && rootPath != Some("") && editor != None && editor.value.document.isUntitled
    ensures r.Ok? <==>
      rootPath != None && rootPath != Some("") && editor != None && !editor.value.document.isUntitled
    ensures r.Ok? ==>
      var e := editor.value;
      var location := Location(e.activeLine + 1, e.activeCharacter + 1, includeColumn);
      var url := Url(e.document.uriPath, location);
      var link := if markdown then MarkdownLink(ReplaceFirst(e.document.uriPath, rootPath.value, ""), location, url)
                  else url;
      r.value == if includeHighlightedTextAsCodeBlock
                 then link + "\n" + CodeBlock(e.document.languageId, e.selectedText)
                 else link
  {
    if rootPath == None || rootPath == Some("") {
      return Err(NoWorkspaceOpen);
    }
    if editor == None {
      return Err(NoTextEditorOpen);
    }
    var document := editor.value.document;
    if document.isUntitled {
      return Err(DocumentIsUntitled);
    }
    var path := document.uriPath;
    var relativePath := ReplaceFirst(path, rootPath.value, "");
    var lineNumber := editor.value.activeLine + 1;
    var columnNumber := editor.value.activeCharacter + 1;
    var location := Location(lineNumber, columnNumber, includeColumn);
    var url := Url(path, location);
    var output := if markdown then MarkdownLink(relativePath, location, url) else url;
    if includeHighlightedTextAsCodeBlock {
      var codeBlock := CodeBlock(document.languageId, editor.value.selectedText);
      output := output + "\n" + codeBlock;
    }
    return Ok(output);
  }

  /** The line, and the column when included, can be read back from the URL:
      they are its last `:`-separated fields. */
  lemma UrlLocationRoundTrip(path: string, lineNumber: nat, columnNumber: nat, includeColumn: bool)
    ensures var parts := Split(Url(path, Location(lineNumber, columnNumber, includeColumn)), ':');
      var n := |parts|;
      if includeColumn then
        && n >= 3
        && IsDigits(parts[n - 2]) && DecimalValue(parts[n - 2]) == lineNumber
        && IsDigits(parts[n - 1]) && DecimalValue(parts[n - 1]) == columnNumber
      else
        && n >= 2
        && IsDigits(parts[n - 1]) && DecimalValue(parts[n - 1]) == lineNumber
  {
    var line, column := NatToString(lineNumber), NatToString(columnNumber);
    var head := "vscode://file" + path;
    var location := Location(lineNumber, columnNumber, includeColumn);
    assert Url(path, location) == head + [':'] + location;
    SplitAroundSeparator(head, location, ':');
    DigitsExclude(line, ':');
    SplitWithoutSeparator(line, ':');
    DecimalValueOfNatToString(lineNumber);
    if includeColumn {
      assert location == line + [':'] + column;
      DigitsExclude(column, ':');
      SplitWithoutSeparator(column, ':');
      SplitAroundSeparator(line, column, ':');
      DecimalValueOfNatToString(columnNumber);
    } else {
      assert location == line;
    }
  }

  lemma UrlExample()
    ensures Url("/proj/a.py", "5") == "vscode://file/proj/a.py:5"
  {
  }

  /** The link for cursor line 4, character 2 of `/proj/a.py` in workspace
      `/proj`, and the errors without a workspace and for an untitled document. */
  method LinkExamples() returns (raw: Result<string, LinkError>, none: Result<string, LinkError>,
                                 untitled: Result<string, LinkError>)
    ensures raw == Ok("vscode://file/proj/a.py:5")
    ensures none == Err(NoWorkspaceOpen)
    ensures untitled == Err(DocumentIsUntitled)
  {
    var editor := TextEditor(TextDocument("/proj/a.py", false, "python"), 4, 2, "x = 1");
    raw := CopyCurrentFilePathWithCurrentLineNumber(Some("/proj"), Some(editor), false, false, false);
    assert "/proj" != "";
    assert NatToString(5) == "5";
    assert Location(5, 3, false) == "5";
    assert raw == Ok(Url("/proj/a.py", "5"));
    UrlExample();
    none := CopyCurrentFilePathWithCurrentLineNumber(None, Some(editor), false, false, false);
    untitled := CopyCurrentFilePathWithCurrentLineNumber(
      Some("/proj"), Some(editor.(document := editor.document.(isUntitled := true))), true, true, true);
  }
}
