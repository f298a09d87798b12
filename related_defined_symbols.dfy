/** `getRelatedDefinedSymbols`: for the definition on a source line, the chain
    of shallower class and function definitions the climb picks, outermost
    first, from the flat list of definitions the parser listener records, with
    indentation column as depth.  The chain is meant as the enclosing
    definitions, but no test looks at lines: a shallower definition further
    down the file can be picked (`LaterShallowerDefinitionExample`). */
module RelatedDefinedSymbols {
  import opened Wrappers

  /** A class or function definition: its name, and the 1-based line and
      0-based column of its `class`/`def` keyword. */
  datatype DefinedSymbol = DefinedSymbol(name: string, line: int, column: nat)

  /** A definition off column 0 with no shallower definition anywhere: the
      source then reads `.column` of `undefined` and throws. */
  datatype ChainError = MissingParent

  /** Which of the shallower candidates the sort puts first.  Its comparator is
      not a consistent ordering, so the outcome depends on the JavaScript
      engine; the model lets any candidate come first: the one at this index,
      or the last one when the index is past the end. */
  type Picker = (DefinedSymbol, seq<DefinedSymbol>) -> nat

  /** `symbols.filter(s => s.column < symbol.column)`. */
  function Shallower(symbol: DefinedSymbol, symbols: seq<DefinedSymbol>): (c: seq<DefinedSymbol>)
    ensures forall s :: s in c <==> s in symbols && s.column < symbol.column
  {
    if symbols == [] then []
    else (if symbols[0].column < symbol.column then [symbols[0]] else []) + Shallower(symbol, symbols[1..])
  }

  /** The parent the source picks for `symbol`: some shallower definition, or
      none when there is none. */
  function ParentOf(symbol: DefinedSymbol, symbols: seq<DefinedSymbol>, pick: Picker): (p: Option<DefinedSymbol>)
    ensures p.None? <==> forall s :: s in symbols ==> s.column >= symbol.column
    ensures p.Some? ==> p.value in symbols && p.value.column < symbol.column
  {
    var candidates := Shallower(symbol, symbols);
    if |candidates| == 0 then None
    else
      var k := pick(symbol, candidates);
      Some(candidates[if k < |candidates| then k else |candidates| - 1])
  }

  /** `chain` is a possible result of the climb from `symbol`, meant as its
      enclosing definitions: it starts at column 0, its columns strictly
      increase, all stay left of `symbol`'s, and every member is one of the
      recorded definitions.  Nothing relates its lines to `symbol`'s. */
  predicate IsParentChain(chain: seq<DefinedSymbol>, symbol: DefinedSymbol, symbols: seq<DefinedSymbol>)
  {
    && |chain| >= 1
    && chain[0].column == 0
    && (forall i :: 0 <= i < |chain| ==> chain[i] in symbols)
    && (forall i, j :: 0 <= i < j < |chain| ==> chain[i].column < chain[j].column)
    && chain[|chain| - 1].column < symbol.column
  }

  /** `getDefinedParentSymbols(symbol, symbols, result)`: climb from `symbol`
      through parents of strictly smaller column until one at column 0, putting
      each parent in front of the accumulated `result`.  It fails exactly when
      no definition sits at column 0 (or `symbol` is itself at column 0). */
  function DefinedParentSymbols(symbol: DefinedSymbol, symbols: seq<DefinedSymbol>,
                                result: seq<DefinedSymbol>, pick: Picker): (r: Result<seq<DefinedSymbol>, ChainError>)
    ensures r.Err? <==> symbol.column == 0 || forall s :: s in symbols ==> s.column != 0
    decreases symbol.column
  {
    match ParentOf(symbol, symbols, pick)
    case None => Err(MissingParent)
    case Some(parent) =>
      if parent.column == 0 then Ok([parent] + result)
      else DefinedParentSymbols(parent, symbols, [parent] + result, pick)
  }

  /** A parent chain of `parent`, followed by `parent`, is a parent chain of
      any deeper definition `symbol`. */
  lemma ExtendParentChain(above: seq<DefinedSymbol>, parent: DefinedSymbol, symbol: DefinedSymbol,
                          symbols: seq<DefinedSymbol>)
    requires IsParentChain(above, parent, symbols)
    requires parent in symbols && parent.column < symbol.column
    ensures IsParentChain(above + [parent], symbol, symbols)
  {
    var chain := above + [parent];
    forall i, j | 0 <= i < j < |chain| ensures chain[i].column < chain[j].column {
      if j < |above| {
        assert chain[i] == above[i] && chain[j] == above[j];
      } else {
        assert chain[i] == above[i];
        assert above[i].column <= above[|above| - 1].column;
      }
    }
  }

  /** Cutting `x` off the front of the tail `v[n..] == [x] + rest`. */
  lemma PeelFront(v: seq<DefinedSymbol>, x: DefinedSymbol, rest: seq<DefinedSymbol>, n: nat)
    requires n + 1 + |rest| == |v| && v[n..] == [x] + rest
    ensures v[n + 1..] == rest && v[..n + 1] == v[..n] + [x]
  {
    assert v[n] == v[n..][0];
    assert v[n + 1..] == v[n..][1..];
  }

  /** A successful climb returns a parent chain of `symbol` followed by the
      accumulated `result`. */
  lemma {:induction false} ParentSymbolsFormAChain(symbol: DefinedSymbol, symbols: seq<DefinedSymbol>,
                                                   result: seq<DefinedSymbol>, pick: Picker)
    requires DefinedParentSymbols(symbol, symbols, result, pick).Ok?
    ensures var v := DefinedParentSymbols(symbol, symbols, result, pick).value;
      && |v| > |result|
      && v[|v| - |result|..] == result
      && IsParentChain(v[..|v| - |result|], symbol, symbols)
    decreases symbol.column
  {
    var parent := ParentOf(symbol, symbols, pick).value;
    var v := DefinedParentSymbols(symbol, symbols, result, pick).value;
    if parent.column == 0 {
      assert v == [parent] + result;
      assert v[..1] == [parent];
    } else {
      var longer := [parent] + result;
      assert v == DefinedParentSymbols(parent, symbols, longer, pick).value;
      ParentSymbolsFormAChain(parent, symbols, longer, pick);
      var n := |v| - |longer|;
      PeelFront(v, parent, result, n);
      ExtendParentChain(v[..n], parent, symbol, symbols);
    }
  }

  /** The names of a list of definitions, in order. */
  function Names(chain: seq<DefinedSymbol>): (names: seq<string>)
    ensures |names| == |chain| && forall i :: 0 <= i < |chain| ==> names[i] == chain[i].name
  {
    seq(|chain|, i requires 0 <= i < |chain| => chain[i].name)
  }

  /** `symbols.filter(s => s.line === lineNumber)[0]`, as an index: the first
      definition on that line, if any. */
  function FirstIndexOnLine(symbols: seq<DefinedSymbol>, lineNumber: int): (r: Option<nat>)
    ensures r.Some? ==>
      && r.value < |symbols|
      && symbols[r.value].line == lineNumber
      && forall j :: 0 <= j < r.value ==> symbols[j].line != lineNumber
    ensures r.None? <==> forall j :: 0 <= j < |symbols| ==> symbols[j].line != lineNumber
  {
    if symbols == [] then None
    else if symbols[0].line == lineNumber then Some(0)
    else match FirstIndexOnLine(symbols[1..], lineNumber)
      case None => None
      case Some(k) => Some(k + 1)
  }

  /** `getRelatedDefinedSymbols` after parsing: the names of the enclosing
      definitions of the first definition on `lineNumber`, then its own name. */
  function RelatedDefinedSymbols(symbols: seq<DefinedSymbol>, lineNumber: int, pick: Picker): (r: Result<seq<string>, ChainError>)
    ensures r == Ok([]) <==> forall j :: 0 <= j < |symbols| ==> symbols[j].line != lineNumber
    ensures r.Err? <==>
      var first := FirstIndexOnLine(symbols, lineNumber);
      && first.Some?
      && symbols[first.value].column != 0
      && forall s :: s in symbols ==> s.column != 0
    ensures r.Ok? && r.value != [] ==>
      r.value[|r.value| - 1] == symbols[FirstIndexOnLine(symbols, lineNumber).value].name
  {
    match FirstIndexOnLine(symbols, lineNumber)
    case None => Ok([])
    case Some(i) =>
      var symbol := symbols[i];
      if symbol.column == 0 then Ok([symbol.name])
      else match DefinedParentSymbols(symbol, symbols, [], pick)
        case Err(e) => Err(e)
        case Ok(parents) => Ok(Names(parents) + [symbol.name])
  }

  /** The names returned are those of a parent chain of the target followed by
      the target's own, or the target's name alone when it is at column 0. */
  lemma RelatedSymbolsFollowAParentChain(symbols: seq<DefinedSymbol>, lineNumber: int, pick: Picker)
    requires FirstIndexOnLine(symbols, lineNumber).Some?
    requires RelatedDefinedSymbols(symbols, lineNumber, pick).Ok?
    ensures
      var target := symbols[FirstIndexOnLine(symbols, lineNumber).value];
      var names := RelatedDefinedSymbols(symbols, lineNumber, pick).value;
      && (target.column == 0 ==> names == [target.name])
      && (target.column != 0 ==>
            exists chain :: IsParentChain(chain, target, symbols) && names == Names(chain) + [target.name])
  {
    var target := symbols[FirstIndexOnLine(symbols, lineNumber).value];
    if target.column != 0 {
      ParentSymbolsFormAChain(target, symbols, [], pick);
      var parents := DefinedParentSymbols(target, symbols, [], pick).value;
      assert parents[..|parents| - 0] == parents;
      assert IsParentChain(parents, target, symbols);
    }
  }

  /** The smallest distance up from `symbol` among candidates `i..` that lie
      on an earlier line, first one on a tie; none when none does. */
  function NearestFrom(symbol: DefinedSymbol, candidates: seq<DefinedSymbol>, i: nat): (r: Option<nat>)
    ensures r.None? <==> forall j :: i <= j < |candidates| ==> candidates[j].line >= symbol.line
    ensures r.Some? ==>
      && i <= r.value < |candidates|
      && candidates[r.value].line < symbol.line
      && forall j :: i <= j < |candidates| && candidates[j].line < symbol.line ==>
           candidates[j].line <= candidates[r.value].line
    decreases |candidates| - i
  {
    if i >= |candidates| then None
    else
      var rest := NearestFrom(symbol, candidates, i + 1);
      if candidates[i].line >= symbol.line then rest
      else match rest
        case None => Some(i)
        case Some(k) => if candidates[k].line > candidates[i].line then Some(k) else Some(i)
  }

  /** The choice the comparator evidently means: the nearest shallower
      definition above `symbol` (smallest positive line distance). */
  function NearestPreceding(symbol: DefinedSymbol, candidates: seq<DefinedSymbol>): (k: nat)
    ensures (exists j :: 0 <= j < |candidates| && candidates[j].line < symbol.line) ==>
      && k < |candidates|
      && candidates[k].line < symbol.line
      && forall j :: 0 <= j < |candidates| && candidates[j].line < symbol.line ==>
           candidates[j].line <= candidates[k].line
    ensures (forall j :: 0 <= j < |candidates| ==> candidates[j].line >= symbol.line) ==> k == 0
  {
    match NearestFrom(symbol, candidates, 0)
    case Some(k) => k
    case None => 0
  }

  /** With the intended choice, the parent is the candidate `NearestFrom` finds. */
  lemma ParentOfNearest(symbol: DefinedSymbol, symbols: seq<DefinedSymbol>)
    requires NearestFrom(symbol, Shallower(symbol, symbols), 0).Some?
    ensures var candidates := Shallower(symbol, symbols);
      ParentOf(symbol, symbols, NearestPreceding)
        == Some(candidates[NearestFrom(symbol, candidates, 0).value])
  {
    var candidates := Shallower(symbol, symbols);
    var k := NearestFrom(symbol, candidates, 0).value;
    assert NearestPreceding(symbol, candidates) == k;
  }

  /** With the intended choice, the parent is the nearest shallower definition
      above `symbol` whenever there is one above it. */
  lemma NearestPrecedingPicksNearestParent(symbol: DefinedSymbol, symbols: seq<DefinedSymbol>, s: DefinedSymbol)
    requires s in symbols && s.column < symbol.column && s.line < symbol.line
    ensures var p := ParentOf(symbol, symbols, NearestPreceding);
      && p.Some?
      && p.value.line < symbol.line
      && forall t :: t in symbols && t.column < symbol.column && t.line < symbol.line ==>
           symbol.line - p.value.line <= symbol.line - t.line
  {
    var candidates := Shallower(symbol, symbols);
    assert s in candidates;
    var j :| 0 <= j < |candidates| && candidates[j] == s;
    assert NearestFrom(symbol, candidates, 0).Some?;
    ParentOfNearest(symbol, symbols);
    var k := NearestFrom(symbol, candidates, 0).value;
    forall t | t in symbols && t.column < symbol.column && t.line < symbol.line
      ensures t.line <= candidates[k].line
    {
      assert t in candidates;
      var m :| 0 <= m < |candidates| && candidates[m] == t;
    }
  }

  /** `class A:` on line 1 and, inside it, `def b():` on line 2, column 4. */
  lemma ClassAndMethodExample(pick: Picker)
    ensures var symbols := [DefinedSymbol("A", 1, 0), DefinedSymbol("b", 2, 4)];
      && RelatedDefinedSymbols(symbols, 2, pick) == Ok(["A", "b"])
      && RelatedDefinedSymbols(symbols, 1, pick) == Ok(["A"])
      && RelatedDefinedSymbols(symbols, 3, pick) == Ok([])
  {
    var a, b := DefinedSymbol("A", 1, 0), DefinedSymbol("b", 2, 4);
    var symbols := [a, b];
    assert symbols[1..] == [b] && [b][1..] == [];
    assert Shallower(b, [b]) == [];
    assert Shallower(b, symbols) == [a];
    assert ParentOf(b, symbols, pick) == Some(a);
    assert DefinedParentSymbols(b, symbols, [], pick) == Ok([a]);
    assert FirstIndexOnLine(symbols, 2) == Some(1);
    assert Names([a]) == ["A"];
    assert Names([a]) + [b.name] == ["A", "b"];
  }

  /** Two top-level classes, `A` on line 1 and `B` on line 3, and a method
      `g` of `B` on line 4 at column 4. */
  function TwoClasses(): seq<DefinedSymbol>
  {
    [DefinedSymbol("A", 1, 0), DefinedSymbol("B", 3, 0), DefinedSymbol("g", 4, 4)]
  }

  lemma TwoClassesTarget()
    ensures FirstIndexOnLine(TwoClasses(), 4) == Some(2)
  {
    var symbols := TwoClasses();
    assert symbols[1..][1..] == symbols[2..];
  }

  lemma TwoClassesCandidates()
    ensures Shallower(TwoClasses()[2], TwoClasses()) == [TwoClasses()[0], TwoClasses()[1]]
  {
    var symbols := TwoClasses();
    var a, b, g := symbols[0], symbols[1], symbols[2];
    assert Shallower(g, [g]) == [] by {
      assert [g][1..] == [];
    }
    assert Shallower(g, [b, g]) == [b] by {
      assert [b, g][1..] == [g];
    }
    assert symbols[1..] == [b, g];
  }

  lemma TwoClassesNearest()
    ensures NearestPreceding(TwoClasses()[2], [TwoClasses()[0], TwoClasses()[1]]) == 1
  {
    var symbols := TwoClasses();
    var a, b, g := symbols[0], symbols[1], symbols[2];
    assert NearestFrom(g, [a, b], 2) == None;
    assert NearestFrom(g, [a, b], 1) == Some(1);
    assert NearestFrom(g, [a, b], 0) == Some(1);
  }

  /** A definition off column 0 whose chosen parent is at column 0 is
      reported as that parent's name and its own. */
  lemma OneLevelChain(symbols: seq<DefinedSymbol>, lineNumber: int, pick: Picker, i: nat, parent: DefinedSymbol)
    requires FirstIndexOnLine(symbols, lineNumber) == Some(i)
    requires symbols[i].column != 0
    requires ParentOf(symbols[i], symbols, pick) == Some(parent) && parent.column == 0
    ensures RelatedDefinedSymbols(symbols, lineNumber, pick) == Ok([parent.name, symbols[i].name])
  {
    assert [parent] + [] == [parent];
    assert DefinedParentSymbols(symbols[i], symbols, [], pick) == Ok([parent]);
    assert Names([parent]) == [parent.name];
    assert Names([parent]) + [symbols[i].name] == [parent.name, symbols[i].name];
  }

  /** A function indented under a module-level `if` on line 2, followed by a
      class on line 3: the class is the function's only shallower definition,
      so it is reported as its parent although it does not enclose it. */
  lemma LaterShallowerDefinitionExample(pick: Picker)
    ensures RelatedDefinedSymbols([DefinedSymbol("f", 2, 4), DefinedSymbol("C", 3, 0)], 2, pick) == Ok(["C", "f"])
  {
    var f, c := DefinedSymbol("f", 2, 4), DefinedSymbol("C", 3, 0);
    var symbols := [f, c];
    assert symbols[1..] == [c];
    assert FirstIndexOnLine(symbols, 2) == Some(0);
    assert Shallower(f, [c]) == [c] + Shallower(f, []);
    assert ParentOf(f, symbols, pick) == Some(c);
    OneLevelChain(symbols, 2, pick, 0, c);
  }

  /** For the method on line 4 the nearest choice gives `B.g`. */
  lemma NearestChoiceExample()
    ensures RelatedDefinedSymbols(TwoClasses(), 4, NearestPreceding) == Ok(["B", "g"])
  {
    var symbols := TwoClasses();
    TwoClassesTarget();
    TwoClassesCandidates();
    TwoClassesNearest();
    assert ParentOf(symbols[2], symbols, NearestPreceding) == Some(symbols[1]);
    OneLevelChain(symbols, 4, NearestPreceding, 2, symbols[1]);
  }

  /** A picker for a sort that leaves the first candidate first. */
  function FirstCandidate(symbol: DefinedSymbol, candidates: seq<DefinedSymbol>): nat
  {
    0
  }

  /** A sort that leaves `A` first gives `A.g` for the same line. */
  lemma OtherSortOrderExample()
    ensures RelatedDefinedSymbols(TwoClasses(), 4, FirstCandidate) == Ok(["A", "g"])
  {
    var symbols := TwoClasses();
    TwoClassesTarget();
    TwoClassesCandidates();
    assert ParentOf(symbols[2], symbols, FirstCandidate) == Some(symbols[0]);
    OneLevelChain(symbols, 4, FirstCandidate, 2, symbols[0]);
  }
}
