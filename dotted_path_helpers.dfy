/** Helpers over dotted strings such as `package.module.Class.method`: keep the
    last few segments, or cut a dotted string just after a searched fragment. */
module DottedPathHelpers {
  import opened Wrappers
  import opened Strings

  /** `getLastNPeriodSeparatedElements`: the last `n` `.`-separated segments of
      `input`; nothing for a non-positive `n`, the whole input when it has fewer
      than `n` segments. */
  function LastNPeriodSeparatedElements(input: string, n: int): (r: string)
    ensures n <= 0 ==> r == ""
    ensures n > 0 && |Split(input, '.')| < n ==> r == input
  {
    var elements := Split(input, '.');
    if n <= 0 then ""
    else if |elements| >= n then Join(elements[|elements| - n..], '.')
    else input
  }

  /** With at least `n >= 1` segments present, the result consists of exactly
      the last `n` segments of the input and is a suffix of it. */
  lemma LastNSegmentsAreTheLastN(input: string, n: int)
    requires 1 <= n <= |Split(input, '.')|
    ensures var elements, r := Split(input, '.'), LastNPeriodSeparatedElements(input, n);
      && Split(r, '.') == elements[|elements| - n..]
      && |Split(r, '.')| == n
      && EndsWith(input, r)
  {
    var elements := Split(input, '.');
    var k := |elements| - n;
    SplitJoin(elements[k..], '.');
    JoinSplit(input, '.');
    if k > 0 {
      JoinAt(elements, k, '.');
    } else {
      assert elements[k..] == elements;
    }
  }

  /** Shortening twice to `n` segments is the same as shortening once. */
  lemma LastNIsIdempotent(input: string, n: int)
    ensures LastNPeriodSeparatedElements(LastNPeriodSeparatedElements(input, n), n)
         == LastNPeriodSeparatedElements(input, n)
  {
    var r := LastNPeriodSeparatedElements(input, n);
    if n > 0 && |Split(input, '.')| >= n {
      LastNSegmentsAreTheLastN(input, n);
      JoinSplit(r, '.');
      assert Split(r, '.')[|Split(r, '.')| - n..] == Split(r, '.');
    }
  }

  lemma LastTwoOfFourSegments()
    ensures LastNPeriodSeparatedElements("a.b.c.d", 2) == "c.d"
  {
    SplitJoin(["a", "b", "c", "d"], '.');
    assert Join(["a", "b", "c", "d"], '.') == "a.b.c.d";
    assert ["a", "b", "c", "d"][2..] == ["c", "d"];
  }

  /** `findSymbolInString`: the prefix of `inputString` that ends where the
      FIRST occurrence of `searchString` ends, provided that occurrence ends on a
      segment boundary (before a `.` or at the end); otherwise nothing. */
  function FindSymbolInString(inputString: string, searchString: string): (r: Option<string>)
    ensures (forall j :: 0 <= j <= |inputString| - |searchString| ==> !OccursAt(inputString, searchString, j))
            ==> r == None
    ensures r.Some? ==>
      var p := r.value;
      && |searchString| <= |p| <= |inputString|
      && p == inputString[..|p|]
      && EndsWith(p, searchString)
      && (|p| == |inputString| || inputString[|p|] == '.')
      && forall j :: 0 <= j < |p| - |searchString| ==> !OccursAt(inputString, searchString, j)
  {
    var index := IndexOf(inputString, searchString);
    if index != -1 then
      if |inputString| > index + |searchString| && inputString[index + |searchString|] == '.' then
        Some(inputString[..index + |searchString|])
      else if |inputString| == index + |searchString| then
        Some(inputString)
      else
        None
    else
      None
  }

  /** When the first occurrence, at `j`, ends on a boundary, the result is the
      input up to the end of that occurrence. */
  lemma FindSymbolAtBoundary(inputString: string, searchString: string, j: nat)
    requires OccursAt(inputString, searchString, j)
    requires forall i :: 0 <= i < j ==> !OccursAt(inputString, searchString, i)
    requires j + |searchString| == |inputString| || inputString[j + |searchString|] == '.'
    ensures FindSymbolInString(inputString, searchString) == Some(inputString[..j + |searchString|])
  {
    var index := IndexOf(inputString, searchString);
    assert index == j;
    if j + |searchString| == |inputString| {
      assert inputString[..j + |searchString|] == inputString;
    }
  }

  /** When the first occurrence, at `j`, is followed by anything but `.`, the
      result is nothing, whatever later occurrences there are. */
  lemma FindSymbolOnlyFirstOccurrenceCounts(inputString: string, searchString: string, j: nat)
    requires OccursAt(inputString, searchString, j)
    requires forall i :: 0 <= i < j ==> !OccursAt(inputString, searchString, i)
    requires j + |searchString| < |inputString| && inputString[j + |searchString|] != '.'
    ensures FindSymbolInString(inputString, searchString) == None
  {
    assert IndexOf(inputString, searchString) == j;
  }

  lemma FindSymbolExampleInner()
    ensures FindSymbolInString("a.b.c.d", "b.c") == Some("a.b.c")
  {
    var s := "a.b.c.d";
    NoOccurrenceOnMismatch(s, "b.c", 0, 0);
    NoOccurrenceOnMismatch(s, "b.c", 1, 0);
    assert OccursAt(s, "b.c", 2);
    FindSymbolAtBoundary(s, "b.c", 2);
    assert s[..5] == "a.b.c";
  }

  lemma FindSymbolExampleLast()
    ensures FindSymbolInString("a.b.c.d", "d") == Some("a.b.c.d")
  {
    var s := "a.b.c.d";
    forall i | 0 <= i < 6 ensures !OccursAt(s, "d", i) {
      NoOccurrenceOnMismatch(s, "d", i, 0);
    }
    assert OccursAt(s, "d", 6);
    FindSymbolAtBoundary(s, "d", 6);
    assert s[..7] == s;
  }

  lemma FindSymbolExampleSingle()
    ensures FindSymbolInString("a.b.c.d", "b") == Some("a.b")
  {
    var s := "a.b.c.d";
    NoOccurrenceOnMismatch(s, "b", 0, 0);
    NoOccurrenceOnMismatch(s, "b", 1, 0);
    assert OccursAt(s, "b", 2);
    FindSymbolAtBoundary(s, "b", 2);
    assert s[..3] == "a.b";
  }

  lemma FindSymbolExampleAbsent()
    ensures FindSymbolInString("a.b.c.d", "x") == None
  {
    var s := "a.b.c.d";
    forall i | 0 <= i <= 6 ensures !OccursAt(s, "x", i) {
      NoOccurrenceOnMismatch(s, "x", i, 0);
    }
  }

  /** The first occurrence of `a` is followed by `b`: nothing, although the
      last one ends the string. */
  lemma FindSymbolExampleFirstOnly()
    ensures FindSymbolInString("ab.a", "a") == None
  {
    assert OccursAt("ab.a", "a", 0);
    FindSymbolOnlyFirstOccurrenceCounts("ab.a", "a", 0);
  }
}
