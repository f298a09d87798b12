/** The JavaScript string built-ins the extension relies on, over `seq<char>`:
    `indexOf`, `split` and `join` on a one-character separator, `replace` with a
    string pattern (first occurrence only), and the decimal rendering of a
    non-negative integer inside a template literal.  `EndsWith` states the
    end-of-input anchor of a regular expression such as `/\.py$/`. */
module Strings {

  /** `t` occurs in `s` starting at index `j`. */
  predicate OccursAt(s: string, t: string, j: int)
  {
    0 <= j && j + |t| <= |s| && s[j..j + |t|] == t
  }

  /** `s` ends with `t`. */
  predicate EndsWith(s: string, t: string)
  {
    |t| <= |s| && s[|s| - |t|..] == t
  }

  /** `t` cannot occur at `j` when the character at offset `k` differs. */
  lemma NoOccurrenceOnMismatch(s: string, t: string, j: int, k: nat)
    requires k < |t| && 0 <= j && j + k < |s| && s[j + k] != t[k]
    ensures !OccursAt(s, t, j)
  {
    if j + |t| <= |s| {
      assert s[j..j + |t|][k] == s[j + k];
    }
  }

  /** `s.indexOf(t)`: the first index at which `t` occurs in `s`, or -1. */
  function IndexOf(s: string, t: string): (r: int)
    ensures r == -1 || OccursAt(s, t, r)
    ensures r == -1 ==> forall j :: 0 <= j <= |s| - |t| ==> !OccursAt(s, t, j)
    ensures r != -1 ==> forall j :: 0 <= j < r ==> !OccursAt(s, t, j)
  {
    IndexFrom(s, t, 0)
  }

  /** The first index at or after `k` at which `t` occurs in `s`, or -1. */
  function IndexFrom(s: string, t: string, k: nat): (r: int)
    ensures r == -1 || (k <= r && OccursAt(s, t, r))
    ensures r == -1 ==> forall j :: k <= j <= |s| - |t| ==> !OccursAt(s, t, j)
    ensures r != -1 ==> forall j :: k <= j < r ==> !OccursAt(s, t, j)
    decreases |s| - k
  {
    if k + |t| > |s| then -1
    else if s[k..k + |t|] == t then k
    else IndexFrom(s, t, k + 1)
  }

  /** `s.replace(pattern, replacement)` with a string pattern: only the first
      occurrence of `pattern` is replaced, wherever it stands. */
  function ReplaceFirst(s: string, pattern: string, replacement: string): (r: string)
    ensures (forall j :: 0 <= j <= |s| - |pattern| ==> !OccursAt(s, pattern, j)) ==> r == s
    ensures OccursAt(s, pattern, 0) ==> r == replacement + s[|pattern|..]
    ensures forall i :: OccursAt(s, pattern, i) && (forall j :: 0 <= j < i ==> !OccursAt(s, pattern, j))
                        ==> r == s[..i] + replacement + s[i + |pattern|..]
    ensures IndexOf(s, pattern) != -1 ==> |r| == |s| - |pattern| + |replacement|
  {
    var i := IndexOf(s, pattern);
    if i == -1 then s else s[..i] + replacement + s[i + |pattern|..]
  }

  /** Where `pattern` first occurs at `i`, the replacement happens there. */
  lemma ReplaceAtFirstOccurrence(s: string, pattern: string, replacement: string, i: nat)
    requires i + |pattern| <= |s| && s[i..i + |pattern|] == pattern
    requires forall j :: 0 <= j < i ==> !OccursAt(s, pattern, j)
    ensures ReplaceFirst(s, pattern, replacement) == s[..i] + replacement + s[i + |pattern|..]
  {
    assert OccursAt(s, pattern, i);
  }

  /** `s.split(sep)` for a one-character separator: always at least one part,
      an empty part between adjacent separators and at either end. */
  function Split(s: string, sep: char): (parts: seq<string>)
    ensures |parts| >= 1
    ensures forall i :: 0 <= i < |parts| ==> sep !in parts[i]
  {
    if s == [] then [""]
    else
      var rest := Split(s[1..], sep);
      if s[0] == sep then [""] + rest
      else [[s[0]] + rest[0]] + rest[1..]
  }

  /** `parts.join(sep)`; the empty list joins to the empty string.  The
      result starts with the first part and has the separator right after it
      when more parts follow; `JoinSplit` and
      `SplitJoin` make it the inverse of `Split`. */
  function Join(parts: seq<string>, sep: char): (r: string)
    ensures |parts| == 0 ==> r == ""
    ensures |parts| >= 1 ==> |parts[0]| <= |r| && r[..|parts[0]|] == parts[0]
    ensures |parts| >= 2 ==> |parts[0]| < |r| && r[|parts[0]|] == sep
  {
    if |parts| == 0 then ""
    else if |parts| == 1 then parts[0]
    else parts[0] + [sep] + Join(parts[1..], sep)
  }

  /** Joining the parts of a split gives the string back. */
  lemma {:induction false} JoinSplit(s: string, sep: char)
    ensures Join(Split(s, sep), sep) == s
  {
    if s != [] {
      JoinSplit(s[1..], sep);
      var rest := Split(s[1..], sep);
      if s[0] != sep && |rest| > 1 {
        assert Join(rest, sep) == rest[0] + [sep] + Join(rest[1..], sep);
      }
    }
  }

  /** A string without the separator splits into itself alone. */
  lemma {:induction false} SplitWithoutSeparator(s: string, sep: char)
    requires sep !in s
    ensures Split(s, sep) == [s]
  {
    if s != [] {
      SplitWithoutSeparator(s[1..], sep);
      assert [s[0]] + s[1..] == s;
    }
  }

  /** Splitting around one separator splits both sides independently. */
  lemma {:induction false} SplitAroundSeparator(a: string, b: string, sep: char)
    ensures Split(a + [sep] + b, sep) == Split(a, sep) + Split(b, sep)
  {
    if a == [] {
      assert a + [sep] + b == [sep] + b;
      assert ([sep] + b)[1..] == b;
    } else {
      assert (a + [sep] + b)[1..] == a[1..] + [sep] + b;
      SplitAroundSeparator(a[1..], b, sep);
    }
  }

  /** Splitting a join of separator-free parts gives the parts back. */
  lemma {:induction false} SplitJoin(parts: seq<string>, sep: char)
    requires |parts| >= 1
    requires forall i :: 0 <= i < |parts| ==> sep !in parts[i]
    ensures Split(Join(parts, sep), sep) == parts
  {
    if |parts| == 1 {
      SplitWithoutSeparator(parts[0], sep);
    } else {
      SplitJoin(parts[1..], sep);
      SplitWithoutSeparator(parts[0], sep);
      SplitAroundSeparator(parts[0], Join(parts[1..], sep), sep);
    }
  }

  /** A join splits at any inner boundary into the joins of the two sides. */
  lemma {:induction false} JoinAt(parts: seq<string>, k: nat, sep: char)
    requires 0 < k < |parts|
    ensures Join(parts, sep) == Join(parts[..k], sep) + [sep] + Join(parts[k..], sep)
  {
    if k > 1 {
      JoinAt(parts[1..], k - 1, sep);
      assert parts[..k][1..] == parts[1..][..k - 1];
      assert parts[1..][k - 1..] == parts[k..];
    }
  }

  /** The last part of a split is the longest separator-free suffix: the
      string ends with it, and the character just before it, if any, is the
      separator. */
  lemma {:induction false} SplitLastIsSuffix(s: string, sep: char)
    ensures var parts := Split(s, sep);
      var last := parts[|parts| - 1];
      && EndsWith(s, last)
      && (|parts| > 1 ==> |last| < |s|)
      && (|last| < |s| ==> s[|s| - |last| - 1] == sep)
  {
    if s != [] {
      var tail := s[1..];
      var rest := Split(tail, sep);
      var parts := Split(s, sep);
      if s[0] != sep && |rest| == 1 {
        JoinSplit(tail, sep);
        assert rest[0] == tail;
        assert parts == [[s[0]] + tail];
        assert [s[0]] + tail == s;
      } else {
        SplitLastIsSuffix(tail, sep);
        var last := rest[|rest| - 1];
        assert parts[|parts| - 1] == last;
        SuffixOfTail(s, last, sep);
      }
    }
  }

  /** A suffix of `s[1..]` that the separator precedes there, or that is all
      of `s[1..]` after a leading separator, is such a suffix of `s`. */
  lemma SuffixOfTail(s: string, last: string, sep: char)
    requires s != [] && EndsWith(s[1..], last)
    requires |last| < |s[1..]| ==> s[1..][|s[1..]| - |last| - 1] == sep
    requires |last| == |s[1..]| ==> s[0] == sep
    ensures EndsWith(s, last)
    ensures |last| < |s| ==> s[|s| - |last| - 1] == sep
  {
    assert s[1..][|s[1..]| - |last|..] == s[|s| - |last|..];
  }

  /** The character is a decimal digit. */
  predicate IsDigit(c: char)
  {
    '0' <= c <= '9'
  }

  /** All characters of `s` are decimal digits. */
  predicate IsDigits(s: string)
  {
    forall i :: 0 <= i < |s| ==> IsDigit(s[i])
  }

  /** A string of digits holds no character that is not a digit. */
  lemma DigitsExclude(s: string, c: char)
    requires IsDigits(s) && !IsDigit(c)
    ensures c !in s
  {
  }

  function DigitChar(d: nat): char
    requires d < 10
  {
    ('0' as int + d) as char
  }

  /** `${n}` in a template literal for a non-negative integer `n`: its decimal
      digits, with no leading zero. */
  function NatToString(n: nat): (s: string)
    ensures |s| >= 1 && IsDigits(s)
    ensures s[0] == '0' <==> n == 0
  {
    if n < 10 then [DigitChar(n)] else NatToString(n / 10) + [DigitChar(n % 10)]
  }

  /** The number a string of decimal digits denotes. */
  function DecimalValue(s: string): nat
    requires IsDigits(s)
  {
    if s == [] then 0 else DecimalValue(s[..|s| - 1]) * 10 + (s[|s| - 1] as int - '0' as int)
  }

  /** Reading the decimal rendering of `n` gives `n` back. */
  lemma {:induction false} DecimalValueOfNatToString(n: nat)
    ensures DecimalValue(NatToString(n)) == n
  {
    if n >= 10 {
      DecimalValueOfNatToString(n / 10);
      var s := NatToString(n);
      assert s[..|s| - 1] == NatToString(n / 10);
    }
  }
}
