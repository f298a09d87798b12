/** `getCurrentFileDottedPath`: the dotted module path of a source file, from
    the workspace root's path and the file's path.  The platform's path
    separator is a parameter (`\` on Windows, `/` elsewhere). */
module CurrentFileDottedPath {
  import opened Wrappers
  import opened Strings

  /** The two separators the platform test can choose between. */
  predicate IsPathSeparator(sep: char)
  {
    sep == '/' || sep == '\\'
  }

  /** The global replace of the separator by `.`: each character is kept,
      except that the separator becomes `.`. */
  function SeparatorsToDots(s: string, sep: char): (r: string)
    ensures |r| == |s|
    ensures forall i :: 0 <= i < |s| ==> r[i] == (if s[i] == sep then '.' else s[i])
  {
    if s == [] then [] else [if s[0] == sep then '.' else s[0]] + SeparatorsToDots(s[1..], sep)
  }

  /** No separator is left once they have become dots. */
  lemma NoSeparatorRemains(s: string, sep: char)
    requires sep != '.'
    ensures sep !in SeparatorsToDots(s, sep)
  {
    var r := SeparatorsToDots(s, sep);
    forall i | 0 <= i < |r| ensures r[i] != sep { }
  }

  /** For a path without dots, the dotted segments are the path components. */
  lemma {:induction false} DotsKeepComponents(s: string, sep: char)
    requires '.' !in s
    ensures Split(SeparatorsToDots(s, sep), '.') == Split(s, sep)
  {
    if s != [] {
      DotsKeepComponents(s[1..], sep);
      assert SeparatorsToDots(s, sep)[1..] == SeparatorsToDots(s[1..], sep);
    }
  }

  lemma SeparatorsToDotsAppend(a: string, b: string, sep: char)
    ensures SeparatorsToDots(a + b, sep) == SeparatorsToDots(a, sep) + SeparatorsToDots(b, sep)
  {
    var l, r := SeparatorsToDots(a + b, sep), SeparatorsToDots(a, sep) + SeparatorsToDots(b, sep);
    assert |l| == |r|;
    forall i | 0 <= i < |l| ensures l[i] == r[i] {
      if i >= |a| {
        assert (a + b)[i] == b[i - |a|];
      }
    }
  }

  /** A component without the separator is left as it is. */
  lemma ComponentToDots(p: string, sep: char)
    requires sep !in p
    ensures SeparatorsToDots(p, sep) == p
  {
    assert forall i :: 0 <= i < |p| ==> p[i] != sep;
  }

  /** Components joined by the separator become the same components joined by dots. */
  lemma {:induction false} JoinedComponentsToDots(parts: seq<string>, sep: char)
    requires forall i :: 0 <= i < |parts| ==> sep !in parts[i]
    ensures SeparatorsToDots(Join(parts, sep), sep) == Join(parts, '.')
  {
    if |parts| == 1 {
      ComponentToDots(parts[0], sep);
    } else if |parts| > 1 {
      ComponentToDots(parts[0], sep);
      JoinedComponentsToDots(parts[1..], sep);
      SeparatorsToDotsAppend(parts[0] + [sep], Join(parts[1..], sep), sep);
      SeparatorsToDotsAppend(parts[0], [sep], sep);
    }
  }

  /** `.replace(/\.py$/, '')`: drop `.py` when it ends the string, and only then. */
  function StripPyExtension(s: string): (r: string)
    ensures EndsWith(s, ".py") ==> r + ".py" == s
    ensures !EndsWith(s, ".py") ==> r == s
  {
    if EndsWith(s, ".py") then s[..|s| - 3] else s
  }

  /** `.slice(1)`: the string without its first character, if it has one. */
  function SliceFromOne(s: string): (r: string)
    ensures s == [] ==> r == []
    ensures s != [] ==> [s[0]] + r == s
  {
    if s == [] then [] else s[1..]
  }

  /** The path without its trailing separators. */
  function StripTrailingSeparators(p: string, sep: char): (r: string)
    ensures |r| <= |p| && r == p[..|r|]
    ensures r == [] || r[|r| - 1] != sep
    ensures forall i :: |r| <= i < |p| ==> p[i] == sep
  {
    if p != [] && p[|p| - 1] == sep then StripTrailingSeparators(p[..|p| - 1], sep) else p
  }

  /** `path.basename(rootPath)`: the last component of the path, trailing
      separators ignored. */
  function Basename(p: string, sep: char): (r: string)
    ensures sep !in r
  {
    var parts := Split(StripTrailingSeparators(p, sep), sep);
    parts[|parts| - 1]
  }

  /** The basename is the last component: the path without its trailing
      separators ends with it, and a separator stands just before it unless it
      is the whole of that path. */
  lemma {:induction false} BasenameIsLastComponent(p: string, sep: char)
    ensures var stripped, base := StripTrailingSeparators(p, sep), Basename(p, sep);
      && EndsWith(stripped, base)
      && (|base| < |stripped| ==> stripped[|stripped| - |base| - 1] == sep)
  {
    SplitLastIsSuffix(StripTrailingSeparators(p, sep), sep);
  }

  /** The basename of `dir/name` is `name`, trailing separators or not. */
  lemma BasenameOfChild(dir: string, name: string, trailing: nat, sep: char)
    requires name != [] && sep !in name
    ensures Basename(dir + [sep] + name + seq(trailing, _ => sep), sep) == name
  {
    var p := dir + [sep] + name + seq(trailing, _ => sep);
    var base := dir + [sep] + name;
    var stripped := StripTrailingSeparators(p, sep);
    assert p[..|base|] == base;
    assert p[|base| - 1] == name[|name| - 1] != sep;
    assert forall i :: |base| <= i < |p| ==> p[i] == sep;
    assert |stripped| == |base|;
    assert stripped == base;
    SplitAroundSeparator(dir, name, sep);
    SplitWithoutSeparator(name, sep);
  }

  /** The dotted path of the file relative to the root: the first occurrence of
      the root removed, separators made dots, a final `.py` dropped, then the
      first character dropped. */
  function DottedPath(rootPath: string, currentFilePath: string, sep: char): (dotted: string)
    ensures sep != '.' ==> sep !in dotted
  {
    var relativePath := ReplaceFirst(currentFilePath, rootPath, "");
    var dottedPathWithExtension := SeparatorsToDots(relativePath, sep);
    SliceFromOne(StripPyExtension(dottedPathWithExtension))
  }

  /** `getCurrentFileDottedPath`; `shouldAddModuleRootName` may be undefined
      (`None`), which counts as false. */
  function GetCurrentFileDottedPath(rootPath: string, currentFilePath: string,
                                    shouldAddModuleRootName: Option<bool>, sep: char): (r: string)
    ensures shouldAddModuleRootName != Some(true) ==> r == DottedPath(rootPath, currentFilePath, sep)
    ensures shouldAddModuleRootName == Some(true) ==>
              r == Basename(rootPath, sep) + "." + DottedPath(rootPath, currentFilePath, sep)
  {
    var dottedPath := DottedPath(rootPath, currentFilePath, sep);
    if shouldAddModuleRootName == Some(true) then
      var moduleRootName := Basename(rootPath, sep);
      assert [moduleRootName, dottedPath][1..] == [dottedPath];
      assert Join([dottedPath], '.') == dottedPath;
      Join([moduleRootName, dottedPath], '.')
    else
      dottedPath
  }

  /** Removing the root from a path that starts with it leaves the rest. */
  lemma RelativePathUnderRoot(rootPath: string, rel: string)
    ensures ReplaceFirst(rootPath + rel, rootPath, "") == rel
  {
    var file := rootPath + rel;
    assert file[..|rootPath|] == rootPath;
    assert OccursAt(file, rootPath, 0);
    assert file[|rootPath|..] == rel;
  }

  lemma StripAppendedPyExtension(s: string)
    ensures StripPyExtension(s + ".py") == s
  {
    var x := s + ".py";
    assert x[|x| - 3..] == ".py";
    assert x[..|x| - 3] == s;
  }

  /** The relative path `/p1/.../pk.py` becomes `.p1. ... .pk.py`. */
  lemma RelativePathToDots(parts: seq<string>, sep: char)
    requires IsPathSeparator(sep)
    requires forall i :: 0 <= i < |parts| ==> sep !in parts[i]
    ensures SeparatorsToDots([sep] + Join(parts, sep) + ".py", sep) == ['.'] + Join(parts, '.') + ".py"
  {
    var joined := Join(parts, sep);
    JoinedComponentsToDots(parts, sep);
    SeparatorsToDotsAppend([sep] + joined, ".py", sep);
    SeparatorsToDotsAppend([sep], joined, sep);
    ComponentToDots(".py", sep);
    assert SeparatorsToDots([sep], sep) == ['.'];
  }

  /** The dotted path of `root/rel.py` once `/rel.py` becomes `.dots.py`. */
  lemma DottedPathOfRelative(rootPath: string, rel: string, dots: string, sep: char)
    requires SeparatorsToDots([sep] + rel + ".py", sep) == ['.'] + dots + ".py"
    ensures DottedPath(rootPath, rootPath + ([sep] + rel + ".py"), sep) == dots
  {
    RelativePathUnderRoot(rootPath, [sep] + rel + ".py");
    assert ['.'] + dots + ".py" == "." + dots + ".py";
    DottedPathOfPyFile(rootPath, rootPath + ([sep] + rel + ".py"), sep, [sep] + rel + ".py", dots);
  }

  lemma FilePathRegrouped(rootPath: string, sep: char, rel: string)
    ensures rootPath + [sep] + rel + ".py" == rootPath + ([sep] + rel + ".py")
  {
  }

  /** The dotted path of `root/p1/.../pk.py` is `p1. ... .pk`. */
  lemma DottedPathUnderRoot(rootPath: string, parts: seq<string>, sep: char)
    requires IsPathSeparator(sep)
    requires forall i :: 0 <= i < |parts| ==> sep !in parts[i]
    ensures DottedPath(rootPath, rootPath + [sep] + Join(parts, sep) + ".py", sep) == Join(parts, '.')
  {
    RelativePathToDots(parts, sep);
    DottedPathOfRelative(rootPath, Join(parts, sep), Join(parts, '.'), sep);
    FilePathRegrouped(rootPath, sep, Join(parts, sep));
  }

  /** A `.py` file under the root, at `root/p1/.../pk.py`, gets the dotted path
      `p1. ... .pk`, prefixed by the root's basename when asked; with no dots in
      the names, its segments are exactly those names. */
  lemma ModulePathOfFileUnderRoot(rootPath: string, parts: seq<string>,
                                  shouldAddModuleRootName: Option<bool>, sep: char)
    requires IsPathSeparator(sep)
    requires |parts| >= 1
    requires forall i :: 0 <= i < |parts| ==> sep !in parts[i]
    ensures var r := GetCurrentFileDottedPath(rootPath, rootPath + [sep] + Join(parts, sep) + ".py",
                                              shouldAddModuleRootName, sep);
      var segments := (if shouldAddModuleRootName == Some(true) then [Basename(rootPath, sep)] else []) + parts;
      && r == Join(segments, '.')
      && ((forall i :: 0 <= i < |segments| ==> '.' !in segments[i]) ==> Split(r, '.') == segments)
  {
    DottedPathUnderRoot(rootPath, parts, sep);
    var segments := (if shouldAddModuleRootName == Some(true) then [Basename(rootPath, sep)] else []) + parts;
    if shouldAddModuleRootName == Some(true) {
      assert segments[1..] == parts;
    } else {
      assert segments == parts;
    }
    if forall i :: 0 <= i < |segments| ==> '.' !in segments[i] {
      SplitJoin(segments, '.');
    }
  }

  lemma PkgModJoined()
    ensures Join(["pkg", "mod"], '/') == "pkg/mod"
    ensures Join(["pkg", "mod"], '.') == "pkg.mod"
  {
    assert ["pkg", "mod"][1..] == ["mod"];
  }

  lemma ProjectDottedPathExample()
    ensures DottedPath("/proj", "/proj/pkg/mod.py", '/') == "pkg.mod"
  {
    PkgModJoined();
    assert "/proj" + ['/'] + "pkg/mod" + ".py" == "/proj/pkg/mod.py";
    DottedPathUnderRoot("/proj", ["pkg", "mod"], '/');
  }

  /** With the flag set, `GetCurrentFileDottedPath`'s contract puts this
      basename and a dot before `pkg.mod`: `proj.pkg.mod`. */
  lemma ProjectBasenameExample()
    ensures Basename("/proj", '/') == "proj"
  {
    BasenameOfChild("", "proj", 0, '/');
    assert "" + ['/'] + "proj" + seq(0, _ => '/') == "/proj";
  }

  /** A relative root without separators is its own basename. */
  lemma PlainBasenameExample()
    ensures Basename("proj", '/') == "proj"
  {
    SplitWithoutSeparator("proj", '/');
  }

  lemma ProjectModuleExample()
    ensures GetCurrentFileDottedPath("/proj", "/proj/pkg/mod.py", None, '/') == "pkg.mod"
  {
    ProjectDottedPathExample();
  }

  /** `/p` does not occur in `/x/p/a.py` before index 2, and does at 2. */
  lemma RootFirstAtTwo()
    ensures var s := "/x/p/a.py";
      && s[2..4] == "/p"
      && forall j :: 0 <= j < 2 ==> !OccursAt(s, "/p", j)
  {
    NoOccurrenceOnMismatch("/x/p/a.py", "/p", 0, 1);
    NoOccurrenceOnMismatch("/x/p/a.py", "/p", 1, 0);
  }

  lemma FirstRootOccurrenceExample()
    ensures ReplaceFirst("/x/p/a.py", "/p", "") == "/x/a.py"
  {
    var s := "/x/p/a.py";
    RootFirstAtTwo();
    ReplaceAtFirstOccurrence(s, "/p", "", 2);
    assert s[..2] + "" + s[4..] == "/x/a.py";
  }

  lemma OutsidePathToDots()
    ensures SeparatorsToDots("/x/a.py", '/') == ".x.a.py"
  {
  }

  /** The dotted path once the relative path is `rel` and its dotted form is
      `.` followed by `dotted` and `.py`. */
  lemma DottedPathOfPyFile(rootPath: string, currentFilePath: string, sep: char, rel: string, dotted: string)
    requires ReplaceFirst(currentFilePath, rootPath, "") == rel
    requires SeparatorsToDots(rel, sep) == "." + dotted + ".py"
    ensures DottedPath(rootPath, currentFilePath, sep) == dotted
  {
    StripAppendedPyExtension("." + dotted);
    assert ("." + dotted)[1..] == dotted;
  }

  lemma OutsideDotsWithExtension()
    ensures SeparatorsToDots("/x/a.py", '/') == "." + "x.a" + ".py"
  {
    OutsidePathToDots();
    assert "." + "x.a" + ".py" == ".x.a.py";
  }

  lemma OutsideDottedPath()
    ensures DottedPath("/p", "/x/p/a.py", '/') == "x.a"
  {
    FirstRootOccurrenceExample();
    OutsideDotsWithExtension();
    DottedPathOfPyFile("/p", "/x/p/a.py", '/', "/x/a.py", "x.a");
  }

  /** The root is removed wherever it first occurs, not only at the start. */
  lemma RootRemovalIsNotAnchored()
    ensures GetCurrentFileDottedPath("/p", "/x/p/a.py", None, '/') == "x.a"
  {
    OutsideDottedPath();
  }
}
