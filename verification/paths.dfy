/** Path strings as the watcher builds them: `Path.Combine` and the name part
    of a path (`FileInfo.Name`), following the .NET rules on Windows, where
    both `\` and `/` separate directories and `X:` opens a drive root. */
module Paths {

  type Path = string

  const DirectorySeparator: char := '\\'

  predicate IsSeparator(c: char) {
    c == '\\' || c == '/'
  }

  predicate IsDriveLetter(c: char) {
    ('a' <= c <= 'z') || ('A' <= c <= 'Z')
  }

  /** A rooted path replaces whatever it is combined with. */
  predicate IsRooted(p: Path) {
    || (|p| >= 1 && IsSeparator(p[0]))
    || (|p| >= 2 && IsDriveLetter(p[0]) && p[1] == ':')
  }

  /** A legal single file or directory name: non-empty, no separator and no
      drive colon (Windows forbids `:` in names). */
  predicate IsName(n: string) {
    |n| > 0 && forall i :: 0 <= i < |n| ==> !IsSeparator(n[i]) && n[i] != ':'
  }

  /** `Path.Combine(p1, p2)`: an empty part yields the other, a rooted second
      part wins, and otherwise a separator is inserted unless `p1` already
      ends with one. */
  function Combine(p1: Path, p2: Path): Path {
    if |p2| == 0 then p1
    else if |p1| == 0 then p2
    else if IsRooted(p2) then p2
    else if IsSeparator(p1[|p1| - 1]) then p1 + p2
    else p1 + [DirectorySeparator] + p2
  }

  /** A relative part is appended to the directory, behind a separator. */
  lemma CombineAppends(p1: Path, p2: Path)
    requires !IsRooted(p2)
    ensures var r := Combine(p1, p2);
      && |r| >= |p1| + |p2|
      && r[..|p1|] == p1 && r[|r| - |p2|..] == p2
      && (p1 != [] && p2 != [] ==> IsSeparator(r[|r| - |p2| - 1]))
  {
  }

  /** The last component of a path: everything after the final separator
      (`FileInfo.Name`, `Path.GetFileName`). */
  function FileName(p: Path): Path {
    if p == [] then []
    else if IsSeparator(p[|p| - 1]) then []
    else FileName(p[..|p| - 1]) + [p[|p| - 1]]
  }

  /** The name part is the separator-free tail of the path that follows its
      last separator. */
  lemma {:induction false} FileNameIsLastComponent(p: Path)
    ensures var n := FileName(p);
      && |n| <= |p| && n == p[|p| - |n|..]
      && (forall i :: 0 <= i < |n| ==> !IsSeparator(n[i]))
      && (|n| < |p| ==> IsSeparator(p[|p| - |n| - 1]))
  {
    if p != [] && !IsSeparator(p[|p| - 1]) {
      var init, c := p[..|p| - 1], p[|p| - 1];
      FileNameIsLastComponent(init);
      var m := FileName(init);
      var n := m + [c];
      assert FileName(p) == n;
      assert p[|p| - |n|..] == init[|init| - |m|..] + [c];
      forall i | 0 <= i < |n|
        ensures !IsSeparator(n[i])
      {
        if i < |m| {
          assert n[i] == m[i];
        }
      }
      if |n| < |p| {
        assert p[|p| - |n| - 1] == init[|init| - |m| - 1];
      }
    }
  }

  /** The name part of `prefix + n` is `n` when `n` holds no separator and
      `prefix` is empty or ends with one. */
  lemma {:induction false} FileNameOfSuffix(prefix: Path, n: string)
    requires forall i :: 0 <= i < |n| ==> !IsSeparator(n[i])
    requires prefix == [] || IsSeparator(prefix[|prefix| - 1])
    ensures FileName(prefix + n) == n
  {
    var p := prefix + n;
    if n == [] {
      assert p == prefix;
    } else {
      var init, last := n[..|n| - 1], n[|n| - 1];
      assert p[|p| - 1] == last && !IsSeparator(last);
      assert p[..|p| - 1] == prefix + init;
      assert FileName(p) == FileName(prefix + init) + [last];
      FileNameOfSuffix(prefix, init);
      assert init + [last] == n;
    }
  }

  /** Round trip: the name of `Combine(dir, n)` is `n` for every legal name. */
  lemma FileNameOfCombine(dir: Path, n: string)
    requires IsName(n)
    ensures FileName(Combine(dir, n)) == n
  {
    if |dir| == 0 {
      FileNameOfSuffix([], n);
      assert [] + n == n;
    } else if IsSeparator(dir[|dir| - 1]) {
      FileNameOfSuffix(dir, n);
    } else {
      FileNameOfSuffix(dir + [DirectorySeparator], n);
      assert dir + [DirectorySeparator] + n == (dir + [DirectorySeparator]) + n;
    }
  }

  /** Two different legal names under one directory give two different paths. */
  lemma CombineInjective(dir: Path, n1: string, n2: string)
    requires IsName(n1) && IsName(n2)
    ensures Combine(dir, n1) == Combine(dir, n2) <==> n1 == n2
  {
    FileNameOfCombine(dir, n1);
    FileNameOfCombine(dir, n2);
  }
}
