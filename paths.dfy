/** Path hierarchy of the file list.

    A directory is told apart from a file only by its trailing '/'; a
    directory is an ancestor of every longer path it is a prefix of.  Paths are
    compared byte by byte, as PHP's string comparison does for the non-numeric
    strings that absolute paths are. */
module Paths {

  type Path = string

  /** A directory path carries a trailing '/'. */
  predicate IsDir(p: Path)
  {
    |p| > 0 && p[|p| - 1] == '/'
  }

  /** `a` is a strict ancestor of `p`: a directory that is a proper prefix of it. */
  predicate IsAncestor(a: Path, p: Path)
  {
    IsDir(a) && |a| < |p| && p[..|a|] == a
  }

  lemma AncestorTransitive(a: Path, b: Path, c: Path)
    requires IsAncestor(a, b) && IsAncestor(b, c)
    ensures IsAncestor(a, c)
  {
    assert c[..|a|] == c[..|b|][..|a|];
  }

  /** Two ancestors of one path lie on one chain: the shorter is an ancestor of the longer. */
  lemma AncestorsNested(a: Path, b: Path, p: Path)
    requires IsAncestor(a, p) && IsAncestor(b, p) && |a| < |b|
    ensures IsAncestor(a, b)
  {
    assert b[..|a|] == p[..|b|][..|a|];
  }

  /** Two ancestors of one path of the same length are the same path. */
  lemma AncestorsSameLength(a: Path, b: Path, p: Path)
    requires IsAncestor(a, p) && IsAncestor(b, p) && |a| == |b|
    ensures a == b
  {
  }

  /** Strict byte-wise order of strings (strcmp(a, b) < 0). */
  predicate LexLess(a: string, b: string)
  {
    |b| > 0 && (|a| == 0 || a[0] < b[0] || (a[0] == b[0] && LexLess(a[1..], b[1..])))
  }

  lemma {:induction false} LexLessAsymmetric(a: string, b: string)
    requires LexLess(a, b)
    ensures !LexLess(b, a) && a != b
  {
    if |a| > 0 && a[0] == b[0] {
      LexLessAsymmetric(a[1..], b[1..]);
    }
  }

  lemma {:induction false} LexLessTransitive(a: string, b: string, c: string)
    requires LexLess(a, b) && LexLess(b, c)
    ensures LexLess(a, c)
  {
    if |a| > 0 && a[0] == b[0] && b[0] == c[0] {
      LexLessTransitive(a[1..], b[1..], c[1..]);
    }
  }

  lemma {:induction false} LexLessTotal(a: string, b: string)
    requires a != b
    ensures LexLess(a, b) || LexLess(b, a)
  {
    if |a| > 0 && |b| > 0 && a[0] == b[0] {
      assert a == [a[0]] + a[1..] && b == [b[0]] + b[1..];
      LexLessTotal(a[1..], b[1..]);
    }
  }

  /** A proper prefix sorts first; so a directory sorts before everything under it. */
  lemma {:induction false} PrefixLexLess(a: string, b: string)
    requires |a| < |b| && b[..|a|] == a
    ensures LexLess(a, b)
  {
    if |a| > 0 {
      assert b[1..][..|a| - 1] == a[1..];
      PrefixLexLess(a[1..], b[1..]);
    }
  }

  lemma AncestorSortsFirst(a: Path, p: Path)
    requires IsAncestor(a, p)
    ensures LexLess(a, p) && !LexLess(p, a)
  {
    PrefixLexLess(a, p);
    LexLessAsymmetric(a, p);
  }
}
