/** get_file_list: the full file list handed to set_file_list.

    Every path the directory walk yields and the ignore list lets through
    becomes an INCLUDED entry, with a '/' appended to directories; the list is
    then sorted by path.  Because a directory is a proper prefix of everything
    beneath it, the sorted list is well ordered. */
module Listing {
  import opened Paths
  import opened Overrides
  import opened Closure

  /** One item of the directory walk: its real path and whether it is a directory. */
  datatype WalkItem = WalkItem(path: Path, isDir: bool)

  /** The path as listed: directories carry a trailing '/'. */
  function Marked(w: WalkItem): (r: Path)
    ensures IsDir(r) <==> w.isDir || IsDir(w.path)
  {
    if w.isDir then w.path + "/" else w.path
  }

  /** Entries in strictly increasing byte-wise order of their paths. */
  predicate StrictlySorted(s: seq<Entry>)
  {
    forall i, j :: 0 <= i < j < |s| ==> LexLess(s[i].path, s[j].path)
  }

  predicate DistinctPaths(s: seq<Entry>)
  {
    forall i, j :: 0 <= i < j < |s| ==> s[i].path != s[j].path
  }

  /** Sorting by path puts every directory before everything beneath it. */
  lemma SortedIsWellOrdered(s: seq<Entry>)
    requires StrictlySorted(s)
    ensures WellOrdered(s)
  {
    forall i, j | 0 <= i < j < |s|
      ensures s[j].path != s[i].path && !IsAncestor(s[j].path, s[i].path)
    {
      LexLessAsymmetric(s[i].path, s[j].path);
      if IsAncestor(s[j].path, s[i].path) {
        AncestorSortsFirst(s[j].path, s[i].path);
      }
    }
  }

  /** Inserts `x` at its place in a sorted list. */
  function Insert(x: Entry, s: seq<Entry>): (r: seq<Entry>)
    requires StrictlySorted(s)
    requires forall e :: e in s ==> e.path != x.path
    ensures StrictlySorted(r)
    ensures |r| == |s| + 1
    ensures forall e :: e in r <==> e == x || e in s
    decreases |s|
  {
    if s == [] then [x]
    else if LexLess(x.path, s[0].path) then
      assert forall j :: 0 < j < |s| ==> LexLess(s[0].path, s[j].path);
      LexLessSortedHead(x, s);
      [x] + s
    else
      LexLessTotal(x.path, s[0].path);
      var rest := Insert(x, s[1..]);
      assert forall e :: e in rest ==> LexLess(s[0].path, e.path) by {
        forall e | e in rest ensures LexLess(s[0].path, e.path) {
          if e != x {
            var j :| 0 <= j < |s[1..]| && s[1..][j] == e;
            assert s[j + 1] == e;
          }
        }
      }
      [s[0]] + rest
  }

  lemma LexLessSortedHead(x: Entry, s: seq<Entry>)
    requires StrictlySorted(s) && |s| > 0 && LexLess(x.path, s[0].path)
    ensures StrictlySorted([x] + s)
  {
    forall j | 0 < j < |s| ensures LexLess(x.path, s[j].path) {
      LexLessTransitive(x.path, s[0].path, s[j].path);
    }
  }

  /** asort followed by array_values: the entries ordered by path. */
  function SortByPath(s: seq<Entry>): (r: seq<Entry>)
    requires DistinctPaths(s)
    ensures StrictlySorted(r)
    ensures |r| == |s|
    ensures forall e :: e in r <==> e in s
    decreases |s|
  {
    if s == [] then []
    else
      var rest := SortByPath(s[1..]);
      assert forall e :: e in rest ==> e.path != s[0].path by {
        forall e | e in rest ensures e.path != s[0].path {
          var j :| 0 <= j < |s[1..]| && s[1..][j] == e;
          assert s[j + 1] == e;
        }
      }
      Insert(s[0], rest)
  }

  /** get_file_list: every walked path the ignore predicate lets through, as
      an INCLUDED entry with directories marked by '/', once each, sorted so
      that every directory precedes everything beneath it. */
  method GetFileList(walk: seq<WalkItem>, ignored: Path -> bool) returns (list: Snapshot)
    requires forall i, j :: 0 <= i < j < |walk| ==> walk[i].path != walk[j].path
    requires forall i :: 0 <= i < |walk| ==> !IsDir(walk[i].path)
    ensures WellOrdered(list) && StrictlySorted(list)
    ensures forall e :: e in list <==>
              e.state == Included && exists w :: w in walk && !ignored(w.path) && e.path == Marked(w)
  {
    var found: seq<Entry> := [];
    for i := 0 to |walk|
      invariant DistinctPaths(found)
      invariant forall e :: e in found <==>
                  e.state == Included && exists j :: 0 <= j < i && !ignored(walk[j].path) && e.path == Marked(walk[j])
    {
      var w := walk[i];
      if ignored(w.path) {
        continue;
      }
      forall e | e in found ensures e.path != Marked(w) {
        var j :| 0 <= j < i && e.path == Marked(walk[j]);
        MarkedInjective(walk[j], w);
      }
      found := found + [Entry(Marked(w), Included)];
    }
    list := SortByPath(found);
    SortedIsWellOrdered(list);
  }

  /** Two distinct walked paths without a trailing '/' stay distinct once marked. */
  lemma MarkedInjective(v: WalkItem, w: WalkItem)
    requires v.path != w.path && !IsDir(v.path) && !IsDir(w.path)
    ensures Marked(v) != Marked(w)
  {
    if v.isDir && !w.isDir {
      assert Marked(v)[|Marked(v)| - 1] == '/';
    } else if !v.isDir && w.isDir {
      assert Marked(w)[|Marked(w)| - 1] == '/';
    } else if v.isDir && w.isDir {
      assert Marked(v)[..|v.path|] == v.path && Marked(w)[..|w.path|] == w.path;
    }
  }
}
