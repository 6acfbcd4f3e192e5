/** The sparse override store of File_List and the query that answers the
    inclusion state of any path from it. */
module Overrides {
  import opened Paths

  /** The inclusion state of a path: File_List::INCLUDED, EXCLUDED or PARTIAL. */
  datatype State = Included | Excluded | Partial

  /** One line of a file list: a path and the state chosen for it. */
  datatype Entry = Entry(path: Path, state: State)

  /** The persisted pair of lists: the partial directories and the excluded
      paths.  A path in neither list is included. */
  datatype Store = Store(partial: seq<Path>, excluded: seq<Path>)

  /** Some ancestor of `p` is recorded as excluded. */
  ghost predicate UnderExcluded(excluded: seq<Path>, p: Path)
  {
    exists a :: a in excluded && IsAncestor(a, p)
  }

  /** Walks the directories above `p` from the nearest to the farthest, looking
      at the candidate ancestors shorter than `k`, and tells whether one of them
      is recorded as excluded. */
  function ExcludedAncestor(excluded: seq<Path>, p: Path, k: nat): (r: bool)
    requires k <= |p|
    ensures r <==> exists a :: a in excluded && IsAncestor(a, p) && |a| < k
    decreases k
  {
    if k == 0 then false
    else
      var j := k - 1;
      if 0 < j && p[j - 1] == '/' && p[..j] in excluded then
        assert IsAncestor(p[..j], p);
        true
      else
        assert forall a :: a in excluded && IsAncestor(a, p) && |a| == j ==> a == p[..j];
        ExcludedAncestor(excluded, p, j)
  }

  /** get_file_state: an exact entry in the excluded list, then an exact entry
      in the partial list, then an excluded ancestor decide; otherwise the path
      is included.  A partial directory never passes its state down. */
  function Resolve(store: Store, p: Path): (r: State)
    ensures r == Excluded <==>
              p in store.excluded || (p !in store.partial && UnderExcluded(store.excluded, p))
    ensures r == Partial <==> p !in store.excluded && p in store.partial
    ensures r == Included <==>
              p !in store.excluded && p !in store.partial && !UnderExcluded(store.excluded, p)
  {
    if p in store.excluded then Excluded
    else if p in store.partial then Partial
    else if ExcludedAncestor(store.excluded, p, |p|) then Excluded
    else Included
  }
}
