/** The File_List object: the two override lists it keeps in memory, the
    option it persists them to, and its three operations. */
module FileLists {
  import opened Paths
  import opened Overrides
  import opened Closure

  class FileList {
    /** Directories marked PARTIAL, in list order. */
    var partial: seq<Path>
    /** Paths marked EXCLUDED, topmost directory only, in list order. */
    var excluded: seq<Path>
    /** The value last saved to the 'backup-to-dropbox-file-list' option. */
    var option: Store

    constructor ()
      ensures partial == [] && excluded == [] && option == Store([], [])
    {
      partial := [];
      excluded := [];
      option := Store([], []);
    }

    /** The in-memory store. */
    function Current(): Store
      reads this
    {
      Store(partial, excluded)
    }

    /** set_file_list: replaces both lists wholesale with the reduction of
        the given full list.  The list of forcing directories met so far is
        searched from the newest for the nearest one above each entry. */
    method SetFileList(list: Snapshot)
      modifies this
      ensures Current() == Commit(list)
      ensures option == old(option)
    {
      var forcing: seq<Entry> := [];
      var newPartial: seq<Path> := [];
      var newExcluded: seq<Path> := [];
      var i := 0;
      while i < |list|
        invariant 0 <= i <= |list|
        invariant forcing == ForcingMet(list, i)
        invariant newPartial == Recorded(list, i, Partial)
        invariant newExcluded == Recorded(list, i, Excluded)
        invariant option == old(option)
      {
        var e := list[i];
        var k := |forcing|;
        assert forcing[..k] == forcing;
        while k > 0 && !IsAncestor(forcing[k - 1].path, e.path)
          invariant 0 <= k <= |forcing|
          invariant NearestForcing(forcing[..k], e.path) == NearestForcing(forcing, e.path)
        {
          assert forcing[..k][..k - 1] == forcing[..k - 1];
          k := k - 1;
        }
        SearchFindsForcer(list, i, i);
        var effective := if k > 0 then forcing[k - 1].state else e.state;
        if IsDir(e.path) && effective != Partial {
          forcing := forcing + [Entry(e.path, effective)];
        }
        if k == 0 && e.state == Excluded {
          newExcluded := newExcluded + [e.path];
        } else if k == 0 && e.state == Partial {
          newPartial := newPartial + [e.path];
        }
        i := i + 1;
      }
      partial, excluded := newPartial, newExcluded;
    }

    /** save: writes the in-memory lists to the option. */
    method Save()
      modifies this`option
      ensures option == Current()
    {
      option := Store(partial, excluded);
    }

    /** get_file_state, answered from the in-memory lists. */
    function GetFileState(path: Path): (r: State)
      reads this
      ensures r == Resolve(Current(), path)
      ensures r == Excluded <==> path in excluded || (path !in partial && UnderExcluded(excluded, path))
      ensures r == Partial <==> path !in excluded && path in partial
    {
      Resolve(Store(partial, excluded), path)
    }
  }
}
