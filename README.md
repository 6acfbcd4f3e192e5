# File_List inclusion states

This project models `File_List`, the component of the WordPress Backup to Dropbox plugin that decides which files go into a backup. Every path is in one of three states: INCLUDED, EXCLUDED or PARTIAL. PARTIAL is a directory whose children are chosen one by one.

The object stores two sparse lists:

- the PARTIAL directories;
- the EXCLUDED paths, with each excluded subtree stored only as its topmost directory.

A path in neither list is INCLUDED.

The model covers three operations:

- `set_file_list` replaces both lists, all at once, with the reduction of a full file list. A full file list is every path of the site with the state chosen for it, as `get_file_list` produces it.
- `save` writes the two lists to the plugin's option.
- `get_file_state` answers for any path, including files created after the last commit. It checks an exact excluded entry, then an exact partial entry, then an excluded directory above the path. Otherwise the path is INCLUDED.

Classes/class-file-list.php is not part of this model. The reduction is a reconstruction that satisfies every assertion of the class's test case, Tests/class-file-list-test.php. It walks the sorted list once and keeps the list of directories met so far whose effective state is INCLUDED or EXCLUDED. Such a directory forces its state on everything below it. A PARTIAL directory forces nothing.

Modules:

- `Paths`: directories carry a trailing `/`; the ancestor relation; PHP's byte-wise string order.
- `Overrides`: states, entries, the two-list store, and the query `Resolve`.
- `Closure`: the reference reduction `Commit`, with two parts:
  - a functional run of the committing loop (`Step`/`Replay`), proved equal to `Commit`;
  - the theorems: lossless, inheritance for unlisted paths, minimality, sparseness, PARTIAL not propagating, idempotence.
- `FileLists`: the `FileList` class, with its in-memory lists and its option. `SetFileList` is the loop, proved against `Commit`.
- `Listing`: the test's `get_file_list`, a loop that collects entries followed by a sort. Its result is proved to be in the order `Commit`'s theorems assume.
- `Scenarios`: each test scenario on a test directory rooted at `/t/`, proved as a lemma. The `ExcludeStateSession` method replays the steps of `testGet_exclude_state` on one `FileList` object.

## Model

| member | source | states |
|---|---|---|
| Paths.AncestorTransitive | Tests/class-file-list-test.php:171-176 | an ancestor of an ancestor is an ancestor, so exclusion reaches every depth |
| Paths.AncestorsNested | Tests/class-file-list-test.php:171-176 | two directories above one path lie on one chain: the shorter is above the longer |
| Paths.AncestorsSameLength | Tests/class-file-list-test.php:171-176 | two directories above one path with the same length are the same directory |
| Paths.LexLessAsymmetric | Tests/class-file-list-test.php:84 | the byte-wise order `asort` uses is irreflexive and asymmetric |
| Paths.LexLessTransitive | Tests/class-file-list-test.php:84 | the byte-wise order is transitive |
| Paths.LexLessTotal | Tests/class-file-list-test.php:84 | any two different paths are ordered one way or the other |
| Paths.PrefixLexLess | Tests/class-file-list-test.php:84 | a proper prefix sorts before the longer string |
| Paths.AncestorSortsFirst | Tests/class-file-list-test.php:79-85 | a directory sorts before every path beneath it, and never after one |
| Overrides.ExcludedAncestor | Tests/class-file-list-test.php:171-180 | walking the directories above a path finds an excluded one exactly when the excluded list holds some ancestor of the path shorter than the bound |
| Overrides.Resolve | Tests/class-file-list-test.php:149-151 | the query is EXCLUDED iff the path is listed excluded, or is not listed partial and has an excluded ancestor; PARTIAL iff it is listed partial and not excluded; INCLUDED iff it is in neither list and has no excluded ancestor |
| Closure.SearchFindsForcer | Tests/class-file-list-test.php:161-176 | searching the forcing directories met so far from the newest yields the effective state of the latest earlier forcing ancestor, or nothing when there is none |
| Closure.ReplayAppend | Tests/class-file-list-test.php:142 | running the committing loop over two lists in turn equals running it over their concatenation |
| Closure.StepAdvances | Tests/class-file-list-test.php:142 | one turn of the loop moves the forcing directories and both lists from their values after k entries to their values after k+1 |
| Closure.ReplayFrom | Tests/class-file-list-test.php:142 | running the loop over the remaining entries from the state after k entries reaches the final state |
| Closure.ReplayIsCommit | Tests/class-file-list-test.php:142-143 | the committing loop run from empty stores exactly the reference reduction `Commit` |
| Closure.ForcerIsLatest | Tests/class-file-list-test.php:161-162 | `Forcer` returns the latest earlier entry that forces its state on the given one, and returns none when no earlier entry does |
| Closure.ForcedState | Tests/class-file-list-test.php:161-162 | a forced entry takes its forcer's effective state, which is never PARTIAL |
| Closure.RecordedMembers | Tests/class-file-list-test.php:145-147 | a path is in a recorded list iff some listed entry with that path decides for itself and was submitted with that state |
| Closure.RecordedNoDup | Tests/class-file-list-test.php:145-147 | for a sorted list no path occurs twice in a recorded list, so the stored lists are sets and their counts are counts of distinct paths |
| Closure.ExcludedCovered | Tests/class-file-list-test.php:168-176 | every entry whose effective state is EXCLUDED is stored or lies below a stored excluded path |
| Closure.ExcludedPropagates | Tests/class-file-list-test.php:171-176 | in a sorted list, every later entry below an effectively EXCLUDED directory is effectively EXCLUDED |
| Closure.StoredExcludedOrigin | Tests/class-file-list-test.php:167-169 | each stored excluded path comes from a self-deciding entry submitted EXCLUDED |
| Closure.StoredPartialOrigin | Tests/class-file-list-test.php:197-198 | each stored partial path comes from a self-deciding entry submitted PARTIAL |
| Closure.Sparse | Tests/class-file-list-test.php:162-169 | in a sorted list an entry is stored as excluded (or partial) iff no forcing ancestor decides for it and it was submitted EXCLUDED (or PARTIAL) |
| Closure.AncestorListedEarlier | Tests/class-file-list-test.php:71-86 | in a sorted list, a listed ancestor of an entry comes before it |
| Closure.ForcingAncestorForces | Tests/class-file-list-test.php:161 | an entry with an earlier forcing ancestor is forced |
| Closure.StoredAncestorExcludes | Tests/class-file-list-test.php:171-176 | an entry below a stored excluded path is effectively EXCLUDED |
| Closure.Lossless | Tests/class-file-list-test.php:171-176 | for a sorted list, querying the committed store for any listed path returns that entry's effective state |
| Closure.Unlisted | Tests/class-file-list-test.php:178-180 | a path absent from the list (such as a file created later) resolves to EXCLUDED iff some listed ancestor is effectively EXCLUDED, and to INCLUDED otherwise; it is never PARTIAL |
| Closure.Minimal | Tests/class-file-list-test.php:162-169 | for a sorted list, no stored excluded path lies below another stored excluded path, and no path is in both lists |
| Closure.PartialDoesNotForce | Tests/class-file-list-test.php:201-206 | an entry whose listed ancestors are all effectively PARTIAL keeps the state it was submitted with |
| Closure.SameForcer | Tests/class-file-list-test.php:142-151 | relisting every path with its effective state leaves every entry's forcer unchanged |
| Closure.SameEffective | Tests/class-file-list-test.php:142-151 | relisting every path with its effective state leaves every effective state unchanged |
| Closure.SameRecorded | Tests/class-file-list-test.php:142-151 | relisting every path with its effective state leaves both recorded lists unchanged |
| Closure.Idempotent | Tests/class-file-list-test.php:142-151 | composing set_file_list with get_file_state is stable: relisting every path of a sorted list with the state the committed store gives it, and committing that list, yields the same store again; no assertion of the test recommits a list read back this way |
| FileLists.FileList.constructor | Tests/class-file-list-test.php:45 | a new object starts with empty lists and an empty option |
| FileLists.FileList.SetFileList | Tests/class-file-list-test.php:111 | the in-memory lists become exactly the reduction `Commit` of the given list, whatever they held before; the option is untouched |
| FileLists.FileList.Save | Tests/class-file-list-test.php:112-114 | the option becomes the in-memory pair of lists |
| FileLists.FileList.GetFileState | Tests/class-file-list-test.php:149-151 | the answer is `Resolve` on the in-memory lists: EXCLUDED iff listed excluded, or not listed partial and below an excluded path; PARTIAL iff listed partial and not excluded |
| Listing.Marked | Tests/class-file-list-test.php:79-81 | a listed path is a directory iff the walked item is a directory |
| Listing.SortedIsWellOrdered | Tests/class-file-list-test.php:84-85 | a list sorted by path never lists a path again or lists it after something beneath it |
| Listing.Insert | Tests/class-file-list-test.php:84 | inserting into a sorted list keeps it sorted, adds one element and keeps exactly the old elements plus the new one |
| Listing.LexLessSortedHead | Tests/class-file-list-test.php:84 | an entry sorting before the head of a sorted list can be put in front of it |
| Listing.SortByPath | Tests/class-file-list-test.php:84-85 | the sorted list is strictly ordered by path, has the same length and holds exactly the same entries |
| Listing.GetFileList | Tests/class-file-list-test.php:71-86 | the result is sorted by path, every directory comes before everything beneath it, and an entry is in it iff it is INCLUDED and its path is a walked path, with '/' appended for a directory, that the ignore predicate lets through |
| Listing.MarkedInjective | Tests/class-file-list-test.php:79-82 | different walked paths stay different once directories get their '/' |
| Scenarios.MocksPiece | Tests/class-file-list-test.php:135 | the INCLUDED Mocks/ directory and its files leave only Mocks/ among the forcing directories and record nothing |
| Scenarios.CommitPieces | Tests/class-file-list-test.php:142 | a listing is committed by running the loop over its pieces in turn |
| Scenarios.SetFileListFile | Tests/class-file-list-test.php:105-119 | committing [Out/ PARTIAL, class-wp-backup-test.php EXCLUDED] stores exactly partial = [Out/] and excluded = [class-wp-backup-test.php] |
| Scenarios.FirstOutPiece | Tests/class-file-list-test.php:139 | the PARTIAL Out/ is recorded and forces nothing on expected.sql |
| Scenarios.FirstTailPiece | Tests/class-file-list-test.php:138 | the EXCLUDED class-wp-backup-test.php is recorded |
| Scenarios.FirstCommit | Tests/class-file-list-test.php:135-147 | the first listing stores one partial entry (Out/) and one excluded entry (the test file) |
| Scenarios.FirstCommitQueries | Tests/class-file-list-test.php:149-151 | after the first commit the excluded file is EXCLUDED, Out/ is PARTIAL and every other path is INCLUDED |
| Scenarios.SecondOutPiece | Tests/class-file-list-test.php:161-162 | the EXCLUDED Out/ is recorded once and forces its two subdirectories and three files |
| Scenarios.SecondTailPiece | Tests/class-file-list-test.php:162 | the two test files, both INCLUDED, record nothing |
| Scenarios.SecondCommit | Tests/class-file-list-test.php:158-169 | the second listing stores no partial entry and only Out/ as excluded, so the first commit's choices are gone |
| Scenarios.SecondCommitQueries | Tests/class-file-list-test.php:171-176 | after the second commit Out/ and every path below it at any depth is EXCLUDED, and every other path is INCLUDED |
| Scenarios.SecondCommitSubtree | Tests/class-file-list-test.php:171-175 | right after the second commit Out/, Out/expected.sql, Out/Level1/, Out/Level1/file.txt and Out/Level1/Level2/ are all EXCLUDED |
| Scenarios.SecondCommitFiles | Tests/class-file-list-test.php:176-180 | Level2/file.txt and the later-created Level1/file2.txt are EXCLUDED, and the formerly excluded class-wp-backup-test.php is INCLUDED |
| Scenarios.ThirdOutPiece | Tests/class-file-list-test.php:187-189 | the two nested PARTIAL directories are recorded one by one; the EXCLUDED Level2/ is recorded once and forces its file |
| Scenarios.ThirdTailPiece | Tests/class-file-list-test.php:183-194 | the two test files, both INCLUDED, record nothing |
| Scenarios.ThirdCommit | Tests/class-file-list-test.php:183-199 | the third listing stores partial = [Out/, Level1/] and excluded = [Level2/] |
| Scenarios.ThirdCommitQueries | Tests/class-file-list-test.php:201-206 | after the third commit Out/ and Level1/ are PARTIAL, Level2/ and everything below it EXCLUDED, every other path INCLUDED |
| Scenarios.ThirdCommitFiles | Tests/class-file-list-test.php:201-206 | the six paths the test queries resolve as asserted: files directly under the partial directories are INCLUDED |
| Scenarios.ExcludeStateSession | Tests/class-file-list-test.php:132-207 | on one object, the option read back after the three set_file_list/save steps is ([Out/], [class-wp-backup-test.php]), then ([], [Out/]), then ([Out/, Level1/], [Level2/]); every get_file_state assertion of the test, including the later file2.txt and the save at line 181, holds on the object in between |
| Scenarios.AllIncludedCommit | Tests/class-file-list-test.php:214-222 | an all-INCLUDED listing stores nothing, and a file created later under Out/Level1/ is INCLUDED |
| Scenarios.Level1PartialCommit | Tests/class-file-list-test.php:224-231 | with Out/Level1/ PARTIAL below an INCLUDED Out/, nothing is stored and a file created later in Level1/ is INCLUDED |

## Left out

- Classes/class-file-list.php is not part of this model. The reduction is reconstructed from the test assertions alone.
- The reconstruction lets an INCLUDED or EXCLUDED directory override a PARTIAL directory below it. An example is Out/Level1/ PARTIAL under an INCLUDED Out/ (Tests/class-file-list-test.php:224-231). No assertion distinguishes this from storing Level1/ as partial, because both give INCLUDED for the file queried there, so this choice is unconfirmed.
- JSON encoding and decoding of the list (Tests/class-file-list-test.php:110): the model takes a typed list of entries. A malformed document is not modelled.
- The numeric state codes (Tests/class-file-list-test.php:125-127): the states are a closed three-valued datatype.
- The directory walk, `realpath` and `is_dir` (Tests/class-file-list-test.php:73-80): these are given to `Listing.GetFileList` as a sequence of walked items, each with a path and a directory flag.
- `File_List::in_ignore_list` (Tests/class-file-list-test.php:76): its implementation is not part of this model, so it is a predicate parameter.
- Listing.GetFileList: `asort` on PHP arrays of (path, state) pairs is modelled as a sort by strict byte-wise path order. PHP's numeric-string comparison is ignored, and walked paths are assumed distinct and without a trailing '/'.
- File creation and removal, and the test's teardown (Tests/class-file-list-test.php:48-65, 93-97). A file created after a commit is a query on a path absent from the committed list.
- Persistence through `get_option` and the mock database (Tests/class-file-list-test.php:45, 114): the option is a field of the object. The constructor does not load a previously saved option.
- FileLists.FileList.SetFileList: it does not reject a list that is not sorted with directories first, and does not reject paths outside the site. `Commit` is defined for every list, but the theorems about it (`Closure.Lossless`, `Closure.Sparse`, `Closure.Minimal`, `Closure.Idempotent`) assume the sorted order that `Listing.GetFileList` provides.
- The hand-written scenario listings are not proved to be sorted; the theorems that assume sorted order are not applied to them, and the scenario lemmas follow from the committing loop run over their entries.
- The entry counts and indices tied to the real test directory (Tests/class-file-list-test.php:136, 159, 184): the scenarios use a listing rooted at `/t/` whose pieces reproduce the test's entry counts and the indices of Out/, Level1/, Level2/ and class-wp-backup-test.php. These counts and indices are not stated as lemmas.
