/** The behaviour the File_List test case pins down, on a test directory
    rooted at "/t/".  Each listing is written out by hand with the paths
    get_file_list would find in that directory at that step, in byte-wise
    order, and the states the test then sets: index 4 is "/t/Out/" and index 7
    of the first listing is "/t/class-wp-backup-test.php", as the test's
    comments say.  That these hand-written listings are sorted is not proved
    here; the lemmas use only what they contain.  Every listing
    is cut into pieces (the Mocks/ directory, the Out/ subtree, the two test
    files) and the committing loop is run over each piece in turn. */
module Scenarios {
  import opened Paths
  import opened Overrides
  import opened Closure
  import opened FileLists

  function Out(): Path { "/t/Out/" }
  function Level1(): Path { "/t/Out/Level1/" }
  function Level2(): Path { "/t/Out/Level1/Level2/" }
  function WpBackupTest(): Path { "/t/class-wp-backup-test.php" }

  function Start(): Progress { Progress([], [], []) }

  /** "/t/Mocks/" and its three files, all INCLUDED. */
  function MocksPart(): Snapshot
  {
    [Entry("/t/Mocks/", Included), Entry("/t/Mocks/class-mock-dropbox-facade.php", Included),
     Entry("/t/Mocks/class-mock-wpdb.php", Included), Entry("/t/Mocks/mock-wp-functions.php", Included)]
  }

  /** After the Mocks/ piece only the INCLUDED directory "/t/Mocks/" is among the forcing directories. */
  function AfterMocks(): Progress { Progress([Entry("/t/Mocks/", Included)], [], []) }

  /** The two test files at the end of every listing, with the given states. */
  function Tail(fileListTest: State, wpBackupTest: State): Snapshot
  {
    [Entry("/t/class-file-list-test.php", fileListTest), Entry(WpBackupTest(), wpBackupTest)]
  }

  lemma MocksPiece()
    ensures Replay(MocksPart(), Start()) == AfterMocks()
  {
  }

  /** Commits a listing from its three pieces. */
  lemma CommitPieces(out: Snapshot, tail: Snapshot, afterOut: Progress, afterTail: Progress)
    requires Replay(out, AfterMocks()) == afterOut && Replay(tail, afterOut) == afterTail
    ensures Commit(MocksPart() + out + tail) == Store(afterTail.partial, afterTail.excluded)
  {
    MocksPiece();
    ReplayAppend(MocksPart(), out, Start());
    ReplayAppend(MocksPart() + out, tail, Start());
    ReplayIsCommit(MocksPart() + out + tail);
  }

  // ----- testSetFileListFile -----

  /** A two-line list, Out/ PARTIAL and one file EXCLUDED, stores exactly
      those two choices. */
  lemma SetFileListFile()
    ensures Commit([Entry(Out(), Partial), Entry(WpBackupTest(), Excluded)]) == Store([Out()], [WpBackupTest()])
  {
    ReplayIsCommit([Entry(Out(), Partial), Entry(WpBackupTest(), Excluded)]);
  }

  // ----- testGet_exclude_state -----

  /** The first listing (8 entries) with Out/ PARTIAL and
      class-wp-backup-test.php EXCLUDED. */
  function FirstList(): Snapshot
  {
    MocksPart() + FirstOut() + Tail(Included, Excluded)
  }

  function FirstStore(): Store { Store([Out()], [WpBackupTest()]) }

  function FirstOut(): Snapshot { [Entry(Out(), Partial), Entry("/t/Out/expected.sql", Included)] }

  function FirstAfterOut(): Progress { Progress([Entry("/t/Mocks/", Included)], [Out()], []) }

  /** The partial Out/ is recorded and forces nothing below it. */
  lemma FirstOutPiece()
    ensures Replay(FirstOut(), AfterMocks()) == FirstAfterOut()
  {
  }

  /** The excluded file is recorded. */
  lemma FirstTailPiece()
    ensures Replay(Tail(Included, Excluded), FirstAfterOut()) == Progress([Entry("/t/Mocks/", Included)], [Out()], [WpBackupTest()])
  {
  }

  /** One partial and one excluded entry are stored. */
  lemma FirstCommit()
    ensures Commit(FirstList()) == FirstStore()
  {
    FirstOutPiece();
    FirstTailPiece();
    CommitPieces(FirstOut(), Tail(Included, Excluded), FirstAfterOut(),
                 Progress([Entry("/t/Mocks/", Included)], [Out()], [WpBackupTest()]));
  }

  /** After the first commit the excluded file is EXCLUDED, Out/ is PARTIAL
      and every other path, such as Mocks/mock-wp-functions.php, INCLUDED. */
  lemma FirstCommitQueries(p: Path)
    ensures Resolve(FirstStore(), p) ==
              if p == WpBackupTest() then Excluded else if p == Out() then Partial else Included
  {
    assert !IsDir(WpBackupTest());
  }

  /** The Out/ subtree of the second listing: Out/ EXCLUDED, the new
      directories and files under it left INCLUDED. */
  function SecondDirs(): Snapshot
  {
    [Entry(Out(), Excluded), Entry(Level1(), Included), Entry(Level2(), Included)]
  }

  function SecondFiles(): Snapshot
  {
    [Entry("/t/Out/Level1/Level2/file.txt", Included), Entry("/t/Out/Level1/file.txt", Included),
     Entry("/t/Out/expected.sql", Included)]
  }

  /** The second listing (12 entries) with only Out/ EXCLUDED. */
  function SecondList(): Snapshot
  {
    MocksPart() + (SecondDirs() + SecondFiles()) + Tail(Included, Included)
  }

  function SecondStore(): Store { Store([], [Out()]) }

  function SecondAfterOut(): Progress
  {
    Progress([Entry("/t/Mocks/", Included), Entry(Out(), Excluded), Entry(Level1(), Excluded),
              Entry(Level2(), Excluded)], [], [Out()])
  }

  /** The excluded Out/ forces its subtree: one excluded entry and nothing
      more, whatever the states below it. */
  lemma SecondOutPiece()
    ensures Replay(SecondDirs() + SecondFiles(), AfterMocks()) == SecondAfterOut()
  {
    assert Replay(SecondDirs(), AfterMocks()) == SecondAfterOut();
    assert Replay(SecondFiles(), SecondAfterOut()) == SecondAfterOut();
    ReplayAppend(SecondDirs(), SecondFiles(), AfterMocks());
  }

  lemma SecondTailPiece()
    ensures Replay(Tail(Included, Included), SecondAfterOut()) == SecondAfterOut()
  {
  }

  /** Only Out/ is stored: no partial entry, one excluded entry, nothing under
      it, and the earlier choices are gone. */
  lemma SecondCommit()
    ensures Commit(SecondList()) == SecondStore()
  {
    SecondOutPiece();
    SecondTailPiece();
    CommitPieces(SecondDirs() + SecondFiles(), Tail(Included, Included), SecondAfterOut(), SecondAfterOut());
  }

  /** Out/ and every path under it at any depth, listed or created after
      the commit (Out/Level1/file2.txt), is EXCLUDED; every other path,
      including the file the first commit excluded, is INCLUDED. */
  lemma SecondCommitQueries(p: Path)
    ensures Resolve(SecondStore(), p) == if p == Out() || IsAncestor(Out(), p) then Excluded else Included
  {
  }

  /** Out/ and the listed paths beneath it that the test asks about right
      after the second commit are all EXCLUDED. */
  lemma SecondCommitSubtree()
    ensures Resolve(SecondStore(), Out()) == Excluded
    ensures Resolve(SecondStore(), "/t/Out/expected.sql") == Excluded
    ensures Resolve(SecondStore(), Level1()) == Excluded
    ensures Resolve(SecondStore(), "/t/Out/Level1/file.txt") == Excluded
    ensures Resolve(SecondStore(), Level2()) == Excluded
  {
    var sql, file := "/t/Out/expected.sql", "/t/Out/Level1/file.txt";
    assert sql[..|Out()|] == Out() && file[..|Out()|] == Out();
    assert Level1()[..|Out()|] == Out() && Level2()[..|Out()|] == Out();
    SecondCommitQueries(Out());
    SecondCommitQueries(sql);
    SecondCommitQueries(Level1());
    SecondCommitQueries(file);
    SecondCommitQueries(Level2());
  }

  /** The files the test asks about after the second commit. */
  lemma SecondCommitFiles()
    ensures Resolve(SecondStore(), "/t/Out/Level1/Level2/file.txt") == Excluded
    ensures Resolve(SecondStore(), "/t/Out/Level1/file2.txt") == Excluded
    ensures Resolve(SecondStore(), WpBackupTest()) == Included
  {
    var deep, created := "/t/Out/Level1/Level2/file.txt", "/t/Out/Level1/file2.txt";
    assert deep[..|Out()|] == Out() && created[..|Out()|] == Out();
    assert WpBackupTest()[3] != Out()[3];
    SecondCommitQueries(deep);
    SecondCommitQueries(created);
    SecondCommitQueries(WpBackupTest());
  }

  /** The Out/ subtree of the third listing: Out/ and Level1/ PARTIAL,
      Level2/ EXCLUDED. */
  function ThirdDirs(): Snapshot
  {
    [Entry(Out(), Partial), Entry(Level1(), Partial), Entry(Level2(), Excluded)]
  }

  function ThirdFiles(): Snapshot
  {
    [Entry("/t/Out/Level1/Level2/file.txt", Included), Entry("/t/Out/Level1/file.txt", Included),
     Entry("/t/Out/Level1/file2.txt", Included), Entry("/t/Out/expected.sql", Included)]
  }

  /** The third listing (13 entries). */
  function ThirdList(): Snapshot
  {
    MocksPart() + (ThirdDirs() + ThirdFiles()) + Tail(Included, Included)
  }

  function ThirdStore(): Store { Store([Out(), Level1()], [Level2()]) }

  function ThirdAfterOut(): Progress
  {
    Progress([Entry("/t/Mocks/", Included), Entry(Level2(), Excluded)], [Out(), Level1()], [Level2()])
  }

  /** The partial directories are recorded and pushed nothing; the excluded
      Level2/ is recorded and forces its file. */
  lemma ThirdOutPiece()
    ensures Replay(ThirdDirs() + ThirdFiles(), AfterMocks()) == ThirdAfterOut()
  {
    assert Replay(ThirdDirs(), AfterMocks()) == ThirdAfterOut();
    assert Replay(ThirdFiles(), ThirdAfterOut()) == ThirdAfterOut();
    ReplayAppend(ThirdDirs(), ThirdFiles(), AfterMocks());
  }

  lemma ThirdTailPiece()
    ensures Replay(Tail(Included, Included), ThirdAfterOut()) == ThirdAfterOut()
  {
  }

  /** Nested partial directories are stored one by one, the excluded
      directory beneath them once, and its file not at all. */
  lemma ThirdCommit()
    ensures Commit(ThirdList()) == ThirdStore()
  {
    ThirdOutPiece();
    ThirdTailPiece();
    CommitPieces(ThirdDirs() + ThirdFiles(), Tail(Included, Included), ThirdAfterOut(), ThirdAfterOut());
  }

  /** PARTIAL does not propagate: Out/ and Out/Level1/ are PARTIAL, Level2/
      and everything under it EXCLUDED, and every other path, such as the
      files directly under the partial directories, INCLUDED. */
  lemma ThirdCommitQueries(p: Path)
    ensures Resolve(ThirdStore(), p) ==
              if p == Level2() || IsAncestor(Level2(), p) then Excluded
              else if p == Out() || p == Level1() then Partial
              else Included
  {
  }

  /** The paths the test asks about after the third commit. */
  lemma ThirdCommitFiles()
    ensures Resolve(ThirdStore(), Out()) == Partial && Resolve(ThirdStore(), Level1()) == Partial
    ensures Resolve(ThirdStore(), "/t/Out/expected.sql") == Included
    ensures Resolve(ThirdStore(), "/t/Out/Level1/file.txt") == Included
    ensures Resolve(ThirdStore(), Level2()) == Excluded
    ensures Resolve(ThirdStore(), "/t/Out/Level1/Level2/file.txt") == Excluded
  {
    var deep := "/t/Out/Level1/Level2/file.txt";
    assert deep[..|Level2()|] == Level2();
    ThirdCommitQueries(Out());
    ThirdCommitQueries(Level1());
    ThirdCommitQueries("/t/Out/expected.sql");
    ThirdCommitQueries("/t/Out/Level1/file.txt");
    ThirdCommitQueries(Level2());
    ThirdCommitQueries(deep);
  }

  // ----- testGet_exclude_state2 -----

  /** The first listing with every entry INCLUDED. */
  function AllIncludedList(): Snapshot
  {
    MocksPart() + [Entry(Out(), Included), Entry("/t/Out/expected.sql", Included)] + Tail(Included, Included)
  }

  /** Nothing is stored, and a file created afterwards under Out/Level1/ is
      INCLUDED. */
  lemma AllIncludedCommit()
    ensures Commit(AllIncludedList()) == Store([], [])
    ensures Resolve(Commit(AllIncludedList()), "/t/Out/Level1/file2.txt") == Included
  {
    var afterOut := Progress([Entry("/t/Mocks/", Included), Entry(Out(), Included)], [], []);
    assert Replay([Entry(Out(), Included), Entry("/t/Out/expected.sql", Included)], AfterMocks()) == afterOut;
    assert Replay(Tail(Included, Included), afterOut) == afterOut;
    CommitPieces([Entry(Out(), Included), Entry("/t/Out/expected.sql", Included)], Tail(Included, Included),
                 afterOut, afterOut);
  }

  /** The listing with Out/Level1/ (index 5) set to PARTIAL and Out/ left
      INCLUDED. */
  function Level1PartialList(): Snapshot
  {
    MocksPart() + [Entry(Out(), Included), Entry(Level1(), Partial), Entry("/t/Out/Level1/file2.txt", Included),
                 Entry("/t/Out/expected.sql", Included)] + Tail(Included, Included)
  }

  /** A file created after the commit under Out/Level1/ is INCLUDED.  Out/ is
      an INCLUDED directory above the PARTIAL Level1/, so Level1/ is forced
      to INCLUDED and nothing is stored. */
  lemma Level1PartialCommit()
    ensures Commit(Level1PartialList()) == Store([], [])
    ensures Resolve(Commit(Level1PartialList()), "/t/Out/Level1/file.txt") == Included
  {
    var out := [Entry(Out(), Included), Entry(Level1(), Partial), Entry("/t/Out/Level1/file2.txt", Included),
                Entry("/t/Out/expected.sql", Included)];
    var afterOut := Progress([Entry("/t/Mocks/", Included), Entry(Out(), Included), Entry(Level1(), Included)], [], []);
    assert Replay(out, AfterMocks()) == afterOut;
    assert Replay(Tail(Included, Included), afterOut) == afterOut;
    CommitPieces(out, Tail(Included, Included), afterOut, afterOut);
  }

  /** The steps of testGet_exclude_state on one File_List object: each
      commit replaces the lists of the one before, and each save copies them
      to the option, which is returned as read back after each step. */
  method ExcludeStateSession() returns (first: Store, second: Store, third: Store)
    ensures first == Store([Out()], [WpBackupTest()])
    ensures second == Store([], [Out()])
    ensures third == Store([Out(), Level1()], [Level2()])
  {
    var files := new FileList();

    FirstCommit();
    files.SetFileList(FirstList());
    files.Save();
    first := files.option;
    assert first == FirstStore();
    FirstCommitQueries("/t/Mocks/mock-wp-functions.php");
    FirstCommitQueries(WpBackupTest());
    FirstCommitQueries(Out());
    assert files.GetFileState("/t/Mocks/mock-wp-functions.php") == Included;
    assert files.GetFileState(WpBackupTest()) == Excluded;
    assert files.GetFileState(Out()) == Partial;

    SecondCommit();
    files.SetFileList(SecondList());
    files.Save();
    second := files.option;
    assert second == SecondStore();
    SecondCommitSubtree();
    assert files.GetFileState(Out()) == Excluded;
    assert files.GetFileState("/t/Out/expected.sql") == Excluded;
    assert files.GetFileState(Level1()) == Excluded;
    assert files.GetFileState("/t/Out/Level1/file.txt") == Excluded;
    assert files.GetFileState(Level2()) == Excluded;
    SecondCommitFiles();
    assert files.GetFileState("/t/Out/Level1/Level2/file.txt") == Excluded;
    assert files.GetFileState("/t/Out/Level1/file2.txt") == Excluded;
    assert files.GetFileState(WpBackupTest()) == Included;
    files.Save();

    ThirdCommit();
    files.SetFileList(ThirdList());
    files.Save();
    third := files.option;
    assert third == ThirdStore();
    ThirdCommitFiles();
    assert files.GetFileState(Out()) == Partial;
    assert files.GetFileState("/t/Out/expected.sql") == Included;
    assert files.GetFileState(Level1()) == Partial;
    assert files.GetFileState("/t/Out/Level1/file.txt") == Included;
    assert files.GetFileState(Level2()) == Excluded;
    assert files.GetFileState("/t/Out/Level1/Level2/file.txt") == Excluded;
  }
}
