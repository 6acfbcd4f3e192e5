/** Reduction of a full file list to the sparse override store.

    Walking the list in order, a directory whose effective state is INCLUDED or
    EXCLUDED forces that state on every later path beneath it; a PARTIAL
    directory forces nothing.  The effective state of an entry is the state of
    the latest earlier forcing ancestor, or its own state when there is none.
    Only entries that decide for themselves (no forcing ancestor) and are
    EXCLUDED or PARTIAL are recorded. */
module Closure {
  import opened Paths
  import opened Overrides

  type Snapshot = seq<Entry>

  datatype Option<T> = None | Some(value: T)

  /** The order the directory listing provides: no entry repeats, or is an
      ancestor of, an entry listed before it. */
  predicate WellOrdered(s: Snapshot)
  {
    forall i, j :: 0 <= i < j < |s| ==> s[j].path != s[i].path && !IsAncestor(s[j].path, s[i].path)
  }

  /** Index of the latest entry before `k` that forces its state on entry `i`:
      an ancestor directory whose effective state is not PARTIAL. */
  function Forcer(s: Snapshot, i: nat, k: nat): (r: Option<nat>)
    requires i < |s| && k <= i
    ensures r.Some? ==> r.value < k
    decreases k, 0
  {
    if k == 0 then None
    else if IsAncestor(s[k - 1].path, s[i].path) && Effective(s, k - 1) != Partial then Some(k - 1)
    else Forcer(s, i, k - 1)
  }

  /** The state entry `i` actually takes: forced by its nearest forcing
      ancestor, else the state it was submitted with. */
  function Effective(s: Snapshot, i: nat): State
    requires i < |s|
    decreases i, 1
  {
    match Forcer(s, i, i)
    case Some(j) => Effective(s, j)
    case None => s[i].state
  }

  predicate Forced(s: Snapshot, i: nat)
    requires i < |s|
  {
    Forcer(s, i, i).Some?
  }

  /** Entry `j` forces its state on entry `i`. */
  predicate ForcesOn(s: Snapshot, j: nat, i: nat)
    requires j < |s| && i < |s|
  {
    IsAncestor(s[j].path, s[i].path) && Effective(s, j) != Partial
  }

  /** The paths among the first `n` entries that decide for themselves and
      chose `st`, in list order. */
  function Recorded(s: Snapshot, n: nat, st: State): seq<Path>
    requires n <= |s|
  {
    if n == 0 then []
    else Recorded(s, n - 1, st) + (if !Forced(s, n - 1) && s[n - 1].state == st then [s[n - 1].path] else [])
  }

  /** set_file_list: the store a full file list reduces to. */
  function Commit(s: Snapshot): Store
  {
    Store(Recorded(s, |s|, Partial), Recorded(s, |s|, Excluded))
  }

  // ----- The forcing directories kept by the committing loop -----

  /** The forcing directories among the first `k` entries with their effective
      states, oldest first: the list the committing loop appends to.  Nothing
      is ever removed from it; directories of subtrees already left stay in it
      and are passed over by the search. */
  ghost function ForcingMet(s: Snapshot, k: nat): seq<Entry>
    requires k <= |s|
  {
    if k == 0 then []
    else ForcingMet(s, k - 1) +
         (if IsDir(s[k - 1].path) && Effective(s, k - 1) != Partial
          then [Entry(s[k - 1].path, Effective(s, k - 1))] else [])
  }

  /** The state of the newest listed forcing directory that is an ancestor of `p`. */
  function NearestForcing(forcing: seq<Entry>, p: Path): Option<State>
  {
    if forcing == [] then None
    else if IsAncestor(forcing[|forcing| - 1].path, p) then Some(forcing[|forcing| - 1].state)
    else NearestForcing(forcing[..|forcing| - 1], p)
  }

  /** Searching the forcing directories from the newest finds exactly the forcing ancestor
      that the reference definition picks. */
  lemma {:induction false} SearchFindsForcer(s: Snapshot, i: nat, k: nat)
    requires i < |s| && k <= i
    ensures NearestForcing(ForcingMet(s, k), s[i].path) ==
            match Forcer(s, i, k) case Some(j) => Some(Effective(s, j)) case None => None
  {
    if k > 0 {
      SearchFindsForcer(s, i, k - 1);
      var prev, e := ForcingMet(s, k - 1), Effective(s, k - 1);
      if IsDir(s[k - 1].path) && e != Partial {
        var top := Entry(s[k - 1].path, e);
        assert ForcingMet(s, k) == prev + [top];
        assert (prev + [top])[..|prev|] == prev;
      } else {
        assert ForcingMet(s, k) == prev;
      }
    }
  }

  /** What the committing loop holds after some entries: the forcing directories
      and the two lists built so far. */
  datatype Progress = Progress(forcing: seq<Entry>, partial: seq<Path>, excluded: seq<Path>)

  /** One turn of the committing loop: find the nearest forcing directory among
      those met so far, append the entry if it forces, record it if it decides for
      itself. */
  function Step(pr: Progress, e: Entry): Progress
  {
    var forced := NearestForcing(pr.forcing, e.path);
    var effective := if forced.Some? then forced.value else e.state;
    Progress(
      if IsDir(e.path) && effective != Partial then pr.forcing + [Entry(e.path, effective)] else pr.forcing,
      if forced.None? && e.state == Partial then pr.partial + [e.path] else pr.partial,
      if forced.None? && e.state == Excluded then pr.excluded + [e.path] else pr.excluded)
  }

  /** The committing loop run over `s` from the state `pr`. */
  function Replay(s: Snapshot, pr: Progress): Progress
    decreases |s|
  {
    if s == [] then pr else Replay(s[1..], Step(pr, s[0]))
  }

  /** Running the loop over two lists in turn is running it over their concatenation. */
  lemma {:induction false} ReplayAppend(a: Snapshot, b: Snapshot, pr: Progress)
    ensures Replay(a + b, pr) == Replay(b, Replay(a, pr))
    decreases |a|
  {
    if a == [] {
      assert a + b == b;
    } else {
      assert (a + b)[0] == a[0] && (a + b)[1..] == a[1..] + b;
      ReplayAppend(a[1..], b, Step(pr, a[0]));
    }
  }

  /** The loop's state after the first `k` entries, by the reference definition. */
  ghost function After(s: Snapshot, k: nat): Progress
    requires k <= |s|
  {
    Progress(ForcingMet(s, k), Recorded(s, k, Partial), Recorded(s, k, Excluded))
  }

  /** One turn of the loop moves from the state after `k` entries to the
      state after `k + 1`. */
  lemma StepAdvances(s: Snapshot, k: nat)
    requires k < |s|
    ensures Step(After(s, k), s[k]) == After(s, k + 1)
  {
    SearchFindsForcer(s, k, k);
  }

  lemma {:induction false} ReplayFrom(s: Snapshot, k: nat)
    requires k <= |s|
    ensures Replay(s[k..], After(s, k)) == After(s, |s|)
    decreases |s| - k
  {
    if k < |s| {
      StepAdvances(s, k);
      assert s[k..][0] == s[k] && s[k..][1..] == s[k + 1..];
      ReplayFrom(s, k + 1);
    }
  }

  /** The committing loop computes exactly the reference reduction. */
  lemma ReplayIsCommit(s: Snapshot)
    ensures var pr := Replay(s, Progress([], [], []));
            Store(pr.partial, pr.excluded) == Commit(s)
  {
    ReplayFrom(s, 0);
    assert s[0..] == s;
  }

  // ----- What the reference definition means -----

  /** Forcer finds the latest forcing ancestor before `k`, and none exists
      when it finds nothing. */
  lemma {:induction false} ForcerIsLatest(s: Snapshot, i: nat, k: nat)
    requires i < |s| && k <= i
    ensures Forcer(s, i, k).None? ==> forall m :: 0 <= m < k ==> !ForcesOn(s, m, i)
    ensures Forcer(s, i, k).Some? ==>
              ForcesOn(s, Forcer(s, i, k).value, i) &&
              forall m :: Forcer(s, i, k).value < m < k ==> !ForcesOn(s, m, i)
  {
    if k > 0 {
      ForcerIsLatest(s, i, k - 1);
    }
  }

  /** A forced entry takes the state of its forcer, which is never PARTIAL. */
  lemma ForcedState(s: Snapshot, i: nat)
    requires i < |s| && Forced(s, i)
    ensures ForcesOn(s, Forcer(s, i, i).value, i)
    ensures Effective(s, i) == Effective(s, Forcer(s, i, i).value) != Partial
  {
    ForcerIsLatest(s, i, i);
  }

  /** Membership in a recorded list: exactly the self-deciding entries that
      chose that state. */
  lemma {:induction false} RecordedMembers(s: Snapshot, n: nat, st: State, p: Path)
    requires n <= |s|
    ensures p in Recorded(s, n, st) <==>
              exists j :: 0 <= j < n && s[j].path == p && !Forced(s, j) && s[j].state == st
  {
    if n > 0 {
      RecordedMembers(s, n - 1, st, p);
    }
  }

  /** The stored lists behave as sets: in a well-ordered list no path is
      recorded twice. */
  lemma {:induction false} RecordedNoDup(s: Snapshot, n: nat, st: State)
    requires WellOrdered(s) && n <= |s|
    ensures forall i, j :: 0 <= i < j < |Recorded(s, n, st)| ==> Recorded(s, n, st)[i] != Recorded(s, n, st)[j]
  {
    if n > 0 {
      RecordedNoDup(s, n - 1, st);
      var prev := Recorded(s, n - 1, st);
      if !Forced(s, n - 1) && s[n - 1].state == st {
        RecordedMembers(s, n - 1, st, s[n - 1].path);
        assert s[n - 1].path !in prev;
        var r := Recorded(s, n, st);
        assert r == prev + [s[n - 1].path];
        forall i, j | 0 <= i < j < |r| ensures r[i] != r[j] {
          if j == |prev| {
            assert r[i] == prev[i];
          } else {
            assert r[i] == prev[i] && r[j] == prev[j];
          }
        }
      }
    }
  }

  /** Every entry whose effective state is EXCLUDED is covered by the stored
      excluded list: itself or one of its ancestors is in it. */
  lemma {:induction false} ExcludedCovered(s: Snapshot, j: nat)
    requires j < |s| && Effective(s, j) == Excluded
    ensures s[j].path in Commit(s).excluded || UnderExcluded(Commit(s).excluded, s[j].path)
    decreases j
  {
    var excl := Commit(s).excluded;
    if Forced(s, j) {
      var m := Forcer(s, j, j).value;
      ForcedState(s, j);
      ExcludedCovered(s, m);
      if s[m].path in excl {
        assert IsAncestor(s[m].path, s[j].path);
      } else {
        var a :| a in excl && IsAncestor(a, s[m].path);
        AncestorTransitive(a, s[m].path, s[j].path);
      }
    } else {
      RecordedMembers(s, |s|, Excluded, s[j].path);
    }
  }

  /** In a well-ordered list, exclusion reaches every later entry beneath an
      excluded directory, whatever state that entry or any directory between
      them was submitted with. */
  lemma {:induction false} ExcludedPropagates(s: Snapshot, j: nat, k: nat)
    requires WellOrdered(s)
    requires j < k < |s| && IsAncestor(s[j].path, s[k].path) && Effective(s, j) == Excluded
    ensures Effective(s, k) == Excluded
    decreases k
  {
    ForcerIsLatest(s, k, k);
    assert ForcesOn(s, j, k);
    var m := Forcer(s, k, k).value;
    if m != j {
      assert j < m;
      var a, b, p := s[j].path, s[m].path, s[k].path;
      if |b| < |a| {
        AncestorsNested(b, a, p);
        assert false;
      } else if |b| == |a| {
        AncestorsSameLength(a, b, p);
        assert false;
      } else {
        AncestorsNested(a, b, p);
        ExcludedPropagates(s, j, m);
      }
    }
  }

  /** Everything in the excluded list came from an entry whose effective state
      is EXCLUDED and which decided for itself. */
  lemma StoredExcludedOrigin(s: Snapshot, a: Path)
    requires a in Commit(s).excluded
    ensures exists j :: 0 <= j < |s| && s[j].path == a && !Forced(s, j) && s[j].state == Excluded
                        && Effective(s, j) == Excluded
  {
    RecordedMembers(s, |s|, Excluded, a);
  }

  lemma StoredPartialOrigin(s: Snapshot, a: Path)
    requires a in Commit(s).partial
    ensures exists j :: 0 <= j < |s| && s[j].path == a && !Forced(s, j) && s[j].state == Partial
  {
    RecordedMembers(s, |s|, Partial, a);
  }

  /** Sparseness: an entry of a well-ordered list is stored exactly when it
      decides for itself, in the list of the state it chose; an entry that
      inherits its state is never stored. */
  lemma Sparse(s: Snapshot, i: nat)
    requires WellOrdered(s) && i < |s|
    ensures s[i].path in Commit(s).excluded <==> !Forced(s, i) && s[i].state == Excluded
    ensures s[i].path in Commit(s).partial <==> !Forced(s, i) && s[i].state == Partial
  {
    RecordedMembers(s, |s|, Excluded, s[i].path);
    RecordedMembers(s, |s|, Partial, s[i].path);
  }

  /** In a well-ordered list an ancestor of an entry is listed before it. */
  lemma AncestorListedEarlier(s: Snapshot, i: nat, j: nat)
    requires WellOrdered(s) && i < |s| && j < |s| && IsAncestor(s[j].path, s[i].path)
    ensures j < i
  {
  }

  /** An earlier forcing ancestor makes an entry forced. */
  lemma ForcingAncestorForces(s: Snapshot, i: nat, j: nat)
    requires j < i < |s| && ForcesOn(s, j, i)
    ensures Forced(s, i)
  {
    ForcerIsLatest(s, i, i);
  }

  /** An entry beneath a path of the stored excluded list is effectively
      EXCLUDED. */
  lemma StoredAncestorExcludes(s: Snapshot, i: nat, a: Path)
    requires WellOrdered(s) && i < |s|
    requires a in Commit(s).excluded && IsAncestor(a, s[i].path)
    ensures Effective(s, i) == Excluded
  {
    StoredExcludedOrigin(s, a);
    var j :| 0 <= j < |s| && s[j].path == a && Effective(s, j) == Excluded;
    AncestorListedEarlier(s, i, j);
    ExcludedPropagates(s, j, i);
  }

  /** Lossless: querying the committed store for any listed path gives back
      that path's effective state. */
  lemma Lossless(s: Snapshot, i: nat)
    requires WellOrdered(s) && i < |s|
    ensures Resolve(Commit(s), s[i].path) == Effective(s, i)
  {
    Sparse(s, i);
    if Forced(s, i) {
      ForcedState(s, i);
    }
    var e := Effective(s, i);
    if e == Excluded {
      ExcludedCovered(s, i);
    } else if e == Included && UnderExcluded(Commit(s).excluded, s[i].path) {
      var a :| a in Commit(s).excluded && IsAncestor(a, s[i].path);
      StoredAncestorExcludes(s, i, a);
    }
  }

  /** Paths that were not listed (files created after the commit): they are
      EXCLUDED exactly when some listed ancestor's effective state is
      EXCLUDED, and INCLUDED otherwise; PARTIAL is never inherited. */
  lemma Unlisted(s: Snapshot, p: Path)
    requires forall i :: 0 <= i < |s| ==> s[i].path != p
    ensures Resolve(Commit(s), p) ==
              if exists j :: 0 <= j < |s| && IsAncestor(s[j].path, p) && Effective(s, j) == Excluded
              then Excluded else Included
  {
    var store := Commit(s);
    if p in store.excluded {
      StoredExcludedOrigin(s, p);
    }
    if p in store.partial {
      StoredPartialOrigin(s, p);
    }
    if exists j :: 0 <= j < |s| && IsAncestor(s[j].path, p) && Effective(s, j) == Excluded {
      var j :| 0 <= j < |s| && IsAncestor(s[j].path, p) && Effective(s, j) == Excluded;
      ExcludedCovered(s, j);
      if s[j].path !in store.excluded {
        var a :| a in store.excluded && IsAncestor(a, s[j].path);
        AncestorTransitive(a, s[j].path, p);
      }
    } else if UnderExcluded(store.excluded, p) {
      var a :| a in store.excluded && IsAncestor(a, p);
      StoredExcludedOrigin(s, a);
      assert false;
    }
  }

  /** Closure minimality: only the topmost excluded directory of a subtree is
      stored, and no path is in both lists. */
  lemma Minimal(s: Snapshot, a: Path)
    requires WellOrdered(s) && a in Commit(s).excluded
    ensures !UnderExcluded(Commit(s).excluded, a)
    ensures a !in Commit(s).partial
  {
    StoredExcludedOrigin(s, a);
    var i :| 0 <= i < |s| && s[i].path == a && !Forced(s, i) && s[i].state == Excluded;
    Sparse(s, i);
    if UnderExcluded(Commit(s).excluded, a) {
      var b :| b in Commit(s).excluded && IsAncestor(b, a);
      StoredExcludedOrigin(s, b);
      var j :| 0 <= j < |s| && s[j].path == b && Effective(s, j) == Excluded;
      AncestorListedEarlier(s, i, j);
      ForcingAncestorForces(s, i, j);
    }
  }

  /** A directory marked PARTIAL passes nothing down: an entry whose only
      listed ancestors are effectively PARTIAL keeps the state it was submitted
      with. */
  lemma PartialDoesNotForce(s: Snapshot, i: nat)
    requires i < |s|
    requires forall j :: 0 <= j < i && IsAncestor(s[j].path, s[i].path) ==> Effective(s, j) == Partial
    ensures Effective(s, i) == s[i].state
  {
    if Forced(s, i) {
      ForcedState(s, i);
    }
  }

  // ----- Idempotence -----

  /** The list re-expressed with every path assigned its current state. */
  function Reclassify(s: Snapshot): (t: Snapshot)
    ensures |t| == |s|
  {
    seq(|s|, j requires 0 <= j < |s| => Entry(s[j].path, Resolve(Commit(s), s[j].path)))
  }

  /** Two lists with the same paths, the second carrying the first one's
      effective states, force alike. */
  lemma {:induction false} SameForcer(s: Snapshot, t: Snapshot, i: nat, k: nat)
    requires |t| == |s| && i < |s| && k <= i
    requires forall j :: 0 <= j < |s| ==> t[j] == Entry(s[j].path, Effective(s, j))
    ensures Forcer(t, i, k) == Forcer(s, i, k)
    decreases k, 0
  {
    if k > 0 {
      SameEffective(s, t, k - 1);
      SameForcer(s, t, i, k - 1);
    }
  }

  lemma {:induction false} SameEffective(s: Snapshot, t: Snapshot, i: nat)
    requires |t| == |s| && i < |s|
    requires forall j :: 0 <= j < |s| ==> t[j] == Entry(s[j].path, Effective(s, j))
    ensures Effective(t, i) == Effective(s, i)
    decreases i, 1
  {
    SameForcer(s, t, i, i);
    match Forcer(s, i, i)
    case Some(j) => SameEffective(s, t, j);
    case None =>
  }

  lemma {:induction false} SameRecorded(s: Snapshot, t: Snapshot, n: nat, st: State)
    requires |t| == |s| && n <= |s|
    requires forall j :: 0 <= j < |s| ==> t[j] == Entry(s[j].path, Effective(s, j))
    ensures Recorded(t, n, st) == Recorded(s, n, st)
  {
    if n > 0 {
      var k := n - 1;
      SameRecorded(s, t, k, st);
      SameForcer(s, t, k, k);
      assert Forced(t, k) == Forced(s, k);
      assert !Forced(s, k) ==> t[k].state == s[k].state;
    }
  }

  /** Idempotence: committing the list re-expressed through the store it
      produced gives back the same store. */
  lemma Idempotent(s: Snapshot)
    requires WellOrdered(s)
    ensures Commit(Reclassify(s)) == Commit(s)
  {
    var t := Reclassify(s);
    forall j | 0 <= j < |s| ensures t[j] == Entry(s[j].path, Effective(s, j)) {
      Lossless(s, j);
    }
    SameRecorded(s, t, |s|, Partial);
    SameRecorded(s, t, |s|, Excluded);
  }
}
