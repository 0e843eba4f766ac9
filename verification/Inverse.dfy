/** What a rollback of all, or of some, of the paths an agent changed gives back. */
module Inverse {
  import opened Wrappers
  import opened FileTree
  import opened Turns
  import opened Listing
  import opened Settling
  import opened Auditor
  import opened Phases

  /** The rollback of `over` after the run `r`, in the order `ps`, measured against `goal`. */
  function JobOf(r: Run, over: set<Path>, ps: seq<Path>, goal: Leaves): Job {
    Job(PlanOf(r.s, r.head, NamesOf(r.head, r.index)), r.index, LeavesOf(r.work), over, ps, goal)
  }

  /** Rolling back everything the run changed should give the pre-dispatch files and links. */
  function FullJob(r: Run, ps: seq<Path>): Job {
    JobOf(r, ChangedBy(r), ps, LeavesOf(r.work0))
  }

  /** A clean changed path that no checkout brings: HEAD does not list it as it is named, and neither does the
      index with what it held. */
  predicate Unlisted(r: Run, p: Path) {
    && p in ChangedBy(r) && Leaf(r.work0, p).Some? && Recorded(r.s, p).None?
    && PathText(p) !in NamesOf(r.head, r.index).head
    && !(PathText(p) in NamesOf(r.head, r.index).all && At(r.index, p) == Leaf(r.work0, p))
  }

  lemma PlainIsNotUnlisted(r: Run, p: Path)
    requires ValidRun(r) && Plain(p)
    ensures !Unlisted(r, p)
  {
    hide ChangedBy, Recorded, Plain, NamesOf;
    SnapshotKnows(r, p);
    PlainIsListed(p, r.head, r.index);
  }

  lemma ChangedNotRoot(r: Run)
    requires ValidRun(r)
    ensures [] !in ChangedBy(r)
  {
    hide Records;
    RecordedKeys(r);
    ModifiedIff(r.head, r.index0, r.work0, []);
    ModifiedIff(r.head, r.index, r.work, []);
    RootNoLeaf(r.work0);
    RootNoLeaf(r.work);
  }

  lemma JobReady(r: Run, over: set<Path>, ps: seq<Path>, goal: Leaves)
    requires ValidRun(r) && ShallowFirst(ps, over)
    ensures var j := JobOf(r, over, ps, goal); Ready(j.plan, j.Start(), ps, over)
  {
    hide ShallowFirst, ValidRun, TreeLike, LeavesOf, RecordedLeaves, NamesOf, PathText;
    ValidTrees(r);
    LeavesTreeLike(r.work);
    RecordedNoDirs(r);
    WithoutTreeLike(LeavesOf(r.work), over);
    HeadTreeLike(r);
  }

  lemma WithoutTreeLike(l: Leaves, over: set<Path>)
    requires TreeLike(l)
    ensures TreeLike(Without(l, over)) && forall p, q :: p in over && q in Without(l, over) ==> !(p <= q)
  {
  }

  lemma HeadTreeLike(r: Run)
    requires ValidRun(r)
    ensures TreeLike(PlanOf(r.s, r.head, NamesOf(r.head, r.index)).head) && TreeLike(r.index)
  {
    hide NamesOf, PathText, Records, WellFormed, AllNamed, RecordedLeaves;
  }

  lemma RecordedNoDirs(r: Run)
    requires ValidRun(r)
    ensures NoDirs(RecordedLeaves(r.s))
  {
    hide Records, TreeLike;
    RecordedKeys(r);
    ModifiedIff(r.head, r.index0, r.work0, []);
    RootUnmodified(r);
    RecordsSubset(r);
  }

  lemma RecordsSubset(r: Run)
    requires ValidRun(r)
    ensures r.s.contents.Keys <= r.s.types.Keys && r.s.links.Keys <= r.s.types.Keys
  {
  }

  lemma RootUnmodified(r: Run)
    requires ValidRun(r)
    ensures !Differs(r.head, r.index0, r.work0, [])
  {
    RootNoLeaf(r.work0);
  }

  /** A recorded path is recorded as it was, unless it was read through a link; an unrecorded file or link was
      clean. */
  lemma SnapshotKnows(r: Run, p: Path)
    requires ValidRun(r)
    ensures Leaf(r.work0, p).Some? && Recorded(r.s, p).Some? ==> Recorded(r.s, p) == Leaf(r.work0, p)
    ensures Leaf(r.work0, p).Some? && Recorded(r.s, p).None? ==> At(r.head, p) == Leaf(r.work0, p)
    ensures Leaf(r.work0, p).None? && Recorded(r.s, p).Some? ==> Blocked(r.work0, p)
  {
    hide Probe, Blocked, Modified, TreeLike;
    RecordedKeys(r);
    ModifiedIff(r.head, r.index0, r.work0, p);
    ProbeEntry(r.work0, r.out0, p);
    if p in r.s.types { assert RecordsAt(r.s, r.work0, r.out0, p); }
  }

  /** A link of the old tree above a new file was replaced, so it is in the changed set. */
  lemma LinkWasChanged(r: Run, q: Path)
    requires ValidRun(r) && Leaf(r.work, q).Some? && Blocked(r.work0, q)
    ensures exists a :: a in ChangedBy(r) && a < q
  {
    hide ChangedBy, Records, TreeLike, Drifted;
    var k :| 0 < k < |q| && q[..k] in r.work0 && r.work0[q[..k]].Link?;
    var a := q[..k];
    assert a < q && r.work[a] == Dir;
    assert Leaf(r.work0, a) != Leaf(r.work, a);
    ChangedCovers(r, a);
    PresentNotBlocked(r.work, a);
    PresentNotBlocked(r.work0, a);
  }

  /** When no recorded path is hidden behind a link, the pre-dispatch tree can be asked for. */
  lemma FullPosed(r: Run, ps: seq<Path>)
    requires ValidRun(r) && ShallowFirst(ps, ChangedBy(r)) && forall p :: !Hidden(r, p)
    ensures Posed(FullJob(r, ps)) && NoStrays(FullJob(r, ps))
    ensures Backed(FullJob(r, ps)) <==> forall p :: !Unlisted(r, p)
  {
    hide ChangedBy, Hidden, Planted, Ready, Recorded, Blocked, TreeLike, LeavesOf, RecordedLeaves, ValidRun, LinkAbove,
      ShallowFirst, Unlisted, Brings;
    var j := FullJob(r, ps);
    JobReady(r, ChangedBy(r), ps, j.goal);
    ValidTrees(r);
    LeavesTreeLike(r.work0);
    forall q | q !in j.over ensures
      && (q in j.goal ==> q in j.work && j.work[q] == j.goal[q])
      && (q in j.work && q !in j.goal ==> exists a :: a in j.over && a < q)
    {
      OutsideGoal(r, q);
    }
    forall p | p in j.over ensures
      && (p in j.goal && p in j.plan.recorded ==> j.plan.recorded[p] == j.goal[p])
      && (p !in j.goal && p in j.plan.recorded ==> LinkAbove(j.goal, p))
    {
      SnapshotKnows(r, p);
      LeavesLook(r.work0, p);
      RecordedLook(r.s, p);
      BlockedIsLink(r.work0, p);
    }
    forall p, q | Stray(j, p) && q in j.over && q in j.goal ensures !(p < q) {
      BelowStray(r, p, q);
    }
    forall p ensures Unlisted(r, p) <==>
      p in j.over && p in j.goal && p !in j.plan.recorded && Brings(j, p) != Some(j.goal[p])
    {
      UnlistedIff(r, ps, p);
    }
  }

  lemma UnlistedIff(r: Run, ps: seq<Path>, p: Path)
    requires ValidRun(r)
    ensures var j := FullJob(r, ps);
      Unlisted(r, p) <==> p in j.over && p in j.goal && p !in j.plan.recorded && Brings(j, p) != Some(j.goal[p])
  {
    hide ChangedBy, ValidRun, RecordedLeaves, Recorded, NamesOf, PathText;
    SnapshotKnows(r, p);
    LeavesLook(r.work0, p);
    RecordedLook(r.s, p);
  }

  /** What was recorded without being a leaf lay below a link, so no leaf was below it. */
  lemma BelowStray(r: Run, p: Path, q: Path)
    requires ValidRun(r) && p in RecordedLeaves(r.s) && p !in LeavesOf(r.work0) && q in LeavesOf(r.work0)
    ensures !(p < q)
  {
    hide ValidRun, RecordedLeaves, Recorded;
    SnapshotKnows(r, p);
    LeavesLook(r.work0, p);
    RecordedLook(r.s, p);
    ValidTrees(r);
    if p < q {
      BlockedBelow(r.work0, p, q);
      PresentNotBlocked(r.work0, q);
    }
  }

  lemma BlockedBelow(t: Tree, p: Path, q: Path)
    requires Blocked(t, p) && p < q
    ensures Blocked(t, q)
  {
    var k :| 0 < k < |p| && p[..k] in t && t[p[..k]].Link?;
    assert q[..k] == p[..k];
  }

  lemma OutsideGoal(r: Run, q: Path)
    requires ValidRun(r) && q !in ChangedBy(r) && !Hidden(r, q)
    ensures q in LeavesOf(r.work0) ==> q in LeavesOf(r.work) && LeavesOf(r.work)[q] == LeavesOf(r.work0)[q]
    ensures q in LeavesOf(r.work) && q !in LeavesOf(r.work0) ==> exists a :: a in ChangedBy(r) && a < q
  {
    hide ChangedBy, Hidden, Blocked, ValidRun;
    LeavesLook(r.work0, q);
    LeavesLook(r.work, q);
    if Leaf(r.work, q) != Leaf(r.work0, q) {
      ChangedCovers(r, q);
      assert Planted(r, q);
      ValidTrees(r);
      if q in r.work0 { PresentNotBlocked(r.work0, q); }
      LinkWasChanged(r, q);
    }
  }

  lemma ValidTrees(r: Run)
    requires ValidRun(r)
    ensures WellFormed(r.work0) && WellFormed(r.work)
  {
  }

  /** A hidden path is not in the set, and not in the tree: nothing brings it back. */
  lemma HiddenIsLost(r: Run, ps: seq<Path>, p: Path)
    requires ValidRun(r) && ShallowFirst(ps, ChangedBy(r)) && Hidden(r, p)
    ensures !Settles(FullJob(r, ps))
  {
    hide Drifted, Records, TreeLike, Turn;
    var j := FullJob(r, ps);
    RecordedKeys(r);
    DriftedIff(r, p);
    assert p !in j.over;
    LeavesLook(r.work0, p);
    LeavesLook(r.work, p);
    if p in r.work { PresentNotBlocked(r.work, p); }
    forall m | 0 <= m < |ps| ensures ps[m] != p {
      assert ps[m] in ps;
    }
    if p in j.At(|ps|).standing {
      OthersOnlyLeave(j, p, |ps|);
    }
  }

  /** A path that reads as before, with the same file or link and the same index entry, is left out of the rollback:
      nothing is put there, whatever the Human had done to it before the run. */
  lemma UntouchedIsLeftOut(r: Run, ps: seq<Path>, p: Path)
    requires ValidRun(r) && ShallowFirst(ps, ChangedBy(r))
    requires Probe(r.work, r.out, p) == Probe(r.work0, r.out0, p)
    requires Leaf(r.work, p) == Leaf(r.work0, p) && At(r.index, p) == At(r.index0, p)
    ensures p !in ChangedBy(r)
    ensures var end := FullJob(r, ps).At(|ps|).standing;
      p in end ==> Leaf(r.work0, p) == Some(end[p])
  {
    hide ChangedBy, Probe, ValidRun, Turn;
    var j := FullJob(r, ps);
    ChangedExactly(r, p);
    forall m | 0 <= m < |ps| ensures ps[m] != p {
      assert ps[m] in ps;
    }
    if p in j.At(|ps|).standing { OthersOnlyLeave(j, p, |ps|); }
  }

  /** The exact condition for a full rollback: it ends without an exception, with the files and links from
      before the run, if and only if no recorded path is hidden behind a link through which the same is read, no
      clean path is listed under another name, nothing unchanged lies below a changed path, and everything a
      checkout brings back against the old tree is cleared away again. */
  lemma RollbackIsInverse(r: Run, ps: seq<Path>)
    requires ValidRun(r) && ShallowFirst(ps, ChangedBy(r))
    ensures var j := FullJob(r, ps);
      Settles(j) <==>
        && (forall p :: !Hidden(r, p)) && (forall p :: !Unlisted(r, p))
        && Spares(j) && forall p :: Coming(j, p) ==> Recovered(j, p)
  {
    hide Hidden, Unlisted, Spares, Coming, Recovered, Settles, ValidRun, ShallowFirst, Posed, Backed, NoStrays;
    if p :| Hidden(r, p) {
      HiddenIsLost(r, ps, p);
    } else {
      FullPosed(r, ps);
      SettlesExactly(FullJob(r, ps));
    }
  }

  /** In particular it is enough that nothing is hidden, every name is plain and nothing comes back: then nothing
      unchanged lies below a changed path either. */
  lemma NothingComes(r: Run, ps: seq<Path>)
    requires ValidRun(r) && ShallowFirst(ps, ChangedBy(r))
    requires forall p :: !Hidden(r, p)
    requires forall p :: p in ChangedBy(r) ==> Plain(p)
    requires forall p :: !Coming(FullJob(r, ps), p)
    ensures Settles(FullJob(r, ps))
  {
    hide Hidden, Coming, Recovered, Settles, ValidRun, ShallowFirst, Posed, Backed, ChangedBy, Plain;
    var j := FullJob(r, ps);
    forall p ensures !Unlisted(r, p) {
      if Plain(p) { PlainIsNotUnlisted(r, p); }
    }
    forall p, q | p in j.over && q in j.goal && q !in j.over ensures !(p < q) {
      OutsideGoal(r, q);
      if p < q { StagedOverDirectory(r, ps, p, q); }
    }
    RollbackIsInverse(r, ps);
  }

  /** A changed path with something unchanged below it is a directory, before and after, with a file staged in
      its place: a checkout brings that back. */
  lemma StagedOverDirectory(r: Run, ps: seq<Path>, p: Path, q: Path)
    requires ValidRun(r) && p in ChangedBy(r) && p < q && ShallowFirst(ps, ChangedBy(r))
    requires q in LeavesOf(r.work0) && q in LeavesOf(r.work)
    requires Plain(p) && forall a :: a < p ==> !Coming(FullJob(r, ps), a)
    ensures Coming(FullJob(r, ps), p)
  {
    hide ChangedBy, Records, Changed, Hidden, TreeLike, Clean, PathText, NamesOf, Plain, AllNamed;
    var j := FullJob(r, ps);
    ChangedNotRoot(r);
    NothingBelow(r.work, p, q);
    NothingBelow(r.work0, p, q);
    DirectoryChanged(r, p);
    StagedIsIndexable(r, p);
    RecordedLook(r.s, p);
    LeavesTreeLike(r.work0);
    forall a | a in j.goal ensures !(a < p) {
      if a < p { PrefixTrans(a, p, q); GoalsApart(r.work0, a, q); }
    }
    if |p| > 1 { assert p[..|p| - 1] < p; }
    forall a | Clean(j, a) ensures a in j.goal { CleanIsGoal(j, a); }
  }

  lemma StagedIsIndexable(r: Run, p: Path)
    requires ValidRun(r) && Plain(p) && p in r.index && p !in r.head
    ensures Indexable(PlanOf(r.s, r.head, NamesOf(r.head, r.index)), p)
  {
    hide PathText, NamesOf, Plain, Records, TreeLike;
    PlainIsListed(p, r.head, r.index);
    if PathText(p) in NamesOf(r.head, r.index).head { ListedIsThere(p, r.head, r.index); }
  }

  lemma GoalsApart(t: Tree, a: Path, q: Path)
    requires WellFormed(t) && a in LeavesOf(t) && q in LeavesOf(t)
    ensures !(a < q)
  {
    LeavesTreeLike(t);
  }

  lemma DirectoryChanged(r: Run, p: Path)
    requires ValidRun(r) && p in ChangedBy(r) && p in r.work && r.work[p] == Dir && p in r.work0 && r.work0[p] == Dir
    ensures Recorded(r.s, p).None? && p !in r.head && p in r.index && p !in LeavesOf(r.work0)
  {
    hide Probe, Modified, TreeLike;
    RecordedKeys(r);
    ModifiedIff(r.head, r.index0, r.work0, p);
    ModifiedIff(r.head, r.index, r.work, p);
    ProbeEntry(r.work, r.out, p);
    ProbeEntry(r.work0, r.out0, p);
    if p in r.s.types {
      assert RecordsAt(r.s, r.work0, r.out0, p);
      DriftedIff(r, p);
    }
    RecordsSubset(r);
  }

  // ----- some of the changed paths -----

  /** The paths of `over` as they were, everything else as the agent left it. */
  function Mixed(r: Run, over: set<Path>): Leaves {
    (map q | q in LeavesOf(r.work0) && q in over :: LeavesOf(r.work0)[q])
    + (map q | q in LeavesOf(r.work) && q !in over :: LeavesOf(r.work)[q])
  }

  function PartJob(r: Run, over: set<Path>, ps: seq<Path>): Job {
    JobOf(r, over, ps, Mixed(r, over))
  }

  lemma PartPosed(r: Run, over: set<Path>, ps: seq<Path>)
    requires ValidRun(r) && ShallowFirst(ps, over) && over <= ChangedBy(r)
    requires TreeLike(Mixed(r, over))
    ensures Posed(PartJob(r, over, ps))
  {
    hide ChangedBy, Ready, Recorded, Blocked, TreeLike, ShallowFirst, ValidRun, LeavesOf, RecordedLeaves, LinkAbove;
    var j := PartJob(r, over, ps);
    JobReady(r, over, ps, j.goal);
    forall p | p in j.over && p in j.goal && p in j.plan.recorded ensures j.plan.recorded[p] == j.goal[p] {
      SnapshotKnows(r, p);
      LeavesLook(r.work0, p);
      RecordedLook(r.s, p);
    }
    forall p, q | Stray(j, p) && q in j.over && q in j.goal ensures !(p < q) {
      BelowStray(r, p, q);
    }
  }

  /** The exact condition for a partial rollback: it ends without an exception, restores the paths and leaves every
      other write of the run alone, if and only if old and new files do not get in each other's way, a checkout
      brings every clean path of the set, what was recorded through a link of the old tree is kept out by a link,
      nothing that should stay lies below a path of the set, and what a checkout brings back is cleared away
      again. */
  lemma PartialRollback(r: Run, over: set<Path>, ps: seq<Path>)
    requires ValidRun(r) && ShallowFirst(ps, over) && over <= ChangedBy(r)
    ensures var j := PartJob(r, over, ps);
      Settles(j) <==>
        && TreeLike(j.goal) && Backed(j) && NoStrays(j)
        && Spares(j) && forall p :: Coming(j, p) ==> Recovered(j, p)
  {
    hide Spares, Coming, Recovered, ValidRun, ShallowFirst, Posed, Backed, NoStrays, Mixed, ChangedBy, Ready;
    var j := PartJob(r, over, ps);
    JobReady(r, over, ps, j.goal);
    AfterShape(j.plan, j.Start(), ps, over, |ps|);
    if TreeLike(j.goal) {
      PartPosed(r, over, ps);
      SettlesExactly(j);
    }
  }
}
