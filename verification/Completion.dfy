/** When an installation goes through, and two projects that a failed health check does not give back. */
module Completion {
  import opened Wrappers
  import opened InstallUndo
  import opened Install

  const STAGED := {"agents", "skills", "templates", "assets"}

  /** What the validation of a package asks for. */
  ghost predicate Complete(pkg: Package) {
    forall name :: name in STAGED ==> exists k: nat :: k < |pkg.site| && Provides(pkg, k, name)
  }

  predicate Provides(pkg: Package, k: nat, name: string)
    requires k < |pkg.site|
  {
    [Name("tracks"), Name(name)] <= pkg.site[k].0
  }

  /** `name` has not been moved to its place yet. */
  predicate Waiting(pkg: Package, i: nat, name: string) {
    || (name == "agents" && i <= Late(pkg, 1))
    || (name == "skills" && i <= Late(pkg, 2))
    || (name == "templates" && i <= Late(pkg, 3))
    || (name == "assets" && i <= Late(pkg, 7))
  }

  ghost predicate Stocked(pkg: Package, i: nat, f: Files) {
    && (i <= 5 + |pkg.site| ==> forall m: nat :: m < i - 5 ==> pkg.Site() + pkg.site[m].0 in f)
    && (i >= 5 + |pkg.site| ==> forall name :: Waiting(pkg, i, name) ==> Exists(f, pkg.Staged(name)))
    && (i == Late(pkg, 10) ==> LAUNCHER_TMP in f)
    && (i == Late(pkg, 13) ==> RECEIPT_TMP in f)
  }

  lemma SiteStocked(pkg: Package, f: Files)
    requires Complete(pkg) && forall m: nat :: m < |pkg.site| ==> pkg.Site() + pkg.site[m].0 in f
    ensures Stocked(pkg, Late(pkg, 0), f)
  {
    forall name | name in STAGED ensures Exists(f, pkg.Staged(name)) {
      var k: nat :| k < |pkg.site| && Provides(pkg, k, name);
      assert pkg.Staged(name) == pkg.Site() + [Name("tracks"), Name(name)];
      assert pkg.Staged(name) <= pkg.Site() + pkg.site[k].0;
    }
  }

  lemma LateStocked(pkg: Package, before: Project, k: nat, s: State)
    requires k < 14 && Stocked(pkg, Late(pkg, k), s.files)
    ensures Stocked(pkg, Late(pkg, k + 1), Apply(LayoutOf(pkg, before), s, MaterializeSteps(pkg, before)[k]).files)
  {
    hide Exists, Look, Set, Replace;
    var layout, step := LayoutOf(pkg, before), MaterializeSteps(pkg, before)[k];
    var t := Apply(layout, s, step);
    forall name | Waiting(pkg, Late(pkg, k + 1), name) ensures Exists(t.files, pkg.Staged(name)) {
      assert Waiting(pkg, Late(pkg, k), name);
      forall q | pkg.Staged(name) <= q ensures Look(t.files, q) == Look(s.files, q) {
        StillThere(pkg, before, k, s, name, q);
      }
      SameExists(t.files, s.files, pkg.Staged(name));
    }
    if k in {9, 12} { TemporaryThere(pkg, before, k, s); }
  }

  lemma TemporaryThere(pkg: Package, before: Project, k: nat, s: State)
    requires k in {9, 12}
    ensures (if k == 9 then LAUNCHER_TMP else RECEIPT_TMP)
      in Apply(LayoutOf(pkg, before), s, MaterializeSteps(pkg, before)[k]).files
  {
  }

  lemma StillThere(pkg: Package, before: Project, k: nat, s: State, name: string, q: Path)
    requires k < 14 && Waiting(pkg, Late(pkg, k + 1), name) && pkg.Staged(name) <= q
    ensures Look(Apply(LayoutOf(pkg, before), s, MaterializeSteps(pkg, before)[k]).files, q) == Look(s.files, q)
  {
    hide Exists, Look, Set, Replace;
    var layout, step := LayoutOf(pkg, before), MaterializeSteps(pkg, before)[k];
    StagingName(pkg);
    assert k <= 6 && q[0] == TRACKS[0] && q[1] == layout.staging[1];
    assert q[2] == Name("site-packages") && q[4] == Name(name) && layout.BackupRoot()[2] == Name("backup");
    match step {
      case DoReplace(d, staged) =>
        assert d[0] == OPENCODE[0] && staged[4] != q[4];
        ReplaceElsewhere(layout, s, d, staged, q);
      case Write(p, v) =>
        assert p[1] != q[1];
        LookSet(s.files, p, v, q);
      case Seed(p, v) => LookSet(s.files, p, Some(v), q);
      case _ =>
    }
  }

  lemma StockedNext(pkg: Package, before: Project, i: nat, s: State)
    requires i < Late(pkg, 14) == |InstallSteps(pkg, before)| && Complete(pkg) && Stocked(pkg, i, s.files)
    ensures Stocked(pkg, i + 1, Apply(LayoutOf(pkg, before), s, InstallSteps(pkg, before)[i]).files)
  {
    hide InstallSteps, MaterializeSteps, Complete, Stocked, Apply;
    if i < 5 {
      ScaffoldAt(pkg, before, i);
      NothingStocked(pkg, i + 1, Apply(LayoutOf(pkg, before), s, InstallSteps(pkg, before)[i]).files);
    } else if i < 5 + |pkg.site| {
      SiteAt(pkg, before, i - 5);
      SiteStockedNext(pkg, before, i - 5, s);
    } else {
      var k := i - 5 - |pkg.site|;
      LateAt(pkg, before, k);
      LateStocked(pkg, before, k, s);
    }
  }

  lemma NothingStocked(pkg: Package, i: nat, f: Files)
    requires Complete(pkg) && i <= 5
    ensures Stocked(pkg, i, f)
  {
    CompleteHasFiles(pkg);
  }

  lemma SiteStockedNext(pkg: Package, before: Project, k: nat, s: State)
    requires k < |pkg.site| && Complete(pkg) && Stocked(pkg, 5 + k, s.files)
    ensures Stocked(pkg, 5 + k + 1,
      Apply(LayoutOf(pkg, before), s, Write(pkg.Site() + pkg.site[k].0, Some(pkg.site[k].1))).files)
  {
    hide Complete, Exists, Waiting;
    var f := Set(s.files, pkg.Site() + pkg.site[k].0, Some(pkg.site[k].1));
    forall m: nat | m < k + 1 ensures pkg.Site() + pkg.site[m].0 in f {
    }
    if k + 1 == |pkg.site| { SiteStocked(pkg, f); }
  }

  lemma CompleteHasFiles(pkg: Package)
    requires Complete(pkg)
    ensures |pkg.site| > 0
  {
    assert "agents" in STAGED;
  }

  // ----- along a whole installation -----

  ghost function StateAt(pkg: Package, before: Project, i: nat): State
    requires i <= |InstallSteps(pkg, before)|
  {
    After(LayoutOf(pkg, before), before.files, InstallSteps(pkg, before)[..i]).state
  }

  lemma StateNext(pkg: Package, before: Project, i: nat)
    requires i < |InstallSteps(pkg, before)|
    ensures StateAt(pkg, before, i + 1) ==
      Apply(LayoutOf(pkg, before), StateAt(pkg, before, i), InstallSteps(pkg, before)[i])
  {
    hide InstallSteps, Apply, Left;
    var steps := InstallSteps(pkg, before);
    assert steps[..i + 1][..i] == steps[..i];
  }

  lemma {:induction false} StocksUp(pkg: Package, before: Project, i: nat)
    requires i <= |InstallSteps(pkg, before)| && Complete(pkg)
    ensures Stocked(pkg, i, StateAt(pkg, before, i).files)
  {
    hide InstallSteps, Complete, Stocked, Apply, Left, StateAt;
    if i == 0 {
      NothingStocked(pkg, 0, StateAt(pkg, before, 0).files);
    } else {
      StocksUp(pkg, before, i - 1);
      LateAt(pkg, before, 0);
      StateNext(pkg, before, i - 1);
      StockedNext(pkg, before, i - 1, StateAt(pkg, before, i - 1));
    }
  }

  /** One of the first `k` files of the package, at its place in the staging directory. */
  predicate Delivered(pkg: Package, k: nat, q: Path)
    requires k <= |pkg.site|
  {
    exists m :: 0 <= m < k && q == pkg.Site() + pkg.site[m].0
  }

  /** With the first `i` steps done, the staging directory holds nothing but files of the package. */
  ghost predicate Fresh(pkg: Package, i: nat, f: Files) {
    5 <= i <= 5 + |pkg.site| ==> forall q :: q in f && pkg.Staging() <= q ==> Delivered(pkg, i - 5, q)
  }

  lemma DeliveredMore(pkg: Package, k: nat, q: Path)
    requires k < |pkg.site| && (Delivered(pkg, k, q) || q == pkg.Site() + pkg.site[k].0)
    ensures Delivered(pkg, k + 1, q)
  {
    if Delivered(pkg, k, q) {
      var m :| 0 <= m < k && q == pkg.Site() + pkg.site[m].0;
      assert 0 <= m < k + 1;
    }
  }

  lemma SiteFresh(pkg: Package, before: Project, k: nat)
    requires k < |pkg.site| && 5 + k < |InstallSteps(pkg, before)|
    requires Fresh(pkg, 5 + k, StateAt(pkg, before, 5 + k).files)
    ensures Fresh(pkg, 5 + k + 1, StateAt(pkg, before, 5 + k + 1).files)
  {
    hide InstallSteps, Delivered, StateAt;
    var s, t := StateAt(pkg, before, 5 + k), StateAt(pkg, before, 5 + k + 1);
    StateNext(pkg, before, 5 + k);
    SiteAt(pkg, before, k);
    forall q | q in t.files && pkg.Staging() <= q ensures Delivered(pkg, k + 1, q) {
      assert q in s.files || q == pkg.Site() + pkg.site[k].0;
      DeliveredMore(pkg, k, q);
    }
  }

  lemma {:induction false} NothingStaged(pkg: Package, before: Project, i: nat)
    requires i <= 5 <= |InstallSteps(pkg, before)| && !Exists(before.files, pkg.Staging())
    ensures !Exists(StateAt(pkg, before, i).files, pkg.Staging())
  {
    hide InstallSteps, StateAt;
    if i == 0 {
      assert StateAt(pkg, before, 0) == State(before.files, [], 0) by { StateFirst(pkg, before); }
    } else {
      NothingStaged(pkg, before, i - 1);
      StateNext(pkg, before, i - 1);
      ScaffoldAt(pkg, before, i - 1);
      ScaffoldPath(pkg, i - 1);
    }
  }

  lemma StateFirst(pkg: Package, before: Project)
    ensures StateAt(pkg, before, 0) == State(before.files, [], 0)
  {
  }

  lemma {:induction false} StaysFresh(pkg: Package, before: Project, k: nat)
    requires k <= |pkg.site| && 5 + k <= |InstallSteps(pkg, before)| && !Exists(before.files, pkg.Staging())
    ensures Fresh(pkg, 5 + k, StateAt(pkg, before, 5 + k).files)
  {
    hide InstallSteps, Delivered, StateAt;
    if k == 0 {
      NothingStaged(pkg, before, 5);
    } else {
      StaysFresh(pkg, before, k - 1);
      SiteFresh(pkg, before, k - 1);
    }
  }

  // ----- nothing in the way -----

  /** Where a file is read or written that is no file of the scaffold. */
  const WRITTEN := {ENV_IGNORE, LAUNCHER, LAUNCHER_TMP, RECEIPT, RECEIPT_TMP}

  /** Nothing is in the way: no file where a directory is needed, no directory where a file goes, and no file of
      the package below another. */
  ghost predicate Fits(pkg: Package, f: Files) {
    && (forall q :: q in Directories(pkg) ==> q !in f)
    && (forall p :: p in WRITTEN ==> NoDirectory(f, p))
    && Treelike(pkg)
  }

  /** No file of the package lies below another. */
  ghost predicate Treelike(pkg: Package) {
    forall m, k :: 0 <= m < |pkg.site| && 0 <= k < |pkg.site| ==> !(pkg.site[m].0 < pkg.site[k].0)
  }

  /** Where the steps outside the staging directory put a file or a tree. */
  function Targets(pkg: Package): set<Path> {
    {CONFIG, pkg.Managed("agents"), pkg.Managed("skills"), pkg.Managed("templates"), pkg.Installed(), ENV_IGNORE,
     LAUNCHER_TMP, RECEIPT_TMP}
    + set j | 0 <= j < 5 :: SCAFFOLD[j].0
  }

  /** The directories above the targets are those the installer writes into. */
  lemma AboveTarget(pkg: Package, p: Path, q: Path)
    requires p in Targets(pkg) && q < p
    ensures q in Directories(pkg)
  {
    hide Directories;
    if j :| 0 <= j < 5 && p == SCAFFOLD[j].0 {
      AboveScaffold(pkg, j, q);
    } else {
      AboveOther(pkg, p, q);
    }
  }

  lemma Beginnings(p: Path, q: Path)
    requires q < p
    ensures |q| == 0 ==> q == []
    ensures |q| == 1 ==> q == [p[0]]
    ensures |q| == 2 ==> q == [p[0], p[1]]
    ensures |q| == 3 ==> q == [p[0], p[1], p[2]]
  {
    assert q == p[..|q|];
  }

  lemma AboveOther(pkg: Package, p: Path, q: Path)
    requires p in {CONFIG, pkg.Managed("agents"), pkg.Managed("skills"), pkg.Managed("templates"), pkg.Installed(),
                   ENV_IGNORE, LAUNCHER_TMP, RECEIPT_TMP}
    requires q < p
    ensures q in Directories(pkg)
  {
    Beginnings(p, q);
    assert ENV + [Name(pkg.version)] == [Name(".tracks"), Name("env"), Name(pkg.version)];
  }

  lemma AboveScaffold(pkg: Package, j: nat, q: Path)
    requires j < 5 && q < SCAFFOLD[j].0
    ensures q in Directories(pkg)
  {
    ScaffoldParts(j);
    Beginnings(SCAFFOLD[j].0, q);
  }

  lemma ScaffoldParts(j: nat)
    requires j < 5
    ensures var p := SCAFFOLD[j].0;
      && p[0] == TRACKS[0] && 2 <= |p| <= 3
      && (|p| == 3 ==> p[1] in {Name("runtime"), Name("projects"), Name("wiki")})
  {
  }

  /** What lies above a target has not changed. */
  lemma ClearAsBefore(pkg: Package, before: Project, i: nat, f: Files, p: Path)
    requires FilesAre(pkg, before, i, f) && p in Targets(pkg)
    ensures Clear(f, p) <==> Clear(before.files, p)
  {
    hide Directories, Targets, Scaffold;
    forall q | q < p ensures q in f <==> q in before.files {
      AboveTarget(pkg, p, q);
      assert Untouched(pkg, i, q);
      assert Look(f, q) == Look(before.files, q);
    }
  }

  lemma FitsClear(pkg: Package, before: Project, i: nat, f: Files, p: Path)
    requires Fits(pkg, before.files) && FilesAre(pkg, before, i, f) && p in Targets(pkg)
    ensures Clear(f, p)
  {
    hide Directories, Targets, FilesAre, NoDirectory;
    ClearAsBefore(pkg, before, i, f, p);
    forall q | q in before.files ensures !(q < p) {
      if q < p { AboveTarget(pkg, p, q); }
    }
  }

  /** The latest step before which nothing has been written below a path of `WRITTEN`. */
  function Until(pkg: Package, p: Path): nat {
    if p == ENV_IGNORE then Late(pkg, 6) else Late(pkg, 14)
  }

  lemma NoDirectoryAsBefore(pkg: Package, before: Project, i: nat, f: Files, p: Path)
    requires FilesAre(pkg, before, i, f) && p in WRITTEN && i <= Until(pkg, p)
    ensures NoDirectory(f, p) <==> NoDirectory(before.files, p)
  {
    hide Scaffold, Directories;
    forall q | p < q ensures q in f <==> q in before.files {
      assert p == ENV_IGNORE ==> ENV <= q;
      assert Untouched(pkg, i, q);
      assert Look(f, q) == Look(before.files, q);
    }
  }

  lemma SiteClear(pkg: Package, before: Project, k: nat, f: Files)
    requires k < |pkg.site| && Fits(pkg, before.files) && FilesAre(pkg, before, 5 + k, f) && Fresh(pkg, 5 + k, f)
    ensures Clear(f, pkg.Site() + pkg.site[k].0) && NoDirectory(f, pkg.Site() + pkg.site[k].0)
  {
    hide FilesAre;
    var p := pkg.Site() + pkg.site[k].0;
    forall q | q in f ensures !(q < p) && !(p < q) {
      if pkg.Staging() <= q {
        var m :| 0 <= m < k && q == pkg.Site() + pkg.site[m].0;
        SiteOrder(pkg, m, k);
      } else {
        assert !(p < q) by { assert pkg.Staging() <= p; }
        if q < p { AboveStaging(pkg, before, 5 + k, f, q, p); }
      }
    }
  }

  lemma SiteOrder(pkg: Package, m: nat, k: nat)
    requires m < |pkg.site| && k < |pkg.site|
    ensures pkg.Site() + pkg.site[m].0 < pkg.Site() + pkg.site[k].0 <==> pkg.site[m].0 < pkg.site[k].0
    ensures pkg.Site() + pkg.site[k].0 < pkg.Site() + pkg.site[m].0 <==> pkg.site[k].0 < pkg.site[m].0
  {
    PrefixOrder(pkg.Site(), pkg.site[m].0, pkg.site[k].0);
    PrefixOrder(pkg.Site(), pkg.site[k].0, pkg.site[m].0);
  }

  lemma PrefixOrder(a: Path, b: Path, c: Path)
    ensures a + b < a + c <==> b < c
  {
    assert (a + b)[|a|..] == b && (a + c)[|a|..] == c;
    if a + b < a + c {
      assert b == (a + c)[|a|..][..|b|] by { assert a + b == (a + c)[..|a + b|]; }
    }
    if b < c { assert a + b == (a + c)[..|a + b|]; }
  }

  lemma AboveStaging(pkg: Package, before: Project, i: nat, f: Files, q: Path, p: Path)
    requires Fits(pkg, before.files) && FilesAre(pkg, before, i, f) && pkg.Staging() <= p && q < p
    requires !(pkg.Staging() <= q)
    ensures q !in f
  {
    hide Scaffold;
    assert |q| < 2 && (q == [] || q == TRACKS) by { StagingOrBelow(pkg.Staging(), q, p); }
    assert q in Directories(pkg) && Untouched(pkg, i, q);
    assert Look(f, q) == Look(before.files, q);
  }

  lemma StagingOrBelow(staging: Path, q: Path, p: Path)
    requires |staging| == 2 && staging <= p && q < p && !(staging <= q)
    ensures q == [] || q == [staging[0]]
  {
    assert q == p[..|q|] && staging == p[..2];
  }

  lemma FitsSucceeds(pkg: Package, before: Project, i: nat, s: State)
    requires i < Late(pkg, 14) == |InstallSteps(pkg, before)| && Fits(pkg, before.files)
    requires Stocked(pkg, i, s.files) && Fresh(pkg, i, s.files) && FilesAre(pkg, before, i, s.files)
    ensures Succeeds(s, InstallSteps(pkg, before)[i])
  {
    hide InstallSteps, MaterializeSteps, Stocked, FilesAre, Fits, Clear, NoDirectory, Exists;
    if i < 5 {
      ScaffoldAt(pkg, before, i);
      FitsClear(pkg, before, i, s.files, SCAFFOLD[i].0);
    } else if i < 5 + |pkg.site| {
      SiteAt(pkg, before, i - 5);
      SiteClear(pkg, before, i - 5, s.files);
    } else {
      var k := i - 5 - |pkg.site|;
      LateAt(pkg, before, k);
      LateSucceeds(pkg, before, k, s);
    }
  }

  lemma LateSucceeds(pkg: Package, before: Project, k: nat, s: State)
    requires k < 14 && Fits(pkg, before.files)
    requires Stocked(pkg, Late(pkg, k), s.files) && FilesAre(pkg, before, Late(pkg, k), s.files)
    ensures Succeeds(s, MaterializeSteps(pkg, before)[k])
  {
    hide FilesAre, Clear, NoDirectory, Exists;
    var i := Late(pkg, k);
    if k in {1, 2, 3} {
      var name := if k == 1 then "agents" else if k == 2 then "skills" else "templates";
      assert Waiting(pkg, i, name);
      FitsClear(pkg, before, i, s.files, pkg.Managed(name));
    } else if k == 4 {
      FitsClear(pkg, before, i, s.files, CONFIG);
    } else if k == 6 {
      FitsClear(pkg, before, i, s.files, ENV_IGNORE);
      NoDirectoryAsBefore(pkg, before, i, s.files, ENV_IGNORE);
    } else if k == 7 {
      assert Waiting(pkg, i, "assets");
      ExistsAbove(s.files, pkg.Site(), pkg.Staged("assets"));
      FitsClear(pkg, before, i, s.files, pkg.Installed());
    } else if k in {8, 10} {
      NoDirectoryAsBefore(pkg, before, i, s.files, LAUNCHER);
    } else if k in {11, 13} {
      NoDirectoryAsBefore(pkg, before, i, s.files, RECEIPT);
    } else if k in {9, 12} {
      var p := if k == 9 then LAUNCHER_TMP else RECEIPT_TMP;
      FitsClear(pkg, before, i, s.files, p);
      NoDirectoryAsBefore(pkg, before, i, s.files, p);
    }
  }

  lemma ExistsAbove(f: Files, p: Path, q: Path)
    requires p <= q && Exists(f, q)
    ensures Exists(f, p)
  {
    var r :| r in f && q <= r;
    assert p <= r;
  }

  lemma NothingDone(pkg: Package, before: Project)
    ensures DoneSteps(pkg, before, 0)
  {
  }

  lemma DoneNext(pkg: Package, before: Project, i: nat)
    requires i < |InstallSteps(pkg, before)| && DoneSteps(pkg, before, i)
    requires Succeeds(StateAt(pkg, before, i), InstallSteps(pkg, before)[i])
    ensures DoneSteps(pkg, before, i + 1)
  {
    hide InstallSteps, After, Succeeds;
  }

  lemma FilesAt(pkg: Package, before: Project, i: nat)
    requires i <= |InstallSteps(pkg, before)| && before.Real() && DoneSteps(pkg, before, i)
    ensures FilesAre(pkg, before, i, StateAt(pkg, before, i).files)
  {
    hide InstallSteps, After, FilesAre, LogIs, LeftIs, DoneSteps, AllProper;
    Turns(pkg, before, i);
  }

  /** When nothing is in the way, a complete package brings every step to its end. */
  lemma {:induction false} FitsDone(pkg: Package, before: Project, i: nat)
    requires i <= |InstallSteps(pkg, before)| && Complete(pkg) && before.Real() && Fits(pkg, before.files)
    requires !Exists(before.files, pkg.Staging())
    ensures DoneSteps(pkg, before, i)
  {
    hide InstallSteps, Complete, Stocked, DoneSteps, FilesAre, Succeeds, Fits, Exists, StateAt;
    if i == 0 {
      NothingDone(pkg, before);
    } else {
      FitsDone(pkg, before, i - 1);
      LateAt(pkg, before, 0);
      FilesAt(pkg, before, i - 1);
      StocksUp(pkg, before, i - 1);
      if 5 <= i - 1 <= 5 + |pkg.site| { StaysFresh(pkg, before, i - 1 - 5); }
      FitsSucceeds(pkg, before, i - 1, StateAt(pkg, before, i - 1));
      DoneNext(pkg, before, i - 1);
    }
  }

  // ----- and only then -----

  /** When all steps were done, so was each, on the files it found. */
  lemma StepDone(pkg: Package, before: Project, i: nat)
    requires i < |InstallSteps(pkg, before)| && before.Real() && DoneSteps(pkg, before, |InstallSteps(pkg, before)|)
    ensures Succeeds(StateAt(pkg, before, i), InstallSteps(pkg, before)[i])
    ensures FilesAre(pkg, before, i, StateAt(pkg, before, i).files)
  {
    hide InstallSteps, After, FilesAre, Succeeds;
    FilesAt(pkg, before, i);
  }

  lemma LateDone(pkg: Package, before: Project, k: nat) returns (f: Files)
    requires k < 14 && before.Real() && DoneSteps(pkg, before, |InstallSteps(pkg, before)|)
    ensures FilesAre(pkg, before, Late(pkg, k), f)
    ensures exists s: State :: s.files == f && Succeeds(s, MaterializeSteps(pkg, before)[k])
  {
    hide InstallSteps, DoneSteps, FilesAre, Succeeds;
    LateAt(pkg, before, k);
    StepDone(pkg, before, Late(pkg, k));
    f := StateAt(pkg, before, Late(pkg, k)).files;
  }

  lemma ClearBefore(pkg: Package, before: Project, k: nat, p: Path)
    requires before.Real() && DoneSteps(pkg, before, |InstallSteps(pkg, before)|)
    requires (k, p) in {(1, pkg.Managed("agents")), (6, ENV_IGNORE), (7, pkg.Installed()), (9, LAUNCHER_TMP)}
    ensures Clear(before.files, p)
  {
    hide DoneSteps, FilesAre;
    var f := LateDone(pkg, before, k);
    ClearAsBefore(pkg, before, Late(pkg, k), f, p);
  }

  lemma ScaffoldClearBefore(pkg: Package, before: Project, j: nat)
    requires j < 5 && before.Real() && DoneSteps(pkg, before, |InstallSteps(pkg, before)|)
    ensures Clear(before.files, SCAFFOLD[j].0)
  {
    hide InstallSteps, DoneSteps, FilesAre;
    ScaffoldAt(pkg, before, j);
    StepDone(pkg, before, j);
    ClearAsBefore(pkg, before, j, StateAt(pkg, before, j).files, SCAFFOLD[j].0);
  }

  lemma NoDirectoryBefore(pkg: Package, before: Project, k: nat, p: Path)
    requires before.Real() && DoneSteps(pkg, before, |InstallSteps(pkg, before)|)
    requires (k, p) in {(6, ENV_IGNORE), (8, LAUNCHER), (9, LAUNCHER_TMP), (11, RECEIPT), (12, RECEIPT_TMP)}
    ensures NoDirectory(before.files, p)
  {
    hide DoneSteps, FilesAre;
    var f := LateDone(pkg, before, k);
    NoDirectoryAsBefore(pkg, before, Late(pkg, k), f, p);
  }

  lemma SiteBefore(pkg: Package, before: Project, m: nat, k: nat)
    requires Complete(pkg) && before.Real() && DoneSteps(pkg, before, |InstallSteps(pkg, before)|)
    requires m < k < |pkg.site|
    ensures !(pkg.site[m].0 < pkg.site[k].0) && !(pkg.site[k].0 < pkg.site[m].0)
  {
    hide InstallSteps, DoneSteps, FilesAre, Complete, Succeeds, StateAt, Exists;
    SiteAt(pkg, before, k);
    StepDone(pkg, before, 5 + k);
    StocksUp(pkg, before, 5 + k);
    SiteApart(pkg, StateAt(pkg, before, 5 + k), m, k);
  }

  lemma SiteApart(pkg: Package, s: State, m: nat, k: nat)
    requires m < |pkg.site| && k < |pkg.site| && pkg.Site() + pkg.site[m].0 in s.files
    requires Succeeds(s, Write(pkg.Site() + pkg.site[k].0, Some(pkg.site[k].1)))
    ensures !(pkg.site[m].0 < pkg.site[k].0) && !(pkg.site[k].0 < pkg.site[m].0)
  {
    SiteOrder(pkg, m, k);
  }

  lemma DirectoriesBefore(pkg: Package, before: Project, q: Path)
    requires before.Real() && DoneSteps(pkg, before, |InstallSteps(pkg, before)|) && q in Directories(pkg)
    ensures q !in before.files
  {
    hide DoneSteps, InstallSteps;
    ScaffoldClearBefore(pkg, before, 1);
    ScaffoldClearBefore(pkg, before, 2);
    ScaffoldClearBefore(pkg, before, 4);
    ClearBefore(pkg, before, 1, pkg.Managed("agents"));
    ClearBefore(pkg, before, 7, pkg.Installed());
    ClearBefore(pkg, before, 9, LAUNCHER_TMP);
    assert q < SCAFFOLD[1].0 || q < SCAFFOLD[2].0 || q < SCAFFOLD[4].0 || q < pkg.Managed("agents")
      || q < pkg.Installed() || q < LAUNCHER_TMP;
  }

  /** A package that passes validation brings every step to its end if and only if nothing is in the way. */
  lemma CompleteSucceeds(pkg: Package, before: Project)
    requires Complete(pkg) && before.Real() && !Exists(before.files, pkg.Staging())
    ensures DoneSteps(pkg, before, |InstallSteps(pkg, before)|) <==> Fits(pkg, before.files)
  {
    hide InstallSteps, Complete, DoneSteps, NoDirectory, Directories, Exists;
    if Fits(pkg, before.files) {
      FitsDone(pkg, before, |InstallSteps(pkg, before)|);
    }
    if DoneSteps(pkg, before, |InstallSteps(pkg, before)|) {
      DoneFits(pkg, before);
    }
  }

  lemma DoneFits(pkg: Package, before: Project)
    requires Complete(pkg) && before.Real() && DoneSteps(pkg, before, |InstallSteps(pkg, before)|)
    ensures Fits(pkg, before.files)
  {
    hide InstallSteps, Complete, DoneSteps, NoDirectory, Directories;
    forall q | q in Directories(pkg) ensures q !in before.files {
      DirectoriesBefore(pkg, before, q);
    }
    NoDirectoryBefore(pkg, before, 6, ENV_IGNORE);
    NoDirectoryBefore(pkg, before, 8, LAUNCHER);
    NoDirectoryBefore(pkg, before, 9, LAUNCHER_TMP);
    NoDirectoryBefore(pkg, before, 11, RECEIPT);
    NoDirectoryBefore(pkg, before, 12, RECEIPT_TMP);
    forall m, k | 0 <= m < |pkg.site| && 0 <= k < |pkg.site| ensures !(pkg.site[m].0 < pkg.site[k].0) {
      if m < k { SiteBefore(pkg, before, m, k); } else if k < m { SiteBefore(pkg, before, k, m); }
    }
  }

  // ----- two projects that a failed health check does not give back -----

  /** A complete scaffold, and an environment whose ignore file somebody has extended. */
  const EXTENDED: Project := Project(map[
    SCAFFOLD[0].0 := SCAFFOLD[0].1,
    SCAFFOLD[1].0 := SCAFFOLD[1].1,
    SCAFFOLD[2].0 := SCAFFOLD[2].1,
    SCAFFOLD[3].0 := SCAFFOLD[3].1,
    SCAFFOLD[4].0 := SCAFFOLD[4].1,
    ENV_IGNORE := "*\n!notes\n"
  ], true, true)

  /** An empty `.tracks`, and in it an empty environment. */
  const EMPTY: Project := Project(map[], true, true)

  lemma IgnoreFileRewritten(pkg: Package)
    requires Complete(pkg) && Treelike(pkg)
    ensures DoneSteps(pkg, EXTENDED, |InstallSteps(pkg, EXTENDED)|)
    ensures var layout := LayoutOf(pkg, EXTENDED);
      AfterFailure(layout, After(layout, EXTENDED.files, InstallSteps(pkg, EXTENDED)).state)
        == EXTENDED.files[ENV_IGNORE := "*"] != EXTENDED.files
  {
    hide InstallSteps, Complete, DoneSteps, After, AfterFailure, Look, Exists;
    var n, layout := |InstallSteps(pkg, EXTENDED)|, LayoutOf(pkg, EXTENDED);
    ExtendedFacts(pkg);
    LateAt(pkg, EXTENDED, 0);
    FitsDone(pkg, EXTENDED, n);
    InstallLeaves(pkg, EXTENDED, n);
    assert InstallSteps(pkg, EXTENDED)[..n] == InstallSteps(pkg, EXTENDED);
    var f := AfterFailure(layout, After(layout, EXTENDED.files, InstallSteps(pkg, EXTENDED)).state);
    forall q ensures Look(f, q) == Look(EXTENDED.files[ENV_IGNORE := "*"], q) {
      assert Look(f, q) == Fate(pkg, EXTENDED, n, q);
      ExtendedFate(pkg, q);
    }
    LookEqual(f, EXTENDED.files[ENV_IGNORE := "*"]);
    assert EXTENDED.files[ENV_IGNORE] != "*";
  }

  lemma ExtendedFacts(pkg: Package)
    ensures EXTENDED.Real() && !Exists(EXTENDED.files, pkg.Staging()) && (Treelike(pkg) ==> Fits(pkg, EXTENDED.files))
    ensures LAUNCHER_TMP !in EXTENDED.files && RECEIPT_TMP !in EXTENDED.files && ENV_IGNORE in EXTENDED.files
  {
    hide Directories, Treelike;
    forall q | q in EXTENDED.files ensures q !in Directories(pkg) && !(pkg.Staging() <= q)
      ensures forall p :: p in WRITTEN ==> !(p < q)
      ensures q != LAUNCHER_TMP && q != RECEIPT_TMP
    {
      ExtendedPlaces(pkg, q);
    }
  }

  lemma ExtendedPlaces(pkg: Package, q: Path)
    requires q in EXTENDED.files
    ensures q !in Directories(pkg) && !(pkg.Staging() <= q)
    ensures forall p :: p in WRITTEN ==> !(p < q)
    ensures q != LAUNCHER_TMP && q != RECEIPT_TMP
  {
    hide Directories;
    StagingName(pkg);
    if q == ENV_IGNORE {
      if q in Directories(pkg) { NoTarget(pkg, q); }
      assert q[1] == ENV[1] && pkg.Staging()[1] != ENV[1];
    } else {
      var j :| 0 <= j < 5 && q == SCAFFOLD[j].0;
      ScaffoldParts(j);
      ScaffoldIsNoDirectory(pkg, j);
      assert q[1] !in {ENV[1], LAUNCHER[1], RECEIPT[1], RECEIPT_TMP[1], pkg.Staging()[1]};
    }
  }

  lemma ScaffoldIsNoDirectory(pkg: Package, j: nat)
    requires j < 5
    ensures SCAFFOLD[j].0 !in Directories(pkg) && SCAFFOLD[j].0[1] !in {ENV[1], LAUNCHER[1], RECEIPT[1], RECEIPT_TMP[1]}
  {
    var q := SCAFFOLD[j].0;
    assert |q| == 2 ==> q[1] == Name(".gitignore");
    assert |q| == 3 ==> q[1] != ENV[1];
  }

  lemma ExtendedFate(pkg: Package, q: Path)
    ensures Fate(pkg, EXTENDED, Late(pkg, 14), q) == Look(EXTENDED.files[ENV_IGNORE := "*"], q)
  {
    hide Exists, Scaffold;
    ExtendedFacts(pkg);
    LaterPaths(pkg, q);
    ScaffoldOf(Late(pkg, 14), q);
    if Scaffold(Late(pkg, 14), q).Some? {
      var j :| 0 <= j < 5 && SCAFFOLD[j].0 == q;
      assert q in EXTENDED.files;
      ExistsAt(EXTENDED.files, q);
    }
  }

  lemma ExistsAt(f: Files, q: Path)
    requires q in f
    ensures Exists(f, q)
  {
  }

  /** In an empty `.tracks` with an empty environment, the five files of the scaffold stay, and the ignore file. */
  lemma ScaffoldStays(pkg: Package, q: Path)
    requires Complete(pkg) && Treelike(pkg)
    ensures DoneSteps(pkg, EMPTY, |InstallSteps(pkg, EMPTY)|)
    ensures var layout := LayoutOf(pkg, EMPTY);
      Look(AfterFailure(layout, After(layout, map[], InstallSteps(pkg, EMPTY)).state), q)
        == if q == ENV_IGNORE then Some("*") else Scaffold(5, q)
  {
    hide InstallSteps, Complete, DoneSteps, After, AfterFailure, Look, Exists, Fate, Scaffold;
    var n := |InstallSteps(pkg, EMPTY)|;
    EmptyFacts(pkg);
    LateAt(pkg, EMPTY, 0);
    FitsDone(pkg, EMPTY, n);
    InstallLeaves(pkg, EMPTY, n);
    assert InstallSteps(pkg, EMPTY)[..n] == InstallSteps(pkg, EMPTY);
    EmptyFate(pkg, q);
  }

  lemma EmptyFacts(pkg: Package)
    ensures EMPTY.Real() && !Exists(EMPTY.files, pkg.Staging()) && (Treelike(pkg) ==> Fits(pkg, EMPTY.files))
  {
  }

  lemma EmptyFate(pkg: Package, q: Path)
    ensures Fate(pkg, EMPTY, Late(pkg, 14), q) == if q == ENV_IGNORE then Some("*") else Scaffold(5, q)
  {
    hide Scaffold;
    LaterPaths(pkg, q);
    ScaffoldAfter(Late(pkg, 14), q);
  }

  lemma {:induction false} ScaffoldAfter(i: nat, q: Path)
    requires i >= 5
    ensures Scaffold(i, q) == Scaffold(5, q)
  {
    if i > 5 {
      ScaffoldAfter(i - 1, q);
      ScaffoldDone(i - 1, q);
    }
  }
}
