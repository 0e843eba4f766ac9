/** What a successful installation leaves: where every file of the package ends up, and that nothing else of the
    project changes. */
module Installed {
  import opened Wrappers
  import opened InstallUndo
  import opened Install
  import opened Completion

  /** The text that the first `k` files of the package give to the path `r`. */
  function Shipped(pkg: Package, k: nat, r: Path): Option<string>
    requires k <= |pkg.site|
  {
    if k == 0 then None else if pkg.site[k - 1].0 == r then Some(pkg.site[k - 1].1) else Shipped(pkg, k - 1, r)
  }

  function InTracks(name: string): Path {
    [Name("tracks"), Name(name)]
  }

  /** Where nothing is installed: what lay there, or a scaffold file. */
  function Kept(before: Project, q: Path): Option<string> {
    if Scaffold(5, q).Some? && !Exists(before.files, q) then Scaffold(5, q) else Look(before.files, q)
  }

  /** What is left of the package in the staging directory after `k` steps of `_materialize`. */
  function Staged(pkg: Package, k: nat, r: Path): Option<string> {
    if k >= 8 || (k >= 2 && InTracks("agents") <= r) || (k >= 3 && InTracks("skills") <= r)
       || (k >= 4 && InTracks("templates") <= r)
    then None
    else Shipped(pkg, |pkg.site|, r)
  }

  function Managed(pkg: Package, name: string, q: Path): Option<string>
    requires |q| >= 2
  {
    Shipped(pkg, |pkg.site|, InTracks(name) + q[2..])
  }

  /** What lies after `k` steps of `_materialize` at a place outside the trees that are moved. */
  function Filed(pkg: Package, before: Project, k: nat, q: Path): Option<string> {
    if k >= 5 && q == CONFIG && !Exists(before.files, CONFIG) then Some(pkg.config)
    else if k >= 7 && q == ENV_IGNORE then Some("*")
    else if k >= 10 && q == LAUNCHER_TMP then (if k == 10 then Some(pkg.launcher) else None)
    else if k >= 11 && q == LAUNCHER then Some(pkg.launcher)
    else if k >= 13 && q == RECEIPT_TMP then (if k == 13 then Some(pkg.receipt) else None)
    else if k >= 14 && q == RECEIPT then Some(pkg.receipt)
    else Kept(before, q)
  }

  /** What lies at `q` after `k` steps of `_materialize`. */
  function Lies(pkg: Package, before: Project, k: nat, q: Path): Option<string> {
    if pkg.Site() <= q then Staged(pkg, k, q[3..])
    else if k >= 8 && pkg.Installed() <= q then Staged(pkg, 7, q[4..])
    else if k >= 2 && pkg.Managed("agents") <= q then Managed(pkg, "agents", q)
    else if k >= 3 && pkg.Managed("skills") <= q then Managed(pkg, "skills", q)
    else if k >= 4 && pkg.Managed("templates") <= q then Managed(pkg, "templates", q)
    else Filed(pkg, before, k, q)
  }

  ghost predicate Standing(pkg: Package, before: Project, k: nat, f: Files) {
    forall q :: !(LayoutOf(pkg, before).BackupRoot() <= q) ==> Look(f, q) == Lies(pkg, before, k, q)
  }

  // ----- up to the materialization -----

  /** After the scaffold and the first `k` files. */
  function Unpacked(pkg: Package, before: Project, k: nat, q: Path): Option<string>
    requires k <= |pkg.site|
  {
    if pkg.Site() <= q then Shipped(pkg, k, q[3..]) else Kept(before, q)
  }

  lemma ScaffoldStands(pkg: Package, before: Project, q: Path)
    requires before.Real() && !Exists(before.files, pkg.Staging())
    requires DoneSteps(pkg, before, |InstallSteps(pkg, before)|)
    ensures Look(StateAt(pkg, before, 5).files, q) == Unpacked(pkg, before, 0, q)
  {
    hide InstallSteps, StateAt, DoneSteps, Look, Exists, Scaffold, Untouched;
    ScaffoldAt(pkg, before, 0);
    DoneFirst(pkg, before, 5);
    FilesAt(pkg, before, 5);
    NothingStaged(pkg, before, 5);
    StagedNothing(pkg, StateAt(pkg, before, 5).files, q);
    if Scaffold(5, q).Some? { NoFile(before.files, q); } else { UntouchedBare(pkg, q); }
    if pkg.Site() <= q { ScaffoldNotStaged(pkg, q); }
  }

  lemma DoneFirst(pkg: Package, before: Project, i: nat)
    requires DoneSteps(pkg, before, |InstallSteps(pkg, before)|) && i <= |InstallSteps(pkg, before)|
    ensures DoneSteps(pkg, before, i)
  {
    hide InstallSteps, After, Succeeds;
  }

  lemma UntouchedBare(pkg: Package, q: Path)
    requires Scaffold(5, q).None?
    ensures Untouched(pkg, 5, q)
  {
    hide Scaffold, Directories;
  }

  lemma StagedNothing(pkg: Package, f: Files, q: Path)
    requires !Exists(f, pkg.Staging())
    ensures pkg.Site() <= q ==> Look(f, q).None?
  {
    assert pkg.Staging() <= pkg.Site();
  }

  lemma ScaffoldNotStaged(pkg: Package, q: Path)
    requires pkg.Site() <= q
    ensures Scaffold(5, q).None?
  {
    hide Scaffold;
    ScaffoldOf(5, q);
    assert pkg.Staging() <= pkg.Site();
    forall j | 0 <= j < 5 ensures SCAFFOLD[j].0 != q {
      ScaffoldPath(pkg, j);
    }
  }

  lemma {:induction false} SiteStands(pkg: Package, before: Project, k: nat, q: Path)
    requires before.Real() && !Exists(before.files, pkg.Staging())
    requires DoneSteps(pkg, before, |InstallSteps(pkg, before)|) && k <= |pkg.site|
    ensures 5 + k <= |InstallSteps(pkg, before)|
    ensures Look(StateAt(pkg, before, 5 + k).files, q) == Unpacked(pkg, before, k, q)
  {
    hide InstallSteps, StateAt, DoneSteps, Look, Exists, Set;
    if k == 0 {
      ScaffoldAt(pkg, before, 0);
      ScaffoldStands(pkg, before, q);
    } else {
      SiteStands(pkg, before, k - 1, q);
      SiteAt(pkg, before, k - 1);
      StateNext(pkg, before, 5 + k - 1);
      var p := pkg.Site() + pkg.site[k - 1].0;
      LookSet(StateAt(pkg, before, 5 + k - 1).files, p, Some(pkg.site[k - 1].1), q);
      if pkg.Site() <= q { assert q == pkg.Site() + q[3..] && p[3..] == pkg.site[k - 1].0; }
      assert pkg.Site() <= p;
    }
  }

  // ----- the steps of `_materialize` -----

  lemma Replaced(layout: Layout, s: State, d: Path, staged: Path, q: Path)
    requires Apart(d, layout.staging) && layout.staging <= staged && Apart(staged, layout.BackupRoot())
    requires !(layout.BackupRoot() <= q)
    ensures Look(Replace(layout, s, d, staged).files, q) ==
      if d <= q then Look(s.files, staged + q[|d|..]) else if staged <= q then None else Look(s.files, q)
  {
    hide Rename, Look, Exists;
    var b := layout.Backup(s.index + 1, d);
    assert layout.BackupRoot() <= b;
    LookRename(s.files, staged, d, q);
    LookRename(Rename(s.files, d, b), staged, d, q);
    LookRename(s.files, d, b, q);
    var from := staged + q[if d <= q then |d| else 0..];
    assert staged <= from;
    NotBoth(layout.BackupRoot(), staged, from);
    NotBoth(d, layout.staging, from);
    LookRename(s.files, d, b, from);
  }

  /** What is installed lies outside the staging directory, and so do the files written. */
  lemma Places(pkg: Package, before: Project)
    ensures var layout := LayoutOf(pkg, before);
      && layout.staging <= pkg.Site() && Apart(pkg.Site(), layout.BackupRoot())
      && Apart(pkg.Installed(), layout.staging)
      && forall name :: Apart(pkg.Managed(name), layout.staging) && layout.staging <= pkg.Staged(name)
           && Apart(pkg.Staged(name), layout.BackupRoot())
    ensures forall p :: p in {CONFIG, ENV_IGNORE, LAUNCHER, LAUNCHER_TMP, RECEIPT, RECEIPT_TMP} ==>
      Apart(p, pkg.Staging())
  {
    StagingName(pkg);
    var layout := LayoutOf(pkg, before);
    assert layout.BackupRoot()[2] == Name("backup") && pkg.Site()[2] == Name("site-packages");
    assert pkg.Installed()[1] != layout.staging[1];
    forall name ensures Apart(pkg.Managed(name), layout.staging) && layout.staging <= pkg.Staged(name)
      && Apart(pkg.Staged(name), layout.BackupRoot())
    {
      assert pkg.Managed(name)[0] != layout.staging[0];
      assert pkg.Staged(name)[2] == Name("site-packages");
    }
    assert CONFIG[0] != TRACKS[0];
  }

  /** `.opencode/<name>` gets what the package has under `tracks/<name>`. */
  lemma ManagedStands(pkg: Package, before: Project, k: nat, name: string, s: State)
    requires (k, name) in {(1, "agents"), (2, "skills"), (3, "templates")}
    requires Standing(pkg, before, k, s.files)
    ensures Standing(pkg, before, k + 1,
      Replace(LayoutOf(pkg, before), s, pkg.Managed(name), pkg.Staged(name)).files)
  {
    hide Look, Replace, Scaffold, Exists, Shipped, Kept, Lies;
    var layout, d, staged := LayoutOf(pkg, before), pkg.Managed(name), pkg.Staged(name);
    Places(pkg, before);
    forall q | !(layout.BackupRoot() <= q)
      ensures Look(Replace(layout, s, d, staged).files, q) == Lies(pkg, before, k + 1, q)
    {
      Replaced(layout, s, d, staged, q);
      if d <= q {
        var from := staged + q[2..];
        assert staged <= from;
        NotBoth(layout.BackupRoot(), staged, from);
        ManagedLies(pkg, before, k, name, q);
      } else {
        ManagedElse(pkg, before, k, name, q);
      }
    }
  }

  lemma ManagedLies(pkg: Package, before: Project, k: nat, name: string, q: Path)
    requires (k, name) in {(1, "agents"), (2, "skills"), (3, "templates")} && pkg.Managed(name) <= q
    ensures Lies(pkg, before, k + 1, q) == Lies(pkg, before, k, pkg.Staged(name) + q[2..])
  {
    hide Scaffold, Exists, Shipped, Kept;
    var from := pkg.Staged(name) + q[2..];
    assert pkg.Site() <= from && from[3..] == InTracks(name) + q[2..];
    assert q[0] == OPENCODE[0] && q[1] == Name(name) && OPENCODE[0] != TRACKS[0];
    assert (InTracks(name) + q[2..])[1] == Name(name);
  }

  lemma ManagedElse(pkg: Package, before: Project, k: nat, name: string, q: Path)
    requires (k, name) in {(1, "agents"), (2, "skills"), (3, "templates")} && !(pkg.Managed(name) <= q)
    ensures Lies(pkg, before, k + 1, q) == if pkg.Staged(name) <= q then None else Lies(pkg, before, k, q)
  {
    hide Scaffold, Exists, Shipped, Kept;
    assert pkg.Staged(name) == pkg.Site() + InTracks(name);
    if pkg.Site() <= q {
      assert q == pkg.Site() + q[3..];
      PrefixOf(pkg.Site(), InTracks(name), q[3..]);
    } else {
      assert !(pkg.Staged(name) <= q) by { assert pkg.Site() <= pkg.Staged(name); }
    }
  }

  lemma PrefixOf(a: Path, b: Path, c: Path)
    ensures a + b <= a + c <==> b <= c
  {
    assert (a + b)[|a|..] == b && (a + c)[|a|..] == c;
    if a + b <= a + c { assert b == (a + c)[|a|..][..|b|] by { assert a + b == (a + c)[..|a + b|]; } }
    if b <= c { assert a + b == (a + c)[..|a + b|]; }
  }

  /** `site-packages` of the version gets the rest. */
  lemma InstalledStands(pkg: Package, before: Project, s: State)
    requires Standing(pkg, before, 7, s.files)
    ensures Standing(pkg, before, 8, Replace(LayoutOf(pkg, before), s, pkg.Installed(), pkg.Site()).files)
  {
    hide Look, Replace, Scaffold, Exists, Shipped, Kept, Staged;
    var layout, d, staged := LayoutOf(pkg, before), pkg.Installed(), pkg.Site();
    Places(pkg, before);
    forall q | !(layout.BackupRoot() <= q)
      ensures Look(Replace(layout, s, d, staged).files, q) == Lies(pkg, before, 8, q)
    {
      Replaced(layout, s, d, staged, q);
      NotBoth(d, layout.staging, q);
      StagedGone(pkg, q);
      if d <= q {
        var from := staged + q[4..];
        assert staged <= from && from[3..] == q[4..];
        NotBoth(layout.BackupRoot(), staged, from);
      }
    }
  }

  lemma StagedGone(pkg: Package, q: Path)
    ensures pkg.Site() <= q ==> Staged(pkg, 8, q[3..]) == None
  {
  }

  /** A file that is written: only its own place changes. */
  lemma WrittenStands(pkg: Package, before: Project, k: nat, f: Files, p: Path, data: Option<string>)
    requires Standing(pkg, before, k, f) && !(pkg.Site() <= p)
    requires Lies(pkg, before, k + 1, p) == data
    requires forall q :: q != p ==> Lies(pkg, before, k + 1, q) == Lies(pkg, before, k, q)
    ensures Standing(pkg, before, k + 1, Set(f, p, data))
  {
    hide Look, Set, Lies;
    LookNext(f, p, data);
  }

  /** The files written lie in none of the trees. */
  lemma OutsideTrees(pkg: Package, p: Path)
    requires p in {CONFIG, ENV_IGNORE, LAUNCHER, LAUNCHER_TMP, RECEIPT, RECEIPT_TMP}
    ensures !(pkg.Site() <= p) && !(pkg.Installed() <= p) && forall name :: !(pkg.Managed(name) <= p)
  {
    StagingName(pkg);
    assert CONFIG[0] !in {TRACKS[0], OPENCODE[0]};
    assert |pkg.Installed()| == 4 && |p| <= 3;
    assert |p| == 3 ==> p[1] != pkg.Site()[1];
    forall name ensures !(pkg.Managed(name) <= p) {
      assert pkg.Managed(name)[0] == OPENCODE[0] && p[0] != OPENCODE[0];
    }
  }

  lemma ConfigStands(pkg: Package, before: Project, s: State)
    requires Standing(pkg, before, 4, s.files)
    ensures Standing(pkg, before, 5, Apply(LayoutOf(pkg, before), s, Seed(CONFIG, pkg.config)).files)
  {
    hide Look, Exists, Scaffold, Set, Staged, Managed, Standing, Kept;
    ConfigExists(pkg, before, s.files);
    NoFile(before.files, CONFIG);
    OutsideTrees(pkg, CONFIG);
    StagedStays(pkg, 4);
    assert CONFIG !in {ENV_IGNORE, LAUNCHER, LAUNCHER_TMP, RECEIPT, RECEIPT_TMP};
    if Exists(before.files, CONFIG) {
      SameStands(pkg, before, 4, s.files);
    } else {
      WrittenStands(pkg, before, 4, s.files, CONFIG, Some(pkg.config));
    }
  }

  lemma StagedStays(pkg: Package, k: nat)
    requires k !in {1, 2, 3, 7}
    ensures forall r :: Staged(pkg, k + 1, r) == Staged(pkg, k, r)
  {
    hide Shipped;
  }

  lemma SameStands(pkg: Package, before: Project, k: nat, f: Files)
    requires Standing(pkg, before, k, f) && forall q :: Lies(pkg, before, k + 1, q) == Lies(pkg, before, k, q)
    ensures Standing(pkg, before, k + 1, f)
  {
    hide Look, Lies;
  }

  lemma ConfigExists(pkg: Package, before: Project, f: Files)
    requires Standing(pkg, before, 4, f)
    ensures Exists(f, CONFIG) <==> Exists(before.files, CONFIG)
  {
    hide Look, Exists, Scaffold, Staged, Managed, Shipped;
    Places(pkg, before);
    forall q | CONFIG <= q ensures Look(f, q) == Look(before.files, q) {
      assert q[0] == CONFIG[0] && CONFIG[0] !in {TRACKS[0], OPENCODE[0]};
      NotScaffold(q);
    }
    SameExists(f, before.files, CONFIG);
  }

  lemma NotScaffold(q: Path)
    requires q != [] && q[0] != TRACKS[0]
    ensures Scaffold(5, q).None?
  {
    hide Scaffold;
    ScaffoldOf(5, q);
    forall j | 0 <= j < 5 ensures SCAFFOLD[j].0 != q {
      ScaffoldParts(j);
    }
  }

  /** Writing the temporary file, and moving it to its place. */
  lemma WriteStands(pkg: Package, before: Project, k: nat, f: Files, p: Path, text: string)
    requires (k, p, text) in {(6, ENV_IGNORE, "*"), (9, LAUNCHER_TMP, pkg.launcher), (12, RECEIPT_TMP, pkg.receipt)}
    requires Standing(pkg, before, k, f)
    ensures Standing(pkg, before, k + 1, Set(f, p, Some(text)))
  {
    hide Look, Exists, Scaffold, Set, Staged, Managed, Standing, Kept;
    OutsideTrees(pkg, p);
    LaterPaths(pkg, p);
    StagedStays(pkg, k);
    WrittenStands(pkg, before, k, f, p, Some(text));
  }

  lemma MoveStands(pkg: Package, before: Project, k: nat, f: Files, tmp: Path, p: Path)
    requires (k, tmp, p) in {(10, LAUNCHER_TMP, LAUNCHER), (13, RECEIPT_TMP, RECEIPT)}
    requires Standing(pkg, before, k, f)
    ensures Standing(pkg, before, k + 1, Set(Set(f, p, Look(f, tmp)), tmp, None))
  {
    hide Look, Exists, Scaffold, Set, Lies;
    Places(pkg, before);
    StagingAbove(pkg, before);
    MoveLies(pkg, before, k, tmp, p);
    LookNext(f, p, Look(f, tmp));
    LookNext(Set(f, p, Look(f, tmp)), tmp, None);
    forall q | q != tmp && q != p ensures Lies(pkg, before, k + 1, q) == Lies(pkg, before, k, q) {
      MoveElse(pkg, before, k, tmp, p, q);
    }
  }

  lemma MoveLies(pkg: Package, before: Project, k: nat, tmp: Path, p: Path)
    requires (k, tmp, p) in {(10, LAUNCHER_TMP, LAUNCHER), (13, RECEIPT_TMP, RECEIPT)}
    ensures tmp != p && Lies(pkg, before, k + 1, tmp) == None
    ensures Lies(pkg, before, k + 1, p) == Lies(pkg, before, k, tmp)
  {
    hide Filed, Staged, Managed;
    OutsideTrees(pkg, tmp);
    OutsideTrees(pkg, p);
    MoveFiled(pkg, before, k, tmp, p);
  }

  lemma MoveFiled(pkg: Package, before: Project, k: nat, tmp: Path, p: Path)
    requires (k, tmp, p) in {(10, LAUNCHER_TMP, LAUNCHER), (13, RECEIPT_TMP, RECEIPT)}
    ensures tmp != p && Filed(pkg, before, k + 1, tmp) == None
    ensures Filed(pkg, before, k + 1, p) == Filed(pkg, before, k, tmp)
  {
    hide Kept, Exists;
    LaterPaths(pkg, tmp);
    assert LAUNCHER != ENV_IGNORE && LAUNCHER != CONFIG && RECEIPT != CONFIG && LAUNCHER[2] != LAUNCHER_TMP[2];
    assert LAUNCHER_TMP != CONFIG && RECEIPT_TMP != CONFIG && RECEIPT[1] != RECEIPT_TMP[1];
    assert |RECEIPT| == |RECEIPT_TMP| == 2 && |ENV_IGNORE| == |LAUNCHER| == |LAUNCHER_TMP| == 3;
  }

  lemma MoveElse(pkg: Package, before: Project, k: nat, tmp: Path, p: Path, q: Path)
    requires (k, tmp, p) in {(10, LAUNCHER_TMP, LAUNCHER), (13, RECEIPT_TMP, RECEIPT)}
    requires q != tmp && q != p
    ensures Lies(pkg, before, k + 1, q) == Lies(pkg, before, k, q)
  {
    hide Kept, Staged, Managed, Exists;
    StagedStays(pkg, k);
  }

  lemma StagingAbove(pkg: Package, before: Project)
    ensures LayoutOf(pkg, before).staging <= LayoutOf(pkg, before).BackupRoot()
  {
  }

  lemma StepStands(pkg: Package, before: Project, k: nat, s: State)
    requires k < 14 && Standing(pkg, before, k, s.files)
    ensures Standing(pkg, before, k + 1, Apply(LayoutOf(pkg, before), s, MaterializeSteps(pkg, before)[k]).files)
  {
    hide Look, Exists, Set, Standing, Replace, Lies;
    match k {
      case 1 => ManagedStands(pkg, before, 1, "agents", s);
      case 2 => ManagedStands(pkg, before, 2, "skills", s);
      case 3 => ManagedStands(pkg, before, 3, "templates", s);
      case 4 => ConfigStands(pkg, before, s);
      case 6 => WriteStands(pkg, before, 6, s.files, ENV_IGNORE, "*");
      case 7 => InstalledStands(pkg, before, s);
      case 9 => WriteStands(pkg, before, 9, s.files, LAUNCHER_TMP, pkg.launcher);
      case 10 => MoveStands(pkg, before, 10, s.files, LAUNCHER_TMP, LAUNCHER);
      case 12 => WriteStands(pkg, before, 12, s.files, RECEIPT_TMP, pkg.receipt);
      case 13 => MoveStands(pkg, before, 13, s.files, RECEIPT_TMP, RECEIPT);
      case _ =>
        NothingLies(pkg, before, k);
        SameStands(pkg, before, k, s.files);
    }
  }

  lemma NothingLies(pkg: Package, before: Project, k: nat)
    requires k in {0, 5, 8, 11}
    ensures forall q :: Lies(pkg, before, k + 1, q) == Lies(pkg, before, k, q)
  {
    hide Exists, Scaffold, Managed, Kept, Staged;
    StagedStays(pkg, k);
  }

  // ----- the whole installation -----

  lemma {:induction false} AllStands(pkg: Package, before: Project, k: nat)
    requires before.Real() && !Exists(before.files, pkg.Staging())
    requires DoneSteps(pkg, before, |InstallSteps(pkg, before)|) && k <= 14
    ensures |InstallSteps(pkg, before)| == Late(pkg, 14)
    ensures Standing(pkg, before, k, StateAt(pkg, before, Late(pkg, k)).files)
  {
    hide InstallSteps, StateAt, DoneSteps, Exists, Standing, Apply, MaterializeSteps;
    LateAt(pkg, before, 0);
    if k == 0 {
      UnpackedStands(pkg, before);
    } else {
      AllStands(pkg, before, k - 1);
      LateAt(pkg, before, k - 1);
      StateNext(pkg, before, Late(pkg, k - 1));
      StepStands(pkg, before, k - 1, StateAt(pkg, before, Late(pkg, k - 1)));
    }
  }

  lemma UnpackedStands(pkg: Package, before: Project)
    requires before.Real() && !Exists(before.files, pkg.Staging())
    requires DoneSteps(pkg, before, |InstallSteps(pkg, before)|)
    requires |InstallSteps(pkg, before)| == Late(pkg, 14)
    ensures Standing(pkg, before, 0, StateAt(pkg, before, Late(pkg, 0)).files)
  {
    hide InstallSteps, StateAt, DoneSteps, Exists, Look, Kept, Shipped;
    forall q ensures Look(StateAt(pkg, before, Late(pkg, 0)).files, q) == Lies(pkg, before, 0, q) {
      SiteStands(pkg, before, |pkg.site|, q);
    }
  }

  /** Where a file of the package ends up: what is under `tracks/agents`, `tracks/skills` or `tracks/templates` in
      `.opencode`, and the rest in the environment of the version. */
  function Home(pkg: Package, r: Path): Path {
    if InTracks("agents") <= r || InTracks("skills") <= r || InTracks("templates") <= r then [OPENCODE[0]] + r[1..]
    else pkg.Installed() + r
  }

  /** No later file of the package has the same path. */
  predicate Final(pkg: Package, m: nat) {
    m < |pkg.site| && forall k :: m < k < |pkg.site| ==> pkg.site[k].0 != pkg.site[m].0
  }

  predicate Comes(pkg: Package, m: nat, q: Path) {
    Final(pkg, m) && q == Home(pkg, pkg.site[m].0)
  }

  /** Where the package replaces whatever there was. */
  predicate Replacing(pkg: Package, q: Path) {
    || pkg.Managed("agents") <= q || pkg.Managed("skills") <= q || pkg.Managed("templates") <= q
    || pkg.Installed() <= q
  }

  lemma {:induction false} ShippedIs(pkg: Package, k: nat, r: Path)
    requires k <= |pkg.site|
    ensures Shipped(pkg, k, r).None? <==> forall m :: 0 <= m < k ==> pkg.site[m].0 != r
    ensures forall m :: 0 <= m < k && pkg.site[m].0 == r && (forall n :: m < n < k ==> pkg.site[n].0 != r) ==>
      Shipped(pkg, k, r) == Some(pkg.site[m].1)
    ensures Shipped(pkg, k, r).Some? ==> exists m :: 0 <= m < k && LatestAt(pkg, k, m, r)
  {
    if k > 0 {
      var l := k - 1;
      ShippedIs(pkg, l, r);
      if pkg.site[l].0 == r {
        assert LatestAt(pkg, k, l, r);
      } else if m :| 0 <= m < l && LatestAt(pkg, l, m, r) {
        assert LatestAt(pkg, k, m, r);
      }
    }
  }

  predicate LatestAt(pkg: Package, k: nat, m: nat, r: Path)
    requires m < k <= |pkg.site|
  {
    pkg.site[m].0 == r && forall n :: m < n < k ==> pkg.site[n].0 != r
  }

  lemma HomeLies(pkg: Package, before: Project, m: nat)
    requires Final(pkg, m)
    ensures var q := Home(pkg, pkg.site[m].0);
      Replacing(pkg, q) && !(pkg.Staging() <= q) && Lies(pkg, before, 14, q) == Some(pkg.site[m].1)
  {
    hide Scaffold, Exists, Shipped, Kept;
    var r := pkg.site[m].0;
    var q := Home(pkg, r);
    ShippedIs(pkg, |pkg.site|, r);
    StagingName(pkg);
    if InTracks("agents") <= r || InTracks("skills") <= r || InTracks("templates") <= r {
      assert q[0] == OPENCODE[0] && OPENCODE[0] != TRACKS[0] && q[1] == r[1] && q[2..] == r[2..];
      assert r == [r[0], r[1]] + r[2..];
    } else {
      assert q[4..] == r && q[1] == ENV[1];
    }
  }

  lemma LiesHome(pkg: Package, before: Project, q: Path) returns (m: nat)
    requires Replacing(pkg, q) && Lies(pkg, before, 14, q).Some?
    ensures Comes(pkg, m, q)
  {
    hide Scaffold, Exists, Shipped, Kept;
    StagingName(pkg);
    var r: Path;
    if pkg.Installed() <= q {
      r := q[4..];
      assert q == pkg.Installed() + r && q[1] == ENV[1];
    } else {
      r := [Name("tracks")] + q[1..];
      assert q[0] == OPENCODE[0] && OPENCODE[0] != TRACKS[0];
      assert q == [OPENCODE[0]] + r[1..] && r == InTracks(q[1].text) + q[2..];
      assert q[1] in {Name("agents"), Name("skills"), Name("templates")};
    }
    assert Lies(pkg, before, 14, q) == Shipped(pkg, |pkg.site|, r);
    ShippedIs(pkg, |pkg.site|, r);
    m :| 0 <= m < |pkg.site| && LatestAt(pkg, |pkg.site|, m, r);
  }

  /** What an installation leaves when all its steps are done: every file of the package lies at its one place; where
      the package replaces a tree, nothing but its files remains; the launcher, the receipt and the ignore file have
      their texts, the temporary files are gone, and the configuration is written only where there was none. All else
      outside the staging directory, which is removed, is what was there, and the missing files of the scaffold. */
  lemma InstalledExactly(pkg: Package, before: Project)
    requires before.Real() && !Exists(before.files, pkg.Staging())
    requires DoneSteps(pkg, before, |InstallSteps(pkg, before)|)
    ensures var f := StateAt(pkg, before, |InstallSteps(pkg, before)|).files;
      && (forall m: nat :: Final(pkg, m) ==> Look(f, Home(pkg, pkg.site[m].0)) == Some(pkg.site[m].1))
      && (forall q :: q in f && Replacing(pkg, q) ==> exists m: nat :: Comes(pkg, m, q))
      && Look(f, LAUNCHER) == Some(pkg.launcher) && Look(f, RECEIPT) == Some(pkg.receipt)
      && Look(f, ENV_IGNORE) == Some("*") && Look(f, LAUNCHER_TMP) == None && Look(f, RECEIPT_TMP) == None
      && (!Exists(before.files, CONFIG) ==> Look(f, CONFIG) == Some(pkg.config))
      && forall q :: Spared(pkg, before, q) ==> Look(f, q) == Kept(before, q)
  {
    hide InstallSteps, StateAt, DoneSteps, Exists, Look, Kept, Lies, Home, Comes, Replacing, LayoutOf, Spared;
    AllStands(pkg, before, 14);
    var f := StateAt(pkg, before, |InstallSteps(pkg, before)|).files;
    forall q | !(pkg.Staging() <= q) ensures Look(f, q) == Lies(pkg, before, 14, q) {
      OutsideStaging(pkg, before, q);
    }
    forall m: nat | Final(pkg, m) ensures Look(f, Home(pkg, pkg.site[m].0)) == Some(pkg.site[m].1) {
      HomeLies(pkg, before, m);
    }
    forall q | q in f && Replacing(pkg, q) ensures exists m: nat :: Comes(pkg, m, q) {
      ReplacingOutside(pkg, q);
      LookThere(f, q);
      var m := LiesHome(pkg, before, q);
    }
    FileLies(pkg, before, LAUNCHER, Some(pkg.launcher));
    FileLies(pkg, before, RECEIPT, Some(pkg.receipt));
    FileLies(pkg, before, ENV_IGNORE, Some("*"));
    FileLies(pkg, before, LAUNCHER_TMP, None);
    FileLies(pkg, before, RECEIPT_TMP, None);
    ConfigLies(pkg, before);
    forall q | Spared(pkg, before, q) ensures Look(f, q) == Kept(before, q) {
      ElseLies(pkg, before, q);
    }
  }

  lemma LookThere(f: Files, q: Path)
    requires q in f
    ensures Look(f, q).Some?
  {
  }

  lemma OutsideStaging(pkg: Package, before: Project, q: Path)
    requires !(pkg.Staging() <= q)
    ensures !(LayoutOf(pkg, before).BackupRoot() <= q)
  {
    StagingAbove(pkg, before);
  }

  lemma ReplacingOutside(pkg: Package, q: Path)
    requires Replacing(pkg, q)
    ensures !(pkg.Staging() <= q)
  {
    StagingName(pkg);
    assert q[0] == OPENCODE[0] || q[1] == ENV[1];
  }

  lemma FileLies(pkg: Package, before: Project, p: Path, text: Option<string>)
    requires (p, text) in {(LAUNCHER, Some(pkg.launcher)), (RECEIPT, Some(pkg.receipt)), (ENV_IGNORE, Some("*")),
                           (LAUNCHER_TMP, None), (RECEIPT_TMP, None)}
    ensures Lies(pkg, before, 14, p) == text && !(pkg.Staging() <= p)
  {
    hide Filed, Staged, Managed;
    OutsideTrees(pkg, p);
    Places(pkg, before);
    FileFiled(pkg, before, p, text);
    assert Apart(p, pkg.Staging());
  }

  lemma FileFiled(pkg: Package, before: Project, p: Path, text: Option<string>)
    requires (p, text) in {(LAUNCHER, Some(pkg.launcher)), (RECEIPT, Some(pkg.receipt)), (ENV_IGNORE, Some("*")),
                           (LAUNCHER_TMP, None), (RECEIPT_TMP, None)}
    ensures Filed(pkg, before, 14, p) == text
  {
    hide Exists, Kept;
    assert CONFIG[0] != TRACKS[0] && p[0] == TRACKS[0];
    assert |RECEIPT| == |RECEIPT_TMP| == 2 && |ENV_IGNORE| == |LAUNCHER| == |LAUNCHER_TMP| == 3;
    assert ENV_IGNORE[1] != LAUNCHER[1] == LAUNCHER_TMP[1] && LAUNCHER[2] != LAUNCHER_TMP[2];
    assert RECEIPT[1] != RECEIPT_TMP[1];
  }

  lemma ConfigLies(pkg: Package, before: Project)
    ensures !Exists(before.files, CONFIG) ==> Lies(pkg, before, 14, CONFIG) == Some(pkg.config)
    ensures !(pkg.Staging() <= CONFIG)
  {
    hide Exists, Kept, Staged, Managed;
    OutsideTrees(pkg, CONFIG);
    Places(pkg, before);
  }

  /** Where the installer puts nothing: outside its trees and its staging directory, and at none of its files. */
  predicate Spared(pkg: Package, before: Project, q: Path) {
    && !Replacing(pkg, q) && !(pkg.Staging() <= q)
    && q !in {LAUNCHER, RECEIPT, ENV_IGNORE, LAUNCHER_TMP, RECEIPT_TMP}
    && (q == CONFIG ==> Exists(before.files, CONFIG))
  }

  lemma ElseLies(pkg: Package, before: Project, q: Path)
    requires Spared(pkg, before, q)
    ensures Lies(pkg, before, 14, q) == Kept(before, q) && !(pkg.Staging() <= q)
  {
    hide Exists, Kept, Staged, Managed;
    assert pkg.Staging() <= pkg.Site();
  }

  /** Of two paths above the same one, one is above the other. */
  lemma NotBoth(a: Path, b: Path, q: Path)
    ensures a <= q && b <= q ==> !Apart(a, b)
  {
    if a <= q && b <= q {
      assert a == q[..|a|] && b == q[..|b|];
      if |a| <= |b| { assert a == b[..|a|]; } else { assert b == a[..|b|]; }
    }
  }
}
