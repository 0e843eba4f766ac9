/** The installer's own steps, in its order, and exactly what a failure after any of them leaves. Paths are
    relative to the project. */
module Install {
  import opened Wrappers
  import opened InstallUndo

  const TRACKS: Path := [Name(".tracks")]
  const OPENCODE: Path := [Name(".opencode")]
  const CONFIG: Path := [Name("opencode.json")]
  const ENV: Path := [Name(".tracks"), Name("env")]
  const ENV_IGNORE: Path := [Name(".tracks"), Name("env"), Name(".gitignore")]
  const LAUNCHER: Path := [Name(".tracks"), Name("bin"), Name("trac.py")]
  const LAUNCHER_TMP: Path := [Name(".tracks"), Name("bin"), Name(".trac.py.tmp")]
  const RECEIPT: Path := [Name(".tracks"), Name("install.json")]
  const RECEIPT_TMP: Path := [Name(".tracks"), Name(".install.json.tmp")]

  /** The files of the `.tracks` scaffold, written in this order, each where nothing is. */
  const SCAFFOLD: seq<(Path, string)> := [
    ([Name(".tracks"), Name(".gitignore")], "report/\n*.lock\n"),
    ([Name(".tracks"), Name("runtime"), Name(".gitignore")], "tracks.db*\nblobs/\nlock\nlog/\nprompts/\n"),
    ([Name(".tracks"), Name("projects"), Name(".gitignore")], "*.lock\n*.tmp\n"),
    ([Name(".tracks"), Name("projects"), Name(".gitkeep")], ""),
    ([Name(".tracks"), Name("wiki"), Name(".gitkeep")], "")
  ]

  /** Normalized version numbers begin with a digit. */
  type Version = v: string | v != "" && '0' <= v[0] <= '9' witness "0"

  /** What is installed: the staged files by their path in `site-packages`, and the texts written. */
  datatype Package = Package(version: Version, stagingId: string, site: seq<(Path, string)>,
                             config: string, launcher: string, receipt: string) {
    function Staging(): Path {
      [Name(".tracks"), Name(".install-staging-" + stagingId)]
    }

    function Site(): Path {
      [Name(".tracks"), Name(".install-staging-" + stagingId), Name("site-packages")]
    }

    /** `.opencode/<name>`. */
    function Managed(name: string): Path {
      [Name(".opencode"), Name(name)]
    }

    function Staged(name: string): Path {
      [Name(".tracks"), Name(".install-staging-" + stagingId), Name("site-packages"), Name("tracks"), Name(name)]
    }

    function Installed(): Path {
      [Name(".tracks"), Name("env"), Name(version), Name("site-packages")]
    }
  }

  /** What is there before the installation: the files, and whether `.tracks` and its environment exist, which
      either may do without holding a file. */
  datatype Project = Project(files: Files, tracks: bool, env: bool) {
    predicate Real() {
      (Exists(files, TRACKS) ==> tracks) && (Exists(files, ENV) ==> env) && (env ==> tracks)
    }
  }

  function LayoutOf(pkg: Package, before: Project): Layout {
    Layout(TRACKS, pkg.Staging(), before.tracks)
  }

  function ScaffoldSteps(): seq<Step> {
    seq(5, i requires 0 <= i < 5 => WriteIfAbsent(SCAFFOLD[i].0, SCAFFOLD[i].1))
  }

  function SiteSteps(pkg: Package): seq<Step> {
    seq(|pkg.site|, i requires 0 <= i < |pkg.site| => Write(pkg.Site() + pkg.site[i].0, Some(pkg.site[i].1)))
  }

  /** `_materialize`, then the receipt. */
  function MaterializeSteps(pkg: Package, before: Project): seq<Step> {
    [DoDeferEmptyDir(OPENCODE),
     DoReplace(pkg.Managed("agents"), pkg.Staged("agents")),
     DoReplace(pkg.Managed("skills"), pkg.Staged("skills")),
     DoReplace(pkg.Managed("templates"), pkg.Staged("templates")),
     Seed(CONFIG, pkg.config),
     DoDeferTree(ENV, before.env),
     Write(ENV_IGNORE, Some("*")),
     DoReplace(pkg.Installed(), pkg.Site()),
     DoSave(LAUNCHER),
     Write(LAUNCHER_TMP, Some(pkg.launcher)),
     MoveFile(LAUNCHER_TMP, LAUNCHER),
     DoSave(RECEIPT),
     Write(RECEIPT_TMP, Some(pkg.receipt)),
     MoveFile(RECEIPT_TMP, RECEIPT)]
  }

  /** `install_project` up to the health check. */
  function InstallSteps(pkg: Package, before: Project): seq<Step> {
    ScaffoldSteps() + SiteSteps(pkg) + MaterializeSteps(pkg, before)
  }

  /** No file lies where a directory above `p` is needed. */
  predicate Clear(f: Files, p: Path) {
    forall q :: q in f ==> !(q < p)
  }

  /** The step itself does not fail: what it renames or moves is there, the directories above its target are
      directories or can be made, and no directory lies where it reads or writes a file. */
  ghost predicate Succeeds(s: State, step: Step) {
    match step
    case DoReplace(destination, staged) => Exists(s.files, staged) && Clear(s.files, destination)
    case DoSave(path) => NoDirectory(s.files, path)
    case DoDeferTree(_, _) => true
    case DoDeferEmptyDir(_) => true
    case Write(path, _) => Clear(s.files, path) && NoDirectory(s.files, path)
    case WriteIfAbsent(path, _) => Clear(s.files, path)
    case Seed(path, _) => Clear(s.files, path)
    case MoveFile(source, destination) => source in s.files && NoDirectory(s.files, destination)
  }

  /** The first `i` steps were done. */
  ghost predicate DoneSteps(pkg: Package, before: Project, i: nat)
    requires i <= |InstallSteps(pkg, before)|
  {
    forall k: nat :: k < i ==>
      Succeeds(After(LayoutOf(pkg, before), before.files, InstallSteps(pkg, before)[..k]).state,
               InstallSteps(pkg, before)[k])
  }

  // ----- what a failure leaves -----

  /** The number of steps up to the `k`th of `_materialize`. */
  function Late(pkg: Package, k: nat): nat {
    5 + |pkg.site| + k
  }

  /** What the first `i` scaffold steps would write at `q`. */
  function Scaffold(i: nat, q: Path): Option<string> {
    if i == 0 then None
    else if i <= 5 && SCAFFOLD[i - 1].0 == q then Some(SCAFFOLD[i - 1].1)
    else Scaffold(i - 1, q)
  }

  /** What lies at `q` after a failure with `i` steps done. In a project without `.tracks`, what lay there before.
      In any other, the scaffold files that were missing stay, and so does the ignore file written into an
      environment that was there; a temporary file stays until it is moved, and is then gone even if one was
      there before. */
  ghost function Fate(pkg: Package, before: Project, i: nat, q: Path): Option<string> {
    if !before.tracks then Look(before.files, q)
    else if Scaffold(i, q).Some? && !Exists(before.files, q) then Scaffold(i, q)
    else if q == ENV_IGNORE && i >= Late(pkg, 7) && before.env then Some("*")
    else if q == LAUNCHER_TMP && i >= Late(pkg, 10) then (if i == Late(pkg, 10) then Some(pkg.launcher) else None)
    else if q == RECEIPT_TMP && i >= Late(pkg, 13) then (if i == Late(pkg, 13) then Some(pkg.receipt) else None)
    else Look(before.files, q)
  }

  /** The operations in the installer's log. */
  ghost predicate Expected(pkg: Package, before: Project, op: Op) {
    match op
    case Replaced(d, _) => d == pkg.Installed() || OPENCODE <= d
    case Saved(p, _) => p == CONFIG || p == LAUNCHER || p == RECEIPT
    case DeferredTree(p, existed) => p == ENV && existed == before.env
    case DeferredEmptyDir(_) => true
  }

  ghost predicate LogIs(pkg: Package, before: Project, i: nat, ops: seq<Op>) {
    && (forall op :: op in ops ==> Expected(pkg, before, op))
    && (i > Late(pkg, 5) && !before.env ==> Covered(ops, ENV_IGNORE))
    && (i > Late(pkg, 8) ==> Covered(ops, LAUNCHER))
    && (i > Late(pkg, 11) ==> Covered(ops, RECEIPT))
  }

  /** The directories the installer writes into, beside its staging directory. */
  function Directories(pkg: Package): set<Path> {
    {[], TRACKS, OPENCODE, ENV, ENV + [Name(pkg.version)], [Name(".tracks"), Name("bin")],
     [Name(".tracks"), Name("runtime")], [Name(".tracks"), Name("projects")], [Name(".tracks"), Name("wiki")]}
  }

  /** Where the installer has written nothing yet. */
  ghost predicate Untouched(pkg: Package, i: nat, q: Path) {
    || (i <= 5 && Scaffold(i, q).None?)
    || (ENV <= q && i <= Late(pkg, 6))
    || LAUNCHER < q
    || RECEIPT < q
    || LAUNCHER_TMP < q
    || RECEIPT_TMP < q
    || q in Directories(pkg)
  }

  ghost predicate FilesAre(pkg: Package, before: Project, i: nat, f: Files) {
    && (forall q :: Untouched(pkg, i, q) ==> Look(f, q) == Look(before.files, q))
    && (forall q :: i <= 5 && Scaffold(i, q).Some? ==>
          Look(f, q) == if Exists(before.files, q) then Look(before.files, q) else Scaffold(i, q))
  }

  ghost predicate LeftIs(pkg: Package, before: Project, i: nat, left: Files) {
    forall q :: Look(left, q) == Fate(pkg, before, i, q)
  }

  ghost predicate OnCourse(pkg: Package, before: Project, i: nat, c: Course) {
    LogIs(pkg, before, i, c.state.ops) && FilesAre(pkg, before, i, c.state.files) && LeftIs(pkg, before, i, c.left)
  }

  // ----- the steps in their order -----

  lemma ScaffoldAt(pkg: Package, before: Project, i: nat)
    requires i < 5
    ensures |InstallSteps(pkg, before)| == Late(pkg, 14)
    ensures InstallSteps(pkg, before)[i] == WriteIfAbsent(SCAFFOLD[i].0, SCAFFOLD[i].1)
  {
    assert InstallSteps(pkg, before)[i] == ScaffoldSteps()[i];
  }

  lemma SiteAt(pkg: Package, before: Project, k: nat)
    requires k < |pkg.site|
    ensures |InstallSteps(pkg, before)| == Late(pkg, 14)
    ensures InstallSteps(pkg, before)[5 + k] == Write(pkg.Site() + pkg.site[k].0, Some(pkg.site[k].1))
  {
    assert InstallSteps(pkg, before)[5 + k] == SiteSteps(pkg)[k];
  }

  lemma LateAt(pkg: Package, before: Project, k: nat)
    requires k < 14
    ensures |InstallSteps(pkg, before)| == Late(pkg, 14)
    ensures InstallSteps(pkg, before)[Late(pkg, k)] == MaterializeSteps(pkg, before)[k]
  {
  }

  lemma StagingName(pkg: Package)
    ensures ".install-staging-" + pkg.stagingId !in
      {"env", "bin", ".gitignore", "runtime", "projects", "wiki", "install.json", ".install.json.tmp"}
  {
    var t := ".install-staging-" + pkg.stagingId;
    assert t[0] == '.' && t[1] == 'i' && t[8] == '-';
    assert ".install.json.tmp"[8] == '.' && ".gitignore"[1] == 'g';
  }

  /** A scaffold file is none of the files written later. */
  lemma ScaffoldPath(pkg: Package, i: nat)
    requires i < 5
    ensures var p := SCAFFOLD[i].0;
      && TRACKS < p && !(ENV <= p) && !(pkg.Staging() <= p) && !(LAUNCHER <= p) && !(RECEIPT <= p)
      && p != LAUNCHER_TMP && p != RECEIPT_TMP
  {
    StagingName(pkg);
    var p := SCAFFOLD[i].0;
    assert p[0] == TRACKS[0] && p[1] in {Name(".gitignore"), Name("runtime"), Name("projects"), Name("wiki")};
    assert p[1] !in {ENV[1], pkg.Staging()[1], LAUNCHER[1], RECEIPT[1], RECEIPT_TMP[1]};
  }

  lemma UntouchedOutside(pkg: Package, i: nat, q: Path)
    requires i > 5 && Untouched(pkg, i, q)
    ensures !(pkg.Staging() <= q)
  {
    StagingName(pkg);
    assert |q| >= 2 && q[1] != pkg.Staging()[1] ==> !(pkg.Staging() <= q);
    assert q in Directories(pkg) && |q| >= 2 ==> q[1] != pkg.Staging()[1];
  }

  /** No file is written, and no tree put, at one of the directories. */
  lemma NoTarget(pkg: Package, q: Path)
    requires q in Directories(pkg)
    ensures q !in {CONFIG, ENV_IGNORE, LAUNCHER, LAUNCHER_TMP, RECEIPT, RECEIPT_TMP}
    ensures !(pkg.Installed() <= q) && forall name :: !(pkg.Managed(name) <= q)
  {
    assert pkg.version != ".gitignore";
    assert OPENCODE[0] != TRACKS[0] && CONFIG[0] !in {TRACKS[0], OPENCODE[0]};
    assert |pkg.Installed()| == 4 && |q| <= 3;
    assert |q| == 3 ==> q[1] == ENV[1] && q[2] == Name(pkg.version);
    assert |q| >= 2 ==> q[0] == TRACKS[0];
    forall name ensures !(pkg.Managed(name) <= q) {
      var m := pkg.Managed(name);
      assert |m| == 2 && m[0] == OPENCODE[0];
      assert |q| >= 2 && q[0] != m[0] ==> !(m <= q);
    }
    assert |q| == 2 ==> q[1] in {Name("env"), Name("bin"), Name("runtime"), Name("projects"), Name("wiki")};
  }

  // ----- one step -----

  lemma ScaffoldDistinct(m: nat, j: nat)
    requires m < j < 5
    ensures !(SCAFFOLD[j].0 <= SCAFFOLD[m].0)
  {
    var p, r := SCAFFOLD[j].0, SCAFFOLD[m].0;
    assert j == 1 ==> p[1] == Name("runtime");
    assert j == 2 ==> p[1] == Name("projects") && p[2] == Name(".gitignore");
    assert j == 3 ==> p[1] == Name("projects") && p[2] == Name(".gitkeep");
    assert j == 4 ==> p[1] == Name("wiki");
    assert |r| == |p| ==> r[1] != p[1] || r[2] != p[2];
  }

  lemma {:induction false} ScaffoldApart(i: nat, j: nat, q: Path)
    requires i <= j < 5 && SCAFFOLD[j].0 <= q
    ensures Scaffold(i, q).None?
  {
    if i > 0 {
      ScaffoldDistinct(i - 1, j);
      ScaffoldApart(i - 1, j, q);
    }
  }

  lemma SameExists(f: Files, g: Files, p: Path)
    requires forall q :: p <= q ==> Look(f, q) == Look(g, q)
    ensures Exists(f, p) <==> Exists(g, p)
  {
    if Exists(f, p) {
      var q :| q in f && p <= q;
      assert Look(g, q).Some?;
    }
    if Exists(g, p) {
      var q :| q in g && p <= q;
      assert Look(f, q).Some?;
    }
  }

  /** What lies where after a write. */
  lemma LookNext(f: Files, p: Path, data: Option<string>)
    ensures forall q :: Look(Set(f, p, data), q) == if q == p then data else Look(f, q)
  {
    hide Look, Set;
    forall q ensures Look(Set(f, p, data), q) == if q == p then data else Look(f, q) {
      LookSet(f, p, data, q);
    }
  }

  lemma ScaffoldExists(pkg: Package, before: Project, i: nat, f: Files)
    requires i < 5 && FilesAre(pkg, before, i, f)
    ensures Exists(f, SCAFFOLD[i].0) <==> Exists(before.files, SCAFFOLD[i].0)
    ensures Scaffold(i, SCAFFOLD[i].0).None? && Look(f, SCAFFOLD[i].0) == Look(before.files, SCAFFOLD[i].0)
  {
    hide Look, Exists, Scaffold;
    var p := SCAFFOLD[i].0;
    forall q | p <= q ensures Scaffold(i, q).None? && Look(f, q) == Look(before.files, q) {
      ScaffoldApart(i, i, q);
    }
    SameExists(f, before.files, p);
  }

  lemma ScaffoldNext(i: nat, q: Path)
    requires i < 5
    ensures Scaffold(i + 1, q) == if q == SCAFFOLD[i].0 then Some(SCAFFOLD[i].1) else Scaffold(i, q)
  {
  }

  lemma ScaffoldFiles(pkg: Package, before: Project, i: nat, s: State)
    requires i < 5 && FilesAre(pkg, before, i, s.files)
    ensures FilesAre(pkg, before, i + 1,
      Apply(LayoutOf(pkg, before), s, WriteIfAbsent(SCAFFOLD[i].0, SCAFFOLD[i].1)).files)
  {
    hide Look, Set, Exists, Scaffold;
    var p, text := SCAFFOLD[i].0, SCAFFOLD[i].1;
    ScaffoldExists(pkg, before, i, s.files);
    ScaffoldPath(pkg, i);
    LookNext(s.files, p, Some(text));
    forall q ensures Scaffold(i + 1, q) == if q == p then Some(text) else Scaffold(i, q) {
      ScaffoldNext(i, q);
    }
  }

  /** A scaffold file or a temporary file: no operation of the log is about it. */
  lemma NotCovered(pkg: Package, before: Project, ops: seq<Op>, p: Path)
    requires forall op :: op in ops ==> Expected(pkg, before, op)
    requires TRACKS < p && !(ENV <= p) && p != LAUNCHER && p != RECEIPT
    ensures !Covered(ops, p)
  {
    assert OPENCODE[0] != TRACKS[0] && CONFIG[0] != TRACKS[0];
    forall op | op in ops ensures !Covers(op, p) {
      assert Expected(pkg, before, op);
      assert ENV <= pkg.Installed();
    }
  }

  lemma NotInBackup(pkg: Package, layout: Layout, p: Path)
    requires layout.staging == pkg.Staging() && !(pkg.Staging() <= p)
    ensures !(layout.BackupRoot() <= p)
  {
    assert layout.staging <= layout.BackupRoot();
  }

  lemma ScaffoldLeft(pkg: Package, before: Project, i: nat, c: Course)
    requires i < 5 && OnCourse(pkg, before, i, c)
    ensures LeftIs(pkg, before, i + 1,
      Left(LayoutOf(pkg, before), c.left, c.state, WriteIfAbsent(SCAFFOLD[i].0, SCAFFOLD[i].1)))
  {
    hide Look, Set, Exists, Scaffold, Covered, Stays, Taken;
    var layout, p, text := LayoutOf(pkg, before), SCAFFOLD[i].0, SCAFFOLD[i].1;
    ScaffoldExists(pkg, before, i, c.state.files);
    ScaffoldTaken(pkg, before, i, c.state);
    forall q
      ensures Look(Left(layout, c.left, c.state, WriteIfAbsent(p, text)), q) == Fate(pkg, before, i + 1, q)
    {
      LookStays(layout, c.left, c.state, p, Some(text), q);
      ScaffoldNext(i, q);
    }
  }

  lemma ScaffoldTaken(pkg: Package, before: Project, i: nat, s: State)
    requires i < 5 && forall op :: op in s.ops ==> Expected(pkg, before, op)
    ensures Taken(LayoutOf(pkg, before), s, SCAFFOLD[i].0) <==> !before.tracks
  {
    hide Exists, Covered;
    ScaffoldPath(pkg, i);
    NotCovered(pkg, before, s.ops, SCAFFOLD[i].0);
  }

  lemma ScaffoldTurn(pkg: Package, before: Project, i: nat, c: Course)
    requires i < 5 && OnCourse(pkg, before, i, c)
    ensures var step := WriteIfAbsent(SCAFFOLD[i].0, SCAFFOLD[i].1);
      && Proper(LayoutOf(pkg, before), c.state, step)
      && OnCourse(pkg, before, i + 1, Next(LayoutOf(pkg, before), c, step))
  {
    hide FilesAre, LeftIs, Left, Covered;
    ScaffoldPath(pkg, i);
    NotInBackup(pkg, LayoutOf(pkg, before), SCAFFOLD[i].0);
    ScaffoldFiles(pkg, before, i, c.state);
    ScaffoldLeft(pkg, before, i, c);
  }

  lemma ScaffoldDone(i: nat, q: Path)
    requires i >= 5
    ensures Scaffold(i + 1, q) == Scaffold(i, q)
  {
  }

  /** Only a scaffold step, a write outside the staging directory or a move changes what a failure leaves. */
  lemma FateSame(pkg: Package, before: Project, i: nat, q: Path)
    requires i >= 5 && i !in {Late(pkg, 6), Late(pkg, 9), Late(pkg, 10), Late(pkg, 12), Late(pkg, 13)}
    ensures Fate(pkg, before, i + 1, q) == Fate(pkg, before, i, q)
  {
    hide Look, Exists, Scaffold;
    ScaffoldDone(i, q);
  }

  /** Something written into the staging directory. */
  lemma SiteTurn(pkg: Package, before: Project, k: nat, c: Course)
    requires k < |pkg.site| && OnCourse(pkg, before, 5 + k, c)
    ensures var step := Write(pkg.Site() + pkg.site[k].0, Some(pkg.site[k].1));
      && Proper(LayoutOf(pkg, before), c.state, step)
      && OnCourse(pkg, before, 5 + (k + 1), Next(LayoutOf(pkg, before), c, step))
  {
    hide Look, Set, Exists, Scaffold, Covered, Fate;
    var layout, p := LayoutOf(pkg, before), pkg.Site() + pkg.site[k].0;
    var i, next := 5 + k, 5 + k + 1;
    StagingName(pkg);
    assert p[0] == TRACKS[0] && p[1] == pkg.Staging()[1] && p[2] == Name("site-packages");
    assert layout.BackupRoot()[2] == Name("backup");
    assert layout.Zone() <= p;
    LookNext(c.state.files, p, Some(pkg.site[k].1));
    forall q | Untouched(pkg, next, q) ensures q != p {
      UntouchedOutside(pkg, next, q);
    }
    forall q ensures Fate(pkg, before, i + 1, q) == Fate(pkg, before, i, q) {
      FateSame(pkg, before, i, q);
    }
  }

  // ----- the steps of `_materialize` -----

  lemma EnvKnown(pkg: Package, before: Project, f: Files)
    requires before.Real() && FilesAre(pkg, before, Late(pkg, 5), f)
    ensures Exists(f, ENV) ==> before.env
  {
    hide Look, Exists, Scaffold, Directories;
    SameExists(f, before.files, ENV);
  }

  lemma MaterializeProper(pkg: Package, before: Project, k: nat, s: State)
    requires k < 14 && Succeeds(s, MaterializeSteps(pkg, before)[k])
    requires before.Real() && FilesAre(pkg, before, Late(pkg, k), s.files)
    ensures Proper(LayoutOf(pkg, before), s, MaterializeSteps(pkg, before)[k])
  {
    hide Exists, NoDirectory, Clear, FilesAre;
    var layout := LayoutOf(pkg, before);
    StagingName(pkg);
    match MaterializeSteps(pkg, before)[k] {
      case DoReplace(d, staged) =>
        assert d[0] == OPENCODE[0] || d[1] == ENV[1];
        assert pkg.Site() <= staged && staged[2] == Name("site-packages") && layout.BackupRoot()[2] == Name("backup");
      case DoSave(p) => assert p[1] == LAUNCHER[1] || p[1] == RECEIPT[1];
      case Write(p, _) =>
        assert p[1] == ENV[1] || p[1] == LAUNCHER[1] || p == RECEIPT_TMP;
        NotInBackup(pkg, layout, p);
      case MoveFile(a, b) =>
        assert a[1] == LAUNCHER[1] || (a[1] == RECEIPT_TMP[1] && b[1] == RECEIPT[1]);
        NotInBackup(pkg, layout, a);
        NotInBackup(pkg, layout, b);
      case Seed(p, _) => assert p[0] != TRACKS[0];
      case DoDeferTree(p, _) =>
        assert p[1] == ENV[1];
        EnvKnown(pkg, before, s.files);
      case DoDeferEmptyDir(_) =>
    }
  }

  /** A replacement changes nothing but its destination, what was staged for it, and the backups. */
  lemma ReplaceElsewhere(layout: Layout, s: State, d: Path, staged: Path, q: Path)
    requires !(d <= q) && !(staged <= q) && !(layout.BackupRoot() <= q)
    ensures Look(Replace(layout, s, d, staged).files, q) == Look(s.files, q)
  {
    hide Rename, Look, Exists;
    var b := layout.Backup(s.index + 1, d);
    assert layout.BackupRoot() <= b;
    LookRename(s.files, d, b, q);
    LookRename(Rename(s.files, d, b), staged, d, q);
    LookRename(s.files, staged, d, q);
  }

  lemma MaterializeFiles(pkg: Package, before: Project, k: nat, s: State)
    requires k < 14 && FilesAre(pkg, before, Late(pkg, k), s.files)
    ensures FilesAre(pkg, before, Late(pkg, k + 1),
      Apply(LayoutOf(pkg, before), s, MaterializeSteps(pkg, before)[k]).files)
  {
    hide Look, Scaffold, Untouched, Apply;
    forall q | Untouched(pkg, Late(pkg, k + 1), q)
      ensures Look(Apply(LayoutOf(pkg, before), s, MaterializeSteps(pkg, before)[k]).files, q) == Look(s.files, q)
      ensures Untouched(pkg, Late(pkg, k), q)
    {
      UntouchedNext(pkg, before, k, s, q);
      UntouchedEarlier(pkg, Late(pkg, k), q);
    }
  }

  lemma UntouchedEarlier(pkg: Package, i: nat, q: Path)
    requires i >= 5 && Untouched(pkg, i + 1, q)
    ensures Untouched(pkg, i, q)
  {
    hide Scaffold, Directories;
  }

  /** The step puts nothing at `q`, and takes nothing from there. */
  predicate Avoids(layout: Layout, step: Step, q: Path) {
    match step
    case DoReplace(d, staged) => !(d <= q) && layout.staging <= staged && !(layout.staging <= q)
    case Write(p, _) => p != q
    case WriteIfAbsent(p, _) => p != q
    case Seed(p, _) => p != q
    case MoveFile(a, b) => a != q && b != q
    case _ => true
  }

  lemma AvoidsKeeps(layout: Layout, s: State, step: Step, q: Path)
    requires Avoids(layout, step, q)
    ensures Look(Apply(layout, s, step).files, q) == Look(s.files, q)
  {
    hide Look, Exists, Set, Replace;
    match step {
      case DoReplace(d, staged) =>
        assert layout.staging <= layout.BackupRoot();
        ReplaceElsewhere(layout, s, d, staged, q);
      case Write(p, v) => LookSet(s.files, p, v, q);
      case WriteIfAbsent(p, v) => LookSet(s.files, p, Some(v), q);
      case Seed(p, v) => LookSet(s.files, p, Some(v), q);
      case MoveFile(a, b) =>
        LookSet(s.files, b, Look(s.files, a), q);
        LookSet(Set(s.files, b, Look(s.files, a)), a, None, q);
      case _ =>
    }
  }

  lemma UntouchedAvoids(pkg: Package, before: Project, k: nat, q: Path)
    requires k < 14 && Untouched(pkg, Late(pkg, k + 1), q)
    ensures Avoids(LayoutOf(pkg, before), MaterializeSteps(pkg, before)[k], q)
  {
    hide Scaffold, Directories;
    UntouchedOutside(pkg, Late(pkg, k + 1), q);
    if q in Directories(pkg) { NoTarget(pkg, q); }
  }

  lemma UntouchedNext(pkg: Package, before: Project, k: nat, s: State, q: Path)
    requires k < 14 && Untouched(pkg, Late(pkg, k + 1), q)
    ensures Look(Apply(LayoutOf(pkg, before), s, MaterializeSteps(pkg, before)[k]).files, q) == Look(s.files, q)
  {
    hide Look, Apply, Untouched, Avoids;
    UntouchedAvoids(pkg, before, k, q);
    AvoidsKeeps(LayoutOf(pkg, before), s, MaterializeSteps(pkg, before)[k], q);
  }

  lemma CoveredAgain(ops: seq<Op>, op: Op, p: Path)
    ensures Covered(ops + [op], p) <==> Covered(ops, p) || Covers(op, p)
  {
    hide Covers;
    assert op in ops + [op];
    if Covered(ops + [op], p) && !Covers(op, p) {
      var o :| o in ops + [op] && Covers(o, p);
      assert o in ops;
    }
    if Covered(ops, p) {
      var o :| o in ops && Covers(o, p);
      assert o in ops + [op];
    }
  }

  /** The operation a step logs, if any. */
  ghost function Logs(layout: Layout, s: State, step: Step): Option<Op> {
    match step
    case DoReplace(d, _) =>
      Some(Replaced(d, if Exists(s.files, d) then Some(layout.Backup(s.index + 1, d)) else None))
    case DoSave(p) => Some(Saved(p, Look(s.files, p)))
    case DoDeferTree(p, existed) => Some(DeferredTree(p, existed))
    case DoDeferEmptyDir(p) => if Exists(s.files, p) then None else Some(DeferredEmptyDir(p))
    case Seed(p, _) => if Exists(s.files, p) then None else Some(Saved(p, Look(s.files, p)))
    case _ => None
  }

  lemma LogsSo(layout: Layout, s: State, step: Step)
    ensures Apply(layout, s, step).ops ==
      match Logs(layout, s, step) case Some(op) => s.ops + [op] case None => s.ops
  {
    hide Exists, Look, Rename;
  }

  lemma MaterializeLog(pkg: Package, before: Project, k: nat, s: State)
    requires k < 14 && LogIs(pkg, before, Late(pkg, k), s.ops) && FilesAre(pkg, before, Late(pkg, k), s.files)
    ensures LogIs(pkg, before, Late(pkg, k + 1), Apply(LayoutOf(pkg, before), s, MaterializeSteps(pkg, before)[k]).ops)
  {
    hide Look, Exists, Set, Scaffold, Replace, Covered, Apply;
    var layout, step := LayoutOf(pkg, before), MaterializeSteps(pkg, before)[k];
    LogsSo(layout, s, step);
    match Logs(layout, s, step) {
      case Some(op) =>
        assert Expected(pkg, before, op);
        CoveredAgain(s.ops, op, ENV_IGNORE);
        CoveredAgain(s.ops, op, LAUNCHER);
        CoveredAgain(s.ops, op, RECEIPT);
      case None =>
    }
  }

  lemma EnvCovered(pkg: Package, before: Project, i: nat, ops: seq<Op>)
    requires i > Late(pkg, 5) && LogIs(pkg, before, i, ops)
    ensures Covered(ops, ENV_IGNORE) <==> !before.env
  {
    hide Exists;
    assert |pkg.Installed()| > |ENV_IGNORE| && OPENCODE[0] != ENV_IGNORE[0];
    assert LAUNCHER[1] != ENV_IGNORE[1] && |RECEIPT| < |ENV_IGNORE| && |CONFIG| < |ENV_IGNORE|;
    forall op | op in ops && Covers(op, ENV_IGNORE) ensures !before.env {
      assert Expected(pkg, before, op);
    }
  }

  lemma MaterializeLeft(pkg: Package, before: Project, k: nat, c: Course)
    requires k < 14 && LogIs(pkg, before, Late(pkg, k), c.state.ops) && LeftIs(pkg, before, Late(pkg, k), c.left)
    ensures LeftIs(pkg, before, Late(pkg, k + 1),
      Left(LayoutOf(pkg, before), c.left, c.state, MaterializeSteps(pkg, before)[k]))
  {
    hide Look, Exists, Set, Scaffold, Covered, Fate;
    var i, next := Late(pkg, k), Late(pkg, k + 1);
    if k !in {6, 9, 10, 12, 13} {
      forall q ensures Fate(pkg, before, next, q) == Fate(pkg, before, i, q) {
        FateSame(pkg, before, i, q);
      }
    } else {
      forall q ensures Look(Left(LayoutOf(pkg, before), c.left, c.state, MaterializeSteps(pkg, before)[k]), q)
        == Fate(pkg, before, next, q)
      {
        WriteFate(pkg, before, k, c, q);
      }
    }
  }

  lemma LookStays(layout: Layout, left: Files, s: State, p: Path, v: Option<string>, q: Path)
    ensures Look(Stays(layout, left, s, p, v), q) == if q == p && !Taken(layout, s, p) then v else Look(left, q)
  {
    hide Look, Set, Taken;
    LookSet(left, p, v, q);
  }

  /** Of the later writes, those of the ignore file and the temporary files can stay. */
  lemma TakenBack(pkg: Package, before: Project, i: nat, s: State)
    requires LogIs(pkg, before, i, s.ops)
    ensures var layout := LayoutOf(pkg, before);
      && (Taken(layout, s, LAUNCHER_TMP) <==> !before.tracks)
      && (Taken(layout, s, RECEIPT_TMP) <==> !before.tracks)
      && (i > Late(pkg, 5) ==> (Taken(layout, s, ENV_IGNORE) <==> !before.tracks || !before.env))
      && (i > Late(pkg, 8) ==> Taken(layout, s, LAUNCHER))
      && (i > Late(pkg, 11) ==> Taken(layout, s, RECEIPT))
  {
    hide Exists, Covered;
    StagingName(pkg);
    assert LAUNCHER_TMP[1] == Name("bin") && RECEIPT_TMP[1] != ENV[1] && RECEIPT_TMP[1] != LAUNCHER[1];
    NotCovered(pkg, before, s.ops, LAUNCHER_TMP);
    NotCovered(pkg, before, s.ops, RECEIPT_TMP);
    if i > Late(pkg, 5) { EnvCovered(pkg, before, i, s.ops); }
  }

  lemma WriteFate(pkg: Package, before: Project, k: nat, c: Course, q: Path)
    requires k in {6, 9, 10, 12, 13}
    requires LogIs(pkg, before, Late(pkg, k), c.state.ops) && LeftIs(pkg, before, Late(pkg, k), c.left)
    ensures Look(Left(LayoutOf(pkg, before), c.left, c.state, MaterializeSteps(pkg, before)[k]), q)
      == Fate(pkg, before, Late(pkg, k + 1), q)
  {
    hide Look, Exists, Set, Scaffold, Covered, Stays, Taken, LogIs;
    var layout, s := LayoutOf(pkg, before), c.state;
    TakenBack(pkg, before, Late(pkg, k), s);
    LaterPaths(pkg, q);
    ScaffoldDone(Late(pkg, k), q);
    match MaterializeSteps(pkg, before)[k] {
      case Write(p, v) => LookStays(layout, c.left, s, p, v, q);
      case MoveFile(a, b) =>
        LookStays(layout, c.left, s, b, Look(s.files, a), q);
        LookStays(layout, Stays(layout, c.left, s, b, Look(s.files, a)), s, a, None, q);
      case _ =>
    }
  }

  /** The later files are pairwise distinct and no scaffold files. */
  lemma LaterPaths(pkg: Package, q: Path)
    ensures q in {ENV_IGNORE, LAUNCHER_TMP, RECEIPT_TMP} ==> forall i :: Scaffold(i, q).None?
    ensures ENV_IGNORE != LAUNCHER_TMP && ENV_IGNORE != RECEIPT_TMP && LAUNCHER_TMP != RECEIPT_TMP
  {
    if q in {ENV_IGNORE, LAUNCHER_TMP, RECEIPT_TMP} {
      forall i ensures Scaffold(i, q).None? {
        NoScaffold(pkg, i, q);
      }
    }
    assert ENV_IGNORE[1] != LAUNCHER_TMP[1];
  }

  lemma {:induction false} NoScaffold(pkg: Package, i: nat, q: Path)
    requires q in {ENV_IGNORE, LAUNCHER_TMP, RECEIPT_TMP}
    ensures Scaffold(i, q).None?
  {
    if i > 0 {
      NoScaffold(pkg, i - 1, q);
      if i <= 5 { ScaffoldPath(pkg, i - 1); }
    }
  }

  // ----- whole installations -----

  lemma Turn(pkg: Package, before: Project, i: nat, c: Course)
    requires i < Late(pkg, 14) == |InstallSteps(pkg, before)|
    requires before.Real() && OnCourse(pkg, before, i, c) && Succeeds(c.state, InstallSteps(pkg, before)[i])
    ensures Proper(LayoutOf(pkg, before), c.state, InstallSteps(pkg, before)[i])
    ensures OnCourse(pkg, before, i + 1, Next(LayoutOf(pkg, before), c, InstallSteps(pkg, before)[i]))
  {
    hide InstallSteps, MaterializeSteps, LogIs, FilesAre, LeftIs, Proper, Apply, Left, Succeeds;
    if i < 5 {
      ScaffoldAt(pkg, before, i);
      ScaffoldTurn(pkg, before, i, c);
    } else if i < 5 + |pkg.site| {
      SiteAt(pkg, before, i - 5);
      SiteTurn(pkg, before, i - 5, c);
    } else {
      var k := i - 5 - |pkg.site|;
      LateAt(pkg, before, k);
      MaterializeProper(pkg, before, k, c.state);
      MaterializeFiles(pkg, before, k, c.state);
      MaterializeLog(pkg, before, k, c.state);
      MaterializeLeft(pkg, before, k, c);
    }
  }

  lemma Begins(pkg: Package, before: Project)
    ensures OnCourse(pkg, before, 0, Course(State(before.files, [], 0), before.files))
  {
    hide Exists, Look;
  }

  lemma {:induction false} Turns(pkg: Package, before: Project, i: nat)
    requires i <= |InstallSteps(pkg, before)| && before.Real() && DoneSteps(pkg, before, i)
    ensures AllProper(LayoutOf(pkg, before), before.files, InstallSteps(pkg, before)[..i])
    ensures OnCourse(pkg, before, i, After(LayoutOf(pkg, before), before.files, InstallSteps(pkg, before)[..i]))
  {
    hide InstallSteps, Proper, OnCourse, Next, Succeeds;
    if i == 0 {
      Begins(pkg, before);
    } else {
      Turns(pkg, before, i - 1);
      var steps := InstallSteps(pkg, before);
      assert steps[..i][..i - 1] == steps[..i - 1];
      LateAt(pkg, before, 0);
      Turn(pkg, before, i - 1, After(LayoutOf(pkg, before), before.files, steps[..i - 1]));
    }
  }

  /** Exactly what a failure with any number of the installer's steps done leaves. */
  lemma InstallLeaves(pkg: Package, before: Project, i: nat)
    requires i <= |InstallSteps(pkg, before)| && before.Real() && DoneSteps(pkg, before, i)
    requires !Exists(before.files, pkg.Staging())
    ensures var layout := LayoutOf(pkg, before);
      forall q :: Look(AfterFailure(layout, After(layout, before.files, InstallSteps(pkg, before)[..i]).state), q)
        == Fate(pkg, before, i, q)
  {
    hide InstallSteps, DoneSteps, AllProper, After, AfterFailure, Fate, Look, Exists, LogIs, FilesAre;
    Turns(pkg, before, i);
    FailureLeaves(LayoutOf(pkg, before), before.files, InstallSteps(pkg, before)[..i]);
  }

  /** Nothing stays: the project had no `.tracks`; or it had the scaffold files written so far, no environment or
      one with this very ignore file, and the temporary files are gone again, or were there with this content. */
  ghost predicate Clean(pkg: Package, before: Project, i: nat) {
    || !before.tracks
    || (&& (forall j :: 0 <= j < 5 && j < i ==> Exists(before.files, SCAFFOLD[j].0))
        && (i >= Late(pkg, 7) && before.env ==> Look(before.files, ENV_IGNORE) == Some("*"))
        && (i == Late(pkg, 10) ==> Look(before.files, LAUNCHER_TMP) == Some(pkg.launcher))
        && (i > Late(pkg, 10) ==> Look(before.files, LAUNCHER_TMP) == None)
        && (i == Late(pkg, 13) ==> Look(before.files, RECEIPT_TMP) == Some(pkg.receipt))
        && (i > Late(pkg, 13) ==> Look(before.files, RECEIPT_TMP) == None))
  }

  lemma {:induction false} ScaffoldOf(i: nat, q: Path)
    ensures Scaffold(i, q).Some? <==> exists j :: 0 <= j < 5 && j < i && SCAFFOLD[j].0 == q
  {
    if i > 0 { ScaffoldOf(i - 1, q); }
  }

  lemma NoFile(f: Files, q: Path)
    ensures !Exists(f, q) ==> Look(f, q).None?
  {
  }

  lemma CleanFate(pkg: Package, before: Project, i: nat)
    ensures Clean(pkg, before, i) <==> forall q :: Fate(pkg, before, i, q) == Look(before.files, q)
  {
    hide Exists, Scaffold, Look;
    LaterPaths(pkg, ENV_IGNORE);
    LaterPaths(pkg, LAUNCHER_TMP);
    LaterPaths(pkg, RECEIPT_TMP);
    if Clean(pkg, before, i) {
      forall q ensures Fate(pkg, before, i, q) == Look(before.files, q) {
        ScaffoldOf(i, q);
      }
    } else {
      FateDiffers(pkg, before, i);
    }
  }

  lemma FateDiffers(pkg: Package, before: Project, i: nat)
    requires !Clean(pkg, before, i)
    ensures exists q :: Fate(pkg, before, i, q) != Look(before.files, q)
  {
    hide Exists, Scaffold, Look;
    LaterPaths(pkg, ENV_IGNORE);
    LaterPaths(pkg, LAUNCHER_TMP);
    LaterPaths(pkg, RECEIPT_TMP);
    if j :| 0 <= j < 5 && j < i && !Exists(before.files, SCAFFOLD[j].0) {
      ScaffoldOf(i, SCAFFOLD[j].0);
      NoFile(before.files, SCAFFOLD[j].0);
      assert Fate(pkg, before, i, SCAFFOLD[j].0) != Look(before.files, SCAFFOLD[j].0);
    } else if i >= Late(pkg, 7) && before.env && Look(before.files, ENV_IGNORE) != Some("*") {
      assert Fate(pkg, before, i, ENV_IGNORE) != Look(before.files, ENV_IGNORE);
    } else {
      assert Fate(pkg, before, i, LAUNCHER_TMP) != Look(before.files, LAUNCHER_TMP)
        || Fate(pkg, before, i, RECEIPT_TMP) != Look(before.files, RECEIPT_TMP);
    }
  }

  /** A failure with `i` steps done restores the project exactly when nothing stays. */
  lemma FailureRestores(pkg: Package, before: Project, i: nat)
    requires i <= |InstallSteps(pkg, before)| && before.Real() && DoneSteps(pkg, before, i)
    requires !Exists(before.files, pkg.Staging())
    ensures var layout := LayoutOf(pkg, before);
      var s := After(layout, before.files, InstallSteps(pkg, before)[..i]).state;
      AfterFailure(layout, s) == before.files <==> Clean(pkg, before, i)
  {
    hide InstallSteps, DoneSteps, After, AfterFailure, Fate, Look, Exists, Clean;
    var layout := LayoutOf(pkg, before);
    InstallLeaves(pkg, before, i);
    CleanFate(pkg, before, i);
    var f := AfterFailure(layout, After(layout, before.files, InstallSteps(pkg, before)[..i]).state);
    assert forall q :: Look(f, q) == Fate(pkg, before, i, q);
    if Clean(pkg, before, i) { LookEqual(f, before.files); }
  }
}
