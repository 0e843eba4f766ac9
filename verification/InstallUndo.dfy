/** The installer's undo log: every change of the project is either logged before it is made or lies where
    everything is removed, so that replaying the log backwards restores what was there. Files are modelled by
    their contents; a directory exists when something lies in it. */
module InstallUndo {
  import opened Wrappers

  /** A backup is named by its number and the name of what it holds. */
  datatype Part = Name(text: string) | Numbered(index: nat, text: string)

  type Path = seq<Part>

  type Files = map<Path, string>

  function Look(f: Files, q: Path): Option<string> {
    if q in f then Some(f[q]) else None
  }

  /** A file written, or unlinked. */
  function Set(f: Files, p: Path, data: Option<string>): Files {
    if data.Some? then f[p := data.value] else f - {p}
  }

  predicate Exists(f: Files, p: Path) {
    exists q :: q in f && p <= q
  }

  /** `shutil.rmtree`, or the unlink of a file. */
  function Cut(f: Files, p: Path): Files {
    map q | q in f && !(p <= q) :: f[q]
  }

  /** What `src + rest` becomes when `src` is renamed to `dst`. */
  function Moved(f: Files, src: Path, dst: Path): Files {
    var moved := set r | r in f && src <= r :: dst + r[|src|..];
    map q | q in moved && src + q[|dst|..] in f :: f[src + q[|dst|..]]
  }

  /** `Path.rename` onto a path where nothing is. */
  function Rename(f: Files, src: Path, dst: Path): Files {
    Cut(Cut(f, src), dst) + Moved(f, src, dst)
  }

  lemma LookCut(f: Files, p: Path, q: Path)
    ensures Look(Cut(f, p), q) == if p <= q then None else Look(f, q)
  {
  }

  lemma LookRename(f: Files, src: Path, dst: Path, q: Path)
    ensures Look(Rename(f, src, dst), q) ==
      if dst <= q then Look(f, src + q[|dst|..]) else if src <= q then None else Look(f, q)
  {
    if dst <= q {
      var r := src + q[|dst|..];
      assert r[|src|..] == q[|dst|..] && dst + r[|src|..] == q;
      if r in f {
        assert q in Moved(f, src, dst);
      }
    } else {
      forall r | r in f && src <= r ensures dst + r[|src|..] != q {
        assert dst <= dst + r[|src|..];
      }
    }
  }

  // ----- the log -----

  datatype Op =
    | Replaced(destination: Path, backup: Option<Path>)
    | Saved(path: Path, data: Option<string>)
    | DeferredTree(path: Path, existed: bool)
    | DeferredEmptyDir(path: Path)

  /** What the closure logged for an operation does. */
  function UndoOne(op: Op, f: Files): Files {
    match op
    case Replaced(destination, backup) =>
      var g := Cut(f, destination);
      if backup.Some? && Exists(g, backup.value) then Rename(g, backup.value, destination) else g
    case Saved(path, data) => Set(f, path, data)
    case DeferredTree(path, existed) => if existed then f else Cut(f, path)
    case DeferredEmptyDir(_) => f
  }

  /** The log replayed from its end. */
  function Undo(ops: seq<Op>, f: Files): Files {
    if ops == [] then f else Undo(ops[..|ops| - 1], UndoOne(ops[|ops| - 1], f))
  }

  /** The project's `.tracks`, and the staging directory made in it for this installation. */
  datatype Layout = Layout(tracks: Path, staging: Path, tracksExisted: bool) {
    predicate Valid() {
      tracks < staging
    }

    function BackupRoot(): Path {
      staging + [Name("backup")]
    }

    function Backup(index: nat, destination: Path): Path {
      BackupRoot() + [Numbered(index, if destination == [] then "" else destination[|destination| - 1].text)]
    }

    /** What is removed after a failure, whatever it holds. */
    function Zone(): Path {
      if tracksExisted then staging else tracks
    }
  }

  datatype State = State(files: Files, ops: seq<Op>, index: nat)

  class Disk {
    var files: Files

    constructor (files: Files)
      ensures this.files == files
    {
      this.files := files;
    }
  }

  class Rollback {
    const layout: Layout
    var ops: seq<Op>
    var backupIndex: nat

    constructor (layout: Layout)
      ensures this.layout == layout && ops == [] && backupIndex == 0
    {
      this.layout := layout;
      ops := [];
      backupIndex := 0;
    }

    ghost function Now(disk: Disk): State
      reads this, disk
    {
      State(disk.files, ops, backupIndex)
    }

    method ReplaceDir(disk: Disk, destination: Path, staged: Path)
      modifies this, disk
      ensures Now(disk) == Replace(layout, old(Now(disk)), destination, staged)
      ensures Replaceable(layout, old(Now(disk)), destination, staged) ==>
        GivesBackSame(layout, old(Now(disk)), Now(disk))
    {
      hide Rename, Exists, Replaceable, GivesBackSame;
      ghost var before := Now(disk);
      var backup: Option<Path> := None;
      if Exists(disk.files, destination) {
        backupIndex := backupIndex + 1;
        backup := Some(layout.Backup(backupIndex, destination));
        disk.files := Rename(disk.files, destination, backup.value);
      }
      disk.files := Rename(disk.files, staged, destination);
      ops := ops + [Replaced(destination, backup)];
      if Replaceable(layout, before, destination, staged) {
        ReplaceGivesBack(layout, before, destination, staged);
      }
    }

    /** Whatever is written or unlinked at the path from now on, the log gives back what it gave back before. */
    method SaveFile(disk: Disk, path: Path)
      modifies this
      ensures Now(disk) == Save(old(Now(disk)), path)
      ensures Undo(ops, disk.files) == Undo(old(ops), disk.files)
      ensures forall data :: Undo(ops, Set(disk.files, path, data)) == Undo(old(ops), disk.files)
    {
      SaveGivesBack(ops, disk.files, path);
      ops := ops + [Saved(path, Look(disk.files, path))];
    }

    /** `existed` says whether the directory was there, if only as an empty one. When it was not, whatever is
        written or unlinked in it from now on, the log gives back what it gave back before. */
    method DeferRemoveTree(disk: Disk, path: Path, existed: bool)
      requires Exists(disk.files, path) ==> existed
      modifies this
      ensures Now(disk) == DeferTree(old(Now(disk)), path, existed)
      ensures Undo(ops, disk.files) == Undo(old(ops), disk.files)
      ensures !existed ==> forall q, data :: path <= q ==>
        Undo(ops, Set(disk.files, q, data)) == Undo(old(ops), disk.files)
      ensures existed ==> forall f :: Undo(ops, f) == Undo(old(ops), f)
    {
      DeferGivesBack(ops, disk.files, path, existed);
      ops := ops + [DeferredTree(path, existed)];
    }

    /** Has no effect on files. */
    method DeferRemoveEmptyDir(disk: Disk, path: Path)
      modifies this
      ensures Now(disk) == DeferEmptyDir(old(Now(disk)), path)
      ensures forall f :: Undo(ops, f) == Undo(old(ops), f)
    {
      forall f ensures Undo(ops + [DeferredEmptyDir(path)], f) == Undo(ops, f) {
        Logged(ops, DeferredEmptyDir(path), f);
      }
      ops := ops + [DeferredEmptyDir(path)];
    }

    method Run(disk: Disk)
      modifies disk
      ensures disk.files ==
        var undone := Undo(ops, old(disk.files));
        if layout.tracksExisted then undone else Cut(undone, layout.tracks)
    {
      var i := |ops|;
      assert ops[..i] == ops;
      while i > 0
        invariant i <= |ops| && Undo(ops[..i], disk.files) == Undo(ops, old(disk.files))
      {
        i := i - 1;
        assert ops[..i + 1][..i] == ops[..i];
        disk.files := UndoOne(ops[i], disk.files);
      }
      if !layout.tracksExisted {
        disk.files := Cut(disk.files, layout.tracks);
      }
    }
  }

  // ----- what one step does to files and log -----

  function Replace(layout: Layout, s: State, destination: Path, staged: Path): State {
    if Exists(s.files, destination) then
      var backup := layout.Backup(s.index + 1, destination);
      State(Rename(Rename(s.files, destination, backup), staged, destination),
            s.ops + [Replaced(destination, Some(backup))], s.index + 1)
    else
      State(Rename(s.files, staged, destination), s.ops + [Replaced(destination, None)], s.index)
  }

  function Save(s: State, path: Path): State {
    s.(ops := s.ops + [Saved(path, Look(s.files, path))])
  }

  function DeferTree(s: State, path: Path, existed: bool): State {
    s.(ops := s.ops + [DeferredTree(path, existed)])
  }

  function DeferEmptyDir(s: State, path: Path): State {
    s.(ops := s.ops + [DeferredEmptyDir(path)])
  }

  datatype Step =
    | DoReplace(destination: Path, staged: Path)
    | DoSave(path: Path)
    | DoDeferTree(path: Path, existed: bool)     // whether the directory is there
    | DoDeferEmptyDir(path: Path)                // unless it exists
    | Write(path: Path, data: Option<string>)
    | WriteIfAbsent(path: Path, bytes: string)
    | Seed(path: Path, bytes: string)            // unless it exists: `save_file`, then the write
    | MoveFile(source: Path, destination: Path)  // `os.replace`

  predicate Apart(p: Path, q: Path) {
    !(p <= q) && !(q <= p)
  }

  /** The undo of `op` removes or overwrites whatever is written at `p`. */
  predicate Covers(op: Op, p: Path) {
    match op
    case Replaced(destination, _) => destination <= p
    case Saved(path, _) => path == p
    case DeferredTree(path, existed) => !existed && path <= p
    case DeferredEmptyDir(_) => false
  }

  ghost predicate Covered(ops: seq<Op>, p: Path) {
    exists op :: op in ops && Covers(op, p)
  }

  /** What is written at `p` is taken back: by the log, or because everything there is removed. */
  ghost predicate Taken(layout: Layout, s: State, p: Path) {
    layout.Zone() <= p || Covered(s.ops, p)
  }

  /** What the installer does when the step itself does not fail: replaced and saved paths lie outside the
      staging directory, staged trees come from inside it, beside the backups, and no file is written among
      those. */
  ghost predicate Proper(layout: Layout, s: State, step: Step) {
    match step
    case DoReplace(destination, staged) =>
      && Apart(destination, layout.staging)
      && layout.staging <= staged && Apart(staged, layout.BackupRoot()) && Exists(s.files, staged)
    case DoSave(path) => Apart(path, layout.staging) && NoDirectory(s.files, path)
    case DoDeferTree(path, existed) => Apart(path, layout.staging) && (Exists(s.files, path) ==> existed)
    case DoDeferEmptyDir(_) => true
    case Write(path, _) => !(layout.BackupRoot() <= path)
    case WriteIfAbsent(path, _) => !(layout.BackupRoot() <= path)
    case Seed(path, _) => Apart(path, layout.staging)
    case MoveFile(source, destination) =>
      !(layout.BackupRoot() <= source) && !(layout.BackupRoot() <= destination) && source != destination
  }

  predicate NoDirectory(f: Files, p: Path) {
    forall q :: q in f ==> !(p < q)
  }

  function Apply(layout: Layout, s: State, step: Step): State {
    match step
    case DoReplace(destination, staged) => Replace(layout, s, destination, staged)
    case DoSave(path) => Save(s, path)
    case DoDeferTree(path, existed) => DeferTree(s, path, existed)
    case DoDeferEmptyDir(path) => if Exists(s.files, path) then s else DeferEmptyDir(s, path)
    case Write(path, data) => s.(files := Set(s.files, path, data))
    case WriteIfAbsent(path, bytes) =>
      if Exists(s.files, path) then s else s.(files := Set(s.files, path, Some(bytes)))
    case Seed(path, bytes) =>
      if Exists(s.files, path) then s
      else var t := Save(s, path); t.(files := Set(t.files, path, Some(bytes)))
    case MoveFile(source, destination) =>
      s.(files := Set(Set(s.files, destination, Look(s.files, source)), source, None))
  }

  /** What a failure after the step gives back, when before it the failure would have given back `left`: what is
      written and not taken back stays. */
  ghost function Left(layout: Layout, left: Files, s: State, step: Step): Files {
    match step
    case Write(path, data) => Stays(layout, left, s, path, data)
    case WriteIfAbsent(path, bytes) =>
      if Exists(s.files, path) then left else Stays(layout, left, s, path, Some(bytes))
    case MoveFile(source, destination) =>
      Stays(layout, Stays(layout, left, s, destination, Look(s.files, source)), s, source, None)
    case _ => left
  }

  ghost function Stays(layout: Layout, left: Files, s: State, p: Path, data: Option<string>): Files {
    if Taken(layout, s, p) then left else Set(left, p, data)
  }

  /** Where the steps lead from `f`, and what a failure there gives back. */
  datatype Course = Course(state: State, left: Files)

  ghost function After(layout: Layout, f: Files, steps: seq<Step>): Course {
    if steps == [] then Course(State(f, [], 0), f)
    else
      var c := After(layout, f, steps[..|steps| - 1]);
      Next(layout, c, steps[|steps| - 1])
  }

  ghost function Next(layout: Layout, c: Course, step: Step): Course {
    Course(Apply(layout, c.state, step), Left(layout, c.left, c.state, step))
  }

  ghost predicate AllProper(layout: Layout, f: Files, steps: seq<Step>) {
    steps == [] || (
      AllProper(layout, f, steps[..|steps| - 1])
      && Proper(layout, After(layout, f, steps[..|steps| - 1]).state, steps[|steps| - 1]))
  }

  /** The tree staged for `d` is there, and the log is in order. */
  ghost predicate Replaceable(layout: Layout, s: State, d: Path, staged: Path) {
    layout.Valid() && Ordered(layout, s.ops, s.index) && Proper(layout, s, DoReplace(d, staged))
  }

  /** Replaying the log of `t` gives what replaying the log of `s` gives, outside what is removed anyway. */
  ghost predicate GivesBackSame(layout: Layout, s: State, t: State) {
    forall q :: !(layout.Zone() <= q) ==> Look(Undo(t.ops, t.files), q) == Look(Undo(s.ops, s.files), q)
  }

  /** The files after a failure: the log run, then the staging directory removed. */
  function AfterFailure(layout: Layout, s: State): Files {
    var undone := Undo(s.ops, s.files);
    Cut(if layout.tracksExisted then undone else Cut(undone, layout.tracks), layout.staging)
  }

  // ----- the invariant -----

  /** What an operation concerns is no part of the staging directory. */
  predicate Outside(layout: Layout, op: Op) {
    match op
    case Replaced(destination, _) => Apart(destination, layout.staging)
    case Saved(path, _) => Apart(path, layout.staging)
    case DeferredTree(path, _) => Apart(path, layout.staging)
    case DeferredEmptyDir(_) => true
  }

  /** `op` has the backup numbered `k`. */
  predicate HasBackup(layout: Layout, op: Op, k: nat) {
    op.Replaced? && op.backup == Some(layout.Backup(k, op.destination))
  }

  predicate NoBackup(op: Op) {
    op.Replaced? ==> op.backup.None?
  }

  /** The backups in the log have numbers up to `n`, later ones higher. */
  ghost predicate Ordered(layout: Layout, ops: seq<Op>, n: nat)
    decreases |ops|
  {
    ops == [] || (
      var op, rest := ops[|ops| - 1], ops[..|ops| - 1];
      Outside(layout, op)
      && ((NoBackup(op) && Ordered(layout, rest, n))
          || exists k: nat :: k < n && HasBackup(layout, op, k + 1) && Ordered(layout, rest, k)))
  }

  /** `q` lies in the backup numbered `k`. */
  predicate InBackup(layout: Layout, q: Path, k: nat) {
    layout.BackupRoot() < q && q[|layout.staging| + 1].Numbered? && q[|layout.staging| + 1].index == k
  }

  /** `f` and `g` hold the same outside the zone and in the backups up to `n`. */
  ghost predicate Agree(layout: Layout, f: Files, g: Files, n: nat) {
    && (forall q :: !(layout.Zone() <= q) ==> Look(f, q) == Look(g, q))
    && (forall q, k: nat :: k <= n && InBackup(layout, q, k) ==> Look(f, q) == Look(g, q))
  }

  // ----- paths -----

  lemma Comparable(p: Path, q: Path, r: Path)
    requires p <= r && q <= r
    ensures !Apart(p, q)
  {
    if |p| <= |q| {
      assert p == q[..|p|] by { assert r[..|p|] == p && r[..|q|] == q; }
    } else {
      assert q == p[..|q|] by { assert r[..|p|] == p && r[..|q|] == q; }
    }
  }

  lemma InStaging(layout: Layout, k: nat, destination: Path, rest: Path)
    requires layout.Valid()
    ensures var q := layout.Backup(k, destination) + rest;
      InBackup(layout, q, k) && layout.staging <= q && layout.BackupRoot() <= q
      && layout.tracks <= q && layout.Zone() <= q
  {
  }

  lemma BackupHolds(layout: Layout, k: nat, destination: Path, q: Path)
    requires layout.Valid() && layout.Backup(k, destination) <= q
    ensures InBackup(layout, q, k) && layout.staging <= q && layout.Zone() <= q
  {
    InStaging(layout, k, destination, q[|layout.Backup(k, destination)|..]);
    assert q == layout.Backup(k, destination) + q[|layout.Backup(k, destination)|..];
  }

  lemma BackupInZone(layout: Layout, k: nat, destination: Path, q: Path)
    requires layout.Valid()
    ensures layout.Backup(k, destination) <= q ==> layout.Zone() <= q
  {
    if layout.Backup(k, destination) <= q { BackupHolds(layout, k, destination, q); }
  }

  lemma OtherBackup(layout: Layout, k: nat, j: nat, destination: Path, q: Path)
    requires layout.Valid() && InBackup(layout, q, j) && j != k
    ensures !(layout.Backup(k, destination) <= q)
  {
    if layout.Backup(k, destination) <= q { BackupHolds(layout, k, destination, q); }
  }

  lemma BackupApart(layout: Layout, k: nat, destination: Path, p: Path)
    requires layout.Valid() && Apart(p, layout.staging)
    ensures Apart(p, layout.Backup(k, destination))
  {
    var b := layout.Backup(k, destination);
    assert layout.staging <= b;
    if p <= b { Comparable(p, layout.staging, b); }
  }

  // ----- one undo -----

  lemma LookUndoReplaced(f: Files, d: Path, b: Path, q: Path)
    requires Apart(d, b)
    ensures Look(UndoOne(Replaced(d, Some(b)), f), q) ==
      if d <= q then Look(f, b + q[|d|..]) else if b <= q then None else Look(f, q)
  {
    hide Rename;
    var g := Cut(f, d);
    LookCut(f, d, q);
    if d <= q {
      var r := b + q[|d|..];
      LookCut(f, d, r);
      if d <= r { Comparable(d, b, r); }
      assert b <= r;
    }
    LookRename(g, b, d, q);
  }

  /** What undoing an operation without a backup leaves at `q`. */
  function Restored(op: Op, was: Option<string>, q: Path): Option<string> {
    match op
    case Replaced(destination, _) => if destination <= q then None else was
    case Saved(path, data) => if path == q then data else was
    case DeferredTree(path, existed) => if !existed && path <= q then None else was
    case DeferredEmptyDir(_) => was
  }

  lemma LookUndoPlain(op: Op, f: Files, q: Path)
    requires NoBackup(op)
    ensures Look(UndoOne(op, f), q) == Restored(op, Look(f, q), q)
  {
  }

  /** Undoing one operation keeps agreement, on backups below its own. */
  lemma UndoOneAgrees(layout: Layout, op: Op, f: Files, g: Files, n: nat)
    requires NoBackup(op) && Agree(layout, f, g, n)
    ensures Agree(layout, UndoOne(op, f), UndoOne(op, g), n)
  {
    hide UndoOne, Look, InBackup, Restored, NoBackup;
    forall q ensures Look(UndoOne(op, f), q) == Restored(op, Look(f, q), q)
      && Look(UndoOne(op, g), q) == Restored(op, Look(g, q), q)
    {
      LookUndoPlain(op, f, q);
      LookUndoPlain(op, g, q);
    }
  }

  lemma UndoReplacedAgrees(layout: Layout, op: Op, f: Files, g: Files, n: nat, k: nat)
    requires layout.Valid() && Outside(layout, op) && k < n && HasBackup(layout, op, k + 1) && Agree(layout, f, g, n)
    ensures Agree(layout, UndoOne(op, f), UndoOne(op, g), k)
  {
    hide UndoOne, Look;
    var d, b := op.destination, op.backup.value;
    BackupApart(layout, k + 1, d, d);
    forall q | !(layout.Zone() <= q) ensures Look(UndoOne(op, f), q) == Look(UndoOne(op, g), q) {
      LookUndoReplaced(f, d, b, q);
      LookUndoReplaced(g, d, b, q);
      if d <= q { InStaging(layout, k + 1, d, q[|d|..]); }
    }
    forall q, j: nat | j <= k && InBackup(layout, q, j) ensures Look(UndoOne(op, f), q) == Look(UndoOne(op, g), q) {
      LookUndoReplaced(f, d, b, q);
      LookUndoReplaced(g, d, b, q);
      assert layout.staging <= q;
      if d <= q { Comparable(d, layout.staging, q); }
      OtherBackup(layout, k + 1, j, d, q);
    }
  }

  /** Replaying a log keeps agreement outside the zone. */
  lemma {:induction false} UndoAgrees(layout: Layout, ops: seq<Op>, f: Files, g: Files, n: nat)
    requires layout.Valid() && Ordered(layout, ops, n) && Agree(layout, f, g, n)
    ensures Agree(layout, Undo(ops, f), Undo(ops, g), 0)
    decreases |ops|
  {
    hide UndoOne, Agree;
    if ops == [] {
      AgreeLess(layout, f, g, n, 0);
    } else {
      var op, rest := ops[|ops| - 1], ops[..|ops| - 1];
      if NoBackup(op) && Ordered(layout, rest, n) {
        UndoOneAgrees(layout, op, f, g, n);
        UndoAgrees(layout, rest, UndoOne(op, f), UndoOne(op, g), n);
      } else {
        var k: nat :| k < n && HasBackup(layout, op, k + 1) && Ordered(layout, rest, k);
        UndoReplacedAgrees(layout, op, f, g, n, k);
        UndoAgrees(layout, rest, UndoOne(op, f), UndoOne(op, g), k);
      }
    }
  }

  lemma AgreeLess(layout: Layout, f: Files, g: Files, n: nat, m: nat)
    requires Agree(layout, f, g, n) && m <= n
    ensures Agree(layout, f, g, m)
  {
  }

  // ----- each step is taken back -----

  /** Undoing a replacement at once gives the files before it. */
  lemma ReplaceUndone(layout: Layout, s: State, d: Path, staged: Path)
    requires layout.Valid() && Proper(layout, s, DoReplace(d, staged))
    ensures var t := Replace(layout, s, d, staged);
      Agree(layout, UndoOne(t.ops[|t.ops| - 1], t.files), s.files, s.index)
  {
    hide Rename, UndoOne, Look, Cut, Exists;
    var f, b := s.files, layout.Backup(s.index + 1, d);
    var t := Replace(layout, s, d, staged);
    BackupApart(layout, s.index + 1, d, d);
    forall q ensures Look(UndoOne(t.ops[|t.ops| - 1], t.files), q) ==
      (if d <= q then Look(f, q) else if staged <= q || (Exists(f, d) && b <= q) then None else Look(f, q))
    {
      if Exists(f, d) {
        ReplaceLooks(f, d, b, staged, q, layout);
      } else {
        FirstLooks(f, d, staged, q);
      }
    }
    forall q | !(layout.Zone() <= q) ensures Look(UndoOne(t.ops[|t.ops| - 1], t.files), q) == Look(f, q) {
      BackupInZone(layout, s.index + 1, d, q);
    }
    forall q, k: nat | k <= s.index && InBackup(layout, q, k)
      ensures Look(UndoOne(t.ops[|t.ops| - 1], t.files), q) == Look(f, q)
    {
      if staged <= q { Comparable(staged, layout.BackupRoot(), q); }
      OtherBackup(layout, s.index + 1, k, d, q);
    }
  }

  lemma FirstLooks(f: Files, d: Path, staged: Path, q: Path)
    requires !Exists(f, d)
    ensures Look(UndoOne(Replaced(d, None), Rename(f, staged, d)), q) ==
      if d <= q then Look(f, q) else if staged <= q then None else Look(f, q)
  {
    hide Rename;
    LookCut(Rename(f, staged, d), d, q);
    LookRename(f, staged, d, q);
  }

  lemma ReplaceLooks(f: Files, d: Path, b: Path, staged: Path, q: Path, layout: Layout)
    requires Apart(d, b) && Apart(staged, layout.BackupRoot()) && layout.BackupRoot() <= b
    ensures Look(UndoOne(Replaced(d, Some(b)), Rename(Rename(f, d, b), staged, d)), q) ==
      if d <= q then Look(f, q) else if staged <= q || b <= q then None else Look(f, q)
  {
    hide Rename, UndoOne, Look, Cut;
    var g := Rename(f, d, b);
    var h := Rename(g, staged, d);
    LookUndoReplaced(h, d, b, q);
    if d <= q {
      var r := b + q[|d|..];
      assert b <= r && layout.BackupRoot() <= r;
      LookRename(g, staged, d, r);
      if d <= r { Comparable(d, b, r); }
      if staged <= r { Comparable(staged, layout.BackupRoot(), r); }
      LookRename(f, d, b, r);
      assert d + r[|b|..] == q;
    } else {
      LookRename(g, staged, d, q);
      LookRename(f, d, b, q);
    }
  }

  lemma SaveUndone(f: Files, p: Path)
    ensures UndoOne(Saved(p, Look(f, p)), f) == f
  {
  }

  lemma DeferUndone(f: Files, p: Path, existed: bool)
    requires Exists(f, p) ==> existed
    ensures UndoOne(DeferredTree(p, existed), f) == f
  {
    if !existed {
      assert Cut(f, p) == f;
    }
  }

  // ----- writes -----

  lemma LookEqual(f: Files, g: Files)
    requires forall q :: Look(f, q) == Look(g, q)
    ensures f == g
  {
    forall q ensures q in f <==> q in g {
      assert Look(f, q) == Look(g, q);
    }
    forall q | q in f ensures f[q] == g[q] {
      assert Look(f, q) == Look(g, q);
    }
  }

  predicate Known(layout: Layout, op: Op, k: nat) {
    NoBackup(op) || HasBackup(layout, op, k)
  }

  /** What is written where an operation's undo removes or overwrites does not matter to that undo; what is
      written elsewhere survives it. */
  lemma WriteThenUndo(layout: Layout, op: Op, k: nat, f: Files, p: Path, v: Option<string>)
    requires layout.Valid() && Outside(layout, op) && Known(layout, op, k) && !(layout.BackupRoot() <= p)
    ensures UndoOne(op, Set(f, p, v)) == if Covers(op, p) then UndoOne(op, f) else Set(UndoOne(op, f), p, v)
  {
    hide UndoOne, Look, Restored, Set;
    var g, u, w := Set(f, p, v), UndoOne(op, f), UndoOne(op, Set(f, p, v));
    forall q
      ensures Look(g, q) == if q == p then v else Look(f, q)
      ensures Look(Set(u, p, v), q) == if q == p then v else Look(u, q)
    {
      LookSet(f, p, v, q);
      LookSet(u, p, v, q);
    }
    if NoBackup(op) {
      forall q ensures Look(w, q) == if q == p && !Covers(op, p) then v else Look(u, q) {
        LookUndoPlain(op, f, q);
        LookUndoPlain(op, g, q);
        RestoredCovers(op, Look(f, q), Look(g, q), p, q);
      }
    } else {
      var d, b := op.destination, op.backup.value;
      BackupApart(layout, k, d, d);
      assert layout.BackupRoot() <= b;
      forall q ensures Look(w, q) == if q == p && !Covers(op, p) then v else Look(u, q) {
        LookUndoReplaced(f, d, b, q);
        LookUndoReplaced(g, d, b, q);
        if d <= q { InStaging(layout, k, d, q[|d|..]); }
        if b <= q { BackupHolds(layout, k, d, q); }
      }
    }
    if Covers(op, p) { LookEqual(w, u); } else { LookEqual(w, Set(u, p, v)); }
  }

  lemma LookSet(f: Files, p: Path, v: Option<string>, q: Path)
    ensures Look(Set(f, p, v), q) == if q == p then v else Look(f, q)
  {
  }

  lemma RestoredCovers(op: Op, a: Option<string>, b: Option<string>, p: Path, q: Path)
    requires NoBackup(op) && (q != p ==> a == b)
    ensures q == p && !Covers(op, p) ==> Restored(op, b, q) == b
    ensures q != p || Covers(op, p) ==> Restored(op, a, q) == Restored(op, b, q)
  {
  }

  /** Over a whole log: a covered write is undone, any other stays. */
  lemma {:induction false} WriteThenUndoAll(layout: Layout, ops: seq<Op>, n: nat, f: Files, p: Path, v: Option<string>)
    requires layout.Valid() && Ordered(layout, ops, n) && !(layout.BackupRoot() <= p)
    ensures Undo(ops, Set(f, p, v)) == if Covered(ops, p) then Undo(ops, f) else Set(Undo(ops, f), p, v)
    decreases |ops|
  {
    hide UndoOne, Covers, Set;
    if ops != [] {
      var op, rest := ops[|ops| - 1], ops[..|ops| - 1];
      assert ops == rest + [op];
      assert Covered(ops, p) <==> Covered(rest, p) || Covers(op, p);
      if NoBackup(op) && Ordered(layout, rest, n) {
        WriteThenUndo(layout, op, 0, f, p, v);
        WriteThenUndoAll(layout, rest, n, UndoOne(op, f), p, v);
      } else {
        var k: nat :| k < n && HasBackup(layout, op, k + 1) && Ordered(layout, rest, k);
        WriteThenUndo(layout, op, k + 1, f, p, v);
        WriteThenUndoAll(layout, rest, k, UndoOne(op, f), p, v);
      }
    }
  }

  lemma SaveGivesBack(ops: seq<Op>, f: Files, path: Path)
    ensures forall data :: Undo(ops + [Saved(path, Look(f, path))], Set(f, path, data)) == Undo(ops, f)
    ensures Undo(ops + [Saved(path, Look(f, path))], f) == Undo(ops, f)
  {
    hide Undo;
    var op := Saved(path, Look(f, path));
    forall data ensures Undo(ops + [op], Set(f, path, data)) == Undo(ops, f) {
      Logged(ops, op, Set(f, path, data));
      assert UndoOne(op, Set(f, path, data)) == f;
    }
    Logged(ops, op, f);
    SaveUndone(f, path);
  }

  lemma DeferGivesBack(ops: seq<Op>, f: Files, path: Path, existed: bool)
    requires Exists(f, path) ==> existed
    ensures var op := DeferredTree(path, existed);
      && Undo(ops + [op], f) == Undo(ops, f)
      && (!existed ==> forall q, data :: path <= q ==> Undo(ops + [op], Set(f, q, data)) == Undo(ops, f))
      && (existed ==> forall g :: Undo(ops + [op], g) == Undo(ops, g))
  {
    hide Undo;
    var op := DeferredTree(path, existed);
    forall g ensures Undo(ops + [op], g) == Undo(ops, UndoOne(op, g)) {
      Logged(ops, op, g);
    }
    DeferUndone(f, path, existed);
    if !existed {
      forall q, data | path <= q ensures Cut(Set(f, q, data), path) == f {
      }
    }
  }

  lemma ReplaceGivesBack(layout: Layout, s: State, d: Path, staged: Path)
    requires Replaceable(layout, s, d, staged)
    ensures GivesBackSame(layout, s, Replace(layout, s, d, staged))
  {
    hide Ordered, Rename, UndoOne, Look, Exists, Undo;
    var t := Replace(layout, s, d, staged);
    var op := t.ops[|t.ops| - 1];
    ReplaceUndone(layout, s, d, staged);
    UndoAgrees(layout, s.ops, UndoOne(op, t.files), s.files, s.index);
    Logged(s.ops, op, t.files);
  }

  // ----- whole installations -----

  /** No backup has a number above `n`. */
  ghost predicate FreeAbove(layout: Layout, f: Files, n: nat) {
    forall q, k: nat :: k > n && InBackup(layout, q, k) ==> Look(f, q) == None
  }

  /** Replaying the log would give back `before` outside the zone. */
  ghost predicate Undoable(layout: Layout, before: Files, s: State) {
    && Ordered(layout, s.ops, s.index)
    && FreeAbove(layout, s.files, s.index)
    && forall q :: !(layout.Zone() <= q) ==> Look(Undo(s.ops, s.files), q) == Look(before, q)
  }

  lemma Logged(ops: seq<Op>, op: Op, f: Files)
    ensures Undo(ops + [op], f) == Undo(ops, UndoOne(op, f))
  {
    hide UndoOne;
    assert (ops + [op])[..|ops|] == ops;
  }

  lemma LoggedOrdered(layout: Layout, ops: seq<Op>, op: Op, n: nat)
    requires Ordered(layout, ops, n) && Outside(layout, op)
    ensures NoBackup(op) ==> Ordered(layout, ops + [op], n)
    ensures HasBackup(layout, op, n + 1) ==> Ordered(layout, ops + [op], n + 1)
  {
    hide Outside, NoBackup, HasBackup;
    assert (ops + [op])[..|ops|] == ops && (ops + [op])[|ops|] == op;
  }

  lemma ReplaceFree(layout: Layout, s: State, d: Path, staged: Path)
    requires layout.Valid() && Proper(layout, s, DoReplace(d, staged)) && FreeAbove(layout, s.files, s.index)
    ensures var t := Replace(layout, s, d, staged); FreeAbove(layout, t.files, t.index)
  {
    hide Rename, Look, Exists;
    var t, b := Replace(layout, s, d, staged), layout.Backup(s.index + 1, d);
    forall q, k: nat | k > t.index && InBackup(layout, q, k) ensures Look(t.files, q) == None {
      if d <= q { Comparable(d, layout.staging, q); }
      var g := Rename(s.files, d, b);
      LookRename(g, staged, d, q);
      LookRename(s.files, staged, d, q);
      LookRename(s.files, d, b, q);
      if Exists(s.files, d) { OtherBackup(layout, s.index + 1, k, d, q); }
    }
  }

  lemma ReplaceKeeps(layout: Layout, before: Files, s: State, d: Path, staged: Path)
    requires layout.Valid() && Undoable(layout, before, s) && Proper(layout, s, DoReplace(d, staged))
    ensures Undoable(layout, before, Replace(layout, s, d, staged))
  {
    hide Ordered, FreeAbove, Rename, UndoOne, Look, Exists, Undo;
    var t := Replace(layout, s, d, staged);
    var op := t.ops[|t.ops| - 1];
    ReplaceUndone(layout, s, d, staged);
    UndoAgrees(layout, s.ops, UndoOne(op, t.files), s.files, s.index);
    Logged(s.ops, op, t.files);
    LoggedOrdered(layout, s.ops, op, s.index);
    ReplaceFree(layout, s, d, staged);
  }

  /** Logging an operation whose undo changes nothing yet. */
  lemma LogKeeps(layout: Layout, before: Files, s: State, op: Op)
    requires Undoable(layout, before, s) && Outside(layout, op) && NoBackup(op)
    requires UndoOne(op, s.files) == s.files
    ensures Undoable(layout, before, s.(ops := s.ops + [op]))
  {
    hide Ordered, FreeAbove, UndoOne, Look, Undo;
    Logged(s.ops, op, s.files);
    LoggedOrdered(layout, s.ops, op, s.index);
  }

  /** A write that is taken back changes nothing a failure gives back; any other stays. */
  lemma WriteLeaves(layout: Layout, left: Files, s: State, p: Path, v: Option<string>)
    requires layout.Valid() && Undoable(layout, left, s) && !(layout.BackupRoot() <= p)
    ensures Undoable(layout, Stays(layout, left, s, p, v), s.(files := Set(s.files, p, v)))
  {
    hide Ordered, Look, Undo, Covers, Set;
    forall q ensures Look(Set(s.files, p, v), q) == if q == p then v else Look(s.files, q) {
      LookSet(s.files, p, v, q);
    }
    forall q, k: nat | InBackup(layout, q, k) ensures q != p {
      assert layout.BackupRoot() <= q;
    }
    assert FreeAbove(layout, Set(s.files, p, v), s.index);
    if layout.Zone() <= p {
      UndoAgrees(layout, s.ops, Set(s.files, p, v), s.files, s.index);
    } else {
      WriteThenUndoAll(layout, s.ops, s.index, s.files, p, v);
      forall q ensures Look(Set(Undo(s.ops, s.files), p, v), q) == if q == p then v else Look(Undo(s.ops, s.files), q) {
        LookSet(Undo(s.ops, s.files), p, v, q);
      }
      forall q ensures Look(Set(left, p, v), q) == if q == p then v else Look(left, q) {
        LookSet(left, p, v, q);
      }
    }
  }

  lemma SeedLeaves(layout: Layout, left: Files, s: State, p: Path, bytes: string)
    requires layout.Valid() && Undoable(layout, left, s) && Apart(p, layout.staging) && !Exists(s.files, p)
    ensures Undoable(layout, left, Apply(layout, s, Seed(p, bytes)))
  {
    hide Undoable, Undo, UndoOne, Set;
    var op := Saved(p, Look(s.files, p));
    SaveUndone(s.files, p);
    LogKeeps(layout, left, s, op);
    assert op in s.ops + [op] && Covers(op, p);
    assert !(layout.BackupRoot() <= p) by { assert layout.staging <= layout.BackupRoot(); BackupNotAbove(layout, p); }
    WriteLeaves(layout, left, Save(s, p), p, Some(bytes));
  }

  lemma BackupNotAbove(layout: Layout, p: Path)
    requires Apart(p, layout.staging)
    ensures !(layout.BackupRoot() <= p)
  {
    assert layout.staging <= layout.BackupRoot();
    assert layout.BackupRoot() <= p ==> layout.staging <= p;
  }

  lemma MoveLeaves(layout: Layout, left: Files, s: State, a: Path, b: Path)
    requires layout.Valid() && Undoable(layout, left, s) && Proper(layout, s, MoveFile(a, b))
    ensures Undoable(layout, Left(layout, left, s, MoveFile(a, b)), Apply(layout, s, MoveFile(a, b)))
  {
    hide Undoable, Set, Look, Covers;
    var data := Look(s.files, a);
    WriteLeaves(layout, left, s, b, data);
    WriteLeaves(layout, Stays(layout, left, s, b, data), s.(files := Set(s.files, b, data)), a, None);
  }

  /** Every step leads on to what a failure then gives back: the log still gives back what it did, but for
      what was written and is not taken back. */
  lemma StepLeaves(layout: Layout, left: Files, s: State, step: Step)
    requires layout.Valid() && Undoable(layout, left, s) && Proper(layout, s, step)
    ensures Undoable(layout, Left(layout, left, s, step), Apply(layout, s, step))
  {
    hide Undoable, Set, Stays;
    match step {
      case DoReplace(d, staged) => ReplaceKeeps(layout, left, s, d, staged);
      case DoSave(p) =>
        SaveUndone(s.files, p);
        LogKeeps(layout, left, s, Saved(p, Look(s.files, p)));
      case DoDeferTree(p, existed) =>
        DeferUndone(s.files, p, existed);
        LogKeeps(layout, left, s, DeferredTree(p, existed));
      case DoDeferEmptyDir(p) => if !Exists(s.files, p) { LogKeeps(layout, left, s, DeferredEmptyDir(p)); }
      case Write(p, v) => WriteLeaves(layout, left, s, p, v);
      case WriteIfAbsent(p, bytes) => WriteLeaves(layout, left, s, p, Some(bytes));
      case Seed(p, bytes) => if !Exists(s.files, p) { SeedLeaves(layout, left, s, p, bytes); }
      case MoveFile(a, b) => MoveLeaves(layout, left, s, a, b);
    }
  }

  /** What stays lies outside what is removed. */
  lemma LeftOutsideZone(layout: Layout, left: Files, s: State, step: Step)
    requires !Exists(left, layout.Zone())
    ensures !Exists(Left(layout, left, s, step), layout.Zone())
  {
    hide Look;
  }

  lemma {:induction false} StepsLeave(layout: Layout, before: Files, steps: seq<Step>)
    requires layout.Valid() && AllProper(layout, before, steps) && !Exists(before, layout.Zone())
    ensures var c := After(layout, before, steps);
      Undoable(layout, c.left, c.state) && !Exists(c.left, layout.Zone())
  {
    if steps == [] {
      forall q, k: nat | InBackup(layout, q, k) ensures Look(before, q) == None {
        assert layout.Zone() <= q;
      }
    } else {
      hide Undoable, Proper, Apply, Left, Exists;
      var c := After(layout, before, steps[..|steps| - 1]);
      StepsLeave(layout, before, steps[..|steps| - 1]);
      StepLeaves(layout, c.left, c.state, steps[|steps| - 1]);
      LeftOutsideZone(layout, c.left, c.state, steps[|steps| - 1]);
    }
  }

  lemma LookAfterFailure(layout: Layout, s: State, q: Path)
    requires layout.Valid()
    ensures Look(AfterFailure(layout, s), q) == if layout.Zone() <= q then None else Look(Undo(s.ops, s.files), q)
  {
    hide Undo, Cut;
    var u := Undo(s.ops, s.files);
    LookCut(u, layout.staging, q);
    LookCut(u, layout.tracks, q);
    LookCut(Cut(u, layout.tracks), layout.staging, q);
    assert layout.staging <= q ==> layout.tracks <= q;
  }

  /** Exactly what a failure leaves, at whatever step: what was there before, but for what was written and is
      not taken back. */
  lemma FailureLeaves(layout: Layout, before: Files, steps: seq<Step>)
    requires layout.Valid() && AllProper(layout, before, steps) && !Exists(before, layout.Zone())
    ensures var c := After(layout, before, steps); AfterFailure(layout, c.state) == c.left
  {
    hide After, AfterFailure, AllProper, Undo, Undoable, Exists;
    var c := After(layout, before, steps);
    StepsLeave(layout, before, steps);
    UndoableRestores(layout, c.left, c.state);
  }

  lemma UndoableRestores(layout: Layout, before: Files, s: State)
    requires layout.Valid() && Undoable(layout, before, s) && !Exists(before, layout.Zone())
    ensures AfterFailure(layout, s) == before
  {
    hide AfterFailure, Undo, Ordered, FreeAbove;
    forall q ensures Look(AfterFailure(layout, s), q) == Look(before, q) {
      LookAfterFailure(layout, s, q);
    }
    LookEqual(AfterFailure(layout, s), before);
  }

  /** A backup is never renamed onto something that exists. */
  lemma BackupIsFree(layout: Layout, before: Files, s: State, destination: Path)
    requires layout.Valid() && Undoable(layout, before, s)
    ensures !Exists(s.files, layout.Backup(s.index + 1, destination))
  {
    hide Ordered, Undo;
    forall q | layout.Backup(s.index + 1, destination) <= q ensures q !in s.files {
      BackupHolds(layout, s.index + 1, destination, q);
      assert Look(s.files, q) == None;
    }
  }

  // ----- what is not taken back -----

  /** `op` is about nothing at, above or below `d`. */
  predicate Elsewhere(op: Op, d: Path) {
    match op
    case Replaced(destination, _) => Apart(destination, d)
    case Saved(path, _) => Apart(path, d)
    case DeferredTree(path, existed) => existed || Apart(path, d)
    case DeferredEmptyDir(_) => true
  }

  /** `replace_dir` that fails between its renames: the old tree is a backup that nothing refers to. */
  function HalfReplace(layout: Layout, s: State, d: Path): State {
    State(Rename(s.files, d, layout.Backup(s.index + 1, d)), s.ops, s.index + 1)
  }

  lemma CutThenUndo(layout: Layout, op: Op, k: nat, f: Files, d: Path)
    requires layout.Valid() && Outside(layout, op) && Known(layout, op, k) && Apart(d, layout.staging)
    requires Elsewhere(op, d)
    ensures UndoOne(op, Cut(f, d)) == Cut(UndoOne(op, f), d)
  {
    hide UndoOne, Look, Cut;
    var u, w := Cut(UndoOne(op, f), d), UndoOne(op, Cut(f, d));
    forall q ensures Look(w, q) == Look(u, q) {
      LookCut(f, d, q);
      LookCut(UndoOne(op, f), d, q);
      if NoBackup(op) {
        LookUndoPlain(op, f, q);
        LookUndoPlain(op, Cut(f, d), q);
        if d <= q { NotAbove(op, d, q); }
      } else {
        var e, b := op.destination, op.backup.value;
        BackupApart(layout, k, e, e);
        BackupApart(layout, k, e, d);
        LookUndoReplaced(f, e, b, q);
        LookUndoReplaced(Cut(f, d), e, b, q);
        if e <= q {
          var r := b + q[|e|..];
          LookCut(f, d, r);
          if d <= r { assert b <= r; Comparable(d, b, r); }
          if d <= q { Comparable(d, e, q); }
        }
      }
    }
    LookEqual(w, u);
  }

  lemma NotAbove(op: Op, d: Path, q: Path)
    requires NoBackup(op) && Elsewhere(op, d) && d <= q
    ensures Restored(op, None, q) == None && forall was :: Restored(op, was, q) == was
  {
    match op {
      case Replaced(e, _) => if e <= q { Comparable(d, e, q); }
      case Saved(e, _) => if e == q { Comparable(d, e, q); }
      case DeferredTree(e, existed) => if !existed && e <= q { Comparable(d, e, q); }
      case DeferredEmptyDir(_) =>
    }
  }

  lemma {:induction false} CutThenUndoAll(layout: Layout, ops: seq<Op>, n: nat, f: Files, d: Path)
    requires layout.Valid() && Ordered(layout, ops, n) && Apart(d, layout.staging)
    requires forall op :: op in ops ==> Elsewhere(op, d)
    ensures Undo(ops, Cut(f, d)) == Cut(Undo(ops, f), d)
    decreases |ops|
  {
    hide UndoOne, Cut, Elsewhere;
    if ops != [] {
      var op, rest := ops[|ops| - 1], ops[..|ops| - 1];
      if NoBackup(op) && Ordered(layout, rest, n) {
        CutThenUndo(layout, op, 0, f, d);
        CutThenUndoAll(layout, rest, n, UndoOne(op, f), d);
      } else {
        var k: nat :| k < n && HasBackup(layout, op, k + 1) && Ordered(layout, rest, k);
        CutThenUndo(layout, op, k + 1, f, d);
        CutThenUndoAll(layout, rest, k, UndoOne(op, f), d);
      }
    }
  }

  /** A replacement that fails between its two renames loses the whole tree it was to replace. */
  lemma HalfReplaceLoses(layout: Layout, before: Files, s: State, d: Path)
    requires layout.Valid() && Undoable(layout, before, s) && !Exists(before, layout.Zone())
    requires Apart(d, layout.staging) && forall op :: op in s.ops ==> Elsewhere(op, d)
    ensures AfterFailure(layout, HalfReplace(layout, s, d)) == Cut(before, d)
  {
    hide Undo, Ordered, Elsewhere, AfterFailure, Rename, Cut, Look;
    var b, t := layout.Backup(s.index + 1, d), HalfReplace(layout, s, d);
    var cut := Cut(s.files, d);
    forall q ensures Look(t.files, q) == if b <= q then Look(t.files, q) else Look(cut, q) {
      LookRename(s.files, d, b, q);
      LookCut(s.files, d, q);
    }
    HalfAgrees(layout, t.files, cut, s.index, d);
    UndoAgrees(layout, s.ops, t.files, cut, s.index);
    CutThenUndoAll(layout, s.ops, s.index, s.files, d);
    forall q ensures Look(AfterFailure(layout, t), q) == Look(Cut(before, d), q) {
      LookAfterFailure(layout, t, q);
      LookCut(Undo(s.ops, s.files), d, q);
      LookCut(before, d, q);
      if layout.Zone() <= q { Absent(before, layout.Zone(), q); }
    }
    LookEqual(AfterFailure(layout, t), Cut(before, d));
  }

  lemma Absent(f: Files, p: Path, q: Path)
    requires !Exists(f, p) && p <= q
    ensures Look(f, q) == None
  {
  }

  lemma HalfAgrees(layout: Layout, f: Files, g: Files, n: nat, d: Path)
    requires layout.Valid()
    requires forall q :: Look(f, q) == if layout.Backup(n + 1, d) <= q then Look(f, q) else Look(g, q)
    ensures Agree(layout, f, g, n)
  {
    hide Look;
    forall q | !(layout.Zone() <= q) ensures Look(f, q) == Look(g, q) {
      BackupInZone(layout, n + 1, d, q);
    }
    forall q, k: nat | k <= n && InBackup(layout, q, k) ensures Look(f, q) == Look(g, q) {
      OtherBackup(layout, n + 1, k, d, q);
    }
  }
}
