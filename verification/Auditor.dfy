/** The over-reach auditor: a snapshot of what was already modified before an agent ran, and the set of paths
    the run changed. Types and contents are read as the system reads them, through links above the path. */
module Auditor {
  import opened Wrappers
  import opened FileTree
  import opened Turns
  import opened Listing

  function At(m: Leaves, p: Path): Option<Node> {
    if p in m then Some(m[p]) else None
  }

  datatype PathType = IsFile | IsDir | IsLink | Missing

  function TypeOfNode(n: Option<Node>): PathType {
    match n
    case None => Missing
    case Some(File(_)) => IsFile
    case Some(Link(_)) => IsLink
    case Some(Dir) => IsDir
  }

  /** `_path_type`: a link at the path itself is not followed, links above it are. */
  function TypeOf(t: Tree, out: Elsewhere, p: Path): PathType {
    TypeOfNode(Probe(t, out, p))
  }

  /** `git status`: paths on which HEAD, the index and the working tree do not agree. */
  predicate Differs(head: Leaves, index: Leaves, work: Tree, p: Path) {
    !(At(head, p) == At(index, p) == Leaf(work, p))
  }

  function Modified(head: Leaves, index: Leaves, work: Tree): set<Path> {
    set p | p in head.Keys + index.Keys + work.Keys && Differs(head, index, work, p)
  }

  lemma ModifiedIff(head: Leaves, index: Leaves, work: Tree, p: Path)
    ensures p in Modified(head, index, work) <==> Differs(head, index, work, p)
  {
  }

  /** What `baseline` records of the modified paths. */
  datatype Snapshot = Snapshot(types: map<Path, PathType>, contents: map<Path, string>, links: map<Path, string>)

  ghost predicate Records(s: Snapshot, paths: set<Path>, work: Tree, out: Elsewhere) {
    && s.types.Keys == paths && s.contents.Keys <= paths && s.links.Keys <= paths
    && forall p :: p in paths ==> RecordsAt(s, work, out, p)
  }

  ghost predicate RecordsAt(s: Snapshot, work: Tree, out: Elsewhere, p: Path)
    requires p in s.types
  {
    && s.types[p] == TypeOf(work, out, p)
    && (p in s.contents <==> Probe(work, out, p).Some? && Probe(work, out, p).value.File?)
    && (p in s.contents ==> Probe(work, out, p) == Some(File(s.contents[p])))
    && (p in s.links <==> Probe(work, out, p).Some? && Probe(work, out, p).value.Link?)
    && (p in s.links ==> Probe(work, out, p) == Some(Link(s.links[p])))
  }

  /** The snapshot with one more path recorded. */
  function Note(s: Snapshot, work: Tree, out: Elsewhere, p: Path): Snapshot {
    var n := Probe(work, out, p);
    Snapshot(s.types[p := TypeOfNode(n)],
             if n.Some? && n.value.File? then s.contents[p := n.value.bytes] else s.contents,
             if n.Some? && n.value.Link? then s.links[p := n.value.target] else s.links)
  }

  lemma NoteRecords(s: Snapshot, paths: set<Path>, work: Tree, out: Elsewhere, p: Path)
    requires Records(s, paths, work, out) && p !in paths
    ensures Records(Note(s, work, out, p), paths + {p}, work, out)
  {
    hide Probe;
    var u := Note(s, work, out, p);
    forall q | q in paths + {p} ensures RecordsAt(u, work, out, q) {
      assert q in paths ==> RecordsAt(s, work, out, q);
    }
  }

  /** The recorded node of a path, which the restore phase writes back. */
  function Recorded(s: Snapshot, p: Path): Option<Node> {
    if p in s.links then Some(Link(s.links[p]))
    else if p in s.contents then Some(File(s.contents[p]))
    else None
  }

  function RecordedLeaves(s: Snapshot): Leaves {
    map p | p in s.links.Keys + s.contents.Keys :: Recorded(s, p).value
  }

  /** A baseline path has changed: in type, link text or content. */
  predicate Drifted(s: Snapshot, work: Tree, out: Elsewhere, p: Path)
    requires p in s.types
  {
    var n := Probe(work, out, p);
    || TypeOfNode(n) != s.types[p]
    || (TypeOfNode(n) == IsLink && (p !in s.links || n != Some(Link(s.links[p]))))
    || (TypeOfNode(n) == IsFile && p in s.contents && n != Some(File(s.contents[p])))
  }

  function Changed(head: Leaves, index: Leaves, work: Tree, s: Snapshot, out: Elsewhere): set<Path> {
    (Modified(head, index, work) - s.types.Keys) + set p | p in s.types && Drifted(s, work, out, p)
  }

  // ----- one path of a rollback -----

  function RemoveOne(t: Tree, p: Path): Tree {
    if Blocked(t, p) || p !in t then t else Cut(t, p)
  }

  /** The working tree and the index in the middle of a restore phase. */
  datatype Back = Back(tree: Tree, index: Leaves, raised: bool)

  /** `_restore_one`; `names` are the lines that git listed for HEAD and the index before the rollback. A checkout
      of a path that HEAD, or the index, does not hold fails and changes nothing. */
  function RestoreOne(b: Back, p: Path, s: Snapshot, head: Leaves, names: Names): Back
    requires p != []
  {
    var parent := p[..|p| - 1];
    if b.raised || Blocked(b.tree, p) then b
    else match Recorded(s, p)
      case Some(n) =>
        if Obstructed(b.tree, p) then b.(raised := true)
        else b.(tree := Prune(Put(b.tree, p, n), p, |p| - 1, names.all))
      case None =>
        if PathText(p) !in names.all then b.(tree := Prune(b.tree, p, |p| - 1, names.all))
        else if parent in b.tree && b.tree[parent] != Dir then b
        else if PathText(p) in names.head then
          if p in head then Back(Checkout(b.tree, p, head[p]), Stage(b.index, p, head[p]), false) else b
        else if p in b.index then b.(tree := Checkout(b.tree, p, b.index[p]))
        else b
  }

  // ----- a run of the agent -----

  /** The pre-dispatch state and the state the agent left, each with what stands outside; HEAD is the same. */
  datatype Run = Run(head: Leaves, index0: Leaves, work0: Tree, out0: Elsewhere,
                     index: Leaves, work: Tree, out: Elsewhere, s: Snapshot)

  ghost predicate ValidRun(r: Run) {
    && WellFormed(r.work0) && WellFormed(r.work)
    && TreeLike(r.head) && TreeLike(r.index0) && TreeLike(r.index) && AllNamed(r.head) && AllNamed(r.index)
    && Records(r.s, Modified(r.head, r.index0, r.work0), r.work0, r.out0)
  }

  function ChangedBy(r: Run): set<Path> {
    Changed(r.head, r.index, r.work, r.s, r.out)
  }

  /** A recorded path whose file or link is gone, with a link above it through which the same is read. */
  predicate Hidden(r: Run, p: Path) {
    && p in r.s.types && Probe(r.work, r.out, p) == Probe(r.work0, r.out0, p)
    && Leaf(r.work0, p).Some? && Blocked(r.work, p)
  }

  /** A recorded path that was read through a link, and where the same now stands without one. */
  predicate Planted(r: Run, p: Path) {
    && p in r.s.types && Probe(r.work, r.out, p) == Probe(r.work0, r.out0, p)
    && Leaf(r.work, p).Some? && Blocked(r.work0, p)
  }

  /** An entry has nothing but directories above it, so it is found directly. */
  lemma ProbeEntry(t: Tree, out: Elsewhere, p: Path)
    requires WellFormed(t)
    ensures p in t ==> Probe(t, out, p) == Some(t[p])
    ensures !Blocked(t, p) && p !in t ==> Probe(t, out, p) == None
  {
    if p in t { PresentNotBlocked(t, p); }
  }

  /** A recorded path reads the same as before exactly if it has not drifted. */
  lemma DriftedIff(r: Run, p: Path)
    requires ValidRun(r) && p in r.s.types
    ensures !Drifted(r.s, r.work, r.out, p) <==> Probe(r.work, r.out, p) == Probe(r.work0, r.out0, p)
  {
    hide Probe, Modified, TreeLike;
    assert RecordsAt(r.s, r.work0, r.out0, p);
  }

  /** Exactly which changes the changed set misses: those of recorded paths that read the same because a link
      above them came, or went. */
  lemma ChangedCovers(r: Run, p: Path)
    requires ValidRun(r) && Leaf(r.work, p) != Leaf(r.work0, p)
    ensures p in ChangedBy(r) <==> !Hidden(r, p) && !Planted(r, p)
  {
    hide Probe, Blocked, Modified, Drifted, Records, TreeLike;
    ModifiedIff(r.head, r.index0, r.work0, p);
    ModifiedIff(r.head, r.index, r.work, p);
    RecordedKeys(r);
    ProbeEntry(r.work, r.out, p);
    ProbeEntry(r.work0, r.out0, p);
    if p in r.s.types { DriftedIff(r, p); }
  }

  /** Exactly what is in the changed set. A path on which HEAD, the index and the tree did not agree before the run
      is in it when it reads differently, in type, content or link text; any other one when its file or link, or its
      index entry, is another. */
  lemma ChangedExactly(r: Run, p: Path)
    requires ValidRun(r)
    ensures p in ChangedBy(r) <==>
      if At(r.head, p) == At(r.index0, p) == Leaf(r.work0, p)
      then Leaf(r.work, p) != Leaf(r.work0, p) || At(r.index, p) != At(r.index0, p)
      else Probe(r.work, r.out, p) != Probe(r.work0, r.out0, p)
  {
    hide Probe, Drifted, Records, TreeLike;
    RecordedKeys(r);
    ModifiedIff(r.head, r.index0, r.work0, p);
    ModifiedIff(r.head, r.index, r.work, p);
    if p in r.s.types { DriftedIff(r, p); }
  }

  lemma RecordedKeys(r: Run)
    requires ValidRun(r)
    ensures r.s.types.Keys == Modified(r.head, r.index0, r.work0)
  {
  }
}
