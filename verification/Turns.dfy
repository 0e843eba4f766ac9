/** The restore phase of a rollback, path by path from the shallowest on, as it acts on files and links alone:
    when it raises, and when it ends where it should. */
module Turns {
  import opened Wrappers
  import opened FileTree

  /** The lines of `git ls-tree HEAD`, and those together with the lines of `git ls-files`. */
  datatype Names = Names(head: set<string>, all: set<string>)

  /** What a rollback writes back: recorded nodes, and what HEAD has under a name that is listed. */
  datatype Plan = Plan(recorded: Leaves, head: Leaves, names: Names)

  /** What stands, what the index holds, and whether an exception ended the phase. */
  datatype Scene = Scene(standing: Leaves, index: Leaves, raised: bool)

  predicate LinkAbove(l: Leaves, p: Path) {
    exists a :: a in l && a < p && l[a].Link?
  }

  predicate LeafAbove(l: Leaves, p: Path) {
    exists a :: a in l && a < p
  }

  predicate LeafAsParent(l: Leaves, p: Path) {
    |p| > 1 && p[..|p| - 1] in l
  }

  /** A checkout of `p` is tried, and from the index: the name is listed, but not by HEAD. */
  predicate Indexable(plan: Plan, p: Path) {
    PathText(p) in plan.names.all && PathText(p) !in plan.names.head
  }

  /** What the turn of `p` puts there. */
  function Puts(plan: Plan, c: Scene, p: Path): Option<Node> {
    if c.raised || LinkAbove(c.standing, p) then None
    else if p in plan.recorded then if LeafAbove(c.standing, p) then None else Some(plan.recorded[p])
    else if LeafAsParent(c.standing, p) then None
    else if p in plan.head then Some(plan.head[p])
    else if p in c.index && Indexable(plan, p) then Some(c.index[p])
    else None
  }

  /** A recorded node cannot be written below a file. */
  predicate Raises(plan: Plan, c: Scene, p: Path) {
    !c.raised && !LinkAbove(c.standing, p) && p in plan.recorded && LeafAbove(c.standing, p)
  }

  /** A checkout removes the files above its path. */
  function Over(l: Leaves, p: Path, n: Node): Leaves {
    (map q | q in l && !(q < p) :: l[q])[p := n]
  }

  /** A checkout from HEAD stages the path, and the index drops what lies above and below it. */
  function Stage(index: Leaves, p: Path, n: Node): Leaves {
    (map q | q in index && !(q < p) && !(p < q) :: index[q])[p := n]
  }

  function Turn(plan: Plan, c: Scene, p: Path): Scene {
    match Puts(plan, c, p)
    case None => c.(raised := c.raised || Raises(plan, c, p))
    case Some(n) =>
      Scene(Over(c.standing, p, n),
            if p !in plan.recorded && p in plan.head then Stage(c.index, p, n) else c.index, false)
  }

  /** The scene after the first `i` turns. */
  function After(plan: Plan, c: Scene, ps: seq<Path>, i: nat): Scene
    requires i <= |ps|
  {
    if i == 0 then c else Turn(plan, After(plan, c, ps, i - 1), ps[i - 1])
  }

  /** The paths of `over`, shallowest first. */
  ghost predicate ShallowFirst(ps: seq<Path>, over: set<Path>) {
    && (forall p :: p in ps <==> p in over)
    && (forall i, j :: 0 <= i < j < |ps| ==> |ps[i]| <= |ps[j]| && ps[i] != ps[j])
  }

  /** No directories, no root. */
  ghost predicate NoDirs(l: Leaves) {
    forall p :: p in l ==> p != [] && l[p] != Dir
  }

  /** Files and links, none below another. */
  ghost predicate TreeLike(l: Leaves) {
    NoDirs(l) && forall p, q :: p in l && q in l ==> !(p < q)
  }

  /** What the removal phase leaves. */
  function Without(l: Leaves, over: set<Path>): Leaves {
    map q | q in l && !(exists p :: p in over && p <= q) :: l[q]
  }

  /** A rollback about to restore. */
  ghost predicate Ready(plan: Plan, c: Scene, ps: seq<Path>, over: set<Path>) {
    && ShallowFirst(ps, over) && !c.raised
    && TreeLike(c.standing) && TreeLike(c.index) && TreeLike(plan.head) && NoDirs(plan.recorded)
    && forall p, q :: p in over && q in c.standing ==> !(p <= q)
  }

  // ----- one turn -----

  lemma PrefixTotal(p: Path, q: Path, r: Path)
    requires p <= r && q <= r
    ensures p < q || p == q || q < p
  {
    assert p == r[..|p|] && q == r[..|q|];
    if |p| < |q| {
      assert p == q[..|p|];
    } else if |q| < |p| {
      assert q == p[..|q|];
    }
  }

  lemma PrefixTrans(p: Path, q: Path, r: Path)
    requires p <= q && q <= r
    ensures p <= r && (p < q || q < r ==> p < r)
  {
  }

  /** What a turn changes. */
  lemma TurnLooks(plan: Plan, c: Scene, p: Path, q: Path)
    ensures var d, n := Turn(plan, c, p), Puts(plan, c, p);
      && (n.None? ==> (q in d.standing <==> q in c.standing))
      && (n.Some? && q != p ==> (q in d.standing <==> q in c.standing && !(q < p)))
      && (q in d.standing && q != p ==> q in c.standing && d.standing[q] == c.standing[q])
      && (n.Some? ==> p in d.standing && d.standing[p] == n.value)
      && (n.None? && q in d.standing ==> q in c.standing && d.standing[q] == c.standing[q])
  {
    hide Puts, Raises;
  }

  lemma PutsNode(plan: Plan, c: Scene, p: Path)
    requires NoDirs(c.index) && NoDirs(plan.head) && NoDirs(plan.recorded)
    ensures Puts(plan, c, p).Some? ==> p != [] && Puts(plan, c, p).value != Dir
  {
  }

  lemma TurnTreeLike(plan: Plan, c: Scene, p: Path)
    requires TreeLike(c.standing) && forall q :: q in c.standing ==> !(p <= q)
    requires NoDirs(c.index) && NoDirs(plan.head) && NoDirs(plan.recorded)
    ensures TreeLike(Turn(plan, c, p).standing) && NoDirs(Turn(plan, c, p).index)
  {
    hide Puts, Raises;
    PutsNode(plan, c, p);
  }

  lemma SameLength(p: Path, q: Path)
    requires |q| <= |p| && p != q
    ensures !(p <= q)
  {
  }

  /** Nothing stands at or below the paths still to come. */
  ghost predicate Ahead(l: Leaves, ps: seq<Path>, i: nat) {
    forall j, q :: i <= j < |ps| && q in l ==> !(ps[j] <= q)
  }

  /** Turns keep the scene a tree, and leave the paths still to come, and what lies below them, absent. */
  lemma {:induction false} AfterShape(plan: Plan, c: Scene, ps: seq<Path>, over: set<Path>, i: nat)
    requires Ready(plan, c, ps, over) && i <= |ps|
    ensures TreeLike(After(plan, c, ps, i).standing) && NoDirs(After(plan, c, ps, i).index)
    ensures Ahead(After(plan, c, ps, i).standing, ps, i)
  {
    hide Turn;
    if i == 0 {
      forall j, q | 0 <= j < |ps| && q in c.standing ensures !(ps[j] <= q) {
        assert ps[j] in ps;
      }
    } else {
      AfterShape(plan, c, ps, over, i - 1);
      var d, p := After(plan, c, ps, i - 1), ps[i - 1];
      assert forall q :: q in d.standing ==> !(p <= q);
      TurnTreeLike(plan, d, p);
      forall j, q | i <= j < |ps| && q in After(plan, c, ps, i).standing ensures !(ps[j] <= q) {
        TurnLooks(plan, d, p, q);
        assert |p| <= |ps[j]| && p != ps[j];
        if q == p { SameLength(ps[j], q); }
      }
    }
  }

  // ----- when the phase raises -----

  /** The turn at `m` is a checkout that puts something. */
  predicate Checks(plan: Plan, c: Scene, ps: seq<Path>, m: nat)
    requires m < |ps|
  {
    ps[m] !in plan.recorded && Puts(plan, After(plan, c, ps, m), ps[m]).Some?
  }

  /** No checkout below `a` between the turns `i` and `j`. */
  ghost predicate Uncleared(plan: Plan, c: Scene, ps: seq<Path>, a: Path, i: nat, j: nat)
    requires j <= |ps|
  {
    forall m :: i <= m < j && a < ps[m] ==> !Checks(plan, c, ps, m)
  }

  /** A file that was there from the start, or that an earlier turn put, and that no checkout cleared. */
  ghost predicate FileSince(plan: Plan, c: Scene, ps: seq<Path>, a: Path, i: nat)
    requires i <= |ps|
  {
    || (a in c.standing && c.standing[a].File? && Uncleared(plan, c, ps, a, 0, i))
    || exists j: nat :: j < i && PutsFile(plan, c, ps, j, a) && Uncleared(plan, c, ps, a, j + 1, i)
  }

  predicate PutsFile(plan: Plan, c: Scene, ps: seq<Path>, j: nat, a: Path)
    requires j < |ps|
  {
    ps[j] == a && match Puts(plan, After(plan, c, ps, j), ps[j]) case Some(n) => n.File? case None => false
  }

  /** One turn on the file at `a`. */
  lemma FileTurn(plan: Plan, d: Scene, p: Path, a: Path)
    requires TreeLike(d.standing) && forall q :: q in d.standing ==> !(p <= q)
    ensures var e := Turn(plan, d, p);
      (a in e.standing && e.standing[a].File?) <==>
        || (a in d.standing && d.standing[a].File? && !(a < p && p !in plan.recorded && Puts(plan, d, p).Some?))
        || (a == p && Puts(plan, d, p).Some? && Puts(plan, d, p).value.File?)
  {
    TurnLooks(plan, d, p, a);
    if a in d.standing && a < p && p in plan.recorded {
      assert Puts(plan, d, p).None?;
    }
    hide Puts, Turn;
    assert a == p ==> a !in d.standing;
  }

  /** A file stands exactly if it was put, or there from the start, and not cleared since. */
  lemma {:induction false} FileStands(plan: Plan, c: Scene, ps: seq<Path>, over: set<Path>, a: Path, i: nat)
    requires Ready(plan, c, ps, over) && i <= |ps|
    ensures var l := After(plan, c, ps, i).standing;
      (a in l && l[a].File?) <==> FileSince(plan, c, ps, a, i)
  {
    hide Puts, Turn, Ready;
    if i > 0 {
      var d, p := After(plan, c, ps, i - 1), ps[i - 1];
      FileStands(plan, c, ps, over, a, i - 1);
      AfterShape(plan, c, ps, over, i - 1);
      FileTurn(plan, d, p, a);
      FileSinceNext(plan, c, ps, a, i);
    }
  }

  lemma FileSinceNext(plan: Plan, c: Scene, ps: seq<Path>, a: Path, i: nat)
    requires 0 < i <= |ps|
    ensures FileSince(plan, c, ps, a, i) <==>
      || (FileSince(plan, c, ps, a, i - 1) && !(a < ps[i - 1] && Checks(plan, c, ps, i - 1)))
      || PutsFile(plan, c, ps, i - 1, a)
  {
    hide Checks, PutsFile;
    var cleared := a < ps[i - 1] && Checks(plan, c, ps, i - 1);
    forall k | 0 <= k < i
      ensures Uncleared(plan, c, ps, a, k, i) <==> Uncleared(plan, c, ps, a, k, i - 1) && !cleared
    {
    }
    assert Uncleared(plan, c, ps, a, i, i);
    forall j: nat | j < i - 1 && PutsFile(plan, c, ps, j, a)
      ensures Uncleared(plan, c, ps, a, j + 1, i) <==> Uncleared(plan, c, ps, a, j + 1, i - 1) && !cleared
    {
    }
  }

  /** Some recorded path comes to its turn below a file that was put before and not cleared since. */
  ghost predicate MeetsFile(plan: Plan, c: Scene, ps: seq<Path>, i: nat)
    requires i < |ps|
  {
    ps[i] in plan.recorded && !After(plan, c, ps, i).raised && exists a :: a < ps[i] && FileSince(plan, c, ps, a, i)
  }

  lemma RaisesNow(plan: Plan, c: Scene, ps: seq<Path>, over: set<Path>, i: nat)
    requires Ready(plan, c, ps, over) && i < |ps|
    ensures Raises(plan, After(plan, c, ps, i), ps[i]) <==> MeetsFile(plan, c, ps, i)
  {
    hide Puts, Turn, Ready, FileSince;
    var d, p := After(plan, c, ps, i), ps[i];
    AfterShape(plan, c, ps, over, i);
    forall a ensures (a in d.standing && d.standing[a].File?) <==> FileSince(plan, c, ps, a, i) {
      FileStands(plan, c, ps, over, a, i);
    }
    if MeetsFile(plan, c, ps, i) {
      var a :| a < p && FileSince(plan, c, ps, a, i);
      forall b | b in d.standing && b < p ensures b == a {
        PrefixTotal(a, b, p);
      }
    }
  }

  /** The restore phase raises if and only if a recorded path comes to its turn below a file that an earlier
      turn put, or that stays, and that no checkout has cleared by then. */
  lemma {:induction false} RaisesExactly(plan: Plan, c: Scene, ps: seq<Path>, over: set<Path>, i: nat)
    requires Ready(plan, c, ps, over) && i <= |ps|
    ensures After(plan, c, ps, i).raised <==> exists j: nat :: j < i && MeetsFile(plan, c, ps, j)
  {
    hide Puts, Raises, Ready, MeetsFile;
    if i == 0 {
      assert !c.raised by { StartsUnraised(plan, c, ps, over); }
    } else {
      RaisesExactly(plan, c, ps, over, i - 1);
      RaisesNow(plan, c, ps, over, i - 1);
      PutsUnraised(plan, After(plan, c, ps, i - 1), ps[i - 1]);
      if After(plan, c, ps, i - 1).raised {
        var j: nat :| j < i - 1 && MeetsFile(plan, c, ps, j);
      }
    }
  }

  lemma StartsUnraised(plan: Plan, c: Scene, ps: seq<Path>, over: set<Path>)
    requires Ready(plan, c, ps, over)
    ensures !c.raised
  {
  }

  lemma PutsUnraised(plan: Plan, c: Scene, p: Path)
    ensures Puts(plan, c, p).Some? ==> !c.raised && !Raises(plan, c, p)
  {
  }
}
