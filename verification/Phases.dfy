/** The two phases of a rollback on the working tree, read as what they do to files and links. */
module Phases {
  import opened Wrappers
  import opened FileTree
  import opened Turns
  import opened Auditor

  // ----- removal -----

  /** The tree without the paths of `over` and what lies below them. */
  function Strip(t: Tree, over: set<Path>): Tree {
    map q | q in t && !(exists p :: p in over && p <= q) :: t[q]
  }

  lemma StripMore(t: Tree, over: set<Path>, p: Path)
    requires WellFormed(t) && p != []
    ensures WellFormed(Strip(t, over)) && RemoveOne(Strip(t, over), p) == Strip(t, over + {p})
  {
    StripWellFormed(t, over);
    var u := Strip(t, over);
    if p in u {
      PresentNotBlocked(u, p);
    } else {
      forall q | q in u ensures !(p <= q) {
        if p < q { NothingBelow(u, p, q); }
        assert p <= q ==> p < q || p == q;
      }
    }
  }

  lemma StripWellFormed(t: Tree, over: set<Path>)
    requires WellFormed(t)
    ensures WellFormed(Strip(t, over))
  {
    var u := Strip(t, over);
    forall q, k | q in u && 0 < k < |q| ensures q[..k] in u && u[q[..k]] == Dir {
      forall p | p in over ensures !(p <= q[..k]) {
        assert q[..k] <= q;
        if p <= q[..k] { PrefixTrans(p, q[..k], q); }
      }
    }
  }

  /** Removing nothing, and removing a path that is already gone. */
  lemma StripNothing(t: Tree)
    ensures Strip(t, {}) == t
  {
  }

  lemma StripLeaves(t: Tree, over: set<Path>)
    ensures LeavesOf(Strip(t, over)) == Without(LeavesOf(t), over)
  {
  }

  lemma PrefixCut(p: Path, q: Path)
    requires p < q
    ensures |p| < |q| && q[..|p|] == p
  {
  }

  /** The leaves of a tree are tree-like, and looked up as leaves. */
  lemma LeavesTreeLike(t: Tree)
    requires WellFormed(t)
    ensures TreeLike(LeavesOf(t))
  {
    forall p, q | p in LeavesOf(t) && q in LeavesOf(t) ensures !(p < q) {
      if p < q { PrefixCut(p, q); }
    }
  }

  lemma LeavesLook(t: Tree, p: Path)
    ensures p in LeavesOf(t) <==> Leaf(t, p).Some?
    ensures p in LeavesOf(t) ==> Leaf(t, p) == Some(LeavesOf(t)[p])
  {
  }

  lemma SameLeaves(t: Tree, l: Leaves)
    requires NoDirs(l) && forall q :: Leaf(t, q) == if q in l then Some(l[q]) else None
    ensures LeavesOf(t) == l
  {
    forall q ensures q in LeavesOf(t) <==> q in l {
      LeavesLook(t, q);
      assert Leaf(t, q) == if q in l then Some(l[q]) else None;
    }
    forall q | q in l ensures LeavesOf(t)[q] == l[q] {
      LeavesLook(t, q);
    }
  }

  // ----- restore -----

  lemma BlockedIsLink(t: Tree, p: Path)
    requires WellFormed(t)
    ensures Blocked(t, p) <==> LinkAbove(LeavesOf(t), p)
    ensures Obstructed(t, p) <==> LeafAbove(LeavesOf(t), p)
  {
    if Blocked(t, p) {
      var k :| 0 < k < |p| && p[..k] in t && t[p[..k]].Link?;
      assert p[..k] < p && p[..k] in LeavesOf(t);
    }
    if Obstructed(t, p) {
      var k :| 0 < k < |p| && p[..k] in t && t[p[..k]] != Dir;
      assert p[..k] < p && p[..k] in LeavesOf(t);
    }
    forall a | a in LeavesOf(t) && a < p
      ensures 0 < |a| < |p| && p[..|a|] == a
    {
    }
  }

  /** A checkout of an absent path clears the files above it and puts its own. */
  lemma CheckoutLeaves(t: Tree, p: Path, n: Node)
    requires WellFormed(t) && p != [] && p !in t && n != Dir
    ensures WellFormed(Checkout(t, p, n)) && LeavesOf(Checkout(t, p, n)) == Over(LeavesOf(t), p, n)
    ensures forall q :: q in Checkout(t, p, n) ==> q in t || q <= p
  {
    hide Put, Clear, WellFormed;
    CheckoutKeeps(t, p, n);
    ClearKeeps(t, p, 0);
    ClearLeaves(t, p, 0);
    PutKeeps(Clear(t, p, 0), p, n);
    LeavesNoDirs(t);
    forall q
      ensures Leaf(Checkout(t, p, n), q) ==
        if q in Over(LeavesOf(t), p, n) then Some(Over(LeavesOf(t), p, n)[q]) else None
    {
      LeavesLook(t, q);
    }
    SameLeaves(Checkout(t, p, n), Over(LeavesOf(t), p, n));
  }

  lemma LeavesNoDirs(t: Tree)
    requires WellFormed(t)
    ensures NoDirs(LeavesOf(t))
  {
  }

  lemma {:induction false} ClearLeaves(t: Tree, p: Path, k: nat)
    requires WellFormed(t) && k <= |p| && p != [] && p !in t
    ensures forall q :: Leaf(Clear(t, p, k), q) == if q < p && |q| >= k then None else Leaf(t, q)
    decreases |p| - k
  {
    hide WellFormed;
    if k == |p| {
      CutKeeps(t, p);
      forall q ensures p <= q ==> Leaf(t, q) == None {
        if p <= q && q in t { BelowAbsent(t, p, q); }
      }
    } else if k > 0 && p[..k] in t && t[p[..k]] != Dir {
      CutKeeps(t, p[..k]);
      CutEntryLeaves(t, p[..k]);
      ClearLeaves(Cut(t, p[..k]), p, k + 1);
      AtLength(p, k);
    } else {
      ClearLeaves(t, p, k + 1);
      AtLength(p, k);
      RootNoLeaf(t);
    }
  }

  lemma RootNoLeaf(t: Tree)
    requires WellFormed(t)
    ensures Leaf(t, []) == None
  {
  }

  lemma AtLength(p: Path, k: nat)
    requires k <= |p|
    ensures forall q :: q <= p && |q| == k ==> q == p[..k]
  {
  }

  lemma BelowAbsent(t: Tree, p: Path, q: Path)
    requires WellFormed(t) && p != [] && p <= q && q in t
    ensures p in t
  {
    if p != q {
      assert p < q;
      NothingBelow(t, p, q);
    }
  }

  /** Cutting a file or link cuts nothing else. */
  lemma CutEntryLeaves(t: Tree, a: Path)
    requires WellFormed(t) && a in t && t[a] != Dir
    ensures forall q :: Leaf(Cut(t, a), q) == if q == a then None else Leaf(t, q)
  {
    forall q | q in t && a <= q ensures q == a {
      if q != a {
        assert a < q;
        NothingBelow(t, a, q);
      }
    }
  }

  /** Writing a recorded node where nothing stands above it. */
  lemma PutLeaves(t: Tree, p: Path, n: Node)
    requires WellFormed(t) && p != [] && p !in t && n != Dir && !Obstructed(t, p)
    ensures WellFormed(Put(t, p, n)) && LeavesOf(Put(t, p, n)) == Over(LeavesOf(t), p, n)
    ensures forall q :: q in Put(t, p, n) ==> q in t || q <= p
  {
    hide Put;
    PutKeeps(t, p, n);
    BlockedIsLink(t, p);
    LeavesNoDirs(t);
    forall q
      ensures Leaf(Put(t, p, n), q) ==
        if q in Over(LeavesOf(t), p, n) then Some(Over(LeavesOf(t), p, n)[q]) else None
    {
      LeavesLook(t, q);
    }
    SameLeaves(Put(t, p, n), Over(LeavesOf(t), p, n));
  }

  lemma PruneLeaves(t: Tree, p: Path, k: nat, tracked: set<string>)
    requires WellFormed(t) && k <= |p|
    ensures WellFormed(Prune(t, p, k, tracked)) && LeavesOf(Prune(t, p, k, tracked)) == LeavesOf(t)
    ensures Prune(t, p, k, tracked).Keys <= t.Keys
  {
    hide Prune;
    PruneKeeps(t, p, k, tracked);
    LeavesNoDirs(t);
    forall q ensures Leaf(Prune(t, p, k, tracked), q) == if q in LeavesOf(t) then Some(LeavesOf(t)[q]) else None {
      LeavesLook(t, q);
    }
    SameLeaves(Prune(t, p, k, tracked), LeavesOf(t));
  }

  function PlanOf(s: Snapshot, head: Leaves, names: Names): Plan {
    Plan(RecordedLeaves(s), map p | p in head && PathText(p) in names.head :: head[p], names)
  }

  function SceneOf(b: Back): Scene {
    Scene(LeavesOf(b.tree), b.index, b.raised)
  }

  /** Where a restore phase can be: nothing stands at the path whose turn it is. */
  ghost predicate Restorable(b: Back, p: Path, head: Leaves, names: Names) {
    WellFormed(b.tree) && p != [] && p !in b.tree && NoDirs(head) && NoDirs(b.index) && names.head <= names.all
  }

  /** `d` is `b` after the turn of `p`, still a tree, with nothing new beside `p` and what is above it. */
  ghost predicate IsTurn(b: Back, d: Back, p: Path, plan: Plan) {
    && SceneOf(d) == Turn(plan, SceneOf(b), p)
    && WellFormed(d.tree) && NoDirs(d.index)
    && forall q :: q in d.tree ==> q in b.tree || q <= p
  }

  lemma WriteIsTurn(b: Back, p: Path, s: Snapshot, head: Leaves, names: Names)
    requires Restorable(b, p, head, names) && Recorded(s, p).Some?
    ensures IsTurn(b, RestoreOne(b, p, s, head, names), p, PlanOf(s, head, names))
  {
    hide Prune, Put, Over, WellFormed, Recorded, PathText, Blocked, Obstructed, LinkAbove, LeafAbove;
    BlockedIsLink(b.tree, p);
    RecordedLook(s, p);
    if !b.raised && !Blocked(b.tree, p) && !Obstructed(b.tree, p) {
      PutLeaves(b.tree, p, Recorded(s, p).value);
      PruneLeaves(Put(b.tree, p, Recorded(s, p).value), p, |p| - 1, names.all);
    }
  }

  lemma CheckoutIsTurn(b: Back, p: Path, s: Snapshot, head: Leaves, names: Names)
    requires Restorable(b, p, head, names) && Recorded(s, p).None?
    ensures IsTurn(b, RestoreOne(b, p, s, head, names), p, PlanOf(s, head, names))
  {
    hide Prune, Checkout, Over, WellFormed, Stage, Recorded, PathText, Blocked, LinkAbove, LeafAsParent;
    BlockedIsLink(b.tree, p);
    RecordedLook(s, p);
    StageNodes(b.index, p, head);
    PruneLeaves(b.tree, p, |p| - 1, names.all);
    ParentLeaf(b.tree, p);
    if p in head { CheckoutLeaves(b.tree, p, head[p]); }
    if p in b.index { CheckoutLeaves(b.tree, p, b.index[p]); }
  }

  /** On files and links, restoring a path is its turn. */
  lemma RestoreIsTurn(b: Back, p: Path, s: Snapshot, head: Leaves, names: Names)
    requires Restorable(b, p, head, names)
    ensures IsTurn(b, RestoreOne(b, p, s, head, names), p, PlanOf(s, head, names))
  {
    hide IsTurn, RestoreOne, Recorded;
    if Recorded(s, p).Some? { WriteIsTurn(b, p, s, head, names); } else { CheckoutIsTurn(b, p, s, head, names); }
  }

  lemma RecordedLook(s: Snapshot, p: Path)
    ensures p in RecordedLeaves(s) <==> Recorded(s, p).Some?
    ensures p in RecordedLeaves(s) ==> RecordedLeaves(s)[p] == Recorded(s, p).value && RecordedLeaves(s)[p] != Dir
  {
  }

  lemma ParentLeaf(t: Tree, p: Path)
    requires WellFormed(t) && p != []
    ensures LeafAsParent(LeavesOf(t), p) <==> p[..|p| - 1] in t && t[p[..|p| - 1]] != Dir
  {
    if |p| == 1 { assert p[..0] == []; }
  }

  lemma StageNodes(index: Leaves, p: Path, head: Leaves)
    requires p != [] && NoDirs(head) && NoDirs(index)
    ensures p in head ==> NoDirs(Stage(index, p, head[p]))
  {
  }

  // ----- the whole restore phase -----

  function RestoreSome(b: Back, ps: seq<Path>, i: nat, s: Snapshot, head: Leaves, names: Names): Back
    requires i <= |ps| && [] !in ps
  {
    if i == 0 then b else RestoreOne(RestoreSome(b, ps, i - 1, s, head, names), ps[i - 1], s, head, names)
  }

  /** No entry of the tree is at or below a path still to come. */
  ghost predicate TreeAhead(t: Tree, ps: seq<Path>, i: nat) {
    forall j, q :: i <= j < |ps| && q in t ==> !(ps[j] <= q)
  }

  /** The restore phase on the tree is, on files and links, the sequence of turns. */
  lemma {:induction false} RestoreIsTurns(
      b: Back, ps: seq<Path>, over: set<Path>, i: nat, s: Snapshot, head: Leaves, names: Names)
    requires ShallowFirst(ps, over) && [] !in ps && i <= |ps|
    requires WellFormed(b.tree) && NoDirs(head) && NoDirs(b.index) && names.head <= names.all
    requires TreeAhead(b.tree, ps, 0)
    ensures var d := RestoreSome(b, ps, i, s, head, names);
      && SceneOf(d) == After(PlanOf(s, head, names), SceneOf(b), ps, i)
      && WellFormed(d.tree) && NoDirs(d.index) && TreeAhead(d.tree, ps, i)
  {
    hide RestoreOne, Turn, SceneOf, WellFormed, NoDirs;
    if i > 0 {
      RestoreIsTurns(b, ps, over, i - 1, s, head, names);
      var d, p := RestoreSome(b, ps, i - 1, s, head, names), ps[i - 1];
      assert p in ps && p <= p;
      RestoreIsTurn(d, p, s, head, names);
      var e := RestoreOne(d, p, s, head, names);
      forall j, q | i <= j < |ps| && q in e.tree ensures !(ps[j] <= q) {
        assert |p| <= |ps[j]| && p != ps[j];
        if q <= p { NotBelowEarlier(p, ps[j], q); }
      }
    }
  }

  lemma NotBelowEarlier(p: Path, later: Path, q: Path)
    requires |p| <= |later| && p != later && q <= p
    ensures !(later <= q)
  {
    if later <= q {
      PrefixTrans(later, q, p);
      SameLength(later, p);
    }
  }

  /** Restoring a path that was neither recorded nor is tracked only removes directories: those that hold nothing but
      one another on the way down to its parent, and are not tracked. */
  lemma RestoreTidies(b: Back, p: Path, s: Snapshot, head: Leaves, names: Names)
    requires WellFormed(b.tree) && p != [] && !b.raised && !Blocked(b.tree, p)
    requires Recorded(s, p).None? && PathText(p) !in names.all
    ensures var d := RestoreOne(b, p, s, head, names);
      && !d.raised && d.index == b.index
      && (forall q :: q in d.tree <==> q in b.tree && !PrunedAt(b.tree, p, |p| - 1, names.all, q))
      && forall q :: q in d.tree ==> d.tree[q] == b.tree[q]
  {
    hide Recorded, Prune, PathText, PrunedAt, Blocked, WellFormed;
    PruneExactly(b.tree, p, |p| - 1, names.all);
  }
}
