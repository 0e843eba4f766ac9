/** The auditor as it acts on a repository. Every operation on the working tree demands that no proper
    ancestor of its path is a symbolic link at that moment, so no link is ever followed by a change. */
module Rollback {
  import opened Wrappers
  import opened FileTree
  import opened Turns
  import opened Listing
  import opened Settling
  import opened Auditor
  import opened Phases
  import opened Inverse

  /** The repository an agent works in, and what stands outside it. */
  class Repo {
    /** There is a commit; without one HEAD cannot be listed. */
    const committed: bool
    const head: Leaves
    var index: Leaves
    var work: Tree
    var out: Elsewhere

    constructor (committed: bool, head: Leaves, index: Leaves, work: Tree, out: Elsewhere)
      ensures this.committed == committed
      ensures this.head == head && this.index == index && this.work == work && this.out == out
    {
      this.committed, this.head, this.index, this.work, this.out := committed, head, index, work, out;
    }

    /** `unlink`: the entry itself, never its target. */
    method Unlink(p: Path)
      requires WellFormed(work) && p in work && work[p] != Dir && !Blocked(work, p)
      modifies this`work
      ensures work == Cut(old(work), p)
    {
      CutEntry(work, p);
      work := work - {p};
    }

    /** `shutil.rmtree` of a directory. */
    method RemoveTree(p: Path)
      requires p in work && work[p] == Dir && !Blocked(work, p)
      modifies this`work
      ensures work == Cut(old(work), p)
    {
      work := Cut(work, p);
    }

    /** `mkdir(parents=True, exist_ok=True)` of the parent; fails on anything that is no directory. */
    method MakeParents(p: Path) returns (ok: bool)
      requires !Blocked(work, p)
      modifies this`work
      ensures ok == !Obstructed(old(work), p)
      ensures work == if ok then old(work) + Parents(p) else old(work)
    {
      ok := !Obstructed(work, p);
      if ok {
        work := work + Parents(p);
      }
    }

    /** `os.symlink` and `write_bytes`. */
    method Write(p: Path, n: Node)
      requires !Blocked(work, p) && (p in work ==> !work[p].Link?)
      modifies this`work
      ensures work == old(work)[p := n]
    {
      work := work[p := n];
    }

    /** `git checkout HEAD -- p`: the working tree and the index, if HEAD has the path. */
    method CheckoutHead(p: Path)
      requires !Blocked(work, p)
      modifies this`work, this`index
      ensures work == if p in head then Checkout(old(work), p, head[p]) else old(work)
      ensures index == if p in head then Stage(old(index), p, head[p]) else old(index)
    {
      if p in head {
        work, index := Checkout(work, p, head[p]), Stage(index, p, head[p]);
      }
    }

    /** `git checkout -- p`: from the index, if it still has the path. */
    method CheckoutIndex(p: Path)
      requires !Blocked(work, p)
      modifies this`work
      ensures work == if p in index then Checkout(old(work), p, index[p]) else old(work)
    {
      if p in index {
        work := Checkout(work, p, index[p]);
      }
    }

    /** `rmdir` of an empty directory. */
    method RemoveEmpty(p: Path)
      requires p in work && work[p] == Dir && !HasChild(work, p) && !Blocked(work, p)
      modifies this`work
      ensures work == old(work) - {p}
    {
      work := work - {p};
    }
  }

  lemma CutEntry(t: Tree, p: Path)
    requires WellFormed(t) && p in t && t[p] != Dir
    ensures Cut(t, p) == t - {p}
  {
    forall q | q in t && p <= q
      ensures q == p
    {
      if p != q {
        assert p < q;
        NothingBelow(t, p, q);
      }
    }
  }

  lemma BlockedIsAbsent(t: Tree, p: Path)
    requires WellFormed(t) && Blocked(t, p)
    ensures p !in t
  {
    if p in t { PresentNotBlocked(t, p); }
  }

  lemma PutIsWrite(t: Tree, p: Path, n: Node)
    requires !Blocked(t, p)
    ensures !Blocked(t + Parents(p), p) && (t + Parents(p))[p := n] == Put(t, p, n)
    ensures p in t + Parents(p) ==> p in t && (t + Parents(p))[p] == t[p]
  {
    assert forall k :: 0 < k < |p| ==> |p[..k]| < |p|;
    assert p !in Parents(p);
  }

  lemma NothingRecorded(work: Tree, out: Elsewhere)
    ensures Records(Snapshot(map[], map[], map[]), {}, work, out)
  {
  }

  /** A non-empty finite set of paths has a shallowest member. */
  lemma {:induction false} Shallowest(s: set<Path>)
    requires s != {}
    ensures exists p :: p in s && forall q :: q in s ==> |p| <= |q|
    decreases |s|
  {
    var x :| x in s;
    if s != {x} {
      Shallowest(s - {x});
      var y :| y in s - {x} && forall q :: q in s - {x} ==> |y| <= |q|;
      var m := if |x| <= |y| then x else y;
      assert m in s && forall q :: q in s ==> |m| <= |q|;
    } else {
      assert x in s && forall q :: q in s ==> |x| <= |q|;
    }
  }

  /** `sorted(over, key=depth)`; how ties are broken is left open. */
  method SortShallow(over: set<Path>) returns (ps: seq<Path>)
    ensures ShallowFirst(ps, over)
  {
    ps := [];
    var rest := over;
    while rest != {}
      invariant rest <= over && forall p :: p in ps <==> p in over - rest
      invariant forall i, j :: 0 <= i < j < |ps| ==> |ps[i]| <= |ps[j]| && ps[i] != ps[j]
      invariant forall i, q :: 0 <= i < |ps| && q in rest ==> |ps[i]| <= |q|
      decreases |rest|
    {
      Shallowest(rest);
      var p :| p in rest && forall q :: q in rest ==> |p| <= |q|;
      assert p !in ps;
      ps := ps + [p];
      rest := rest - {p};
    }
  }

  class AuditLog {
    const repo: Repo
    /** Paths and directories the agent may write. */
    const allowed: set<Path>
    var types: map<Path, PathType>
    var contents: map<Path, string>
    var links: map<Path, string>

    constructor (repo: Repo, allowed: set<Path>)
      ensures this.repo == repo && this.allowed == allowed
    {
      this.repo, this.allowed := repo, allowed;
      types, contents, links := map[], map[], map[];
    }

    function Snap(): Snapshot
      reads this
    {
      Snapshot(types, contents, links)
    }

    /** Type, and content or link text, of one path. */
    method Record(p: Path)
      modifies this
      ensures Snap() == Note(old(Snap()), repo.work, repo.out, p)
    {
      hide Probe;
      var n := Probe(repo.work, repo.out, p);
      types := types[p := TypeOfNode(n)];
      if TypeOfNode(n) == IsFile {
        contents := contents[p := n.value.bytes];
      } else if TypeOfNode(n) == IsLink {
        links := links[p := n.value.target];
      }
    }

    /** `baseline`: records type, content or link text of every path modified before the run. */
    method Baseline() returns (paths: set<Path>)
      modifies this
      ensures paths == Modified(repo.head, repo.index, repo.work)
      ensures Records(Snap(), paths, repo.work, repo.out)
    {
      paths := Modified(repo.head, repo.index, repo.work);
      hide Modified, Probe, Records, Note;
      ghost var work, out := repo.work, repo.out;
      types, contents, links := map[], map[], map[];
      var rest := paths;
      NothingRecorded(work, out);
      assert paths - rest == {};
      while rest != {}
        invariant rest <= paths && work == repo.work && out == repo.out && Records(Snap(), paths - rest, work, out)
        decreases rest
      {
        var p :| p in rest;
        NoteRecords(Snap(), paths - rest, work, out, p);
        assert paths - (rest - {p}) == (paths - rest) + {p};
        rest := rest - {p};
        Record(p);
      }
      assert paths - rest == paths;
    }

    /** `agent_changed_paths`. */
    method AgentChangedPaths() returns (changed: set<Path>)
      ensures changed == Changed(repo.head, repo.index, repo.work, Snap(), repo.out)
    {
      hide Probe;
      changed := Modified(repo.head, repo.index, repo.work) - types.Keys;
      ghost var clean := changed;
      var rest := types.Keys;
      while rest != {}
        invariant rest <= types.Keys
        invariant forall p :: p in changed <==>
          p in clean || (p in types.Keys - rest && Drifted(Snap(), repo.work, repo.out, p))
        decreases |rest|
      {
        var p :| p in rest;
        rest := rest - {p};
        var n := Probe(repo.work, repo.out, p);
        if TypeOfNode(n) != types[p] {
          changed := changed + {p};
        } else if TypeOfNode(n) == IsLink {
          if p !in links || n.value.target != links[p] {
            changed := changed + {p};
          }
        } else if p in contents && TypeOfNode(n) == IsFile {
          if n.value.bytes != contents[p] {
            changed := changed + {p};
          }
        }
      }
    }

    /** `_is_allowed`, without ownership vetoes: the path or a directory above it is allowed. */
    predicate IsAllowed(p: Path) {
      exists a :: a in allowed && a <= p
    }

    /** `_remove_one`. */
    method Remove(p: Path) returns (removed: bool)
      requires WellFormed(repo.work)
      modifies repo`work
      ensures repo.work == RemoveOne(old(repo.work), p)
      ensures removed <==> p in old(repo.work)
    {
      if Blocked(repo.work, p) {
        BlockedIsAbsent(repo.work, p);
        return false;
      }
      if p !in repo.work {
        return false;
      }
      if repo.work[p] == Dir {
        repo.RemoveTree(p);
      } else {
        repo.Unlink(p);
      }
      removed := true;
    }

    /** `_prune_empty_parents`. */
    method PruneParents(p: Path, tracked: set<string>)
      requires p != [] && WellFormed(repo.work)
      modifies repo`work
      ensures repo.work == Prune(old(repo.work), p, |p| - 1, tracked)
    {
      hide HasChild;
      var k := |p| - 1;
      while k > 0 && p[..k] in repo.work && repo.work[p[..k]] == Dir
        invariant 0 <= k < |p| && WellFormed(repo.work)
        invariant Prune(repo.work, p, k, tracked) == Prune(old(repo.work), p, |p| - 1, tracked)
        decreases k
      {
        if HasChild(repo.work, p[..k]) || PathText(p[..k]) in tracked {
          break;
        }
        PresentNotBlocked(repo.work, p[..k]);
        PruneOne(repo.work, p, k, tracked);
        repo.RemoveEmpty(p[..k]);
        k := k - 1;
      }
    }

    /** The parents, then the recorded file or link itself. */
    method Recreate(p: Path, n: Node) returns (raised: bool)
      requires WellFormed(repo.work) && p != [] && p !in repo.work && n != Dir && !Blocked(repo.work, p)
      modifies repo`work
      ensures raised <==> Obstructed(old(repo.work), p)
      ensures repo.work == if raised then old(repo.work) else Put(old(repo.work), p, n)
      ensures WellFormed(repo.work)
    {
      hide Put, Obstructed, WellFormed;
      PutIsWrite(repo.work, p, n);
      var made := repo.MakeParents(p);
      if !made {
        return true;
      }
      PutKeeps(old(repo.work), p, n);
      repo.Write(p, n);
      raised := false;
    }

    /** `_restore_one`. */
    method Restore(p: Path, names: Names) returns (raised: bool)
      requires Restorable(Back(repo.work, repo.index, false), p, repo.head, names)
      modifies repo`work, repo`index
      ensures Back(repo.work, repo.index, raised)
        == RestoreOne(old(Back(repo.work, repo.index, false)), p, Snap(), repo.head, names)
    {
      hide Prune, Checkout, Put, Obstructed, Stage, WellFormed, NoDirs, PathText;
      raised := false;
      if Blocked(repo.work, p) {
        return;
      }
      if p in links || p in contents {
        var n := if p in links then Link(links[p]) else File(contents[p]);
        raised := Recreate(p, n);
        if raised {
          return;
        }
      } else if PathText(p) in names.all {
        var parent := p[..|p| - 1];
        if parent in repo.work && repo.work[parent] != Dir {
          return;
        }
        if PathText(p) in names.head {
          repo.CheckoutHead(p);
        } else {
          repo.CheckoutIndex(p);
        }
        return;
      }
      PruneParents(p, names.all);
    }

    /** `rollback_agent_changes`: links first, then deepest first, then restore shallowest first. What it ends
        with, whatever the set: the turns of its paths on what the removal leaves. Without a commit the listing
        of HEAD fails, and nothing is rolled back. */
    method RollbackAgentChanges(newChanges: set<Path>, force: bool) returns (raised: bool, ghost ps: seq<Path>)
      requires WellFormed(repo.work) && NoDirs(repo.head) && NoDirs(repo.index) && [] !in newChanges
      modifies repo`work, repo`index
      ensures var over := if force then newChanges else set p | p in newChanges && !IsAllowed(p);
        && ShallowFirst(ps, over) && WellFormed(repo.work)
        && Scene(LeavesOf(repo.work), repo.index, raised)
          == if repo.committed then
               After(PlanOf(Snap(), repo.head, NamesOf(repo.head, old(repo.index))),
                     Scene(Without(LeavesOf(old(repo.work)), over), old(repo.index), false), ps, |ps|)
             else Scene(LeavesOf(old(repo.work)), old(repo.index), true)
    {
      hide After, RestoreOne, RemoveOne, WellFormed, LeavesOf, Without, NoDirs, Line;
      var over := if force then newChanges else set p | p in newChanges && !IsAllowed(p);
      var shallow := SortShallow(over);
      ps := shallow;
      if !repo.committed {
        return true, shallow;
      }
      var names := NamesOf(repo.head, repo.index);
      RemoveAll(over, shallow);
      StripLeaves(old(repo.work), over);
      raised := RestoreAll(over, shallow, names);
    }

    /** Phase 1: exactly the paths of `over`, and what lies below them, are gone. */
    method RemoveAll(over: set<Path>, shallow: seq<Path>)
      requires WellFormed(repo.work) && ShallowFirst(shallow, over) && [] !in over
      modifies repo`work
      ensures WellFormed(repo.work) && repo.work == Strip(old(repo.work), over)
    {
      hide RemoveOne, WellFormed, Blocked, Strip, Probe;
      ghost var before, gone: set<Path> := repo.work, {};
      var removed: set<Path> := {};
      StripNothing(before);
      for i := 0 to |shallow|
        invariant WellFormed(repo.work) && removed <= gone <= over && repo.work == Strip(before, gone)
      {
        assert shallow[i] in shallow;
        if TypeOf(repo.work, repo.out, shallow[i]) == IsLink {
          StripMore(before, gone, shallow[i]);
          var hit := Remove(shallow[i]);
          if hit {
            removed := removed + {shallow[i]};
          }
          gone := gone + {shallow[i]};
          StripWellFormed(before, gone);
        }
      }
      for i := |shallow| downto 0
        invariant WellFormed(repo.work) && removed <= gone <= over && repo.work == Strip(before, gone)
        invariant forall j :: i <= j < |shallow| ==> shallow[j] in gone
      {
        assert shallow[i] in shallow;
        if shallow[i] in removed {
          continue;
        }
        StripMore(before, gone, shallow[i]);
        var _ := Remove(shallow[i]);
        gone := gone + {shallow[i]};
        StripWellFormed(before, gone);
      }
      assert gone == over;
    }

    /** Phase 2. */
    method RestoreAll(over: set<Path>, shallow: seq<Path>, names: Names) returns (raised: bool)
      requires WellFormed(repo.work) && ShallowFirst(shallow, over) && [] !in over
      requires NoDirs(repo.head) && NoDirs(repo.index) && names.head <= names.all
      requires forall p, q :: p in over && q in repo.work ==> !(p <= q)
      modifies repo`work, repo`index
      ensures WellFormed(repo.work)
      ensures Scene(LeavesOf(repo.work), repo.index, raised)
        == After(PlanOf(Snap(), repo.head, names), Scene(LeavesOf(old(repo.work)), old(repo.index), false), shallow,
                 |shallow|)
    {
      hide RestoreOne, WellFormed, NoDirs, After, LeavesOf;
      ghost var b := Back(repo.work, repo.index, false);
      ghost var s := Snap();
      raised := false;
      forall j | 0 <= j < |shallow| ensures shallow[j] in over {
        assert shallow[j] in shallow;
      }
      for i := 0 to |shallow|
        invariant Snap() == s && !raised
        invariant Back(repo.work, repo.index, false) == RestoreSome(b, shallow, i, s, repo.head, names)
      {
        RestoreIsTurns(b, shallow, over, i, s, repo.head, names);
        assert shallow[i] <= shallow[i];
        raised := Restore(shallow[i], names);
        if raised {
          RaisedRests(b, shallow, i + 1, |shallow|, s, repo.head, names);
          RestoreIsTurns(b, shallow, over, |shallow|, s, repo.head, names);
          return;
        }
      }
      RestoreIsTurns(b, shallow, over, |shallow|, s, repo.head, names);
    }
  }

  /** An exception ends the phase. */
  lemma {:induction false} RaisedRests(
      b: Back, ps: seq<Path>, k: nat, i: nat, s: Snapshot, head: Leaves, names: Names)
    requires k <= i <= |ps| && [] !in ps && RestoreSome(b, ps, k, s, head, names).raised
    ensures RestoreSome(b, ps, i, s, head, names) == RestoreSome(b, ps, k, s, head, names)
    decreases i
  {
    if i > k {
      RaisedRests(b, ps, k, i - 1, s, head, names);
    }
  }

  lemma PruneOne(t: Tree, p: Path, k: nat, tracked: set<string>)
    requires WellFormed(t) && 0 < k <= |p| && p[..k] in t && t[p[..k]] == Dir && !HasChild(t, p[..k])
    requires PathText(p[..k]) !in tracked
    ensures Prune(t, p, k, tracked) == Prune(t - {p[..k]}, p, k - 1, tracked)
    ensures WellFormed(t - {p[..k]})
  {
    hide WellFormed, HasChild;
    DropEmpty(t, p[..k]);
  }

  /** Exactly which paths are allowed: those that are in the list of allowed ones, or whose text goes on with a slash
      after one of them. */
  lemma AllowedExactly(log: AuditLog, p: Path)
    requires Named(p) && forall a :: a in log.allowed ==> Named(a)
    ensures log.IsAllowed(p) <==>
      exists a :: a in log.allowed && (PathText(p) == PathText(a) || PathText(a) + "/" <= PathText(p))
  {
    hide PathText;
    forall a | a in log.allowed
      ensures a <= p <==> PathText(p) == PathText(a) || PathText(a) + "/" <= PathText(p)
    {
      BelowExactly(a, p);
    }
  }

  // ----- the audits' two ways to use it -----

  /** The repository is as the run left it, and the log holds what was recorded before. */
  ghost predicate Audits(log: AuditLog, r: Run)
    reads log, log.repo
  {
    && ValidRun(r) && r.head == log.repo.head && r.index == log.repo.index
    && r.work == log.repo.work && r.out == log.repo.out && r.s == log.Snap()
  }

  /** `_non_shield_write_audit` and the shield's document failure: force-roll back all the run changed. */
  method ForceRollback(log: AuditLog, ghost r: Run) returns (raised: bool, ghost ps: seq<Path>)
    requires Audits(log, r)
    modifies log.repo`work, log.repo`index
    ensures ShallowFirst(ps, ChangedBy(r))
    ensures var j := FullJob(r, ps);
      (!raised && LeavesOf(log.repo.work) == LeavesOf(r.work0)) <==>
        && log.repo.committed && (forall p :: !Hidden(r, p)) && (forall p :: !Unlisted(r, p))
        && Spares(j) && forall p :: Coming(j, p) ==> Recovered(j, p)
    ensures var j := FullJob(r, ps);
      raised <==> !log.repo.committed || exists i: nat :: i < |ps| && MeetsFile(j.plan, j.Start(), ps, i)
  {
    hide Changed, Hidden, Unlisted, Spares, Coming, Recovered, After, LeavesOf, ShallowFirst, MeetsFile, Ready,
      ValidRun, NamesOf;
    var changed := log.AgentChangedPaths();
    ChangedNotRoot(r);
    RunNodes(r);
    raised, ps := log.RollbackAgentChanges(changed, true);
    RollbackIsInverse(r, ps);
    JobReady(r, ChangedBy(r), ps, LeavesOf(r.work0));
    var j := FullJob(r, ps);
    RaisesExactly(j.plan, j.Start(), ps, j.over, |ps|);
  }

  lemma RunNodes(r: Run)
    requires ValidRun(r)
    ensures WellFormed(r.work) && NoDirs(r.head) && NoDirs(r.index)
  {
  }

  /** The scaffold failure and the shield's pure over-reach: roll back the offending paths only. */
  method PartialForceRollback(log: AuditLog, offending: set<Path>, ghost r: Run)
    returns (raised: bool, ghost ps: seq<Path>)
    requires Audits(log, r) && offending <= ChangedBy(r)
    modifies log.repo`work, log.repo`index
    ensures ShallowFirst(ps, offending)
    ensures var j := PartJob(r, offending, ps);
      (!raised && LeavesOf(log.repo.work) == Mixed(r, offending)) <==>
        && log.repo.committed && TreeLike(j.goal) && Backed(j) && NoStrays(j)
        && Spares(j) && forall p :: Coming(j, p) ==> Recovered(j, p)
  {
    hide Changed, Spares, Coming, Recovered, After, LeavesOf, ShallowFirst, ValidRun, Mixed, TreeLike, Backed, NoStrays,
      NamesOf;
    ChangedNotRoot(r);
    RunNodes(r);
    raised, ps := log.RollbackAgentChanges(offending, true);
    PartialRollback(r, offending, ps);
  }
}
