/** Where a whole rollback ends: exactly when the restore phase ends, without an exception, with the files and
    links it should. */
module Settling {
  import opened Wrappers
  import opened FileTree
  import opened Turns

  /** A rollback of `over` on the files and links `work`, in the order `ps`, that should end with `goal`. */
  datatype Job = Job(plan: Plan, index: Leaves, work: Leaves, over: set<Path>, ps: seq<Path>, goal: Leaves) {
    function Start(): Scene {
      Scene(Without(work, over), index, false)
    }

    /** The scene after `i` turns. */
    function At(i: nat): Scene
      requires i <= |ps|
    {
      After(plan, Start(), ps, i)
    }
  }

  /** A goal a rollback can be asked for: paths outside the set keep what they have, unless they are removed
      with something above them; recorded goals are recorded as they were; and what is recorded without being
      a goal has no goal of the set below it. */
  ghost predicate Posed(j: Job) {
    && Ready(j.plan, j.Start(), j.ps, j.over) && TreeLike(j.goal)
    && (forall q :: q !in j.over && q in j.goal ==> q in j.work && j.work[q] == j.goal[q])
    && (forall q :: q !in j.over && q in j.work && q !in j.goal ==> exists a :: a in j.over && a < q)
    && (forall p :: p in j.over && p in j.goal && p in j.plan.recorded ==> j.plan.recorded[p] == j.goal[p])
    && (forall p, q :: Stray(j, p) && q in j.over && q in j.goal ==> !(p < q))
  }

  /** A recorded path of the set that is no goal. */
  predicate Stray(j: Job, p: Path) {
    p in j.over && p in j.plan.recorded && p !in j.goal
  }

  /** Nothing recorded is written back that should not be: a link of the goal keeps it out. */
  ghost predicate NoStrays(j: Job) {
    forall p :: Stray(j, p) ==> LinkAbove(j.goal, p)
  }

  /** What a checkout of `p` would bring. */
  function Brings(j: Job, p: Path): Option<Node> {
    if p in j.plan.head then Some(j.plan.head[p])
    else if p in j.index && Indexable(j.plan, p) then Some(j.index[p])
    else None
  }

  /** Every goal of the set that is not recorded is what a checkout brings. */
  ghost predicate Backed(j: Job) {
    forall p :: p in j.over && p in j.goal && p !in j.plan.recorded ==> Brings(j, p) == Some(j.goal[p])
  }

  /** A goal every path of the set can come back to. */
  ghost predicate Sensible(j: Job) {
    Posed(j) && Backed(j) && NoStrays(j)
  }

  /** A goal that comes back by a checkout from HEAD. */
  predicate Clean(j: Job, q: Path) {
    q in j.over && q in j.goal && q !in j.plan.recorded && q in j.plan.head
  }

  /** A path that should stay absent but that a checkout brings back: nothing of the goal keeps it out, its
      parent is not brought back either, and its index entry is not dropped for a HEAD path above it. */
  ghost predicate Coming(j: Job, p: Path)
    decreases |p|
  {
    && p in j.over && p !in j.goal && p !in j.plan.recorded && Brings(j, p).Some?
    && !LinkAbove(j.goal, p) && !LeafAsParent(j.goal, p)
    && !(|p| > 1 && Coming(j, p[..|p| - 1]))
    && (p in j.plan.head || !exists a :: Clean(j, a) && a < p)
  }

  /** The turn at `k` is the checkout of a clean goal below `p`, before the turn of any recorded path below it. */
  ghost predicate ClearsAt(j: Job, p: Path, k: nat) {
    && k < |j.ps| && p < j.ps[k] && Clean(j, j.ps[k])
    && forall m :: 0 <= m < k && p < j.ps[m] ==> j.ps[m] !in j.plan.recorded
  }

  /** What is brought back at `p` is cleared away again: it is a file, all goals below it lie two levels down
      or deeper, and a clean one has its turn before any recorded path there. */
  ghost predicate Recovered(j: Job, p: Path) {
    && Brings(j, p).Some? && Brings(j, p).value.File?
    && (forall q :: q in j.goal && p < q ==> |q| >= |p| + 2)
    && exists k: nat :: ClearsAt(j, p, k)
  }

  /** Nothing that should stay lies below a path of the set. */
  ghost predicate Spares(j: Job) {
    forall p, q :: p in j.over && q in j.goal && q !in j.over ==> !(p < q)
  }

  // ----- the invariant -----

  predicate Done(j: Job, p: Path, i: nat)
    requires i <= |j.ps|
  {
    exists m :: 0 <= m < i && j.ps[m] == p
  }

  /** Some clean goal below `p` had its turn. */
  predicate Cleared(j: Job, p: Path, i: nat)
    requires i <= |j.ps|
  {
    exists m :: 0 <= m < i && p < j.ps[m] && Clean(j, j.ps[m])
  }

  ghost predicate Pending(j: Job, p: Path, i: nat)
    requires i <= |j.ps|
  {
    Coming(j, p) && Done(j, p, i) && !Cleared(j, p, i)
  }

  /** A clean goal above or below `q` had its turn. */
  ghost predicate Dropped(j: Job, q: Path, i: nat)
    requires i <= |j.ps|
  {
    exists a :: Clean(j, a) && Done(j, a, i) && (a < q || q < a)
  }

  /** The goals that had their turn stand, and besides them only what was brought back and not cleared yet. */
  ghost predicate OnCourse(j: Job, i: nat)
    requires i <= |j.ps|
  {
    var d := j.At(i);
    && !d.raised
    && (forall q :: q in j.goal && (q in j.over ==> Done(j, q, i)) ==>
          q in d.standing && d.standing[q] == j.goal[q])
    && (forall q :: q in d.standing ==> q in j.goal || (Pending(j, q, i) && Brings(j, q) == Some(d.standing[q])))
    && (forall p :: Pending(j, p, i) ==> p in d.standing)
    && (forall q :: q in d.index ==> q in j.plan.head || (q in j.index && d.index[q] == j.index[q]))
    && (forall q :: q !in j.plan.head && q in j.index ==> (q in d.index <==> !Dropped(j, q, i)))
  }

  /** Everything brought back before turn `i` is cleared away again. */
  ghost predicate RecoveredTo(j: Job, i: nat)
    requires i <= |j.ps|
  {
    forall p :: Coming(j, p) && Done(j, p, i) ==> Recovered(j, p)
  }

  lemma DoneNext(j: Job, p: Path, i: nat)
    requires i < |j.ps|
    ensures Done(j, p, i + 1) <==> Done(j, p, i) || p == j.ps[i]
    ensures Cleared(j, p, i + 1) <==> Cleared(j, p, i) || (p < j.ps[i] && Clean(j, j.ps[i]))
  {
  }

  /** What is shallower than the path at turn `i` had its turn, and nothing deeper. */
  lemma DoneDepth(j: Job, p: Path, i: nat)
    requires ShallowFirst(j.ps, j.over) && i < |j.ps|
    ensures p in j.over && |p| < |j.ps[i]| ==> Done(j, p, i)
    ensures Done(j, p, i) ==> p in j.over && |p| <= |j.ps[i]| && p != j.ps[i]
    ensures j.ps[i] in j.over
  {
    assert j.ps[i] in j.ps;
    if p in j.over && |p| < |j.ps[i]| {
      assert p in j.ps;
      var m :| 0 <= m < |j.ps| && j.ps[m] == p;
      assert m < i;
    }
    if Done(j, p, i) {
      var m :| 0 <= m < i && j.ps[m] == p;
      assert j.ps[m] in j.ps;
    }
  }

  lemma Begins(j: Job)
    requires Sensible(j) && Spares(j)
    ensures OnCourse(j, 0)
  {
    hide TreeLike, ShallowFirst;
    var d := j.At(0);
    assert d == j.Start();
    forall q | q in j.goal && q !in j.over ensures q in d.standing && d.standing[q] == j.goal[q] {
      forall p | p in j.over ensures !(p <= q) {
        assert p <= q ==> p < q || p == q;
      }
    }
    forall q | q in d.standing ensures q in j.goal {
      assert q !in j.over;
    }
  }

  /** The scene holds a goal above the path at turn `i` exactly if the goal does: goals above it had their turn. */
  lemma GoalsStand(j: Job, i: nat, a: Path)
    requires Sensible(j) && i < |j.ps| && OnCourse(j, i) && a in j.goal && a < j.ps[i]
    ensures a in j.At(i).standing && j.At(i).standing[a] == j.goal[a]
  {
    DoneDepth(j, a, i);
  }

  lemma PendingFile(j: Job, i: nat, a: Path)
    requires i <= |j.ps| && OnCourse(j, i) && RecoveredTo(j, i) && a in j.At(i).standing && a !in j.goal
    ensures j.At(i).standing[a].File?
  {
    assert Recovered(j, a);
  }

  lemma LinksAgree(j: Job, i: nat)
    requires Sensible(j) && i < |j.ps| && OnCourse(j, i) && RecoveredTo(j, i)
    ensures LinkAbove(j.At(i).standing, j.ps[i]) <==> LinkAbove(j.goal, j.ps[i])
  {
    hide Coming, Done, Cleared, Posed, Backed, NoStrays;
    var d, p := j.At(i), j.ps[i];
    if LinkAbove(d.standing, p) {
      var a :| a in d.standing && a < p && d.standing[a].Link?;
      if a in j.goal { GoalsStand(j, i, a); } else { PendingFile(j, i, a); }
    }
    if LinkAbove(j.goal, p) {
      var a :| a in j.goal && a < p && j.goal[a].Link?;
      GoalsStand(j, i, a);
    }
  }

  /** A path brought back as the parent of the next one still stands. */
  lemma ParentPending(j: Job, i: nat, a: Path)
    requires Sensible(j) && i < |j.ps| && RecoveredTo(j, i)
    requires Coming(j, a) && a < j.ps[i] && |j.ps[i]| == |a| + 1
    ensures Pending(j, a, i)
  {
    hide Coming;
    assert a in j.over by { ComingInSet(j, a); }
    DoneDepth(j, a, i);
    forall m | 0 <= m < i && a < j.ps[m] ensures !Clean(j, j.ps[m]) {
      assert |j.ps[m]| <= |j.ps[i]|;
      assert Recovered(j, a);
    }
  }

  lemma ComingInSet(j: Job, p: Path)
    requires Coming(j, p)
    ensures p in j.over && p !in j.goal && p !in j.plan.recorded && Brings(j, p).Some?
    ensures p in j.plan.head || p in j.index
  {
  }

  lemma ParentsAgree(j: Job, i: nat)
    requires Sensible(j) && i < |j.ps| && OnCourse(j, i) && RecoveredTo(j, i)
    ensures var p := j.ps[i];
      LeafAsParent(j.At(i).standing, p) <==>
        LeafAsParent(j.goal, p) || (|p| > 1 && Coming(j, p[..|p| - 1]))
  {
    hide Coming, Done, Cleared, Posed, Backed, NoStrays;
    var d, p := j.At(i), j.ps[i];
    if |p| > 1 {
      var a := p[..|p| - 1];
      assert a < p;
      if a in j.goal { GoalsStand(j, i, a); }
      if Coming(j, a) { ParentPending(j, i, a); }
    }
  }

  /** What the turn at `i` should put at its path. */
  ghost function Expected(j: Job, p: Path): Option<Node> {
    if p in j.goal then Some(j.goal[p]) else if Coming(j, p) then Brings(j, p) else None
  }

  /** Nothing that was brought back stands above a recorded path at its turn. */
  lemma PendingAbove(j: Job, i: nat, a: Path)
    requires i < |j.ps| && RecoveredTo(j, i) && Pending(j, a, i) && a < j.ps[i]
    ensures j.ps[i] !in j.plan.recorded
  {
    hide Coming, Done;
    assert Recovered(j, a);
    var k: nat :| ClearsAt(j, a, k);
    assert k >= i;
  }

  lemma RecordedTurn(j: Job, i: nat)
    requires Sensible(j) && i < |j.ps| && OnCourse(j, i) && RecoveredTo(j, i)
    requires j.ps[i] in j.plan.recorded
    ensures Puts(j.plan, j.At(i), j.ps[i]) == Expected(j, j.ps[i]) && !Raises(j.plan, j.At(i), j.ps[i])
  {
    hide Coming, Done, Cleared, Pending;
    var d, p := j.At(i), j.ps[i];
    DoneDepth(j, p, i);
    LinksAgree(j, i);
    if p in j.goal {
      forall a | a in d.standing && a < p ensures a in j.goal {
        if Pending(j, a, i) { PendingAbove(j, i, a); }
      }
      forall a | a in j.goal ensures !(a < p) {}
    } else {
      assert !Coming(j, p) by { if Coming(j, p) { ComingInSet(j, p); } }
    }
  }

  /** A path of the index alone is still there at its turn exactly if no clean goal is above it. */
  lemma IndexAtTurn(j: Job, i: nat)
    requires Sensible(j) && i < |j.ps| && OnCourse(j, i) && j.ps[i] !in j.plan.head
    ensures var p := j.ps[i];
      && (p in j.At(i).index <==> p in j.index && !exists a :: Clean(j, a) && a < p)
      && (p in j.At(i).index ==> j.At(i).index[p] == j.index[p])
  {
    hide Coming, Done, Cleared, Pending;
    var p := j.ps[i];
    forall a | Clean(j, a) && a < p ensures Done(j, a, i) {
      DoneDepth(j, a, i);
    }
    forall a | Done(j, a, i) ensures !(p < a) {
      DoneDepth(j, a, i);
    }
  }

  /** A goal has no goal above it. */
  lemma GoalFacts(j: Job, p: Path)
    requires Sensible(j) && p in j.over && p in j.goal
    ensures !LinkAbove(j.goal, p) && !LeafAsParent(j.goal, p) && !exists a :: Clean(j, a) && a < p
    ensures p !in j.plan.recorded ==> Brings(j, p) == Some(j.goal[p])
  {
    hide Brings;
    assert |p| > 1 ==> p[..|p| - 1] < p;
  }

  lemma CheckoutTurn(j: Job, i: nat)
    requires Sensible(j) && i < |j.ps| && OnCourse(j, i) && RecoveredTo(j, i)
    requires j.ps[i] !in j.plan.recorded
    ensures Puts(j.plan, j.At(i), j.ps[i]) == Expected(j, j.ps[i]) && !Raises(j.plan, j.At(i), j.ps[i])
  {
    hide Posed, Backed, NoStrays, Done, Cleared, Pending, OnCourse, RecoveredTo, LinkAbove, LeafAsParent;
    var d, p := j.At(i), j.ps[i];
    SetMember(j, i);
    LinksAgree(j, i);
    ParentsAgree(j, i);
    if p !in j.plan.head { IndexAtTurn(j, i); }
    CourseUnraised(j, i);
    if p in j.goal {
      GoalFacts(j, p);
      if |p| > 1 && Coming(j, p[..|p| - 1]) {
        ParentPending(j, i, p[..|p| - 1]);
        PendingRecovered(j, i, p[..|p| - 1]);
      }
    }
  }

  lemma CourseUnraised(j: Job, i: nat)
    requires i <= |j.ps| && OnCourse(j, i)
    ensures !j.At(i).raised
  {
  }

  lemma PendingRecovered(j: Job, i: nat, a: Path)
    requires i <= |j.ps| && RecoveredTo(j, i) && Pending(j, a, i)
    ensures Recovered(j, a)
  {
  }

  /** On course, every turn puts what is expected, and none raises. */
  lemma TurnIsExpected(j: Job, i: nat)
    requires Sensible(j) && i < |j.ps| && OnCourse(j, i) && RecoveredTo(j, i)
    ensures Puts(j.plan, j.At(i), j.ps[i]) == Expected(j, j.ps[i]) && !Raises(j.plan, j.At(i), j.ps[i])
  {
    if j.ps[i] in j.plan.recorded { RecordedTurn(j, i); } else { CheckoutTurn(j, i); }
  }

  /** The expected turn, in terms of what stands. */
  lemma NextScene(j: Job, i: nat, q: Path)
    requires Sensible(j) && i < |j.ps| && OnCourse(j, i) && RecoveredTo(j, i)
    ensures var d, e, p, n := j.At(i), j.At(i + 1), j.ps[i], Expected(j, j.ps[i]);
      && !e.raised
      && (q != p ==> (q in e.standing <==> q in d.standing && !(n.Some? && q < p)))
      && (q != p && q in e.standing ==> e.standing[q] == d.standing[q])
      && (p in e.standing <==> n.Some?) && (n.Some? ==> e.standing[p] == n.value)
  {
    hide Posed, Backed, NoStrays, OnCourse, RecoveredTo, Puts, Raises, Expected;
    var d, p := j.At(i), j.ps[i];
    TurnIsExpected(j, i);
    CourseUnraised(j, i);
    TurnLooks(j.plan, d, p, q);
    TurnLooks(j.plan, d, p, p);
    assert p !in d.standing by { AbsentAtTurn(j, i); }
  }

  lemma AbsentAtTurn(j: Job, i: nat)
    requires Posed(j) && i < |j.ps|
    ensures j.ps[i] !in j.At(i).standing
  {
    AfterShape(j.plan, j.Start(), j.ps, j.over, i);
  }

  lemma GoalAlone(j: Job, p: Path, q: Path)
    requires Sensible(j) && p in j.goal && q < p
    ensures q !in j.goal
  {
  }

  lemma StandingOnCourse(j: Job, i: nat, q: Path)
    requires i < |j.ps| && OnCourse(j, i) && RecoveredTo(j, i + 1) && q in j.At(i).standing && q !in j.goal
    ensures Pending(j, q, i) && Coming(j, q) && Recovered(j, q)
  {
    hide Coming, Recovered, Cleared;
    DoneNext(j, q, i);
  }

  /** What the turn at `i` clears away was brought back, and is cleared from then on. */
  lemma ClearsOnlyPending(j: Job, i: nat, q: Path)
    requires Sensible(j) && i < |j.ps| && OnCourse(j, i) && RecoveredTo(j, i + 1)
    requires q in j.At(i).standing && q < j.ps[i] && Expected(j, j.ps[i]).Some?
    ensures q !in j.goal && Clean(j, j.ps[i])
  {
    hide Done, Cleared, OnCourse, Posed, Backed, NoStrays, Coming, Recovered, Brings, RecoveredTo;
    var p := j.ps[i];
    SetMember(j, i);
    PendingEarlier(j, i);
    if p in j.goal {
      GoalAlone(j, p, q);
      StandingOnCourse(j, i, q);
      if p in j.plan.recorded {
        PendingAbove(j, i, q);
      } else if p !in j.plan.head {
        KeptApart(j, p, q);
      }
    } else {
      NowRecovered(j, i);
      ComingApart(j, p, q);
      if q !in j.goal { StandingOnCourse(j, i, q); }
    }
  }

  lemma NowRecovered(j: Job, i: nat)
    requires i < |j.ps| && RecoveredTo(j, i + 1) && Coming(j, j.ps[i])
    ensures Recovered(j, j.ps[i])
  {
    hide Coming, Recovered;
    DoneNext(j, j.ps[i], i);
  }

  lemma PendingEarlier(j: Job, i: nat)
    requires i < |j.ps| && RecoveredTo(j, i + 1)
    ensures RecoveredTo(j, i)
  {
    forall p | Done(j, p, i) ensures Done(j, p, i + 1) {
      DoneNext(j, p, i);
    }
  }

  /** A path that is brought back and cleared again has neither a goal nor another such path above it. */
  lemma ComingApart(j: Job, p: Path, q: Path)
    requires Sensible(j) && Coming(j, p) && Recovered(j, p) && q < p
    ensures q !in j.goal && !(Coming(j, q) && Recovered(j, q))
  {
    hide Coming;
    var k: nat :| ClearsAt(j, p, k);
    var a := j.ps[k];
    PrefixTrans(q, p, a);
    ComingIndexed(j, p);
    if Coming(j, q) && Recovered(j, q) { ComingIndexed(j, q); }
  }

  /** A goal that comes back from the index has nothing above it that is brought back and cleared again. */
  lemma KeptApart(j: Job, p: Path, q: Path)
    requires Sensible(j) && p in j.over && p in j.goal && p !in j.plan.recorded && p !in j.plan.head && q < p
    ensures !(Coming(j, q) && Recovered(j, q))
  {
    hide Coming, Recovered;
    GoalFacts(j, p);
    if Coming(j, q) && Recovered(j, q) { ComingIndexed(j, q); }
  }

  /** What is brought back and cleared again comes from the index: HEAD has no file above a file. */
  lemma ComingIndexed(j: Job, p: Path)
    requires Sensible(j) && Coming(j, p) && Recovered(j, p)
    ensures p !in j.plan.head && p in j.index
  {
    hide Coming;
    ComingInSet(j, p);
    var k: nat :| ClearsAt(j, p, k);
    assert j.ps[k] in j.plan.head;
  }

  lemma StepStanding(j: Job, i: nat)
    requires Sensible(j) && i < |j.ps| && OnCourse(j, i) && RecoveredTo(j, i + 1)
    ensures var e := j.At(i + 1);
      && !e.raised
      && (forall q :: q in j.goal && (q in j.over ==> Done(j, q, i + 1)) ==>
            q in e.standing && e.standing[q] == j.goal[q])
      && (forall q :: q in e.standing ==> q in j.goal || (Pending(j, q, i + 1) && Brings(j, q) == Some(e.standing[q])))
      && (forall p :: Pending(j, p, i + 1) ==> p in e.standing)
  {
    hide Posed, Backed, NoStrays, RecoveredTo, Done, Cleared, Coming, Brings, Clean;
    PendingEarlier(j, i);
    var d, e, p := j.At(i), j.At(i + 1), j.ps[i];
    NextScene(j, i, p);
    forall q | q in j.goal && (q in j.over ==> Done(j, q, i + 1))
      ensures q in e.standing && e.standing[q] == j.goal[q]
    {
      StepGoal(j, i, q);
    }
    forall q | q in e.standing && q !in j.goal ensures Pending(j, q, i + 1) && Brings(j, q) == Some(e.standing[q]) {
      StepPending(j, i, q);
    }
    forall q | Pending(j, q, i + 1) ensures q in e.standing {
      StepStands(j, i, q);
    }
  }

  lemma StepGoal(j: Job, i: nat, q: Path)
    requires Sensible(j) && i < |j.ps| && OnCourse(j, i) && RecoveredTo(j, i + 1)
    requires q in j.goal && (q in j.over ==> Done(j, q, i + 1))
    ensures q in j.At(i + 1).standing && j.At(i + 1).standing[q] == j.goal[q]
  {
    hide Posed, Backed, NoStrays, RecoveredTo, Done, Cleared, Coming;
    PendingEarlier(j, i);
    NextScene(j, i, q);
    DoneNext(j, q, i);
    if q != j.ps[i] && q < j.ps[i] && Expected(j, j.ps[i]).Some? { ClearsOnlyPending(j, i, q); }
  }

  lemma StepPending(j: Job, i: nat, q: Path)
    requires Sensible(j) && i < |j.ps| && OnCourse(j, i) && RecoveredTo(j, i + 1)
    requires q in j.At(i + 1).standing && q !in j.goal
    ensures Pending(j, q, i + 1) && Brings(j, q) == Some(j.At(i + 1).standing[q])
  {
    hide Posed, Backed, NoStrays, RecoveredTo, Done, Cleared, Coming, Brings, Clean;
    PendingEarlier(j, i);
    NextScene(j, i, q);
    DoneNext(j, q, i);
    if q == j.ps[i] {
      NotYetCleared(j, q, i);
    } else if Clean(j, j.ps[i]) {
      assert j.ps[i] in j.goal by { CleanIsGoal(j, j.ps[i]); }
    }
  }

  lemma CleanIsGoal(j: Job, q: Path)
    requires Clean(j, q)
    ensures q in j.goal
  {
  }

  /** Nothing below the path at turn `i` had its turn. */
  lemma NotYetCleared(j: Job, p: Path, i: nat)
    requires Sensible(j) && i < |j.ps| && p == j.ps[i]
    ensures !Cleared(j, p, i + 1)
  {
    hide Clean;
  }

  lemma StepStands(j: Job, i: nat, q: Path)
    requires Sensible(j) && i < |j.ps| && OnCourse(j, i) && RecoveredTo(j, i + 1)
    requires Pending(j, q, i + 1)
    ensures q in j.At(i + 1).standing
  {
    hide Posed, Backed, NoStrays, RecoveredTo, Done, Cleared, Coming;
    PendingEarlier(j, i);
    NextScene(j, i, q);
    DoneNext(j, q, i);
    if q == j.ps[i] {
      ComingInSet(j, q);
    } else if q < j.ps[i] && Expected(j, j.ps[i]).Some? {
      ClearsOnlyPending(j, i, q);
    }
  }

  /** The turn at `i` stages its path exactly if the path is a clean goal. */
  lemma NextIndex(j: Job, i: nat)
    requires Sensible(j) && i < |j.ps| && OnCourse(j, i) && RecoveredTo(j, i + 1)
    ensures j.At(i + 1).index ==
      if Clean(j, j.ps[i]) then Stage(j.At(i).index, j.ps[i], j.goal[j.ps[i]]) else j.At(i).index
  {
    hide Stage, Coming, Raises;
    var p := j.ps[i];
    PendingEarlier(j, i);
    TurnIsExpected(j, i);
    DoneNext(j, p, i);
    DoneDepth(j, p, i);
    hide Puts;
    if p !in j.goal && Coming(j, p) { ComingIndexed(j, p); }
  }

  lemma DroppedNext(j: Job, q: Path, i: nat)
    requires i < |j.ps|
    ensures Dropped(j, q, i + 1) <==> Dropped(j, q, i) || (Clean(j, j.ps[i]) && (j.ps[i] < q || q < j.ps[i]))
  {
    hide Clean, Done;
    forall a ensures Done(j, a, i + 1) <==> Done(j, a, i) || a == j.ps[i] {
      DoneNext(j, a, i);
    }
  }

  lemma StepIndex(j: Job, i: nat)
    requires Sensible(j) && i < |j.ps| && OnCourse(j, i) && RecoveredTo(j, i + 1)
    ensures var e := j.At(i + 1);
      && (forall q :: q in e.index ==> q in j.plan.head || (q in j.index && e.index[q] == j.index[q]))
      && (forall q :: q !in j.plan.head && q in j.index ==> (q in e.index <==> !Dropped(j, q, i + 1)))
  {
    hide Dropped, Done, Cleared, Coming, RecoveredTo, Pending;
    NextIndex(j, i);
    forall q ensures Dropped(j, q, i + 1) <==> Dropped(j, q, i) || (Clean(j, j.ps[i]) && (j.ps[i] < q || q < j.ps[i])) {
      DroppedNext(j, q, i);
    }
  }

  lemma {:induction false} StaysOnCourse(j: Job, i: nat)
    requires Sensible(j) && Spares(j) && i <= |j.ps| && RecoveredTo(j, i)
    ensures OnCourse(j, i)
  {
    hide Posed, Backed, NoStrays, Spares, RecoveredTo;
    if i == 0 {
      Begins(j);
    } else {
      PendingEarlier(j, i - 1);
      StaysOnCourse(j, i - 1);
      StepStanding(j, i - 1);
      StepIndex(j, i - 1);
    }
  }

  /** Ended without an exception, with exactly the goal. */
  ghost predicate Settles(j: Job) {
    !j.At(|j.ps|).raised && j.At(|j.ps|).standing == j.goal
  }

  lemma AllDone(j: Job, p: Path)
    requires ShallowFirst(j.ps, j.over) && p in j.over
    ensures Done(j, p, |j.ps|)
  {
    assert p in j.ps;
  }

  /** When everything brought back is cleared again, the rollback settles. */
  lemma RecoveredSettles(j: Job)
    requires Sensible(j) && Spares(j) && forall p :: Coming(j, p) ==> Recovered(j, p)
    ensures Settles(j)
  {
    hide Coming;
    StaysOnCourse(j, |j.ps|);
    var d := j.At(|j.ps|);
    forall q | q in j.goal ensures q in d.standing && d.standing[q] == j.goal[q] {
      if q in j.over { AllDone(j, q); }
    }
    forall q | Coming(j, q) ensures Cleared(j, q, |j.ps|) {
      RecoveredIsCleared(j, q);
    }
  }

  lemma RecoveredIsCleared(j: Job, q: Path)
    requires Recovered(j, q)
    ensures Cleared(j, q, |j.ps|)
  {
    var k: nat :| ClearsAt(j, q, k);
    assert Clean(j, j.ps[k]) && q < j.ps[k];
  }

  // ----- the condition is necessary -----

  /** Only paths of the set are ever put. */
  lemma {:induction false} OthersOnlyLeave(j: Job, q: Path, i: nat)
    requires i <= |j.ps| && (forall m :: 0 <= m < i ==> j.ps[m] != q) && q in j.At(i).standing
    ensures q in j.Start().standing && j.At(i).standing[q] == j.Start().standing[q]
  {
    if i > 0 {
      TurnLooks(j.plan, j.At(i - 1), j.ps[i - 1], q);
      OthersOnlyLeave(j, q, i - 1);
    }
  }

  lemma {:induction false} LateOnlyLeave(j: Job, q: Path, k: nat, i: nat)
    requires k <= i <= |j.ps| && (forall m :: k <= m < i ==> j.ps[m] != q) && q in j.At(i).standing
    ensures q in j.At(k).standing
    decreases i
  {
    if i > k {
      TurnLooks(j.plan, j.At(i - 1), j.ps[i - 1], q);
      LateOnlyLeave(j, q, k, i - 1);
    }
  }

  lemma {:induction false} RaisedStays(j: Job, k: nat, i: nat)
    requires k <= i <= |j.ps| && j.At(k).raised
    ensures j.At(i).raised
    decreases i
  {
    if i > k {
      RaisedStays(j, k, i - 1);
    }
  }

  lemma SettlesSpares(j: Job)
    requires Posed(j) && Settles(j)
    ensures Spares(j)
  {
    hide TreeLike;
    forall p, q | p in j.over && q in j.goal && q !in j.over ensures !(p < q) {
      assert forall m :: 0 <= m < |j.ps| ==> j.ps[m] in j.ps;
      OthersOnlyLeave(j, q, |j.ps|);
    }
  }

  lemma {:induction false} IndexKeys(j: Job, k: nat, i: nat)
    requires k <= i <= |j.ps|
    ensures forall q :: q in j.At(i).index ==> q in j.At(k).index || q in j.plan.head
    decreases i
  {
    hide Puts;
    if i > k {
      IndexKeys(j, k, i - 1);
    }
  }

  /** In a rollback that settles, a path that stands without being a goal falls at a turn below it, and stands
      until then. */
  lemma {:induction false} Falls(j: Job, p: Path, k: nat) returns (m: nat)
    requires Settles(j) && k <= |j.ps| && p !in j.goal && p in j.At(k).standing
    requires forall x :: k <= x < |j.ps| ==> j.ps[x] != p
    ensures k <= m < |j.ps| && p < j.ps[m] && Puts(j.plan, j.At(m), j.ps[m]).Some?
    ensures forall x :: k <= x <= m ==> p in j.At(x).standing && j.At(x).standing[p] == j.At(k).standing[p]
    decreases |j.ps| - k
  {
    hide Puts, Turn;
    assert k < |j.ps|;
    TurnLooks(j.plan, j.At(k), j.ps[k], p);
    assert j.At(k + 1) == Turn(j.plan, j.At(k), j.ps[k]);
    if p in j.At(k + 1).standing {
      m := Falls(j, p, k + 1);
    } else {
      m := k;
    }
  }

  /** A path that stands is the only one above what lies below it. */
  lemma OnlyAbove(j: Job, p: Path, x: nat)
    requires Posed(j) && x < |j.ps| && p in j.At(x).standing && p < j.ps[x]
    ensures forall a :: a in j.At(x).standing && a < j.ps[x] ==> a == p
  {
    AfterShape(j.plan, j.Start(), j.ps, j.over, x);
    forall a | a in j.At(x).standing && a < j.ps[x] ensures a == p {
      PrefixTotal(a, p, j.ps[x]);
    }
  }

  lemma NeverRaised(j: Job, x: nat)
    requires Settles(j) && x <= |j.ps|
    ensures !j.At(x).raised
  {
    if j.At(x).raised { RaisedStays(j, x, |j.ps|); }
  }

  lemma RaisingNext(j: Job, x: nat)
    requires x < |j.ps| && Raises(j.plan, j.At(x), j.ps[x])
    ensures j.At(x + 1).raised
  {
  }

  /** Below a file that stands, no turn puts a recorded path or a child of the file. */
  lemma BelowStanding(j: Job, p: Path, x: nat)
    requires Posed(j) && Settles(j) && x < |j.ps| && p in j.At(x).standing && p < j.ps[x]
    ensures Puts(j.plan, j.At(x), j.ps[x]).Some? ==> j.At(x).standing[p].File? && |j.ps[x]| >= |p| + 2
    ensures j.At(x).standing[p].File? ==> j.ps[x] !in j.plan.recorded
  {
    hide Posed, Backed, NoStrays, Settles, After;
    var d, q := j.At(x), j.ps[x];
    OnlyAbove(j, p, x);
    NeverRaised(j, x);
    NeverRaised(j, x + 1);
    NodesStand(j, p, x);
    if Raises(j.plan, d, q) { RaisingNext(j, x); }
    if |q| == |p| + 1 { assert q[..|q| - 1] == p; }
  }

  lemma NodesStand(j: Job, p: Path, x: nat)
    requires Posed(j) && x <= |j.ps| && p in j.At(x).standing
    ensures j.At(x).standing[p] != Dir && p != []
  {
    AfterShape(j.plan, j.Start(), j.ps, j.over, x);
  }

  /** What is put below a path from HEAD or the index comes from HEAD, and nothing is below that. */
  lemma PutBelow(j: Job, i: nat, m: nat)
    requires Posed(j) && Settles(j) && i < m < |j.ps| && j.ps[i] < j.ps[m]
    requires j.ps[i] !in j.plan.recorded && Puts(j.plan, j.At(i), j.ps[i]).Some?
    requires j.ps[m] !in j.plan.recorded && Puts(j.plan, j.At(m), j.ps[m]).Some?
    ensures j.ps[i] !in j.plan.head && j.ps[m] in j.plan.head
  {
    var p, q := j.ps[i], j.ps[m];
    IndexKeys(j, 0, m);
    IndexKeys(j, i + 1, m);
    IndexKeys(j, 0, i);
    assert j.At(0) == j.Start();
    if p in j.plan.head { StagedAlone(j, i, q); }
  }

  lemma StagedAlone(j: Job, i: nat, q: Path)
    requires i < |j.ps| && j.ps[i] !in j.plan.recorded && Puts(j.plan, j.At(i), j.ps[i]).Some?
    requires j.ps[i] in j.plan.head && j.ps[i] < q
    ensures q !in j.At(i + 1).index
  {
  }

  /** The first turn that puts something below a path brought back is the checkout of a clean goal. */
  lemma FallsToGoal(j: Job, i: nat, m: nat)
    requires Posed(j) && Settles(j) && i < m < |j.ps| && j.ps[i] < j.ps[m]
    requires j.ps[i] !in j.plan.recorded && Puts(j.plan, j.At(i), j.ps[i]).Some?
    requires j.ps[m] !in j.plan.recorded && Puts(j.plan, j.At(m), j.ps[m]).Some?
    ensures j.ps[m] in j.goal
  {
    hide Puts, Posed, Backed, NoStrays, Settles, Turn;
    var q := j.ps[m];
    PutBelow(j, i, m);
    if q !in j.goal {
      TurnLooks(j.plan, j.At(m), q, q);
      assert j.At(m + 1) == Turn(j.plan, j.At(m), q);
      NoRepeat(j, m);
      var x := Falls(j, q, m + 1);
      BelowStanding(j, q, x);
      PutBelow(j, m, x);
    }
  }

  lemma NoRepeat(j: Job, m: nat)
    requires Posed(j) && m < |j.ps|
    ensures forall x :: m < x < |j.ps| ==> j.ps[x] != j.ps[m] && |j.ps[m]| <= |j.ps[x]|
    ensures forall x :: 0 <= x <= m ==> !(j.ps[m] < j.ps[x])
  {
    hide TreeLike;
  }

  /** The turn `m` at which the path brought back at `i` falls. */
  lemma FallIsClearing(j: Job, i: nat) returns (m: nat)
    requires Sensible(j) && Settles(j) && i < |j.ps| && RecoveredTo(j, i) && Coming(j, j.ps[i])
    ensures i < m < |j.ps| && ClearsAt(j, j.ps[i], m) && Brings(j, j.ps[i]).value.File?
    ensures |j.ps[m]| >= |j.ps[i]| + 2
    ensures forall x :: i < x <= m ==>
      j.ps[i] in j.At(x).standing && j.At(x).standing[j.ps[i]] == Brings(j, j.ps[i]).value
  {
    hide Puts, Posed, Backed, NoStrays, Settles, Turn, RecoveredTo, Coming, OnCourse, Brings, TreeLike;
    var p := j.ps[i];
    BroughtBack(j, i);
    ComingInSet(j, p);
    NoRepeat(j, i);
    m := Falls(j, p, i + 1);
    BelowStanding(j, p, m);
    FallsToGoal(j, i, m);
    PutBelow(j, i, m);
    SetMember(j, m);
    forall x | 0 <= x < m && p < j.ps[x] ensures j.ps[x] !in j.plan.recorded {
      if x > i { BelowStanding(j, p, x); }
    }
  }

  lemma SetMember(j: Job, m: nat)
    requires Posed(j) && m < |j.ps|
    ensures j.ps[m] in j.over
  {
    assert j.ps[m] in j.ps;
  }

  /** A path that comes is put at its turn. */
  lemma BroughtBack(j: Job, i: nat)
    requires Sensible(j) && Settles(j) && i < |j.ps| && RecoveredTo(j, i) && Coming(j, j.ps[i])
    ensures Puts(j.plan, j.At(i), j.ps[i]) == Brings(j, j.ps[i])
    ensures j.ps[i] in j.At(i + 1).standing && j.At(i + 1).standing[j.ps[i]] == Brings(j, j.ps[i]).value
  {
    hide Puts, Posed, Backed, NoStrays, Settles, Turn, RecoveredTo, OnCourse, Brings;
    var p := j.ps[i];
    SettlesSpares(j);
    StaysOnCourse(j, i);
    TurnIsExpected(j, i);
    ComingInSet(j, p);
    TurnLooks(j.plan, j.At(i), p, p);
    assert j.At(i + 1) == Turn(j.plan, j.At(i), p);
  }

  lemma ComingRecovers(j: Job, i: nat)
    requires Sensible(j) && Settles(j) && i < |j.ps| && RecoveredTo(j, i) && Coming(j, j.ps[i])
    ensures Recovered(j, j.ps[i])
  {
    hide Puts, Posed, Backed, NoStrays, Settles, Turn, RecoveredTo, OnCourse, Brings, Coming, Clean, ClearsAt;
    var p := j.ps[i];
    ComingInSet(j, p);
    var m := FallIsClearing(j, i);
    forall q | q in j.goal && p < q ensures |q| >= |p| + 2 {
      GoalBelow(j, i, m, q);
    }
  }

  /** A goal one level below a standing file is never put. */
  lemma GoalBelow(j: Job, i: nat, m: nat, q: Path)
    requires Sensible(j) && Settles(j) && i < m < |j.ps| && q in j.goal && j.ps[i] < q
    requires |j.ps[m]| >= |j.ps[i]| + 2
    requires forall x :: i < x <= m ==> j.ps[i] in j.At(x).standing && j.At(x).standing[j.ps[i]].File?
    ensures |q| >= |j.ps[i]| + 2
  {
    hide Puts, Posed, Backed, NoStrays, Turn, Coming, TreeLike;
    var p := j.ps[i];
    SettlesSpares(j);
    SetMember(j, i);
    assert q in j.over;
    var y := Position(j, q);
    NoRepeat(j, i);
    NoRepeat(j, y);
    NoRepeat(j, m);
    if |q| == |p| + 1 {
      assert i < y < m;
      BelowStanding(j, p, y);
      TurnLooks(j.plan, j.At(y), q, q);
      AbsentAtTurn(j, y);
      assert j.At(y + 1) == Turn(j.plan, j.At(y), q);
      assert q !in j.At(y + 1).standing;
      LateOnlyLeave(j, q, y + 1, |j.ps|);
    }
  }

  lemma Position(j: Job, q: Path) returns (y: nat)
    requires Posed(j) && q in j.over
    ensures y < |j.ps| && j.ps[y] == q
  {
    assert q in j.ps;
    y :| 0 <= y < |j.ps| && j.ps[y] == q;
  }

  lemma {:induction false} SettlesRecovers(j: Job, i: nat)
    requires Sensible(j) && Settles(j) && i <= |j.ps|
    ensures RecoveredTo(j, i)
  {
    hide Posed, Backed, NoStrays, Settles, Coming, Recovered;
    if i > 0 {
      SettlesRecovers(j, i - 1);
      forall p | Coming(j, p) && Done(j, p, i) ensures Recovered(j, p) {
        DoneNext(j, p, i - 1);
        if p == j.ps[i - 1] { ComingRecovers(j, i - 1); }
      }
    }
  }

  // ----- goals that nothing brings back, and what is written back against the goal -----

  /** What ends at a path of the set was put there at its turn. */
  lemma EndsAsPut(j: Job, i: nat)
    requires Posed(j) && Settles(j) && i < |j.ps| && j.ps[i] in j.goal
    ensures Puts(j.plan, j.At(i), j.ps[i]) == Some(j.goal[j.ps[i]])
  {
    hide Puts, Turn, Posed;
    var p := j.ps[i];
    NoRepeat(j, i);
    AbsentAtTurn(j, i);
    TurnLooks(j.plan, j.At(i), p, p);
    assert j.At(i + 1) == Turn(j.plan, j.At(i), p);
    LateSame(j, p, i + 1, |j.ps|);
  }

  lemma {:induction false} LateSame(j: Job, q: Path, k: nat, i: nat)
    requires k <= i <= |j.ps| && (forall m :: k <= m < i ==> j.ps[m] != q) && q in j.At(i).standing
    ensures q in j.At(k).standing && j.At(k).standing[q] == j.At(i).standing[q]
    decreases i
  {
    if i > k {
      TurnLooks(j.plan, j.At(i - 1), j.ps[i - 1], q);
      LateSame(j, q, k, i - 1);
    }
  }

  lemma {:induction false} IndexSame(j: Job, i: nat, q: Path)
    requires i <= |j.ps| && q in j.At(i).index && q !in j.plan.head
    ensures q in j.index && j.At(i).index[q] == j.index[q]
  {
    hide Puts;
    if i > 0 { IndexSame(j, i - 1, q); }
  }

  lemma SettlesBacked(j: Job)
    requires Posed(j) && Settles(j)
    ensures Backed(j)
  {
    hide Posed, Settles;
    forall p | p in j.over && p in j.goal && p !in j.plan.recorded ensures Brings(j, p) == Some(j.goal[p]) {
      var i := Position(j, p);
      EndsAsPut(j, i);
      if p in j.At(i).index && p !in j.plan.head { IndexSame(j, i, p); }
    }
  }

  /** A recorded path that is no goal is not kept out by anything that is cleared later. */
  lemma SettlesNoStrays(j: Job)
    requires Posed(j) && Settles(j)
    ensures NoStrays(j)
  {
    hide Posed, Settles, Puts, Turn;
    forall p | Stray(j, p) ensures LinkAbove(j.goal, p) {
      var i := Position(j, p);
      if !LinkAbove(j.goal, p) { StrayStands(j, i); }
    }
  }

  /** A link that stands above a path at its turn is there to stay. */
  lemma LinkStays(j: Job, i: nat, a: Path)
    requires Posed(j) && Settles(j) && i < |j.ps| && a in j.At(i).standing && a < j.ps[i]
    requires j.At(i).standing[a].Link?
    ensures LinkAbove(j.goal, j.ps[i])
  {
    hide Posed, Turn, Puts;
    NoRepeat(j, i);
    if a in j.goal {
      LateSame(j, a, i, |j.ps|);
    } else {
      var m := Falls(j, a, i);
      BelowStanding(j, a, m);
    }
  }

  /** A recorded path that no link is above is written at its turn, or raises. */
  lemma StrayPut(j: Job, i: nat)
    requires Posed(j) && Settles(j) && i < |j.ps| && Stray(j, j.ps[i]) && !LinkAbove(j.At(i).standing, j.ps[i])
    ensures j.ps[i] in j.At(i + 1).standing
  {
    hide Posed, Settles, Turn;
    var d, p := j.At(i), j.ps[i];
    NeverRaised(j, i);
    NeverRaised(j, i + 1);
    if Raises(j.plan, d, p) { RaisingNext(j, i); }
    TurnLooks(j.plan, d, p, p);
    assert j.At(i + 1) == Turn(j.plan, d, p);
  }

  lemma StrayApart(j: Job, p: Path, q: Path)
    requires Posed(j) && Stray(j, p) && q in j.over && p < q
    ensures q !in j.goal
  {
  }

  lemma StrayStands(j: Job, i: nat)
    requires Posed(j) && Settles(j) && i < |j.ps| && Stray(j, j.ps[i])
    ensures LinkAbove(j.goal, j.ps[i])
  {
    hide Posed, Settles, Puts, Turn, Raises;
    var d, p := j.At(i), j.ps[i];
    if a :| a in d.standing && a < p && d.standing[a].Link? {
      LinkStays(j, i, a);
    } else {
      StrayPut(j, i);
      NoRepeat(j, i);
      var m := Falls(j, p, i + 1);
      BelowStanding(j, p, m);
      SetMember(j, m);
      StrayApart(j, p, j.ps[m]);
      NoRepeat(j, m);
      TurnLooks(j.plan, j.At(m), j.ps[m], j.ps[m]);
      assert j.At(m + 1) == Turn(j.plan, j.At(m), j.ps[m]);
      var x := Falls(j, j.ps[m], m + 1);
      BelowStanding(j, j.ps[m], x);
      FallsToGoal(j, m, x);
      SetMember(j, x);
      StrayApart(j, p, j.ps[x]);
    }
  }

  /** The exact condition: a rollback ends, without an exception, with exactly its goal if and only if every goal
      of the set is recorded or brought by a checkout, nothing recorded is written back that should not be,
      nothing that should stay lies below a path of the set, and everything a checkout brings back against the
      goal is cleared away again. */
  lemma SettlesExactly(j: Job)
    requires Posed(j)
    ensures Settles(j) <==>
      Backed(j) && NoStrays(j) && Spares(j) && forall p :: Coming(j, p) ==> Recovered(j, p)
  {
    hide Posed, Backed, NoStrays, Settles, Spares, Coming, Recovered;
    if Settles(j) {
      SettlesBacked(j);
      SettlesNoStrays(j);
      SettlesSpares(j);
      SettlesRecovers(j, |j.ps|);
      forall p | Coming(j, p) ensures Recovered(j, p) {
        ComingIsDone(j, p);
      }
    }
    if Backed(j) && NoStrays(j) && Spares(j) && forall p :: Coming(j, p) ==> Recovered(j, p) {
      RecoveredSettles(j);
    }
  }

  lemma ComingIsDone(j: Job, p: Path)
    requires Sensible(j) && Coming(j, p)
    ensures Done(j, p, |j.ps|)
  {
    AllDone(j, p);
  }
}
