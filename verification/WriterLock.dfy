/** The single-writer lock as interleaved steps of any number of processes, any of which may die at any
    moment. The lock is a file: created exclusively, then filled with the holder's process id, unlinked to
    release it, and unlinked by others once its holder is dead. Process ids are not reused. */
module WriterLock {
  import opened Wrappers

  type Pid = nat

  /** The lock file: `owner` created it; until it writes its id the content is empty. */
  datatype LockFile = LockFile(owner: Pid, written: bool)

  /** Where a process stands in the lock protocol. */
  datatype Place =
    | Outside                     // neither holds the lock nor tries for it
    | Trying                      // in `acquire`, about to try again
    | Opened                      // created the file, has not written its id
    | Holding                     // `_held`: acquired and not released
    | Reading                     // the file existed; about to read it
    | Judging(seen: Option<Pid>)  // read it: an id, or no id yet
    | Condemned(victim: Pid)      // found that id dead, about to unlink
    | Waiting                     // attempt failed; about to read the file once more
    | Refused                     // raised `LockHeld`

  datatype World = World(file: Option<LockFile>, place: map<Pid, Place>, dead: set<Pid>)

  function At(w: World, p: Pid): Place {
    if p in w.place then w.place[p] else Outside
  }

  function Move(w: World, p: Pid, to: Place): World {
    w.(place := w.place[p := to])
  }

  predicate Live(w: World, p: Pid) {
    p !in w.dead
  }

  /** Between a successful open and the release. */
  predicate Critical(w: World, p: Pid) {
    Live(w, p) && (At(w, p) == Opened || At(w, p) == Holding)
  }

  /** At most one live process is in its critical section. */
  ghost predicate Exclusive(w: World) {
    forall p, q :: Critical(w, p) && Critical(w, q) ==> p == q
  }

  // ----- the steps, one file operation each -----

  datatype Action =
    | Begin             // `acquire` is called
    | Open              // `os.open(O_CREAT | O_EXCL)`
    | WriteId           // `os.write` and `os.close`
    | Read              // `_holder`
    | Judge             // `_pid_alive`
    | Unlink            // the unlink of `_reclaim`
    | Look(wait: bool)  // `_wait_error`: read again, then retry or raise
    | Release
    | Crash

  predicate Enabled(w: World, p: Pid, a: Action) {
    Live(w, p) &&
    match a
    case Begin => At(w, p) == Outside || At(w, p) == Refused
    case Open => At(w, p) == Trying
    case WriteId => At(w, p) == Opened
    case Read => At(w, p) == Reading
    case Judge => At(w, p).Judging?
    case Unlink => At(w, p).Condemned?
    case Look(_) => At(w, p) == Waiting
    case Release => At(w, p) == Holding
    case Crash => true
  }

  /** A step of `p` changes no place but its own. */
  lemma StepFrame(w: World, p: Pid, a: Action, q: Pid)
    requires Enabled(w, p, a) && q != p
    ensures At(Step(w, p, a), q) == At(w, q)
    ensures Live(Step(w, p, a), q) == Live(w, q)
  {
  }

  /** What `_holder` returns of an existing file: an id, or nothing readable yet. */
  function Content(f: LockFile): Option<Pid> {
    if f.written then Some(f.owner) else None
  }

  function Step(w: World, p: Pid, a: Action): World
    requires Enabled(w, p, a)
  {
    match a
    case Begin => Move(w, p, Trying)
    case Open =>
      if w.file.None? then Move(w.(file := Some(LockFile(p, false))), p, Opened) else Move(w, p, Reading)
    case WriteId =>
      // the write goes to the file that was opened, even if its name is gone
      var mine := w.file.Some? && w.file.value.owner == p;
      Move(if mine then w.(file := Some(LockFile(p, true))) else w, p, Holding)
    case Read =>
      if w.file.None? then Move(w, p, Waiting) else Move(w, p, Judging(Content(w.file.value)))
    case Judge =>
      var seen := At(w, p).seen;
      if seen.Some? && !Live(w, seen.value) then Move(w, p, Condemned(seen.value)) else Move(w, p, Waiting)
    case Unlink => Move(w.(file := None), p, Waiting)
    case Look(wait) => if w.file.None? || wait then Move(w, p, Trying) else Move(w, p, Refused)
    case Release => Move(w.(file := None), p, Outside)
    case Crash => w.(dead := w.dead + {p})
  }

  /** Nobody is in the protocol; a lock file left over belongs to a dead process. */
  ghost predicate Init(w: World) {
    w.place == map[] && (w.file.Some? ==> w.file.value.owner in w.dead)
  }

  type Run = seq<(Pid, Action)>

  /** The worlds of a run: `Reaches(w, run, u)` when the run leads from `w` to `u` by enabled steps. */
  ghost predicate Reaches(w: World, run: Run, u: World)
    decreases |run|
  {
    if run == [] then w == u
    else Enabled(w, run[0].0, run[0].1) && Reaches(Step(w, run[0].0, run[0].1), run[1..], u)
  }

  // ----- safety -----

  /** The lock file is exactly the mark of the one live process in its critical section. */
  ghost predicate Marked(w: World) {
    && (forall p :: Critical(w, p) ==> w.file == Some(LockFile(p, At(w, p) == Holding)))
    && (w.file.Some? && Live(w, w.file.value.owner) ==> Critical(w, w.file.value.owner))
    && (forall p :: At(w, p).Condemned? ==> At(w, p).victim in w.dead)
  }

  /** An unlink that takes away the lock file of a live process. */
  predicate Harmful(w: World, p: Pid, a: Action) {
    a == Unlink && w.file.Some? && Live(w, w.file.value.owner)
  }

  lemma MarkedExclusive(w: World)
    requires Marked(w)
    ensures Exclusive(w)
  {
  }

  lemma HarmlessKeeps(w: World, p: Pid, a: Action)
    requires Marked(w) && Enabled(w, p, a) && !Harmful(w, p, a)
    ensures Marked(Step(w, p, a))
  {
    var u := Step(w, p, a);
    forall q ensures Critical(u, q) ==> u.file == Some(LockFile(q, At(u, q) == Holding)) {
      if q != p {
        StepFrame(w, p, a, q);
        assert Critical(w, q) ==> w.file == Some(LockFile(q, At(w, q) == Holding));
      }
    }
    assert w.dead <= u.dead;
    forall q | At(u, q).Condemned? ensures At(u, q).victim in u.dead {
      if q != p { StepFrame(w, p, a, q); }
      assert At(w, q).Condemned? ==> At(w, q).victim in w.dead;
    }
    if u.file.Some? && Live(u, u.file.value.owner) {
      var o := u.file.value.owner;
      if o != p {
        StepFrame(w, p, a, o);
        assert w.file.Some? && w.file.value.owner == o;
      }
      assert Critical(u, o);
    }
  }

  /** One step keeps the lock sound if and only if it is no harmful unlink. */
  lemma StepExactly(w: World, p: Pid, a: Action)
    requires Marked(w) && Enabled(w, p, a)
    ensures Marked(Step(w, p, a)) <==> !Harmful(w, p, a)
  {
    if Harmful(w, p, a) {
      var o := w.file.value.owner;
      StepFrame(w, p, a, o);
      assert Critical(w, o) && Critical(Step(w, p, a), o);
    } else {
      HarmlessKeeps(w, p, a);
    }
  }

  ghost predicate Harmless(w: World, run: Run)
    decreases |run|
  {
    run == [] || (Enabled(w, run[0].0, run[0].1) ==>
      !Harmful(w, run[0].0, run[0].1) && Harmless(Step(w, run[0].0, run[0].1), run[1..]))
  }

  /** Mutual exclusion over whole runs: every run without a harmful unlink, with any crashes. */
  lemma {:induction false} MutualExclusion(w: World, run: Run, u: World)
    requires Marked(w) && Reaches(w, run, u) && Harmless(w, run)
    ensures Marked(u) && Exclusive(u)
    decreases |run|
  {
    if run == [] {
      MarkedExclusive(w);
    } else {
      StepExactly(w, run[0].0, run[0].1);
      MutualExclusion(Step(w, run[0].0, run[0].1), run[1..], u);
    }
  }

  lemma InitMarked(w: World)
    requires Init(w)
    ensures Marked(w)
  {
  }

  /** Runs in which every unlink of a reclaim follows at once on the read and the check it acts on. */
  ghost predicate Atomic(run: Run)
    decreases |run|
  {
    || run == []
    || (run[0].1 != Unlink && Atomic(run[1..]))
    || (|run| >= 3 && run[0].1 == Read && run[1] == (run[0].0, Judge) && run[2] == (run[0].0, Unlink)
        && Atomic(run[3..]))
  }

  lemma ReclaimIsHarmless(w: World, p: Pid)
    requires Enabled(w, p, Read)
    requires var v := Step(w, p, Read); Enabled(v, p, Judge) && Enabled(Step(v, p, Judge), p, Unlink)
    ensures !Harmful(Step(Step(w, p, Read), p, Judge), p, Unlink)
  {
  }

  lemma {:induction false} AtomicHarmless(w: World, run: Run)
    requires Atomic(run)
    ensures Harmless(w, run)
    decreases |run|
  {
    if run != [] && Enabled(w, run[0].0, run[0].1) {
      var p := run[0].0;
      var v := Step(w, p, run[0].1);
      if run[0].1 != Unlink && Atomic(run[1..]) {
        AtomicHarmless(v, run[1..]);
      } else {
        assert run[1..][0] == (p, Judge);
        if Enabled(v, p, Judge) && Enabled(Step(v, p, Judge), p, Unlink) {
          ReclaimIsHarmless(w, p);
          AtomicHarmless(Step(Step(v, p, Judge), p, Unlink), run[3..]);
          assert run[1..][1..][1..] == run[3..];
        }
        if Enabled(v, p, Judge) {
          assert run[1..][1..][0] == (p, Unlink);
          assert Harmless(Step(v, p, Judge), run[1..][1..]);
        }
        assert Harmless(v, run[1..]);
      }
    }
  }

  /** With any crashes: mutual exclusion in every run whose reclaims are atomic. */
  lemma AtomicExclusion(w: World, run: Run, u: World)
    requires Init(w) && Atomic(run) && Reaches(w, run, u)
    ensures Exclusive(u)
  {
    InitMarked(w);
    AtomicHarmless(w, run);
    MutualExclusion(w, run, u);
  }

  // ----- without crashes -----

  /** Nobody is dead and nobody was found dead. */
  ghost predicate AllAlive(w: World) {
    w.dead == {} && forall p :: !At(w, p).Condemned?
  }

  predicate NoCrash(run: Run) {
    forall i :: 0 <= i < |run| ==> run[i].1 != Crash
  }

  lemma {:induction false} NoCrashHarmless(w: World, run: Run)
    requires AllAlive(w) && NoCrash(run)
    ensures Harmless(w, run)
    decreases |run|
  {
    if run != [] && Enabled(w, run[0].0, run[0].1) {
      var u := Step(w, run[0].0, run[0].1);
      assert run[0].1 != Crash;
      forall q ensures !At(u, q).Condemned? {
        if q != run[0].0 { StepFrame(w, run[0].0, run[0].1, q); }
      }
      NoCrashHarmless(u, run[1..]);
    }
  }

  /** Without crashes mutual exclusion holds at the grain of single file operations. */
  lemma NoCrashExclusion(w: World, run: Run, u: World)
    requires Init(w) && w.dead == {} && NoCrash(run) && Reaches(w, run, u)
    ensures Exclusive(u)
  {
    InitMarked(w);
    NoCrashHarmless(w, run);
    MutualExclusion(w, run, u);
  }

  // ----- the condition cannot be dropped -----

  lemma ReachesNone(w: World)
    ensures Reaches(w, [], w)
  {
  }

  lemma {:induction false} ReachesSnoc(w: World, run: Run, u: World, p: Pid, a: Action)
    requires Reaches(w, run, u) && Enabled(u, p, a)
    ensures Reaches(w, run + [(p, a)], Step(u, p, a))
    decreases |run|
  {
    if run == [] {
      assert run + [(p, a)] == [(p, a)] && [(p, a)][1..] == [];
    } else {
      assert (run + [(p, a)])[1..] == run[1..] + [(p, a)];
      ReachesSnoc(Step(w, run[0].0, run[0].1), run[1..], u, p, a);
    }
  }

  /** A harmful unlink lets its own process into the critical section of a live one. */
  lemma HarmfulBreaks(w: World, p: Pid) returns (u: World)
    requires Marked(w) && Enabled(w, p, Unlink) && Harmful(w, p, Unlink)
    ensures Reaches(w, [(p, Unlink), (p, Look(true)), (p, Open)], u) && !Exclusive(u)
  {
    var o := w.file.value.owner;
    var w1 := Step(w, p, Unlink);
    var w2 := Step(w1, p, Look(true));
    u := Step(w2, p, Open);
    assert Critical(w, o) && o != p;
    assert Critical(u, p) && Critical(u, o);
    assert [(p, Open)][1..] == [];
    assert Reaches(w2, [(p, Open)], u);
    assert [(p, Look(true)), (p, Open)][1..] == [(p, Open)];
    assert Reaches(w1, [(p, Look(true)), (p, Open)], u);
    assert [(p, Unlink), (p, Look(true)), (p, Open)][1..] == [(p, Look(true)), (p, Open)];
  }

  /** Two processes have read the file of a dead holder and found it dead. */
  lemma BothCondemn() returns (w: World, run: Run, u: World)
    ensures Init(w) && Reaches(w, run, u)
    ensures u == World(Some(LockFile(0, true)), map[1 := Condemned(0), 2 := Condemned(0)], {0})
  {
    hide Reaches;
    w := World(Some(LockFile(0, true)), map[], {0});
    run, u := [], w;
    ReachesNone(w);
    ReachesSnoc(w, run, u, 1, Begin);
    run, u := run + [(1, Begin)], Step(u, 1, Begin);
    ReachesSnoc(w, run, u, 1, Open);
    run, u := run + [(1, Open)], Step(u, 1, Open);
    ReachesSnoc(w, run, u, 1, Read);
    run, u := run + [(1, Read)], Step(u, 1, Read);
    ReachesSnoc(w, run, u, 1, Judge);
    run, u := run + [(1, Judge)], Step(u, 1, Judge);
    ReachesSnoc(w, run, u, 2, Begin);
    run, u := run + [(2, Begin)], Step(u, 2, Begin);
    ReachesSnoc(w, run, u, 2, Open);
    run, u := run + [(2, Open)], Step(u, 2, Open);
    ReachesSnoc(w, run, u, 2, Read);
    run, u := run + [(2, Read)], Step(u, 2, Read);
    ReachesSnoc(w, run, u, 2, Judge);
    run, u := run + [(2, Judge)], Step(u, 2, Judge);
  }

  /** With one crash, two reclaimers of the same dead holder can both get in: the second unlinks the file
      the first has just created. */
  lemma RaceExists() returns (w: World, run: Run, u: World)
    ensures Init(w) && Reaches(w, run, u) && !Exclusive(u)
  {
    hide Reaches;
    w, run, u := BothCondemn();
    ReachesSnoc(w, run, u, 1, Unlink);
    run, u := run + [(1, Unlink)], Step(u, 1, Unlink);
    ReachesSnoc(w, run, u, 1, Look(true));
    run, u := run + [(1, Look(true))], Step(u, 1, Look(true));
    ReachesSnoc(w, run, u, 1, Open);
    run, u := run + [(1, Open)], Step(u, 1, Open);
    assert u == World(Some(LockFile(1, false)), map[1 := Opened, 2 := Condemned(0)], {0});
    ReachesSnoc(w, run, u, 2, Unlink);
    run, u := run + [(2, Unlink)], Step(u, 2, Unlink);
    ReachesSnoc(w, run, u, 2, Look(true));
    run, u := run + [(2, Look(true))], Step(u, 2, Look(true));
    ReachesSnoc(w, run, u, 2, Open);
    run, u := run + [(2, Open)], Step(u, 2, Open);
    assert Critical(u, 1) && Critical(u, 2);
  }

  // ----- a crash between creating and filling the file -----

  /** The creator of the file is dead and nobody has gone past it: no live process is in its critical section,
      or has read an id out of the file. */
  ghost predicate Abandoned(w: World) {
    && w.file.Some? && w.file.value.owner in w.dead
    && (forall p :: Live(w, p) ==>
          !Critical(w, p) && !At(w, p).Condemned? && !(At(w, p).Judging? && At(w, p).seen.Some?))
  }

  /** The abandoned file is empty. */
  ghost predicate Stuck(w: World) {
    Abandoned(w) && !w.file.value.written
  }

  /** An empty lock file is never reclaimed: from then on no run lets anybody in. */
  lemma {:induction false} EmptyFileBlocks(w: World, run: Run, u: World)
    requires Stuck(w) && Reaches(w, run, u)
    ensures Stuck(u) && forall p :: !Critical(u, p)
    decreases |run|
  {
    if run != [] {
      var p, a := run[0].0, run[0].1;
      forall q | q != p ensures At(Step(w, p, a), q) == At(w, q) && Live(Step(w, p, a), q) == Live(w, q) {
        StepFrame(w, p, a, q);
      }
      EmptyFileBlocks(Step(w, p, a), run[1..], u);
    }
  }

  /** And one crash is enough to get there: a process that dies between creating the file and writing its id. */
  lemma StuckReachable(p: Pid) returns (w: World, run: Run, u: World)
    ensures Init(w) && w.file.None? && run == [(p, Begin), (p, Open), (p, Crash)] && Reaches(w, run, u) && Stuck(u)
  {
    hide Reaches;
    w := World(None, map[], {});
    run, u := [], w;
    ReachesNone(w);
    ReachesSnoc(w, run, u, p, Begin);
    run, u := run + [(p, Begin)], Step(u, p, Begin);
    ReachesSnoc(w, run, u, p, Open);
    run, u := run + [(p, Open)], Step(u, p, Open);
    ReachesSnoc(w, run, u, p, Crash);
    run, u := run + [(p, Crash)], Step(u, p, Crash);
  }

  /** An undisturbed step. */
  lemma Then(w: World, run: Run, u: World, p: Pid, a: Action) returns (longer: Run, v: World)
    requires Reaches(w, run, u) && Enabled(u, p, a)
    ensures longer == run + [(p, a)] && v == Step(u, p, a) && Reaches(w, longer, v)
  {
    ReachesSnoc(w, run, u, p, a);
    longer, v := run + [(p, a)], Step(u, p, a);
  }

  /** The file of a dead holder that holds its id is reclaimed by every live process that tries, whether it would
      wait or not: undisturbed, it reads the file, finds the holder dead, unlinks it, tries again, is in and writes
      its own id. */
  lemma DeadHolderReclaimed(w: World, p: Pid, wait: bool) returns (run: Run, u: World)
    requires w.file.Some? && w.file.value.written && w.file.value.owner in w.dead
    requires Live(w, p) && At(w, p) == Trying
    ensures run == [(p, Open), (p, Read), (p, Judge), (p, Unlink), (p, Look(wait)), (p, Open), (p, WriteId)]
    ensures Reaches(w, run, u) && Critical(u, p) && At(u, p) == Holding && u.file == Some(LockFile(p, true))
  {
    hide Reaches, Step, Enabled;
    run, u := Reclaim(w, p);
    LookFree(u, p, wait);
    run, u := Then(w, run, u, p, Look(wait));
    run, u := FreeIsTaken(w, run, u, p);
  }

  lemma Reclaim(w: World, p: Pid) returns (run: Run, u: World)
    requires w.file.Some? && w.file.value.written && w.file.value.owner in w.dead
    requires Live(w, p) && At(w, p) == Trying
    ensures run == [(p, Open), (p, Read), (p, Judge), (p, Unlink)] && Reaches(w, run, u)
    ensures u.file.None? && At(u, p) == Waiting && Live(u, p)
  {
    hide Reaches;
    run, u := [], w;
    ReachesNone(w);
    run, u := Then(w, run, u, p, Open);
    run, u := Then(w, run, u, p, Read);
    run, u := Then(w, run, u, p, Judge);
    run, u := Then(w, run, u, p, Unlink);
  }

  lemma LookFree(u: World, p: Pid, wait: bool)
    requires u.file.None? && At(u, p) == Waiting && Live(u, p)
    ensures Enabled(u, p, Look(wait))
    ensures var v := Step(u, p, Look(wait)); At(v, p) == Trying && v.file.None? && Live(v, p)
  {
  }

  /** Without a file, a process that tries takes the lock. */
  lemma FreeIsTaken(w: World, run: Run, u: World, p: Pid) returns (more: Run, v: World)
    requires Reaches(w, run, u) && u.file.None? && Live(u, p) && At(u, p) == Trying
    ensures more == run + [(p, Open), (p, WriteId)] && Reaches(w, more, v)
    ensures Critical(v, p) && At(v, p) == Holding && v.file == Some(LockFile(p, true))
  {
    hide Reaches;
    more, v := Then(w, run, u, p, Open);
    more, v := Then(w, more, v, p, WriteId);
  }

  /** A file that is empty, or whose holder lives, keeps a process that tries out: undisturbed, it reads the file,
      leaves it, looks once more, and then tries again if it waits, and raises if it does not. */
  lemma HeldKeepsOut(w: World, p: Pid, wait: bool) returns (run: Run, u: World)
    requires w.file.Some? && (w.file.value.written ==> w.file.value.owner !in w.dead)
    requires Live(w, p) && At(w, p) == Trying
    ensures run == [(p, Open), (p, Read), (p, Judge), (p, Look(wait))] && Reaches(w, run, u)
    ensures u.file == w.file && u.dead == w.dead && At(u, p) == if wait then Trying else Refused
  {
    hide Reaches;
    run, u := [], w;
    ReachesNone(w);
    run, u := Then(w, run, u, p, Open);
    run, u := Then(w, run, u, p, Read);
    run, u := Then(w, run, u, p, Judge);
    run, u := Then(w, run, u, p, Look(wait));
  }

  /** What a step does to the lock file: only an `open` puts one there, only a write of its creator marks it, only an
      unlink or a release takes it away, whoever's it is. */
  lemma FileStep(w: World, p: Pid, a: Action)
    requires Enabled(w, p, a)
    ensures var f := Step(w, p, a).file;
      && (w.file.None? && f.Some? <==> w.file.None? && a == Open)
      && (w.file.Some? && f.None? <==> w.file.Some? && (a == Unlink || a == Release))
      && (w.file.None? && f.Some? ==> f.value.owner == p && !f.value.written)
      && (w.file.Some? && f.Some? ==> f.value.owner == w.file.value.owner)
      && (w.file.Some? && f.Some? && f != w.file <==>
            w.file.Some? && a == WriteId && w.file.value.owner == p && !w.file.value.written)
  {
  }

  /** A step refuses a process if and only if it is a look that finds a file and does not wait. */
  lemma RefusedExactly(w: World, p: Pid, a: Action)
    requires Enabled(w, p, a) && At(w, p) != Refused
    ensures At(Step(w, p, a), p) == Refused <==> a == Look(false) && w.file.Some?
  {
  }

  /** `p` looked at turn `i`, did not wait, and found the file. */
  ghost predicate SawFile(w: World, run: Run, i: nat, p: Pid) {
    i < |run| && run[i] == (p, Look(false)) && exists v :: Reaches(w, run[..i], v) && v.file.Some?
  }

  /** Whoever raised had found a lock file standing when it looked. */
  lemma {:induction false} RefusedSaw(w: World, run: Run, u: World, p: Pid) returns (i: nat)
    requires Reaches(w, run, u) && At(w, p) != Refused && At(u, p) == Refused
    ensures SawFile(w, run, i, p)
    decreases |run|
  {
    var q, a := run[0].0, run[0].1;
    var v := Step(w, q, a);
    if q != p { StepFrame(w, q, a, p); }
    if q == p && At(v, p) == Refused {
      i := 0;
      RefusedExactly(w, p, a);
      ReachesNone(w);
      assert run[..0] == [];
    } else {
      var k := RefusedSaw(v, run[1..], u, p);
      var x :| Reaches(v, run[1..][..k], x) && x.file.Some?;
      i := k + 1;
      assert run[..i][1..] == run[1..][..k] && run[..i][0] == run[0];
      assert Reaches(w, run[..i], x);
    }
  }

  /** An attempt that has found the file there. */
  predicate Failing(place: Place) {
    place.Reading? || place.Judging? || place.Condemned? || place.Waiting?
  }

  /** An attempt that has found the file there, whatever it then reads and does, looks once more before the process
      tries again or raises. */
  lemma {:induction false} LooksAgain(w: World, run: Run, u: World, p: Pid) returns (i: nat)
    requires Reaches(w, run, u) && Failing(At(w, p)) && !Failing(At(u, p))
    ensures i < |run| && run[i].0 == p && run[i].1.Look?
    decreases |run|
  {
    var q, a := run[0].0, run[0].1;
    var v := Step(w, q, a);
    if q != p { StepFrame(w, q, a, p); }
    if q == p && a.Look? {
      i := 0;
    } else {
      var k := LooksAgain(v, run[1..], u, p);
      i := k + 1;
    }
  }

  /** Some run lets somebody in. */
  ghost predicate CanEnter(w: World) {
    exists run, u, p :: Reaches(w, run, u) && Critical(u, p)
  }

  /** So an abandoned file keeps everybody out for good if and only if its creator died before it wrote its id. */
  lemma AbandonedExactly(w: World, p: Pid)
    requires Abandoned(w) && Live(w, p) && At(w, p) == Trying
    ensures CanEnter(w) <==> w.file.value.written
  {
    if w.file.value.written {
      var run, u := DeadHolderReclaimed(w, p, false);
    } else {
      forall run, u, q | Reaches(w, run, u) ensures !Critical(u, q) {
        EmptyFileBlocks(w, run, u);
      }
    }
  }

  // ----- what a call of `acquire` comes back with -----

  datatype Outcome = NotCalled | InProgress | Returned | Raised

  function OutcomeAt(place: Place): Outcome {
    match place
    case Outside => NotCalled
    case Holding => Returned
    case Refused => Raised
    case _ => InProgress
  }

  predicate Never(run: Run, p: Pid, a: Action) {
    forall i :: 0 <= i < |run| ==> run[i] != (p, a)
  }

  /** One call of `acquire`, with any interleaving: it comes back holding the lock or by raising, and does
      nothing else. */
  lemma {:induction false} AcquireEnds(w: World, run: Run, u: World, p: Pid)
    requires Reaches(w, run, u) && Never(run, p, Release) && OutcomeAt(At(w, p)) != NotCalled
    ensures OutcomeAt(At(u, p)) != NotCalled
    ensures Never(run, p, Begin) && OutcomeAt(At(w, p)) == Raised ==> OutcomeAt(At(u, p)) == Raised
    decreases |run|
  {
    if run != [] {
      if run[0].0 != p { StepFrame(w, run[0].0, run[0].1, p); }
      assert run[0] != (p, Release);
      AcquireEnds(Step(w, run[0].0, run[0].1), run[1..], u, p);
    }
  }

  /** In every run without a harmful unlink: a process whose call has returned owns the file, with its id in it,
      and nobody else is between open and release; one whose call raised, or is not over, may leave the file
      to others. */
  lemma AcquireOutcome(w: World, run: Run, u: World, p: Pid)
    requires Marked(w) && Reaches(w, run, u) && Harmless(w, run)
    requires Never(run, p, Release) && OutcomeAt(At(w, p)) == InProgress && Live(u, p)
    ensures OutcomeAt(At(u, p)) != NotCalled
    ensures OutcomeAt(At(u, p)) == Returned ==>
      u.file == Some(LockFile(p, true)) && forall q :: Critical(u, q) ==> q == p
    ensures OutcomeAt(At(u, p)) == Raised ==> !Critical(u, p) && (u.file.Some? ==> u.file.value.owner != p)
  {
    AcquireEnds(w, run, u, p);
    MutualExclusion(w, run, u);
    if OutcomeAt(At(u, p)) == Returned { assert Critical(u, p); }
  }

  /** `suspended` gives the lock up and comes back with it, or raises: whatever ran in between, the one who
      suspended and is back owns the file again. */
  lemma SuspendedOutcome(w: World, run: Run, u: World, p: Pid)
    requires Marked(w) && At(w, p) == Holding && run != [] && run[0] == (p, Release)
    requires Reaches(w, run, u) && Harmless(w, run) && Live(u, p)
    ensures Step(w, p, Release).file == None
    ensures OutcomeAt(At(u, p)) == Returned ==>
      u.file == Some(LockFile(p, true)) && forall q :: Critical(u, q) ==> q == p
  {
    MutualExclusion(w, run, u);
    if OutcomeAt(At(u, p)) == Returned { assert Critical(u, p); }
  }
}
