/** Runs after which a rollback does, or does not, give back what was there. */
module RollbackExamples {
  import opened Wrappers
  import opened FileTree
  import opened Turns
  import opened Listing
  import opened Settling
  import opened Auditor
  import opened Phases
  import opened Inverse

  const NOTHING := Snapshot(map[], map[], map[])

  lemma OneEntry(p: Path, n: Node)
    requires |p| == 1
    ensures WellFormed(map[p := n])
  {
  }

  /** An order of a set lists each path once. */
  lemma {:induction false} CountOf(ps: seq<Path>, over: set<Path>)
    requires ShallowFirst(ps, over)
    ensures |ps| == |over|
  {
    if ps == [] {
      assert forall p :: p in over ==> p in ps;
    } else {
      var last, front := ps[|ps| - 1], ps[..|ps| - 1];
      assert last in ps && ps == front + [last];
      forall p ensures p in front <==> p in over - {last} {
        assert p in ps <==> p in front || p == last;
      }
      CountOf(front, over - {last});
    }
  }

  lemma OnePath(ps: seq<Path>, p: Path)
    requires ShallowFirst(ps, {p})
    ensures ps == [p]
  {
    CountOf(ps, {p});
    assert ps[0] in ps;
  }

  /** A new file staged by the agent: the checkout from the index brings it back. */
  lemma StagedFileSurvives(p: Path, n: Node, out: Elsewhere, ps: seq<Path>)
    requires |p| == 1 && Named(p) && Plain(p) && n.File?
    requires ShallowFirst(ps, {p})
    ensures var r := Run(map[], map[], map[], out, map[p := n], map[p := n], out, NOTHING);
      ValidRun(r) && ChangedBy(r) == {p} && FullJob(r, ps).At(|ps|).standing == map[p := n] && !Settles(FullJob(r, ps))
  {
    var r := Run(map[], map[], map[], out, map[p := n], map[p := n], out, NOTHING);
    assert Modified(r.head, r.index0, r.work0) == {};
    forall q ensures q in ChangedBy(r) <==> q == p {
      ModifiedIff(r.head, r.index, r.work, q);
    }
    assert ChangedBy(r) == {p};
    OnePath(ps, p);
    hide Turn, Probe, NamesOf, PathText;
    var j := FullJob(r, ps);
    StagedIsIndexable(r, p);
    assert j.Start().standing == map[];
    assert j.At(0) == j.Start() && j.At(1) == Turn(j.plan, j.Start(), p);
    PutsFromIndex(j.plan, j.Start(), p);
  }

  lemma PutsFromIndex(plan: Plan, c: Scene, p: Path)
    requires !c.raised && c.standing == map[] && p !in plan.recorded
    ensures p in plan.head ==> Turn(plan, c, p).standing == map[p := plan.head[p]]
    ensures p !in plan.head && p in c.index && Indexable(plan, p) ==> Turn(plan, c, p).standing == map[p := c.index[p]]
  {
  }

  lemma RecreatingRunValid(p: Path, n: Node, m: Node, out: Elsewhere)
    requires |p| == 1 && Named(p) && Plain(p) && n.File? && m.File?
    ensures var r := Run(map[p := n], map[p := n], map[], out, map[p := n], map[p := m], out,
                         Snapshot(map[p := Missing], map[], map[]));
      ValidRun(r) && ChangedBy(r) == {p}
  {
    hide Probe;
    var r := Run(map[p := n], map[p := n], map[], out, map[p := n], map[p := m], out,
                 Snapshot(map[p := Missing], map[], map[]));
    OneEntry(p, m);
    ProbeEntry(r.work0, out, p);
    ProbeEntry(r.work, out, p);
    forall q ensures q in Modified(r.head, r.index0, r.work0) <==> q == p {
      ModifiedIff(r.head, r.index0, r.work0, q);
    }
    assert Modified(r.head, r.index0, r.work0) == {p};
    assert RecordsAt(r.s, r.work0, out, p);
    forall q ensures q in ChangedBy(r) <==> q == p {
      ModifiedIff(r.head, r.index, r.work, q);
    }
  }

  /** A tracked file the Human had deleted and the agent recreated: it ends at its HEAD content. */
  lemma DeletedFileRevived(p: Path, n: Node, m: Node, out: Elsewhere, ps: seq<Path>)
    requires |p| == 1 && Named(p) && Plain(p) && n.File? && m.File?
    requires ShallowFirst(ps, {p})
    ensures var r := Run(map[p := n], map[p := n], map[], out, map[p := n], map[p := m], out,
                         Snapshot(map[p := Missing], map[], map[]));
      ValidRun(r) && ChangedBy(r) == {p} && FullJob(r, ps).At(|ps|).standing == map[p := n] && !Settles(FullJob(r, ps))
  {
    hide Turn, Probe, Changed, ValidRun;
    var r := Run(map[p := n], map[p := n], map[], out, map[p := n], map[p := m], out,
                 Snapshot(map[p := Missing], map[], map[]));
    RecreatingRunValid(p, n, m, out);
    OnePath(ps, p);
    PlainIsListed(p, r.head, r.index);
    var j := FullJob(r, ps);
    assert j.Start().standing == map[];
    assert j.At(0) == j.Start() && j.At(1) == Turn(j.plan, j.Start(), p);
    PutsFromIndex(j.plan, j.Start(), p);
  }

  lemma TwoPaths(ps: seq<Path>, p: Path, q: Path)
    requires ShallowFirst(ps, {p, q}) && |p| < |q|
    ensures ps == [p, q]
  {
    CountOf(ps, {p, q});
    assert ps[0] in ps && ps[1] in ps;
  }

  /** Two turns. */
  lemma AfterTwo(plan: Plan, c: Scene, p: Path, q: Path)
    ensures After(plan, c, [p, q], 2) == Turn(plan, Turn(plan, c, p), q)
    ensures After(plan, c, [p, q], 1) == Turn(plan, c, p)
  {
    assert After(plan, c, [p, q], 0) == c;
    assert After(plan, c, [p, q], 1) == Turn(plan, c, p);
  }

  // ----- an edit hidden behind a link -----

  const DOCS: Path := ["docs"]
  const EDITED: Path := ["docs", "x.md"]
  const MOVED: Path := ["docs2"]
  const COPY: Path := ["docs2", "x.md"]

  /** The Human had edited `docs/x.md`; the agent ran `mv docs docs2; ln -s docs2 docs`. */
  function HidingRun(old0: string, edit: string, out0: Elsewhere, out: Elsewhere): Run {
    Run(map[EDITED := File(old0)], map[EDITED := File(old0)], map[DOCS := Dir, EDITED := File(edit)], out0,
        map[EDITED := File(old0)], map[DOCS := Link("docs2"), MOVED := Dir, COPY := File(edit)], out,
        Snapshot(map[EDITED := IsFile], map[EDITED := edit], map[]))
  }

  lemma ReadsThroughLink(old0: string, edit: string, out0: Elsewhere, out: Elsewhere)
    ensures var r := HidingRun(old0, edit, out0, out);
      Blocked(r.work, EDITED) && Probe(r.work, out, EDITED) == Some(File(edit))
  {
    hide Walk, Components;
    var t := HidingRun(old0, edit, out0, out).work;
    assert EDITED[..1] == DOCS;
    WalkThroughLink(t, edit);
  }

  lemma WalkThroughLink(t: Tree, edit: string)
    requires t == map[DOCS := Link("docs2"), MOVED := Dir, COPY := File(edit)]
    ensures Walk(t, [], EDITED, MAX_LINKS) == Here(COPY)
  {
    hide Components;
    assert [] + [EDITED[0]] == DOCS && [] + [COPY[0]] == MOVED && DOCS != MOVED;
    assert "docs2"[0] != "/"[0];
    WalkLink(t, [], EDITED, MAX_LINKS, "docs2");
    OneComponent("docs2");
    assert ["docs2"] + EDITED[1..] == COPY;
    WalkDown(t, [], COPY, MAX_LINKS - 1);
    assert COPY[1..] == ["x.md"];
    assert Walk(t, MOVED, ["x.md"], MAX_LINKS - 1) == Here(COPY);
  }

  predicate Proper(name: string) {
    name != "" && name != "." && name != ".."
  }

  lemma WalkLink(t: Tree, at: Path, todo: seq<string>, links: nat, text: string)
    requires |todo| > 1 && Proper(todo[0]) && at + [todo[0]] in t && t[at + [todo[0]]] == Link(text)
    requires links > 0 && !("/" <= text)
    ensures Walk(t, at, todo, links) == Walk(t, at, Components(text) + todo[1..], links - 1)
  {
  }

  lemma WalkDown(t: Tree, at: Path, todo: seq<string>, links: nat)
    requires |todo| > 1 && Proper(todo[0]) && at + [todo[0]] in t && t[at + [todo[0]]] == Dir
    ensures Walk(t, at, todo, links) == Walk(t, at + [todo[0]], todo[1..], links)
  {
  }

  /** A dot is no step, and a directory and two dots are none. */
  lemma WalkDots(t: Tree, at: Path, name: string, rest: seq<string>, links: nat)
    ensures Walk(t, at, ["."] + rest, links) == Walk(t, at, rest, links)
    ensures Proper(name) && at + [name] in t && t[at + [name]] == Dir ==>
      Walk(t, at, [name, ".."] + rest, links) == Walk(t, at, rest, links)
  {
    assert (["."] + rest)[1..] == rest;
    if Proper(name) && at + [name] in t && t[at + [name]] == Dir {
      var todo := [name, ".."] + rest;
      WalkDown(t, at, todo, links);
      assert todo[1..] == [".."] + rest && ([".."] + rest)[1..] == rest && (at + [name])[..|at|] == at;
    }
  }

  lemma HidingTrees(old0: string, edit: string, out0: Elsewhere, out: Elsewhere)
    ensures var r := HidingRun(old0, edit, out0, out); WellFormed(r.work0) && WellFormed(r.work)
  {
    assert EDITED[..1] == DOCS && COPY[..1] == MOVED;
  }

  lemma HidingRunValid(old0: string, edit: string, out0: Elsewhere, out: Elsewhere)
    requires old0 != edit
    ensures var r := HidingRun(old0, edit, out0, out);
      ValidRun(r) && Hidden(r, EDITED) && ChangedBy(r) == {DOCS, COPY}
  {
    hide Probe, WellFormed;
    var r := HidingRun(old0, edit, out0, out);
    HidingTrees(old0, edit, out0, out);
    ReadsThroughLink(old0, edit, out0, out);
    ProbeEntry(r.work0, out0, EDITED);
    forall q ensures q in Modified(r.head, r.index0, r.work0) <==> q == EDITED {
      ModifiedIff(r.head, r.index0, r.work0, q);
    }
    assert Modified(r.head, r.index0, r.work0) == {EDITED};
    assert RecordsAt(r.s, r.work0, out0, EDITED);
    forall q ensures q in ChangedBy(r) <==> q in {DOCS, COPY} {
      ModifiedIff(r.head, r.index, r.work, q);
    }
  }

  /** The edit is not in the changed set, and the rollback removes the only copy of it, although no checkout
      brings anything back. */
  lemma HumanEditLost(old0: string, edit: string, out0: Elsewhere, out: Elsewhere, ps: seq<Path>)
    requires old0 != edit && ShallowFirst(ps, {DOCS, COPY})
    ensures var r := HidingRun(old0, edit, out0, out);
      && ValidRun(r) && Hidden(r, EDITED) && ChangedBy(r) == {DOCS, COPY}
      && (forall p :: !Coming(FullJob(r, ps), p))
      && FullJob(r, ps).At(|ps|) == Scene(map[], r.index, false) && !Settles(FullJob(r, ps))
  {
    hide Probe, WellFormed, ValidRun, Hidden, ChangedBy, Turn, Settles;
    var r := HidingRun(old0, edit, out0, out);
    HidingRunValid(old0, edit, out0, out);
    TwoPaths(ps, DOCS, COPY);
    var j := FullJob(r, ps);
    AfterTwo(j.plan, j.Start(), DOCS, COPY);
    HidingStart(old0, edit, out0, out, ps);
    NothingPut(j.plan, j.Start(), DOCS);
    NothingPut(j.plan, j.Start(), COPY);
    HiddenIsLost(r, ps, EDITED);
  }

  lemma HidingStart(old0: string, edit: string, out0: Elsewhere, out: Elsewhere, ps: seq<Path>)
    requires ChangedBy(HidingRun(old0, edit, out0, out)) == {DOCS, COPY}
    ensures var j := FullJob(HidingRun(old0, edit, out0, out), ps);
      && j.Start().standing == map[] && j.over == {DOCS, COPY}
      && forall p :: p in {DOCS, COPY} ==> p !in j.plan.recorded && p !in j.plan.head && p !in j.index
  {
    hide Probe, Changed;
    assert DOCS <= DOCS && COPY <= COPY;
  }

  lemma NothingPut(plan: Plan, c: Scene, p: Path)
    requires p !in plan.recorded && p !in plan.head && p !in c.index
    ensures Turn(plan, c, p) == c
  {
  }

  // ----- a recorded file below one that HEAD brings back -----

  const TOP: Path := ["a"]
  const BELOW: Path := ["a", "x"]

  /** HEAD has the file `a`; the Human replaced it by a directory with `a/x`; the agent made `a` a file again. */
  function ReplacingRun(head: string, mine: string, agents: string, out0: Elsewhere, out: Elsewhere): Run {
    Run(map[TOP := File(head)], map[TOP := File(head)], map[TOP := Dir, BELOW := File(mine)], out0,
        map[TOP := File(head)], map[TOP := File(agents)], out,
        Snapshot(map[TOP := IsDir, BELOW := IsFile], map[BELOW := mine], map[]))
  }

  lemma ReplacingRunValid(head: string, mine: string, agents: string, out0: Elsewhere, out: Elsewhere)
    ensures var r := ReplacingRun(head, mine, agents, out0, out);
      ValidRun(r) && ChangedBy(r) == {TOP, BELOW} && forall p :: !Hidden(r, p)
  {
    hide Probe;
    var r := ReplacingRun(head, mine, agents, out0, out);
    assert BELOW[..1] == TOP;
    ProbeEntry(r.work0, out0, TOP);
    ProbeEntry(r.work0, out0, BELOW);
    ProbeEntry(r.work, out, TOP);
    ProbeEntry(r.work, out, BELOW);
    forall q ensures q in Modified(r.head, r.index0, r.work0) <==> q in {TOP, BELOW} {
      ModifiedIff(r.head, r.index0, r.work0, q);
    }
    assert Modified(r.head, r.index0, r.work0) == {TOP, BELOW};
    assert RecordsAt(r.s, r.work0, out0, TOP) && RecordsAt(r.s, r.work0, out0, BELOW);
    forall q ensures q in ChangedBy(r) <==> q in {TOP, BELOW} {
      ModifiedIff(r.head, r.index, r.work, q);
    }
  }

  /** The checkout of `a` makes it a file, and restoring the recorded `a/x` below it raises: the audit ends with
      an exception and the Human's file is gone. */
  lemma RestoreRaises(head: string, mine: string, agents: string, out0: Elsewhere, out: Elsewhere, ps: seq<Path>)
    requires ShallowFirst(ps, {TOP, BELOW})
    ensures var r := ReplacingRun(head, mine, agents, out0, out);
      && ValidRun(r) && ChangedBy(r) == {TOP, BELOW} && (forall p :: !Hidden(r, p))
      && FullJob(r, ps).At(|ps|).raised && BELOW !in FullJob(r, ps).At(|ps|).standing
  {
    hide Probe, WellFormed, ValidRun, Hidden, ChangedBy, Turn;
    var r := ReplacingRun(head, mine, agents, out0, out);
    ReplacingRunValid(head, mine, agents, out0, out);
    TwoPaths(ps, TOP, BELOW);
    var j := FullJob(r, ps);
    AfterTwo(j.plan, j.Start(), TOP, BELOW);
    ReplacingStart(head, mine, agents, out0, out, ps);
    PutsFromIndex(j.plan, j.Start(), TOP);
    assert TOP < BELOW;
    RaisingTurn(j.plan, j.At(1), TOP, BELOW);
  }

  lemma ReplacingStart(head: string, mine: string, agents: string, out0: Elsewhere, out: Elsewhere, ps: seq<Path>)
    requires ChangedBy(ReplacingRun(head, mine, agents, out0, out)) == {TOP, BELOW}
    ensures var j := FullJob(ReplacingRun(head, mine, agents, out0, out), ps);
      && j.Start() == Scene(map[], j.index, false)
      && TOP !in j.plan.recorded && BELOW in j.plan.recorded
      && TOP in j.plan.head && j.plan.head[TOP] == File(head)
      && Turn(j.plan, j.Start(), TOP).raised == false
  {
    hide Probe, Changed;
    assert TOP <= TOP;
  }

  lemma RaisingTurn(plan: Plan, c: Scene, a: Path, p: Path)
    requires !c.raised && p in plan.recorded && a < p
    requires a in c.standing && c.standing[a].File? && c.standing.Keys == {a}
    ensures Turn(plan, c, p) == c.(raised := true)
  {
  }

  // ----- a path brought back and cleared again -----

  const INNER: Path := ["a", "x", "y"]

  /** HEAD has `a/x/y`; the agent replaced the directory `a` by a file and staged it. */
  function StagingRun(head: string, agents: string, out0: Elsewhere, out: Elsewhere): Run {
    Run(map[INNER := File(head)], map[INNER := File(head)], map[TOP := Dir, BELOW := Dir, INNER := File(head)], out0,
        map[TOP := File(agents)], map[TOP := File(agents)], out, NOTHING)
  }

  lemma StagingTrees(head: string, agents: string, out0: Elsewhere, out: Elsewhere)
    ensures var r := StagingRun(head, agents, out0, out); WellFormed(r.work0) && WellFormed(r.work)
  {
    assert BELOW[..1] == TOP && INNER[..1] == TOP && INNER[..2] == BELOW;
  }

  lemma StagingRunValid(head: string, agents: string, out0: Elsewhere, out: Elsewhere)
    ensures var r := StagingRun(head, agents, out0, out);
      ValidRun(r) && ChangedBy(r) == {TOP, INNER} && forall p :: !Hidden(r, p)
  {
    hide Probe, WellFormed, Modified;
    var r := StagingRun(head, agents, out0, out);
    StagingTrees(head, agents, out0, out);
    forall q ensures q !in Modified(r.head, r.index0, r.work0) {
      ModifiedIff(r.head, r.index0, r.work0, q);
    }
    assert Modified(r.head, r.index0, r.work0) == {};
    forall q ensures q in ChangedBy(r) <==> q in {TOP, INNER} {
      ModifiedIff(r.head, r.index, r.work, q);
    }
  }

  /** The checkout from the index brings the staged file back, and the checkout of `a/x/y` clears it away: the
      rollback restores everything. */
  lemma ClearedAgain(head: string, agents: string, out0: Elsewhere, out: Elsewhere, ps: seq<Path>)
    requires ShallowFirst(ps, {TOP, INNER})
    ensures var r := StagingRun(head, agents, out0, out);
      ValidRun(r) && ChangedBy(r) == {TOP, INNER} && Coming(FullJob(r, ps), TOP) && Settles(FullJob(r, ps))
  {
    hide Probe, WellFormed, ValidRun, Hidden, Unlisted, ChangedBy, Turn, Settles, NamesOf, PathText, Plain;
    var r := StagingRun(head, agents, out0, out);
    StagingRunValid(head, agents, out0, out);
    TwoPaths(ps, TOP, INNER);
    var j := FullJob(r, ps);
    StagingIsPlain();
    PlainIsListed(INNER, r.head, r.index);
    StagedIsIndexable(r, TOP);
    assert TOP < INNER;
    assert j.goal == map[INNER := File(head)];
    assert Clean(j, INNER) && ClearsAt(j, TOP, 1);
    forall p ensures !Unlisted(r, p) {
      if p in {TOP, INNER} { PlainIsNotUnlisted(r, p); } else { NotChangedNotUnlisted(r, p); }
    }
    RollbackIsInverse(r, ps);
  }

  lemma StagingIsPlain()
    ensures Plain(TOP) && Plain(INNER)
  {
    assert PathText(INNER) == "a/x/y";
  }

  lemma NotChangedNotUnlisted(r: Run, p: Path)
    requires p !in ChangedBy(r)
    ensures !Unlisted(r, p)
  {
    hide ChangedBy, NamesOf, PathText;
  }

  // ----- a name that git quotes -----

  const ACCENTED: Path := ["\U{E9}.md"]

  lemma AccentedIsQuoted()
    ensures Named(ACCENTED) && !Plain(ACCENTED) && !("\"" <= PathText(ACCENTED))
  {
    assert PathText(ACCENTED)[0] == '\U{E9}' && Special(PathText(ACCENTED)[0]);
  }

  lemma AccentedUnlisted(head: Leaves, index: Leaves)
    ensures PathText(ACCENTED) !in NamesOf(head, index).all && PathText(ACCENTED) !in NamesOf(head, index).head
  {
    AccentedIsQuoted();
    QuotedIsUnlisted(ACCENTED, head, index);
  }

  /** The agent edits a clean tracked file. */
  function EditingRun(clean: string, agents: string, out0: Elsewhere, out: Elsewhere): Run {
    Run(map[ACCENTED := File(clean)], map[ACCENTED := File(clean)], map[ACCENTED := File(clean)], out0,
        map[ACCENTED := File(clean)], map[ACCENTED := File(agents)], out, NOTHING)
  }

  lemma EditingRunValid(clean: string, agents: string, out0: Elsewhere, out: Elsewhere)
    requires clean != agents
    ensures var r := EditingRun(clean, agents, out0, out);
      ValidRun(r) && ChangedBy(r) == {ACCENTED} && (forall p :: !Hidden(r, p)) && Unlisted(r, ACCENTED)
  {
    hide Probe, NamesOf, PathText;
    var r := EditingRun(clean, agents, out0, out);
    AccentedIsQuoted();
    AccentedUnlisted(r.head, r.index);
    forall q ensures q !in Modified(r.head, r.index0, r.work0) {
      ModifiedIff(r.head, r.index0, r.work0, q);
    }
    assert Modified(r.head, r.index0, r.work0) == {};
    forall q ensures q in ChangedBy(r) <==> q == ACCENTED {
      ModifiedIff(r.head, r.index, r.work, q);
    }
  }

  /** A clean tracked file whose name git quotes: the removal takes it, no listing has it, and it is gone, although
      nothing is hidden, nothing comes back and no exception is raised. */
  lemma QuotedNameLost(clean: string, agents: string, out0: Elsewhere, out: Elsewhere, ps: seq<Path>)
    requires clean != agents && ShallowFirst(ps, {ACCENTED})
    ensures var r := EditingRun(clean, agents, out0, out);
      && ValidRun(r) && ChangedBy(r) == {ACCENTED} && (forall p :: !Hidden(r, p)) && Unlisted(r, ACCENTED)
      && Spares(FullJob(r, ps)) && (forall p :: !Coming(FullJob(r, ps), p))
      && FullJob(r, ps).At(|ps|) == Scene(map[], r.index, false) && !Settles(FullJob(r, ps))
  {
    hide Probe, ValidRun, Hidden, ChangedBy, Turn, NamesOf, PathText;
    var r := EditingRun(clean, agents, out0, out);
    EditingRunValid(clean, agents, out0, out);
    OnePath(ps, ACCENTED);
    var j := FullJob(r, ps);
    AccentedUnlisted(r.head, r.index);
    assert j.Start().standing == map[];
    assert j.At(0) == j.Start() && j.At(1) == Turn(j.plan, j.Start(), ACCENTED);
    UnlistedTurn(j.plan, j.Start(), ACCENTED);
    RollbackIsInverse(r, ps);
  }

  lemma UnlistedTurn(plan: Plan, c: Scene, p: Path)
    requires p !in plan.recorded && p !in plan.head && !Indexable(plan, p)
    ensures Turn(plan, c, p) == c
  {
  }

  function StagedRun(n: Node, out: Elsewhere): Run {
    Run(map[], map[], map[], out, map[ACCENTED := n], map[ACCENTED := n], out, NOTHING)
  }

  lemma StagedRunValid(n: Node, out: Elsewhere)
    requires n.File?
    ensures ValidRun(StagedRun(n, out)) && ChangedBy(StagedRun(n, out)) == {ACCENTED}
  {
    hide Probe, PathText;
    var r := StagedRun(n, out);
    AccentedIsQuoted();
    assert Modified(r.head, r.index0, r.work0) == {};
    forall q ensures q in ChangedBy(r) <==> q == ACCENTED {
      ModifiedIff(r.head, r.index, r.work, q);
    }
  }

  /** A new file with such a name, staged by the agent, is not brought back: the rollback restores everything. */
  lemma QuotedStagedGone(n: Node, out: Elsewhere, ps: seq<Path>)
    requires n.File? && ShallowFirst(ps, {ACCENTED})
    ensures var r := StagedRun(n, out);
      ValidRun(r) && ChangedBy(r) == {ACCENTED} && Settles(FullJob(r, ps))
  {
    hide Probe, ValidRun, ChangedBy, Turn, NamesOf, PathText;
    var r := StagedRun(n, out);
    StagedRunValid(n, out);
    OnePath(ps, ACCENTED);
    var j := FullJob(r, ps);
    AccentedUnlisted(r.head, r.index);
    assert j.Start().standing == map[];
    assert j.At(0) == j.Start() && j.At(1) == Turn(j.plan, j.Start(), ACCENTED);
    UnlistedTurn(j.plan, j.Start(), ACCENTED);
  }
}
