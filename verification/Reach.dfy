/** Import-graph reachability: the modules no entrypoint reaches are islands. */
module Reach {

  /** A dotted module name. */
  type Name = string

  /** Each module with the names its source imports; names need not be modules. */
  type Graph = map<Name, set<Name>>

  /** `m` lies inside the package `p`. */
  predicate Under(m: Name, p: Name) {
    p + "." <= m
  }

  // ----- what an edge is -----

  /** The import `imp` of module `m` stands for module `t`: by its exact name, or, when the name is no other
      module, for everything inside the package of that name. */
  predicate Means(all: set<Name>, m: Name, imp: Name, t: Name) {
    t in all && t != m && if imp in all && imp != m then t == imp else Under(t, imp)
  }

  ghost predicate SomeMeans(all: set<Name>, m: Name, imports: set<Name>, t: Name) {
    exists imp :: imp in imports && Means(all, m, imp, t)
  }

  /** `t` is imported by `m`. */
  ghost predicate Imports(g: Graph, m: Name, t: Name) {
    m in g && SomeMeans(g.Keys, m, g[m], t)
  }

  /** Importing a module runs every enclosing package first. */
  ghost predicate Edge(g: Graph, m: Name, t: Name) {
    Imports(g, m, t) || (t in g && Under(m, t))
  }

  /** `targets` is what `imports` stand for. */
  ghost predicate Meant(all: set<Name>, m: Name, imports: set<Name>, targets: set<Name>) {
    forall t :: t in targets <==> SomeMeans(all, m, imports, t)
  }

  lemma MeantNone(all: set<Name>, m: Name)
    ensures Meant(all, m, {}, {})
  {
  }

  lemma MeantMore(all: set<Name>, m: Name, imports: set<Name>, targets: set<Name>, imp: Name)
    requires Meant(all, m, imports, targets)
    ensures imp in all && imp != m ==> Meant(all, m, imports + {imp}, targets + {imp})
    ensures !(imp in all && imp != m) ==>
      Meant(all, m, imports + {imp}, targets + set other | other in all && Under(other, imp) && other != m)
  {
    hide Under;
    assert forall t ::
      SomeMeans(all, m, imports + {imp}, t) <==> SomeMeans(all, m, imports, t) || Means(all, m, imp, t);
  }

  lemma OneLess(s: set<Name>, todo: set<Name>, x: Name)
    requires todo <= s && x in todo
    ensures s - (todo - {x}) == s - todo + {x}
  {
  }

  /** The inner loop: what the imports of one module stand for. */
  method Targets(all: set<Name>, m: Name, imports: set<Name>) returns (targets: set<Name>)
    ensures forall t :: t in targets <==> SomeMeans(all, m, imports, t)
  {
    hide Under, SomeMeans;
    targets := {};
    var todo := imports;
    MeantNone(all, m);
    assert imports - todo == {};
    while todo != {}
      invariant todo <= imports && Meant(all, m, imports - todo, targets)
      decreases |todo|
    {
      var imp :| imp in todo;
      MeantMore(all, m, imports - todo, targets, imp);
      OneLess(imports, todo, imp);
      if imp in all && imp != m {
        targets := targets + {imp};
      } else {
        targets := targets + set other | other in all && Under(other, imp) && other != m;
      }
      todo := todo - {imp};
    }
    assert imports - todo == imports;
  }

  method BuildAdjacency(g: Graph) returns (adj: map<Name, set<Name>>)
    ensures adj.Keys == g.Keys
    ensures forall m, t :: m in g ==> (t in adj[m] <==> Imports(g, m, t))
  {
    hide Under, SomeMeans;
    adj := map[];
    var todo := g.Keys;
    while todo != {}
      invariant todo <= g.Keys && adj.Keys == g.Keys - todo
      invariant forall m, t :: m in adj ==> (t in adj[m] <==> Imports(g, m, t))
      decreases |todo|
    {
      var m :| m in todo;
      var targets := Targets(g.Keys, m, g[m]);
      adj := adj[m := targets];
      todo := todo - {m};
    }
  }

  // ----- ancestor packages -----

  /** The names of the packages around `m`, innermost first: its prefixes before a dot below position `n`. */
  function Prefixes(m: Name, n: nat): (r: seq<Name>)
    requires n <= |m|
    ensures forall p :: p in r <==> Under(m, p) && |p| < n
  {
    if n == 0 then []
    else
      assert forall p :: Under(m, p) && |p| == n - 1 ==> p == m[..n - 1];
      assert m[n - 1] == '.' ==> m[..n - 1] + "." == m[..n];
      if m[n - 1] == '.' then [m[..n - 1]] + Prefixes(m, n - 1) else Prefixes(m, n - 1)
  }

  /** The ones that are modules themselves. */
  function Ancestors(m: Name, all: set<Name>): (r: seq<Name>)
    ensures forall p :: p in r <==> p in all && Under(m, p)
  {
    Among(Prefixes(m, |m|), all)
  }

  function Among(names: seq<Name>, all: set<Name>): (r: seq<Name>)
    ensures forall p :: p in r <==> p in names && p in all
  {
    if names == [] then []
    else (if names[0] in all then [names[0]] else []) + Among(names[1..], all)
  }

  // ----- the worklist -----

  /** One step of the search. */
  function Next(adj: map<Name, set<Name>>, all: set<Name>, m: Name): set<Name> {
    (set p | p in all && Under(m, p)) + if m in adj then adj[m] else {}
  }

  ghost predicate Path(adj: map<Name, set<Name>>, all: set<Name>, p: seq<Name>) {
    p != [] && forall i :: 0 < i < |p| ==> p[i] in Next(adj, all, p[i - 1])
  }

  /** `m` ends a path that begins in `starts`. */
  ghost predicate Reached(adj: map<Name, set<Name>>, all: set<Name>, starts: set<Name>, m: Name) {
    exists p :: Path(adj, all, p) && p[0] in starts && p[|p| - 1] == m
  }

  ghost predicate Closed(adj: map<Name, set<Name>>, all: set<Name>, s: set<Name>) {
    forall m, t :: m in s && t in Next(adj, all, m) ==> t in s
  }

  lemma ReachedStep(adj: map<Name, set<Name>>, all: set<Name>, starts: set<Name>, m: Name, t: Name)
    requires Reached(adj, all, starts, m) && t in Next(adj, all, m)
    ensures Reached(adj, all, starts, t)
  {
    var p :| Path(adj, all, p) && p[0] in starts && p[|p| - 1] == m;
    assert Path(adj, all, p + [t]);
  }

  /** Reachability is the least set that holds the starts and is closed under steps. */
  lemma {:induction false} ReachedIsLeast(
      adj: map<Name, set<Name>>, all: set<Name>, starts: set<Name>, s: set<Name>, p: seq<Name>)
    requires starts <= s && Closed(adj, all, s) && Path(adj, all, p) && p[0] in starts
    ensures p[|p| - 1] in s
    decreases |p|
  {
    if |p| > 1 {
      var q := p[..|p| - 1];
      assert Path(adj, all, q);
      ReachedIsLeast(adj, all, starts, s, q);
      assert p[|p| - 1] in Next(adj, all, p[|p| - 2]);
    }
  }

  /** `ep.split(":")[0]`: the module part of an entrypoint `module:function`. */
  function BeforeColon(ep: string): (r: string)
    ensures ':' !in r && r <= ep && (r == ep || ep[|r|] == ':')
  {
    if ep == "" || ep[0] == ':' then "" else [ep[0]] + BeforeColon(ep[1..])
  }

  function StartOf(ep: string, all: set<Name>): Name {
    if ep in all then ep else BeforeColon(ep)
  }

  /** The modules the entrypoints name. */
  function Starts(entrypoints: seq<string>, all: set<Name>): set<Name> {
    set ep | ep in entrypoints && StartOf(ep, all) in all :: StartOf(ep, all)
  }

  /** What is still outside, plus what a queue of repeats can still cost. */
  ghost predicate Searching(adj: map<Name, set<Name>>, all: set<Name>, starts: set<Name>,
                            reachable: set<Name>, queue: seq<Name>) {
    && (forall m :: m in reachable || m in queue ==> Reached(adj, all, starts, m))
    && (forall m :: m in starts ==> m in reachable || m in queue)
    && (forall m, t :: m in reachable && t in Next(adj, all, m) ==> t in reachable || t in queue)
  }

  ghost function Universe(adj: map<Name, set<Name>>, all: set<Name>): set<Name> {
    all + set m, t | m in adj && t in adj[m] :: t
  }

  lemma Began(adj: map<Name, set<Name>>, all: set<Name>, starts: set<Name>, queue: seq<Name>)
    requires forall m :: m in queue <==> m in starts
    ensures Searching(adj, all, starts, {}, queue)
  {
    forall m | m in starts ensures Reached(adj, all, starts, m) {
      assert Path(adj, all, [m]);
    }
  }

  /** Dropping a queued module that was visited before. */
  lemma Skip(adj: map<Name, set<Name>>, all: set<Name>, starts: set<Name>, reachable: set<Name>,
             queue: seq<Name>)
    requires queue != [] && Searching(adj, all, starts, reachable, queue) && queue[0] in reachable
    ensures Searching(adj, all, starts, reachable, queue[1..])
  {
    hide Next, Reached;
    forall t | t in queue && t !in reachable ensures t in queue[1..] {
      assert queue == [queue[0]] + queue[1..];
    }
  }

  /** Visiting a queued module that is new. */
  lemma Visit(adj: map<Name, set<Name>>, all: set<Name>, starts: set<Name>, reachable: set<Name>,
              queue: seq<Name>, added: seq<Name>)
    requires queue != [] && Searching(adj, all, starts, reachable, queue)
    requires forall t :: t in added <==> t in Next(adj, all, queue[0]) && t !in reachable + {queue[0]}
    ensures Searching(adj, all, starts, reachable + {queue[0]}, queue[1..] + added)
  {
    hide Next, Reached;
    var m := queue[0];
    assert m in queue;
    forall t | t in added ensures Reached(adj, all, starts, t) {
      ReachedStep(adj, all, starts, m, t);
    }
    forall t | t in queue ensures t == m || t in queue[1..] {
      assert queue == [m] + queue[1..];
    }
    forall a, t | a in reachable + {m} && t in Next(adj, all, a)
      ensures t in reachable + {m} || t in queue[1..] + added
    {
      if a == m { assert t in added || t in reachable + {m}; }
    }
  }

  /** When the queue is empty, everything reached was visited. */
  lemma Finished(adj: map<Name, set<Name>>, all: set<Name>, starts: set<Name>, reachable: set<Name>)
    requires Searching(adj, all, starts, reachable, [])
    ensures forall m :: m in reachable <==> Reached(adj, all, starts, m)
  {
    hide Next;
    assert Closed(adj, all, reachable) && starts <= reachable;
    forall m | Reached(adj, all, starts, m) ensures m in reachable {
      var p :| Path(adj, all, p) && p[0] in starts && p[|p| - 1] == m;
      ReachedIsLeast(adj, all, starts, reachable, p);
    }
  }

  lemma NextInUniverse(adj: map<Name, set<Name>>, all: set<Name>, m: Name)
    ensures Next(adj, all, m) <= Universe(adj, all)
  {
  }

  /** The queue at the start: the entrypoints' modules that exist, repeats included. */
  method FirstQueue(entrypoints: seq<string>, all: set<Name>) returns (queue: seq<Name>)
    ensures forall m :: m in queue <==> m in Starts(entrypoints, all)
  {
    queue := [];
    for i := 0 to |entrypoints|
      invariant forall m :: m in queue <==> exists j :: 0 <= j < i && StartOf(entrypoints[j], all) == m && m in all
    {
      var mod := if entrypoints[i] in all then entrypoints[i] else BeforeColon(entrypoints[i]);
      if mod in all {
        queue := queue + [mod];
      }
    }
  }

  /** What a visit puts on the queue: new ancestor packages, then new imports. */
  method Found(adj: map<Name, set<Name>>, all: set<Name>, reachable: set<Name>, m: Name)
    returns (added: seq<Name>)
    ensures forall t :: t in added <==> t in Next(adj, all, m) && t !in reachable
  {
    hide Next, Under, Ancestors;
    var ancestors := Ancestors(m, all);
    added := [];
    for i := 0 to |ancestors|
      invariant forall t :: t in added <==> t in ancestors[..i] && t !in reachable
    {
      if ancestors[i] !in reachable {
        added := added + [ancestors[i]];
      }
    }
    var imported := Listing((if m in adj then adj[m] else {}) - reachable);
    forall t ensures t in added || t in imported <==> t in Next(adj, all, m) && t !in reachable {
      InNext(adj, all, m, t);
      assert t in added <==> t in ancestors && t !in reachable;
    }
    added := added + imported;
  }

  lemma InNext(adj: map<Name, set<Name>>, all: set<Name>, m: Name, t: Name)
    ensures t in Next(adj, all, m) <==> (t in all && Under(m, t)) || (m in adj && t in adj[m])
  {
  }

  /** The search visits exactly what is reached, although a module may be queued many times. */
  method BfsReachable(entrypoints: seq<string>, adj: map<Name, set<Name>>, all: set<Name>)
    returns (reachable: set<Name>)
    ensures forall m :: m in reachable <==> Reached(adj, all, Starts(entrypoints, all), m)
  {
    hide Next, Reached, Searching, Universe, Starts;
    ghost var starts := Starts(entrypoints, all);
    ghost var universe := Universe(adj, all);
    reachable := {};
    var queue := FirstQueue(entrypoints, all);
    Began(adj, all, starts, queue);
    StartsInUniverse(entrypoints, adj, all);
    while queue != []
      invariant reachable <= universe && forall m :: m in queue ==> m in universe
      invariant Searching(adj, all, starts, reachable, queue)
      decreases |universe - reachable|, |queue|
    {
      var mod := queue[0];
      if mod in reachable {
        Skip(adj, all, starts, reachable, queue);
        queue := queue[1..];
      } else {
        NextInUniverse(adj, all, mod);
        var added := Found(adj, all, reachable + {mod}, mod);
        Visit(adj, all, starts, reachable, queue, added);
        assert universe - (reachable + {mod}) < universe - reachable by { assert mod in universe; }
        Fewer(universe - (reachable + {mod}), universe - reachable);
        reachable := reachable + {mod};
        queue := queue[1..] + added;
      }
    }
    Finished(adj, all, starts, reachable);
  }

  lemma StartsInUniverse(entrypoints: seq<string>, adj: map<Name, set<Name>>, all: set<Name>)
    ensures Starts(entrypoints, all) <= Universe(adj, all)
  {
  }

  lemma Fewer<T>(s: set<T>, t: set<T>)
    requires s < t
    ensures |s| < |t|
  {
    assert t == s + (t - s) && t - s != {};
  }

  /** A set in some order. */
  method Listing(s: set<Name>) returns (r: seq<Name>)
    ensures forall x :: x in r <==> x in s
  {
    r := [];
    var todo := s;
    while todo != {}
      invariant todo <= s && forall x :: x in r <==> x in s - todo
      decreases |todo|
    {
      var x :| x in todo;
      r := r + [x];
      todo := todo - {x};
    }
  }

  // ----- the report -----

  datatype Report = Report(passed: bool, islands: set<Name>, noEntrypoints: bool)

  /** A chain of edges from an entrypoint to `m`. */
  ghost predicate Live(g: Graph, entrypoints: seq<string>, m: Name) {
    exists p: seq<Name> :: Chain(g, p) && p[0] in Starts(entrypoints, g.Keys) && p[|p| - 1] == m
  }

  ghost predicate Chain(g: Graph, p: seq<Name>) {
    p != [] && forall i :: 0 < i < |p| ==> Edge(g, p[i - 1], p[i])
  }

  lemma ChainIsPath(g: Graph, adj: map<Name, set<Name>>, p: seq<Name>)
    requires adj.Keys == g.Keys
    requires forall m, t :: m in g ==> (t in adj[m] <==> Imports(g, m, t))
    ensures Chain(g, p) <==> Path(adj, g.Keys, p)
  {
    forall m, t ensures t in Next(adj, g.Keys, m) <==> Edge(g, m, t) {
    }
    if Chain(g, p) {
      forall i | 0 < i < |p| ensures p[i] in Next(adj, g.Keys, p[i - 1]) {
        assert Edge(g, p[i - 1], p[i]);
      }
    }
    if Path(adj, g.Keys, p) {
      forall i | 0 < i < |p| ensures Edge(g, p[i - 1], p[i]) {
        assert p[i] in Next(adj, g.Keys, p[i - 1]);
      }
    }
  }

  /** A module is an island exactly when no chain of edges leads to it from an entrypoint and it is not
      exempt; the check passes exactly when there is an entrypoint and no island. */
  method CheckReach(entrypoints: seq<string>, g: Graph, production: set<Name>, exempt: set<Name>)
    returns (r: Report)
    ensures forall m :: m in r.islands <==> m in production && m !in exempt && !Live(g, entrypoints, m)
    ensures r.noEntrypoints <==> entrypoints == []
    ensures r.passed <==> r.islands == {} && entrypoints != []
  {
    var adj := BuildAdjacency(g);
    var reachable := BfsReachable(entrypoints, adj, g.Keys);
    forall m ensures m in reachable <==> Live(g, entrypoints, m) {
      if m in reachable {
        var p :| Path(adj, g.Keys, p) && p[0] in Starts(entrypoints, g.Keys) && p[|p| - 1] == m;
        ChainIsPath(g, adj, p);
      }
      if Live(g, entrypoints, m) {
        var p :| Chain(g, p) && p[0] in Starts(entrypoints, g.Keys) && p[|p| - 1] == m;
        ChainIsPath(g, adj, p);
      }
    }
    var islands := set m | m in production && m !in reachable && m !in exempt;
    r := Report(islands == {} && entrypoints != [], islands, entrypoints == []);
  }

  // ----- what cannot add an island -----

  /** Same modules, and at least the same imports. */
  ghost predicate Extends(g: Graph, h: Graph) {
    h.Keys == g.Keys && forall m :: m in g ==> g[m] <= h[m]
  }

  ghost predicate Within(a: seq<string>, b: seq<string>) {
    forall x :: x in a ==> x in b
  }

  /** More entrypoints and more imports over the same modules lose no module. */
  lemma MonotoneLive(g: Graph, h: Graph, e: seq<string>, f: seq<string>, m: Name)
    requires Extends(g, h) && Within(e, f) && Live(g, e, m)
    ensures Live(h, f, m)
  {
    var p :| Chain(g, p) && p[0] in Starts(e, g.Keys) && p[|p| - 1] == m;
    forall i | 0 < i < |p| ensures Edge(h, p[i - 1], p[i]) {
      assert Edge(g, p[i - 1], p[i]);
      if Imports(g, p[i - 1], p[i]) {
        var imp :| imp in g[p[i - 1]] && Means(g.Keys, p[i - 1], imp, p[i]);
        assert imp in h[p[i - 1]];
      }
    }
    assert Chain(h, p);
  }

  /** More entrypoints, more imports over the same modules and more exemptions add no island. */
  lemma NoNewIsland(g: Graph, h: Graph, e: seq<string>, f: seq<string>, production: set<Name>,
                    exempt: set<Name>, spared: set<Name>, r: Report, s: Report)
    requires Extends(g, h) && Within(e, f) && exempt <= spared
    requires forall m :: m in r.islands <==> m in production && m !in exempt && !Live(g, e, m)
    requires forall m :: m in s.islands <==> m in production && m !in spared && !Live(h, f, m)
    ensures s.islands <= r.islands
  {
    forall m | m in s.islands ensures m in r.islands {
      if Live(g, e, m) {
        MonotoneLive(g, h, e, f, m);
      }
    }
  }

  // ----- a new module can add one -----

  /** `n` is imported by name, and the import stands for a module inside the package `n`. */
  ghost predicate Shadows(g: Graph, n: Name, m: Name, t: Name) {
    m in g && t in g && t != m && n in g[m] && Under(t, n)
  }

  /** The entrypoint `n` named the module part of `n` as long as there was no module `n`. */
  predicate TakesStart(g: Graph, n: Name, e: seq<string>) {
    n in e && BeforeColon(n) in g
  }

  lemma EdgeAppends(g: Graph, e: seq<string>, a: Name, t: Name)
    requires Live(g, e, a) && Edge(g, a, t)
    ensures Live(g, e, t)
  {
    hide Edge;
    var p :| Chain(g, p) && p[0] in Starts(e, g.Keys) && p[|p| - 1] == a;
    assert Chain(g, p + [t]);
    assert (p + [t])[0] in Starts(e, g.Keys);
  }

  lemma StartIsLive(g: Graph, e: seq<string>, m: Name)
    requires m in Starts(e, g.Keys)
    ensures Live(g, e, m)
  {
    assert Chain(g, [m]) && [m][0] in Starts(e, g.Keys);
  }

  /** An edge is lost only where the new module is imported in place of the package of its name. */
  lemma EdgeKeeps(g: Graph, n: Name, imports: set<Name>, a: Name, t: Name)
    requires n !in g && a in g && Edge(g, a, t)
    ensures Edge(g[n := imports], a, t) || Shadows(g, n, a, t)
  {
    hide Under;
    var h := g[n := imports];
    if Imports(g, a, t) {
      var imp :| imp in g[a] && Means(g.Keys, a, imp, t);
      assert imp in h[a] && (Means(h.Keys, a, imp, t) || imp == n);
    }
  }

  lemma {:induction false} ChainKeeps(g: Graph, n: Name, imports: set<Name>, e: seq<string>, p: seq<Name>)
    requires n !in g && Chain(g, p) && p[0] in Starts(e, g.Keys)
    requires forall a, t :: Shadows(g, n, a, t) && Live(g, e, a) ==> Live(g[n := imports], e, t)
    requires TakesStart(g, n, e) ==> Live(g[n := imports], e, BeforeColon(n))
    ensures Live(g[n := imports], e, p[|p| - 1]) && p[|p| - 1] in g
    decreases |p|
  {
    hide Edge, Live, Shadows;
    var h := g[n := imports];
    if |p| == 1 {
      var ep :| ep in e && StartOf(ep, g.Keys) in g.Keys && StartOf(ep, g.Keys) == p[0];
      if ep != n {
        assert StartOf(ep, h.Keys) == p[0] && p[0] in Starts(e, h.Keys);
        StartIsLive(h, e, p[0]);
      }
    } else {
      var q, a, t := p[..|p| - 1], p[|p| - 2], p[|p| - 1];
      assert Chain(g, q) && q[|q| - 1] == a;
      ChainKeeps(g, n, imports, e, q);
      assert Edge(g, p[|p| - 2], p[|p| - 1]);
      EdgeInGraph(g, a, t);
      EdgeKeeps(g, n, imports, a, t);
      if Edge(h, a, t) {
        EdgeAppends(h, e, a, t);
      } else {
        ChainIsLive(g, e, q);
      }
    }
  }

  lemma EdgeInGraph(g: Graph, a: Name, t: Name)
    requires Edge(g, a, t)
    ensures t in g
  {
  }

  lemma ChainIsLive(g: Graph, e: seq<string>, p: seq<Name>)
    requires Chain(g, p) && p[0] in Starts(e, g.Keys)
    ensures Live(g, e, p[|p| - 1])
  {
  }

  /** Exactly when a new module loses no other one: when every module that a live one reached only through the
      package name it takes over is still reached, and so is the module part of an entrypoint of its name. */
  lemma NewModuleKeeps(g: Graph, n: Name, imports: set<Name>, e: seq<string>)
    requires n !in g
    ensures (forall m :: Live(g, e, m) ==> Live(g[n := imports], e, m)) <==>
      && (forall a, t :: Shadows(g, n, a, t) && Live(g, e, a) ==> Live(g[n := imports], e, t))
      && (TakesStart(g, n, e) ==> Live(g[n := imports], e, BeforeColon(n)))
  {
    hide Live, Chain, Edge;
    var h := g[n := imports];
    if forall m :: Live(g, e, m) ==> Live(h, e, m) {
      forall a, t | Shadows(g, n, a, t) && Live(g, e, a) ensures Live(h, e, t) {
        ShadowedEdge(g, n, a, t);
        EdgeAppends(g, e, a, t);
      }
      if TakesStart(g, n, e) {
        assert StartOf(n, g.Keys) == BeforeColon(n);
        StartIsLive(g, e, BeforeColon(n));
      }
    } else {
      var m :| Live(g, e, m) && !Live(h, e, m);
      var p := LiveChain(g, e, m);
      if (forall a, t :: Shadows(g, n, a, t) && Live(g, e, a) ==> Live(h, e, t))
        && (TakesStart(g, n, e) ==> Live(h, e, BeforeColon(n))) {
        ChainKeeps(g, n, imports, e, p);
      }
    }
  }

  lemma ShadowedEdge(g: Graph, n: Name, a: Name, t: Name)
    requires n !in g && Shadows(g, n, a, t)
    ensures Edge(g, a, t)
  {
    hide Under;
    assert n in g[a] && Means(g.Keys, a, n, t);
  }

  lemma LiveChain(g: Graph, e: seq<string>, m: Name) returns (p: seq<Name>)
    requires Live(g, e, m)
    ensures Chain(g, p) && p[0] in Starts(e, g.Keys) && p[|p| - 1] == m
  {
    p :| Chain(g, p) && p[0] in Starts(e, g.Keys) && p[|p| - 1] == m;
  }

  /** Without that condition it can: giving the package `p` a module of its own turns the import `p` of `m`
      from everything inside the package into that one module, and `p.a` becomes an island. */
  lemma NewModuleCanAddIsland()
    ensures var g: Graph := map["m" := {"p"}, "p.a" := {}];
      Live(g, ["m"], "p.a") && !Live(g["p" := {}], ["m"], "p.a")
  {
    var g: Graph := map["m" := {"p"}, "p.a" := {}];
    assert Under("p.a", "p") by { assert "p" + "." == "p.a"[..2]; }
    assert Means(g.Keys, "m", "p", "p.a");
    assert Chain(g, ["m", "p.a"]);
    assert StartOf("m", g.Keys) == "m" && "m" in Starts(["m"], g.Keys);
    assert ["m", "p.a"][0] in Starts(["m"], g.Keys);
    var h := g["p" := {}];
    forall p | Chain(h, p) && p[0] in Starts(["m"], h.Keys) ensures p[|p| - 1] != "p.a" {
      OnlyTwo(h, p);
    }
  }

  lemma {:induction false} OnlyTwo(h: Graph, p: seq<Name>)
    requires h == map["m" := {"p"}, "p.a" := {}, "p" := {}]
    requires Chain(h, p) && p[0] in Starts(["m"], h.Keys)
    ensures p[|p| - 1] in {"m", "p"}
    decreases |p|
  {
    if |p| == 1 {
      assert StartOf("m", h.Keys) == "m";
    } else {
      var q := p[..|p| - 1];
      assert Chain(h, q);
      OnlyTwo(h, q);
      assert Edge(h, p[|p| - 2], p[|p| - 1]);
      assert !Under("m", p[|p| - 1]) && !Under("p", p[|p| - 1]);
    }
  }

  // ----- the definitions, in terms of names -----

  /** Exactly what an import is of: the module it names, or, when it names none or the importing module itself,
      every other module whose name goes on with a dot after it. */
  lemma ImportsExactly(g: Graph, m: Name, t: Name)
    ensures Imports(g, m, t) <==>
      && m in g && t in g && t != m
      && (t in g[m]
          || exists imp :: imp in g[m] && (imp !in g || imp == m)
               && |imp| < |t| && t[..|imp|] == imp && t[|imp|] == '.')
  {
    if Imports(g, m, t) {
      var imp :| imp in g[m] && Means(g.Keys, m, imp, t);
      if !(imp in g && imp != m) { UnderExactly(t, imp); }
    }
    if m in g && t in g && t != m {
      if t in g[m] { assert Means(g.Keys, m, t, t); }
      if imp :| imp in g[m] && (imp !in g || imp == m) && |imp| < |t| && t[..|imp|] == imp && t[|imp|] == '.' {
        UnderExactly(t, imp);
        assert Means(g.Keys, m, imp, t);
      }
    }
  }

  lemma UnderExactly(t: Name, p: Name)
    ensures Under(t, p) <==> |p| < |t| && t[..|p|] == p && t[|p|] == '.'
  {
    if |p| < |t| && t[..|p|] == p && t[|p|] == '.' { assert t[..|p| + 1] == p + "."; }
    if Under(t, p) { assert t[..|p| + 1] == p + "." && t[..|p|] == t[..|p| + 1][..|p|]; }
  }

  /** Exactly which modules are starts: those an entrypoint names, and those named before the first colon of one that
      is no module itself. */
  lemma StartsExactly(e: seq<string>, all: set<Name>, m: Name)
    ensures m in Starts(e, all) <==>
      m in all && (m in e || (':' !in m && exists ep :: ep in e && ep !in all && m + ":" <= ep))
  {
    if m in Starts(e, all) {
      var ep :| ep in e && StartOf(ep, all) in all && StartOf(ep, all) == m;
      if ep !in all {
        assert m != ep;
        assert ep[..|m| + 1] == m + ":";
      }
    }
    if m in all && m in e { assert StartOf(m, all) == m; }
    if m in all && ':' !in m {
      if ep :| ep in e && ep !in all && m + ":" <= ep {
        ColonEnds(ep, m);
        assert StartOf(ep, all) == m;
      }
    }
  }

  lemma {:induction false} ColonEnds(ep: string, m: string)
    requires ':' !in m && m + ":" <= ep
    ensures BeforeColon(ep) == m
  {
    assert ep[..|m| + 1] == m + ":";
    if m == "" {
      assert ep[0] == ':';
    } else {
      assert ep[0] == m[0] && m == [m[0]] + m[1..];
      assert ep[1..][..|m|] == m[1..] + ":";
      ColonEnds(ep[1..], m[1..]);
    }
  }

  /** What is live is the least set with the starts that imports and enclosing packages do not lead out of. */
  lemma LiveIsLeast(g: Graph, e: seq<string>, m: Name)
    ensures Live(g, e, m) <==> forall s: set<Name> :: HoldsLive(g, e, s) ==> m in s
  {
    hide Edge, Starts;
    if Live(g, e, m) {
      var p := LiveChain(g, e, m);
      forall s: set<Name> | HoldsLive(g, e, s) ensures m in s {
        ChainStays(g, e, s, p);
      }
    } else {
      var s := AllLive(g, e);
      assert m !in s;
    }
  }

  ghost predicate HoldsLive(g: Graph, e: seq<string>, s: set<Name>) {
    Starts(e, g.Keys) <= s && forall a, t :: a in s && Edge(g, a, t) ==> t in s
  }

  lemma {:induction false} ChainStays(g: Graph, e: seq<string>, s: set<Name>, p: seq<Name>)
    requires HoldsLive(g, e, s) && Chain(g, p) && p[0] in Starts(e, g.Keys)
    ensures p[|p| - 1] in s
    decreases |p|
  {
    hide Edge, Starts;
    if |p| > 1 {
      var q := p[..|p| - 1];
      assert Chain(g, q);
      ChainStays(g, e, s, q);
      assert Edge(g, p[|p| - 2], p[|p| - 1]);
    }
  }

  /** The live modules. */
  lemma AllLive(g: Graph, e: seq<string>) returns (s: set<Name>)
    ensures HoldsLive(g, e, s) && forall m :: m in s ==> Live(g, e, m)
  {
    hide Live, Chain;
    s := set m | m in g && Live(g, e, m);
    forall m | m in Starts(e, g.Keys) ensures m in s {
      StartIsLive(g, e, m);
    }
    forall a, t | a in s && Edge(g, a, t) ensures t in s {
      EdgeAppends(g, e, a, t);
    }
  }
}
