/** Reply trees. A thread is a sequence of comments in scan order with their depths; the tree is
    what those depths mean. Two definitions of the tree are proved equal: by intervals (a comment
    owns the run of deeper comments after it) and by parents (the nearest earlier shallower one). */
module Forest {

  datatype Item = Item(depth: nat, speaker: string, body: string, line: nat, text: string, mentions: seq<string>)

  datatype Comment = Comment(item: Item, children: seq<Comment>)

  /** `iter_comments`: a comment, then its descendants. */
  function IterComments(c: Comment): seq<Item>
    decreases c, 1
  {
    [c.item] + IterAll(c.children)
  }

  function IterAll(cs: seq<Comment>): seq<Item>
    decreases cs, 0
  {
    if cs == [] then [] else IterComments(cs[0]) + IterAll(cs[1..])
  }

  lemma SubSlice<T>(s: seq<T>, lo: nat, hi: nat, a: nat, b: nat)
    requires lo <= hi <= |s| && a <= b <= hi - lo
    ensures s[lo..hi][a..b] == s[lo + a..lo + b]
    ensures b == hi - lo ==> s[lo..hi][a..] == s[lo + a..hi]
  {
    var t := s[lo..hi];
    assert forall i :: a <= i < b ==> t[a..b][i - a] == t[i] == s[lo + i];
  }

  // ----- the tree by intervals -----

  /** How many leading items are deeper than `d`. */
  function Deeper(items: seq<Item>, d: nat): (k: nat)
    ensures k <= |items|
    ensures forall i :: 0 <= i < k ==> items[i].depth > d
    ensures k < |items| ==> items[k].depth <= d
  {
    if items != [] && items[0].depth > d then
      var k := 1 + Deeper(items[1..], d);
      assert forall i :: 1 <= i < k ==> items[i] == items[1..][i - 1];
      k
    else 0
  }

  function Build(items: seq<Item>): seq<Comment>
    decreases |items|
  {
    if items == [] then []
    else
      var e := 1 + Deeper(items[1..], items[0].depth);
      [Comment(items[0], Build(items[1..e]))] + Build(items[e..])
  }

  lemma BuildCons(items: seq<Item>)
    requires items != []
    ensures var e := 1 + Deeper(items[1..], items[0].depth);
      Build(items) == [Comment(items[0], Build(items[1..e]))] + Build(items[e..])
  {
  }

  /** The tree of one thread: its first comment over the forest of the rest. */
  function Tree(items: seq<Item>): Comment
    requires items != []
  {
    Comment(items[0], Build(items[1..]))
  }

  lemma IterAppend(a: seq<Comment>, b: seq<Comment>)
    ensures IterAll(a + b) == IterAll(a) + IterAll(b)
  {
    if a == [] {
      assert a + b == b;
    } else {
      assert (a + b)[1..] == a[1..] + b;
      IterAppend(a[1..], b);
    }
  }

  /** Walking the tree visits the comments in scan order, each once. */
  lemma {:induction false} IterBuild(items: seq<Item>)
    ensures IterAll(Build(items)) == items
    decreases |items|
  {
    hide Build, Deeper, IterAll;
    if items == [] {
      IterSmall();
    } else {
      var e := 1 + Deeper(items[1..], items[0].depth);
      IterBuild(items[1..e]);
      IterBuild(items[e..]);
      BuildCons(items);
      IterCons(Comment(items[0], Build(items[1..e])), Build(items[e..]));
      assert items == [items[0]] + items[1..e] + items[e..];
    }
  }

  lemma IterSmall()
    ensures IterAll(Build([])) == []
  {
  }

  lemma IterCons(c: Comment, cs: seq<Comment>)
    ensures IterAll([c] + cs) == [c.item] + IterAll(c.children) + IterAll(cs)
  {
    assert ([c] + cs)[1..] == cs;
  }

  lemma IterTree(items: seq<Item>)
    requires items != []
    ensures IterComments(Tree(items)) == items
  {
    IterBuild(items[1..]);
  }

  // ----- the tree by parents -----

  /** The nearest index before `j` with a depth below `d`, or 0. */
  function Above(items: seq<Item>, j: nat, d: nat): (p: nat)
    requires j <= |items|
    ensures p == 0 || p < j
    ensures forall i :: p < i < j ==> items[i].depth >= d
    ensures p == 0 || items[p].depth < d
  {
    if j == 0 then 0 else if items[j - 1].depth < d then j - 1 else Above(items, j - 1, d)
  }

  function Parent(items: seq<Item>, j: nat): nat
    requires 0 < j < |items|
  {
    Above(items, j, items[j].depth)
  }

  /** The children of `p` among the items before `n`, in scan order. */
  function Kids(items: seq<Item>, p: nat, n: nat): (ks: seq<nat>)
    requires n <= |items|
    ensures forall i :: 0 <= i < |ks| ==> p < ks[i] < n && Parent(items, ks[i]) == p
    ensures forall j :: p < j < n && Parent(items, j) == p ==> j in ks
  {
    if n <= p + 1 then []
    else Kids(items, p, n - 1) + (if Parent(items, n - 1) == p then [n - 1] else [])
  }

  function TreeOf(items: seq<Item>, p: nat): Comment
    requires p < |items|
    decreases |items| - p, 1, 0
  {
    Comment(items[p], TreesOf(items, p, Kids(items, p, |items|)))
  }

  function TreesOf(items: seq<Item>, p: nat, ks: seq<nat>): (cs: seq<Comment>)
    requires p < |items| && forall i :: 0 <= i < |ks| ==> p < ks[i] < |items|
    ensures |cs| == |ks|
    decreases |items| - p, 0, |ks|
  {
    if ks == [] then [] else [TreeOf(items, ks[0])] + TreesOf(items, p, ks[1..])
  }

  /** A thread: the first comment has depth 1 and every later one is deeper. */
  predicate IsThread(items: seq<Item>) {
    items != [] && items[0].depth == 1 && forall i :: 0 < i < |items| ==> items[i].depth > 1
  }

  /** The children of `p` from index `a` on, when `a` starts a child's interval. */
  function KidsFrom(items: seq<Item>, p: nat, a: nat): (ks: seq<nat>)
    requires p < a <= |items|
    ensures forall i :: 0 <= i < |ks| ==> a <= ks[i] < |items|
    decreases |items| - a
  {
    if a == |items| then []
    else (if Parent(items, a) == p then [a] else []) + KidsFrom(items, p, a + 1)
  }

  lemma KidsSplit(items: seq<Item>, p: nat, a: nat)
    requires p < a <= |items|
    ensures Kids(items, p, |items|) == Kids(items, p, a) + KidsFrom(items, p, a)
    decreases |items| - a
  {
    if a < |items| {
      KidsSplit(items, p, a + 1);
    }
  }

  lemma KidsSkip(items: seq<Item>, p: nat, a: nat, b: nat)
    requires p < a <= b <= |items|
    requires forall j :: a <= j < b ==> Parent(items, j) != p
    ensures KidsFrom(items, p, a) == KidsFrom(items, p, b)
    decreases b - a
  {
    if a < b {
      KidsSkip(items, p, a + 1, b);
    }
  }

  /** `[lo, hi)` is a run of whole children's intervals of `p`, up to the end of `p`'s own. */
  predicate Run(items: seq<Item>, p: nat, lo: nat, hi: nat) {
    && p < lo <= hi <= |items|
    && (forall i :: p < i < hi ==> items[i].depth > items[p].depth)
    && (hi < |items| ==> items[hi].depth <= items[p].depth)
    && (lo < hi ==> forall i :: p < i < lo ==> items[i].depth >= items[lo].depth)
  }

  /** The interval of the first child of a run. */
  lemma FirstInterval(items: seq<Item>, lo: nat, hi: nat) returns (e: nat)
    requires lo < hi <= |items|
    ensures lo < e <= hi && e == lo + 1 + Deeper(items[lo + 1..hi], items[lo].depth)
    ensures forall i :: lo < i < e ==> items[i].depth > items[lo].depth
    ensures e < hi ==> items[e].depth <= items[lo].depth
  {
    var s := items[lo + 1..hi];
    e := lo + 1 + Deeper(s, items[lo].depth);
    assert forall i :: lo < i < e ==> items[i] == s[i - lo - 1];
    assert e < hi ==> items[e] == s[e - lo - 1];
  }

  lemma ParentInRun(items: seq<Item>, p: nat, lo: nat, hi: nat) returns (e: nat)
    requires Run(items, p, lo, hi) && lo < hi
    ensures lo < e <= hi && e == lo + 1 + Deeper(items[lo + 1..hi], items[lo].depth)
    ensures Parent(items, lo) == p && forall j :: lo < j < e ==> Parent(items, j) != p
    ensures Run(items, p, e, hi) && Run(items, lo, lo + 1, e)
    ensures e < |items| ==> items[e].depth <= items[lo].depth
  {
    hide Deeper;
    e := FirstInterval(items, lo, hi);
    assert Parent(items, lo) >= p;
    assert forall j :: lo < j < e ==> Parent(items, j) >= lo;
  }

  /** No comment after `p`'s interval has parent `p`. */
  lemma KidsClosed(items: seq<Item>, p: nat, hi: nat)
    requires p < hi <= |items|
    requires hi < |items| ==> p > 0 && items[hi].depth <= items[p].depth
    ensures KidsFrom(items, p, hi) == []
  {
    assert forall j :: hi < j < |items| && Parent(items, j) < hi ==> items[hi].depth >= items[j].depth;
    KidsSkip(items, p, hi, |items|);
  }

  /** Between `lo` and `hi` the two definitions give the same trees. */
  ghost predicate Agree(items: seq<Item>, p: nat, lo: nat, hi: nat)
    requires p < lo <= hi <= |items|
  {
    TreesOf(items, p, KidsFrom(items, p, lo)) == Build(items[lo..hi]) + TreesOf(items, p, KidsFrom(items, p, hi))
  }

  /** The parent definition builds the same forest on every run. */
  lemma {:induction false} BuildRun(items: seq<Item>, p: nat, lo: nat, hi: nat)
    requires Run(items, p, lo, hi) && p < lo <= hi <= |items|
    ensures Agree(items, p, lo, hi)
    decreases hi - lo
  {
    hide Agree, Build, TreesOf, KidsFrom, Kids, Above, TreeOf, Run, Deeper;
    if lo < hi {
      var e := ParentInRun(items, p, lo, hi);
      BuildRun(items, p, e, hi);
      BuildRun(items, lo, lo + 1, e);
      KidsClosed(items, lo, e);
      KidsSkip(items, p, lo + 1, e);
      OwnTree(items, lo, e);
      BuildStep(items, p, lo, e, hi);
    } else {
      AgreeEmpty(items, p, lo);
    }
  }

  lemma AgreeEmpty(items: seq<Item>, p: nat, lo: nat)
    requires p < lo <= |items|
    ensures Agree(items, p, lo, lo)
  {
    assert items[lo..lo] == [];
  }

  lemma OwnTree(items: seq<Item>, lo: nat, e: nat)
    requires lo < e <= |items| && Agree(items, lo, lo + 1, e) && KidsFrom(items, lo, e) == []
    ensures TreeOf(items, lo) == Comment(items[lo], Build(items[lo + 1..e]))
  {
    hide Build, KidsFrom, Kids;
    KidsWhole(items, lo);
    assert Build(items[lo + 1..e]) + [] == Build(items[lo + 1..e]);
  }

  lemma TreesCons(items: seq<Item>, p: nat, k: nat, ks: seq<nat>)
    requires p < k < |items| && forall i :: 0 <= i < |ks| ==> p < ks[i] < |items|
    ensures forall i :: 0 <= i < |[k] + ks| ==> p < ([k] + ks)[i] < |items|
    ensures TreesOf(items, p, [k] + ks) == [TreeOf(items, k)] + TreesOf(items, p, ks)
  {
    hide TreeOf;
    assert ([k] + ks)[1..] == ks;
  }

  lemma KidsHead(items: seq<Item>, p: nat, lo: nat)
    requires p < lo < |items| && Parent(items, lo) == p
    ensures KidsFrom(items, p, lo) == [lo] + KidsFrom(items, p, lo + 1)
  {
    hide Parent;
  }

  lemma BuildStep(items: seq<Item>, p: nat, lo: nat, e: nat, hi: nat)
    requires p < lo < e <= hi <= |items| && e == lo + 1 + Deeper(items[lo + 1..hi], items[lo].depth)
    requires Parent(items, lo) == p && KidsFrom(items, p, lo + 1) == KidsFrom(items, p, e)
    requires TreeOf(items, lo) == Comment(items[lo], Build(items[lo + 1..e])) && Agree(items, p, e, hi)
    ensures Agree(items, p, lo, hi)
  {
    hide Deeper, Parent, Kids, Build, TreeOf, TreesOf, KidsFrom;
    BuildSlice(items, lo, e, hi);
    TreesHead(items, p, lo, e);
  }

  lemma TreesHead(items: seq<Item>, p: nat, lo: nat, e: nat)
    requires p < lo < e <= |items| && Parent(items, lo) == p && KidsFrom(items, p, lo + 1) == KidsFrom(items, p, e)
    ensures TreesOf(items, p, KidsFrom(items, p, lo)) == [TreeOf(items, lo)] + TreesOf(items, p, KidsFrom(items, p, e))
  {
    hide Parent, Kids, TreeOf, TreesOf, KidsFrom;
    KidsHead(items, p, lo);
    TreesCons(items, p, lo, KidsFrom(items, p, e));
  }

  lemma BuildSlice(items: seq<Item>, lo: nat, e: nat, hi: nat)
    requires lo < e <= hi <= |items| && e == lo + 1 + Deeper(items[lo + 1..hi], items[lo].depth)
    ensures Build(items[lo..hi]) == [Comment(items[lo], Build(items[lo + 1..e]))] + Build(items[e..hi])
  {
    hide Build;
    var s := items[lo..hi];
    BuildCons(s);
    SubSlice(items, lo, hi, 1, hi - lo);
    SubSlice(items, lo, hi, 1, e - lo);
    SubSlice(items, lo, hi, e - lo, hi - lo);
  }

  lemma KidsWhole(items: seq<Item>, p: nat)
    requires p < |items|
    ensures Kids(items, p, |items|) == KidsFrom(items, p, p + 1)
  {
    KidsSplit(items, p, p + 1);
  }

  /** The two definitions agree on every thread. */
  lemma TreeByParents(items: seq<Item>)
    requires IsThread(items)
    ensures TreeOf(items, 0) == Tree(items)
  {
    BuildRun(items, 0, 1, |items|);
    KidsWhole(items, 0);
    assert items[1..|items|] == items[1..];
  }

  // ----- adding a reply -----

  /** One past the last comment of `j`'s subtree. */
  function SubtreeEnd(items: seq<Item>, j: nat): (e: nat)
    requires j < |items|
    ensures j < e <= |items|
  {
    j + 1 + Deeper(items[j + 1..], items[j].depth)
  }

  lemma SubtreeEndIs(items: seq<Item>, j: nat, e: nat)
    requires j < e <= |items|
    requires forall i :: j < i < e ==> items[i].depth > items[j].depth
    requires e < |items| ==> items[e].depth <= items[j].depth
    ensures SubtreeEnd(items, j) == e
  {
    var k := Deeper(items[j + 1..], items[j].depth);
    assert forall i :: j < i < |items| ==> items[i] == items[j + 1..][i - j - 1];
    assert j + 1 + k < |items| ==> items[j + 1 + k].depth <= items[j].depth;
  }

  lemma SubtreeEndSpan(items: seq<Item>, j: nat)
    requires j < |items|
    ensures var e := SubtreeEnd(items, j);
      && (forall i :: j < i < e ==> items[i].depth > items[j].depth)
      && (e < |items| ==> items[e].depth <= items[j].depth)
  {
    assert forall i :: j < i < |items| ==> items[i] == items[j + 1..][i - j - 1];
  }

  function Insert<T>(s: seq<T>, k: nat, x: T): (r: seq<T>)
    requires k <= |s|
    ensures |r| == |s| + 1
  {
    s[..k] + [x] + s[k..]
  }

  /** The comment on `line` gains `leaf` as its last child; nothing else changes. */
  function AddChild(c: Comment, line: nat, leaf: Comment): Comment
    decreases c, 1
  {
    if c.item.line == line then Comment(c.item, c.children + [leaf])
    else Comment(c.item, AddEach(c.children, line, leaf))
  }

  function AddEach(cs: seq<Comment>, line: nat, leaf: Comment): seq<Comment>
    decreases cs, 0
  {
    if cs == [] then [] else [AddChild(cs[0], line, leaf)] + AddEach(cs[1..], line, leaf)
  }

  predicate LinesIncrease(items: seq<Item>) {
    forall i, j :: 0 <= i < j < |items| ==> items[i].line < items[j].line
  }

  lemma {:induction false} AddAbsent(items: seq<Item>, line: nat, leaf: Comment)
    requires forall i :: 0 <= i < |items| ==> items[i].line != line
    ensures AddEach(Build(items), line, leaf) == Build(items)
    decreases |items|
  {
    if items != [] {
      var e := 1 + Deeper(items[1..], items[0].depth);
      AddAbsent(items[1..e], line, leaf);
      AddAbsent(items[e..], line, leaf);
      assert Build(items)[1..] == Build(items[e..]);
    }
  }

  lemma BuildSmall(x: Item)
    ensures Build([]) == [] && Build([x]) == [Comment(x, [])]
  {
    assert [x][1..] == [];
  }

  lemma Assoc<T>(a: seq<T>, b: seq<T>, c: seq<T>)
    ensures a + (b + c) == (a + b) + c
  {
  }

  lemma BuildAt(items: seq<Item>, e: nat)
    requires items != [] && e == SubtreeEnd(items, 0)
    ensures Build(items) == [Comment(items[0], Build(items[1..e]))] + Build(items[e..])
  {
    hide Build, Deeper;
    assert items[0 + 1..] == items[1..];
    BuildCons(items);
  }

  /** A comment no deeper than those before it starts a tree of its own at the end of the forest. */
  lemma {:induction false} AppendLeaf(items: seq<Item>, x: Item)
    requires forall i :: 0 <= i < |items| ==> items[i].depth >= x.depth
    ensures Build(items + [x]) == Build(items) + [Comment(x, [])]
    decreases |items|
  {
    hide Build, SubtreeEnd;
    var all := items + [x];
    if items == [] {
      assert all == [x];
      BuildSmall(x);
    } else {
      var e := SubtreeEnd(items, 0);
      SubtreeEndSpan(items, 0);
      SubtreeEndIs(all, 0, e);
      AppendLeaf(items[e..], x);
      assert all[1..e] == items[1..e] && all[e..] == items[e..] + [x];
      BuildAt(all, e);
      BuildAt(items, e);
      Assoc([Comment(items[0], Build(items[1..e]))], Build(items[e..]), [Comment(x, [])]);
    }
  }

  lemma AddEachAt(items: seq<Item>, e: nat, line: nat, leaf: Comment)
    requires items != [] && e == SubtreeEnd(items, 0)
    ensures AddEach(Build(items), line, leaf)
         == [AddChild(Comment(items[0], Build(items[1..e])), line, leaf)] + AddEach(Build(items[e..]), line, leaf)
  {
    BuildAt(items, e);
    hide Build;
    assert Build(items)[1..] == Build(items[e..]);
  }

  /** Inserting a comment one level deeper just after `j`'s subtree adds it as `j`'s last child. */
  lemma {:induction false} InsertIsAddChild(items: seq<Item>, j: nat, x: Item)
    requires j < |items| && LinesIncrease(items) && x.depth == items[j].depth + 1
    ensures Build(Insert(items, SubtreeEnd(items, j), x)) == AddEach(Build(items), items[j].line, Comment(x, []))
    decreases |items|
  {
    hide Build, AddEach, Insert, SubtreeEnd;
    var e := SubtreeEnd(items, 0);
    SubtreeEndSpan(items, 0);
    AddEachAt(items, e, items[j].line, Comment(x, []));
    if j == 0 {
      InsertUnderFirst(items, e, x);
    } else if j < e {
      InsertInFirst(items, e, j, x);
      InsertIsAddChild(items[1..e], j - 1, x);
      AddAbsent(items[e..], items[j].line, Comment(x, []));
    } else {
      InsertAfterFirst(items, e, j, x);
      InsertIsAddChild(items[e..], j - e, x);
      AddAbsent(items[1..e], items[j].line, Comment(x, []));
    }
  }

  lemma InsertUnderFirst(items: seq<Item>, e: nat, x: Item)
    requires items != [] && LinesIncrease(items) && x.depth == items[0].depth + 1 && e == SubtreeEnd(items, 0)
    ensures Build(Insert(items, e, x)) == [Comment(items[0], Build(items[1..e]) + [Comment(x, [])])] + Build(items[e..])
    ensures AddEach(Build(items[e..]), items[0].line, Comment(x, [])) == Build(items[e..])
  {
    hide Build, AddEach, SubtreeEnd;
    var all := Insert(items, e, x);
    SubtreeEndSpan(items, 0);
    SubtreeEndIs(all, 0, e + 1);
    assert all[1..e + 1] == items[1..e] + [x] && all[e + 1..] == items[e..];
    BuildAt(all, e + 1);
    AppendLeaf(items[1..e], x);
    AddAbsent(items[e..], items[0].line, Comment(x, []));
  }

  lemma InsertInFirst(items: seq<Item>, e: nat, j: nat, x: Item)
    requires 0 < j < e && j < |items| && e == SubtreeEnd(items, 0) && x.depth == items[j].depth + 1
    ensures var s := items[1..e];
      Build(Insert(items, SubtreeEnd(items, j), x))
        == [Comment(items[0], Build(Insert(s, SubtreeEnd(s, j - 1), x)))] + Build(items[e..])
  {
    hide Build, SubtreeEnd;
    var s, at := items[1..e], SubtreeEnd(items, j);
    SubtreeEndSpan(items, 0);
    SubtreeEndSpan(items, j);
    assert forall i :: 0 <= i < |s| ==> s[i] == items[i + 1];
    SubtreeEndIs(s, j - 1, at - 1);
    SubtreeEndIs(Insert(items, at, x), 0, e + 1);
    InsertSlices(items, e, at, x);
    BuildAt(Insert(items, at, x), e + 1);
  }

  lemma InsertSlices<T>(items: seq<T>, e: nat, at: nat, x: T)
    requires 1 <= at <= e <= |items|
    ensures Insert(items, at, x)[1..e + 1] == Insert(items[1..e], at - 1, x)
    ensures Insert(items, at, x)[e + 1..] == items[e..]
  {
  }

  lemma InsertAfterFirst(items: seq<Item>, e: nat, j: nat, x: Item)
    requires j < |items| && e <= j && e == SubtreeEnd(items, 0) && x.depth == items[j].depth + 1
    ensures var s := items[e..];
      Build(Insert(items, SubtreeEnd(items, j), x))
        == [Comment(items[0], Build(items[1..e]))] + Build(Insert(s, SubtreeEnd(s, j - e), x))
  {
    hide Build, SubtreeEnd;
    var s, at := items[e..], SubtreeEnd(items, j);
    var all := Insert(items, at, x);
    SubtreeEndSpan(items, 0);
    SubtreeEndSpan(items, j);
    assert forall i :: 0 <= i < |s| ==> s[i] == items[i + e];
    SubtreeEndIs(s, j - e, at - e);
    SubtreeEndIs(all, 0, e);
    InsertLater(items, e, at, x);
    BuildAt(all, e);
  }

  lemma InsertLater<T>(items: seq<T>, e: nat, at: nat, x: T)
    requires 1 <= e <= at <= |items|
    ensures Insert(items, at, x)[1..e] == items[1..e]
    ensures Insert(items, at, x)[e..] == Insert(items[e..], at - e, x)
  {
  }

  /** The same for a whole thread. */
  lemma ReplyInTree(items: seq<Item>, j: nat, x: Item)
    requires IsThread(items) && j < |items| && LinesIncrease(items) && x.depth == items[j].depth + 1
    ensures IsThread(Insert(items, SubtreeEnd(items, j), x))
    ensures Tree(Insert(items, SubtreeEnd(items, j), x)) == AddChild(Tree(items), items[j].line, Comment(x, []))
  {
    var all := Insert(items, SubtreeEnd(items, j), x);
    InsertIsAddChild(items, j, x);
    assert IsThread(all);
    ThreadIsOneTree(items);
    ThreadIsOneTree(all);
    assert AddEach(Build(items), items[j].line, Comment(x, []))[0]
      == AddChild(Tree(items), items[j].line, Comment(x, []));
  }

  lemma ThreadIsOneTree(items: seq<Item>)
    requires IsThread(items)
    ensures Build(items) == [Tree(items)]
  {
    assert items[1..|items|] == items[1..];
    SubtreeEndIs(items, 0, |items|);
    BuildCons(items);
    assert items[|items|..] == [];
  }

  // ----- edits that keep every depth -----

  function MapItems(items: seq<Item>, f: Item -> Item): (r: seq<Item>)
    ensures |r| == |items| && forall i :: 0 <= i < |items| ==> r[i] == f(items[i])
  {
    seq(|items|, i requires 0 <= i < |items| => f(items[i]))
  }

  function MapTree(c: Comment, f: Item -> Item): Comment
    decreases c, 1
  {
    Comment(f(c.item), MapEach(c.children, f))
  }

  function MapEach(cs: seq<Comment>, f: Item -> Item): seq<Comment>
    decreases cs, 0
  {
    if cs == [] then [] else [MapTree(cs[0], f)] + MapEach(cs[1..], f)
  }

  /** An edit of the comments that keeps their depths keeps the shape of the tree. */
  lemma {:induction false} BuildMap(items: seq<Item>, f: Item -> Item)
    requires forall i :: 0 <= i < |items| ==> f(items[i]).depth == items[i].depth
    ensures Build(MapItems(items, f)) == MapEach(Build(items), f)
    decreases |items|
  {
    hide Build, SubtreeEnd, MapEach;
    if items == [] {
      MapSmall(f);
    } else {
      var all, e := MapItems(items, f), SubtreeEnd(items, 0);
      SubtreeEndSpan(items, 0);
      SubtreeEndIs(all, 0, e);
      BuildAt(all, e);
      BuildAt(items, e);
      assert all[1..e] == MapItems(items[1..e], f) && all[e..] == MapItems(items[e..], f);
      BuildMap(items[1..e], f);
      BuildMap(items[e..], f);
      MapCons(Comment(items[0], Build(items[1..e])), Build(items[e..]), f);
    }
  }

  lemma MapSmall(f: Item -> Item)
    ensures Build(MapItems([], f)) == MapEach(Build([]), f)
  {
  }

  lemma MapCons(c: Comment, cs: seq<Comment>, f: Item -> Item)
    ensures MapEach([c] + cs, f) == [Comment(f(c.item), MapEach(c.children, f))] + MapEach(cs, f)
  {
    assert ([c] + cs)[1..] == cs;
  }

  lemma TreeMap(items: seq<Item>, f: Item -> Item)
    requires items != [] && forall i :: 0 <= i < |items| ==> f(items[i]).depth == items[i].depth
    ensures Tree(MapItems(items, f)) == MapTree(Tree(items), f)
  {
    assert MapItems(items, f)[1..] == MapItems(items[1..], f);
    BuildMap(items[1..], f);
  }
}
