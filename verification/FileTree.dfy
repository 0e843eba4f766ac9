/** A working tree of files, symbolic links and directories, and what removing, writing and checking
    out a path does to it. Paths are sequences of components relative to the repository root. */
module FileTree {
  import opened Wrappers

  type Path = seq<string>

  datatype Node = File(bytes: string) | Link(target: string) | Dir

  type Tree = map<Path, Node>

  /** Files and links by path. */
  type Leaves = map<Path, Node>

  /** Every entry has a name, and everything above an entry is a directory. */
  ghost predicate WellFormed(t: Tree) {
    && [] !in t
    && forall p, k :: p in t && 0 < k < |p| ==> p[..k] in t && t[p[..k]] == Dir
  }

  /** The file or link at a path, as `git` tracks it; directories do not count. */
  function Leaf(t: Tree, p: Path): Option<Node> {
    if p in t && t[p] != Dir then Some(t[p]) else None
  }

  function LeavesOf(t: Tree): Leaves {
    map q | q in t && t[q] != Dir :: t[q]
  }

  /** `_ancestor_blocks`: some proper ancestor is a symbolic link. */
  predicate Blocked(t: Tree, p: Path) {
    exists k :: 0 < k < |p| && p[..k] in t && t[p[..k]].Link?
  }

  /** `t` without `p` and everything below it. */
  function Cut(t: Tree, p: Path): Tree {
    map q | q in t && !(p <= q) :: t[q]
  }

  /** Some proper ancestor is in the way of a directory. */
  predicate Obstructed(t: Tree, p: Path) {
    exists k :: 0 < k < |p| && p[..k] in t && t[p[..k]] != Dir
  }

  /** The proper ancestors of `p`, as directories. */
  function Parents(p: Path): (t: Tree)
    ensures forall q :: q in t <==> exists k :: 0 < k < |p| && q == p[..k]
    ensures forall q :: q in t ==> t[q] == Dir
  {
    var ancestors := set k | 0 < k < |p| :: p[..k];
    map q | q in ancestors :: Dir
  }

  /** `p` written below existing or newly made directories. */
  function Put(t: Tree, p: Path, n: Node): Tree {
    t + Parents(p) + map[p := n]
  }

  /** A forced `git checkout` of one path: what obstructs it, or stands at it, is removed first. */
  function Clear(t: Tree, p: Path, k: nat): Tree
    requires k <= |p|
    decreases |p| - k
  {
    if k == |p| then Cut(t, p)
    else if k > 0 && p[..k] in t && t[p[..k]] != Dir then Clear(Cut(t, p[..k]), p, k + 1)
    else Clear(t, p, k + 1)
  }

  function Checkout(t: Tree, p: Path, n: Node): Tree {
    Put(Clear(t, p, 0), p, n)
  }

  predicate HasChild(t: Tree, p: Path) {
    exists q :: q in t && |q| == |p| + 1 && p < q
  }

  /** The path as a text: its components joined by slashes. */
  function PathText(p: Path): string {
    if p == [] then "" else if |p| == 1 then p[0] else p[0] + "/" + PathText(p[1..])
  }

  /** `_prune_empty_parents`, from the directory `p[..k]` upwards. */
  function Prune(t: Tree, p: Path, k: nat, tracked: set<string>): Tree
    requires k <= |p|
  {
    if k == 0 || p[..k] !in t || t[p[..k]] != Dir || HasChild(t, p[..k]) || PathText(p[..k]) in tracked then t
    else Prune(t - {p[..k]}, p, k - 1, tracked)
  }

  // ----- what the system finds at a path -----

  /** `text.split("/")`. */
  function Components(text: string): (r: seq<string>)
    ensures r != []
  {
    if text == "" then [""]
    else
      var r := Components(text[1..]);
      if text[0] == '/' then [""] + r else [[text[0]] + r[0]] + r[1..]
  }

  /** Where a path leads: inside the repository, to a path that leaves it, or nowhere. */
  datatype Place = Here(path: Path) | Away(path: Path) | Nowhere

  /** The number of links the system follows before it gives up. */
  const MAX_LINKS: nat := 40

  /** The system's walk along `todo` from the directory `at`: links on the way are followed, a link at the end
      is not. */
  function Walk(t: Tree, at: Path, todo: seq<string>, links: nat): Place
    decreases links, |todo|
  {
    if todo == [] then Here(at)
    else
      var rest := todo[1..];
      if todo[0] == "" || todo[0] == "." then Walk(t, at, rest, links)
      else if todo[0] == ".." then if at == [] then Away(todo) else Walk(t, at[..|at| - 1], rest, links)
      else
        var next := at + [todo[0]];
        if rest == [] then Here(next)
        else if next !in t then Nowhere
        else match t[next]
          case Dir => Walk(t, next, rest, links)
          case File(_) => Nowhere
          case Link(text) =>
            if links == 0 then Nowhere
            else if "/" <= text then Away(Components(text) + rest)
            else Walk(t, at, Components(text) + rest, links - 1)
  }

  /** What stands outside the repository, by paths that leave it. */
  type Elsewhere = Path -> Option<Node>

  /** What the system finds at `p`: the entry itself, or, below a link, whatever the link leads to. */
  function Probe(t: Tree, out: Elsewhere, p: Path): Option<Node> {
    if !Blocked(t, p) then if p in t then Some(t[p]) else None
    else match Walk(t, [], p, MAX_LINKS)
      case Here(q) => if q == [] then Some(Dir) else if q in t then Some(t[q]) else None
      case Away(q) => out(q)
      case Nowhere => None
  }

  // ----- properties -----

  /** Below an entry there is nothing that is not in a directory: an absent path has nothing below it. */
  lemma NothingBelow(t: Tree, p: Path, q: Path)
    requires WellFormed(t) && p != [] && p < q && q in t
    ensures p in t && t[p] == Dir
  {
    assert p == q[..|p|];
  }

  lemma CutKeeps(t: Tree, p: Path)
    requires WellFormed(t)
    ensures WellFormed(Cut(t, p)) && p !in Cut(t, p)
    ensures forall q :: Leaf(Cut(t, p), q) == if p <= q then None else Leaf(t, q)
  {
    var u := Cut(t, p);
    forall q, k | q in u && 0 < k < |q|
      ensures q[..k] in u && u[q[..k]] == Dir
    {
      assert q in t && (p <= q[..k] ==> p <= q);
    }
  }

  /** An entry that exists has no link above it. */
  lemma PresentNotBlocked(t: Tree, p: Path)
    requires WellFormed(t) && p in t
    ensures !Blocked(t, p) && !Obstructed(t, p)
  {
  }

  lemma PutKeeps(t: Tree, p: Path, n: Node)
    requires WellFormed(t) && p != [] && !Obstructed(t, p) && n != Dir
    requires p in t ==> t[p] != Dir
    ensures WellFormed(Put(t, p, n))
    ensures forall q :: Leaf(Put(t, p, n), q) == if q == p then Some(n) else Leaf(t, q)
    ensures forall q :: q in Put(t, p, n) && q !in t ==> q <= p
  {
    var u := Put(t, p, n);
    assert p !in Parents(p);
    forall q | q in u
      ensures q in t || (q <= p && q != [] && (q == p || u[q] == Dir))
      ensures q in t && q != p ==> u[q] == t[q]
    {
      if q in Parents(p) {
        var k :| 0 < k < |p| && q == p[..k];
      }
    }
    forall q, k | q in u && 0 < k < |q|
      ensures q[..k] in u && u[q[..k]] == Dir
    {
      if q in Parents(p) || q == p {
        assert q[..k] == p[..k];
        assert q[..k] in Parents(p);
      } else {
        assert q in t && q[..k] in t && t[q[..k]] == Dir;
        assert q[..k] != p;
      }
    }
  }

  lemma {:induction false} ClearNothing(t: Tree, p: Path, k: nat)
    requires k <= |p| && p !in t && WellFormed(t) && p != []
    requires forall j :: k <= j < |p| && j > 0 && p[..j] in t ==> t[p[..j]] == Dir
    ensures Clear(t, p, k) == t
    decreases |p| - k
  {
    if k == |p| {
      forall q | q in t
        ensures !(p <= q)
      {
        if p <= q && p != q {
          NothingBelow(t, p, q);
        }
      }
      assert Cut(t, p) == t;
    } else {
      ClearNothing(t, p, k + 1);
    }
  }

  lemma {:induction false} ClearKeeps(t: Tree, p: Path, k: nat)
    requires WellFormed(t) && k <= |p|
    ensures WellFormed(Clear(t, p, k)) && p !in Clear(t, p, k)
    ensures forall j :: k <= j < |p| && j > 0 && p[..j] in Clear(t, p, k) ==> Clear(t, p, k)[p[..j]] == Dir
    ensures Clear(t, p, k).Keys <= t.Keys && forall q :: q in Clear(t, p, k) ==> Clear(t, p, k)[q] == t[q]
    decreases |p| - k
  {
    if k == |p| {
      CutKeeps(t, p);
    } else if k > 0 && p[..k] in t && t[p[..k]] != Dir {
      CutKeeps(t, p[..k]);
      ClearKeeps(Cut(t, p[..k]), p, k + 1);
    } else {
      ClearKeeps(t, p, k + 1);
    }
  }

  lemma CheckoutKeeps(t: Tree, p: Path, n: Node)
    requires WellFormed(t) && p != [] && n != Dir
    ensures WellFormed(Checkout(t, p, n)) && Leaf(Checkout(t, p, n), p) == Some(n)
  {
    ClearKeeps(t, p, 0);
    PutKeeps(Clear(t, p, 0), p, n);
  }

  lemma HasChildBelow(t: Tree, d: Path, q: Path)
    requires WellFormed(t) && q in t && d < q && d != []
    ensures HasChild(t, d)
  {
    var c := q[..|d| + 1];
    assert c in t by {
      if |q| == |d| + 1 {
        assert c == q;
      }
    }
    assert d < c && |c| == |d| + 1;
  }

  /** Removing an empty directory leaves a tree. */
  lemma DropEmpty(t: Tree, d: Path)
    requires WellFormed(t) && d in t && !HasChild(t, d)
    ensures WellFormed(t - {d})
  {
    forall q | q in t
      ensures !(d < q)
    {
      if d < q {
        HasChildBelow(t, d, q);
      }
    }
    forall q, j | q in t - {d} && 0 < j < |q|
      ensures q[..j] in t - {d} && t[q[..j]] == Dir
    {
      assert q[..j] < q;
    }
  }

  lemma {:induction false} PruneKeeps(t: Tree, p: Path, k: nat, tracked: set<string>)
    requires WellFormed(t) && k <= |p|
    ensures WellFormed(Prune(t, p, k, tracked))
    ensures forall q :: Leaf(Prune(t, p, k, tracked), q) == Leaf(t, q)
    ensures Prune(t, p, k, tracked).Keys <= t.Keys
    decreases k
  {
    hide WellFormed, HasChild;
    if k > 0 && p[..k] in t && t[p[..k]] == Dir && !HasChild(t, p[..k]) && PathText(p[..k]) !in tracked {
      DropEmpty(t, p[..k]);
      PruneKeeps(t - {p[..k]}, p, k - 1, tracked);
    }
  }

  /** The directories from `p[..j]` to `p[..k]` hold nothing but one another, and none of them is tracked. */
  ghost predicate HollowFrom(t: Tree, p: Path, k: nat, tracked: set<string>, j: nat) {
    && 0 < j <= k <= |p|
    && (forall i :: j <= i <= k ==> p[..i] in t && t[p[..i]] == Dir && PathText(p[..i]) !in tracked)
    && forall q :: q in t && p[..j] < q ==> q <= p[..k]
  }

  ghost predicate PrunedAt(t: Tree, p: Path, k: nat, tracked: set<string>, q: Path) {
    exists j :: 0 < j <= k && HollowFrom(t, p, k, tracked, j) && q == p[..j]
  }

  lemma HollowHasNoChild(t: Tree, p: Path, k: nat, tracked: set<string>, j: nat)
    requires HollowFrom(t, p, k, tracked, j)
    ensures p[..k] in t && t[p[..k]] == Dir && PathText(p[..k]) !in tracked && !HasChild(t, p[..k])
  {
    hide PathText;
  }

  /** Without its innermost, empty directory such a chain is one still. */
  lemma HollowShorter(t: Tree, p: Path, k: nat, tracked: set<string>, j: nat)
    requires 0 < j < k <= |p| && HollowFrom(t, p, k, tracked, j)
    ensures HollowFrom(t - {p[..k]}, p, k - 1, tracked, j)
  {
    hide PathText;
    var d := p[..k];
    forall q | q in t && q != d && p[..j] < q ensures q <= p[..k - 1] {
      assert q <= d && |q| < |d|;
      assert q == d[..|q|] == p[..|q|];
    }
  }

  lemma HollowLonger(t: Tree, p: Path, k: nat, tracked: set<string>, j: nat)
    requires 0 < j < k <= |p| && p[..k] in t && t[p[..k]] == Dir && PathText(p[..k]) !in tracked
    requires HollowFrom(t - {p[..k]}, p, k - 1, tracked, j)
    ensures HollowFrom(t, p, k, tracked, j)
  {
    hide PathText;
    var d := p[..k];
    forall i | j <= i <= k ensures p[..i] in t && t[p[..i]] == Dir && PathText(p[..i]) !in tracked {
      if i < k { assert p[..i] in t - {d}; }
    }
    forall q | q in t && p[..j] < q ensures q <= d {
      if q != d { assert q in t - {d} && q <= p[..k - 1] <= d; }
    }
  }

  lemma HollowNext(t: Tree, p: Path, k: nat, tracked: set<string>, j: nat)
    requires WellFormed(t) && 0 < j <= k <= |p| && p[..k] in t && t[p[..k]] == Dir && !HasChild(t, p[..k])
    requires PathText(p[..k]) !in tracked
    ensures HollowFrom(t, p, k, tracked, j) <==> j == k || HollowFrom(t - {p[..k]}, p, k - 1, tracked, j)
  {
    hide PathText, HasChild, WellFormed, HollowFrom;
    if j == k {
      HollowOne(t, p, k, tracked);
    } else {
      if HollowFrom(t, p, k, tracked, j) { HollowShorter(t, p, k, tracked, j); }
      if HollowFrom(t - {p[..k]}, p, k - 1, tracked, j) { HollowLonger(t, p, k, tracked, j); }
    }
  }

  lemma HollowOne(t: Tree, p: Path, k: nat, tracked: set<string>)
    requires WellFormed(t) && 0 < k <= |p| && p[..k] in t && t[p[..k]] == Dir && !HasChild(t, p[..k])
    requires PathText(p[..k]) !in tracked
    ensures HollowFrom(t, p, k, tracked, k)
  {
    hide PathText, HasChild, WellFormed;
    forall q | q in t ensures !(p[..k] < q) {
      if p[..k] < q { HasChildBelow(t, p[..k], q); }
    }
  }

  lemma PrunedNext(t: Tree, p: Path, k: nat, tracked: set<string>)
    requires 0 < k <= |p|
    requires forall j: nat :: 0 < j <= k ==>
      (HollowFrom(t, p, k, tracked, j) <==> j == k || HollowFrom(t - {p[..k]}, p, k - 1, tracked, j))
    ensures forall q :: PrunedAt(t, p, k, tracked, q) <==> q == p[..k] || PrunedAt(t - {p[..k]}, p, k - 1, tracked, q)
  {
    hide HollowFrom;
    var u := t - {p[..k]};
    forall q ensures PrunedAt(t, p, k, tracked, q) <==> q == p[..k] || PrunedAt(u, p, k - 1, tracked, q) {
      if PrunedAt(t, p, k, tracked, q) {
        var j :| 0 < j <= k && HollowFrom(t, p, k, tracked, j) && q == p[..j];
        if j != k { assert HollowFrom(u, p, k - 1, tracked, j); }
      }
      if q == p[..k] { assert HollowFrom(t, p, k, tracked, k); }
      if PrunedAt(u, p, k - 1, tracked, q) {
        var j :| 0 < j <= k - 1 && HollowFrom(u, p, k - 1, tracked, j) && q == p[..j];
        assert HollowFrom(t, p, k, tracked, j);
      }
    }
  }

  /** Exactly which directories the pruning removes: those that hold nothing but one another on the way down to the
      parent it begins at, and are not tracked. */
  lemma {:induction false} PruneExactly(t: Tree, p: Path, k: nat, tracked: set<string>)
    requires WellFormed(t) && k <= |p|
    ensures forall q :: q in Prune(t, p, k, tracked) <==> q in t && !PrunedAt(t, p, k, tracked, q)
    ensures forall q :: q in Prune(t, p, k, tracked) ==> Prune(t, p, k, tracked)[q] == t[q]
    decreases k
  {
    hide WellFormed, HasChild, PathText, HollowFrom;
    if k > 0 && p[..k] in t && t[p[..k]] == Dir && !HasChild(t, p[..k]) && PathText(p[..k]) !in tracked {
      DropEmpty(t, p[..k]);
      PruneExactly(t - {p[..k]}, p, k - 1, tracked);
      forall j: nat ensures 0 < j <= k ==>
        (HollowFrom(t, p, k, tracked, j) <==> j == k || HollowFrom(t - {p[..k]}, p, k - 1, tracked, j))
      {
        if 0 < j <= k { HollowNext(t, p, k, tracked, j); }
      }
      PrunedNext(t, p, k, tracked);
    } else {
      forall j | 0 < j <= k ensures !HollowFrom(t, p, k, tracked, j) {
        if HollowFrom(t, p, k, tracked, j) { HollowHasNoChild(t, p, k, tracked, j); }
      }
    }
  }
}
