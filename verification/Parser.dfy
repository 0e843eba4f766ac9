/** The scanner itself: an accumulator updated line by line, with the monotone stack of ancestors
    and mutable comment nodes. Node references are indices into `nodes`. */
module Parser {
  import opened Wrappers
  import opened Text
  import opened Syntax
  import opened Forest
  import opened Scan

  /** A comment node while scanning; children are references to later nodes. */
  datatype Builder = Builder(item: Item, children: seq<nat>)

  function Items(nodes: seq<Builder>): (items: seq<Item>)
    ensures |items| == |nodes| && forall i :: 0 <= i < |nodes| ==> items[i] == nodes[i].item
  {
    seq(|nodes|, i requires 0 <= i < |nodes| => nodes[i].item)
  }

  ghost predicate Linked(nodes: seq<Builder>) {
    forall i :: 0 <= i < |nodes| ==> nodes[i].children == Kids(Items(nodes), i, |nodes|)
  }

  /** The stack is the chain of parents that ends at the most recent comment. */
  ghost predicate Chain(items: seq<Item>, stack: seq<nat>) {
    && stack != [] && stack[0] == 0
    && (forall k :: 0 <= k < |stack| ==> stack[k] < |items|)
    && (forall k :: 0 < k < |stack| ==> stack[k] > 0 && Parent(items, stack[k]) == stack[k - 1])
  }

  /** `freeze`: the immutable tree below one node. */
  function Freeze(nodes: seq<Builder>, i: nat): Comment
    requires i < |nodes| && Linked(nodes)
    decreases |nodes| - i, 1, 0
  {
    Comment(nodes[i].item, FreezeAll(nodes, i, nodes[i].children))
  }

  function FreezeAll(nodes: seq<Builder>, i: nat, ks: seq<nat>): seq<Comment>
    requires i < |nodes| && Linked(nodes) && forall k :: 0 <= k < |ks| ==> i < ks[k] < |nodes|
    decreases |nodes| - i, 0, |ks|
  {
    if ks == [] then [] else [Freeze(nodes, ks[0])] + FreezeAll(nodes, i, ks[1..])
  }

  lemma {:induction false} FreezeIsTreeOf(nodes: seq<Builder>, i: nat)
    requires i < |nodes| && Linked(nodes)
    ensures Freeze(nodes, i) == TreeOf(Items(nodes), i)
    decreases |nodes| - i, 1, 0
  {
    hide Kids;
    FreezeAllIs(nodes, i, nodes[i].children);
  }

  lemma {:induction false} FreezeAllIs(nodes: seq<Builder>, i: nat, ks: seq<nat>)
    requires i < |nodes| && Linked(nodes) && forall k :: 0 <= k < |ks| ==> i < ks[k] < |nodes|
    ensures FreezeAll(nodes, i, ks) == TreesOf(Items(nodes), i, ks)
    decreases |nodes| - i, 0, |ks|
  {
    hide Linked, Kids, Freeze, TreeOf;
    if ks != [] {
      FreezeIsTreeOf(nodes, ks[0]);
      FreezeAllIs(nodes, i, ks[1..]);
    }
  }

  /** Parents and children depend on the depths only. */
  lemma {:induction false} AboveCong(a: seq<Item>, b: seq<Item>, j: nat, d: nat)
    requires j <= |a| && j <= |b| && forall i :: 0 <= i < j ==> a[i].depth == b[i].depth
    ensures Above(a, j, d) == Above(b, j, d)
  {
    if j > 0 && a[j - 1].depth >= d {
      AboveCong(a, b, j - 1, d);
    }
  }

  lemma KidsNext(items: seq<Item>, p: nat, n: nat)
    requires p < n < |items|
    ensures Kids(items, p, n + 1) == Kids(items, p, n) + (if Parent(items, n) == p then [n] else [])
  {
  }

  lemma KidsNone(items: seq<Item>, p: nat, n: nat)
    requires n <= p + 1 && n <= |items|
    ensures Kids(items, p, n) == []
  {
  }

  lemma {:induction false} KidsCong(a: seq<Item>, b: seq<Item>, p: nat, n: nat)
    requires n <= |a| && n <= |b| && forall i :: 0 <= i < n ==> a[i].depth == b[i].depth
    ensures Kids(a, p, n) == Kids(b, p, n)
  {
    hide Above, Kids;
    if n > p + 1 {
      KidsCong(a, b, p, n - 1);
      AboveCong(a, b, n - 1, a[n - 1].depth);
      KidsNext(a, p, n - 1);
      KidsNext(b, p, n - 1);
    } else {
      KidsNone(a, p, n);
      KidsNone(b, p, n);
    }
  }

  lemma AboveIs(items: seq<Item>, j: nat, d: nat, p: nat)
    requires p < j <= |items| && items[p].depth < d && forall i :: p < i < j ==> items[i].depth >= d
    ensures Above(items, j, d) == p
  {
  }

  /** `nodes` with a new last node below `p`. */
  function Grow(nodes: seq<Builder>, p: nat, it: Item): seq<Builder>
    requires p < |nodes|
  {
    nodes[p := nodes[p].(children := nodes[p].children + [|nodes|])] + [Builder(it, [])]
  }

  /** Appending a node below `p` and recording it in `p`'s children keeps the links right. */
  lemma LinkedAppend(nodes: seq<Builder>, p: nat, it: Item)
    requires Linked(nodes) && p < |nodes| && nodes[p].item.depth < it.depth
    requires forall i :: p < i < |nodes| ==> nodes[i].item.depth >= it.depth
    ensures Linked(Grow(nodes, p, it)) && Items(Grow(nodes, p, it)) == Items(nodes) + [it]
    ensures Parent(Items(nodes) + [it], |nodes|) == p
  {
    hide Kids, Above;
    var n := |nodes|;
    var grown := Grow(nodes, p, it);
    var items := Items(grown);
    assert items == Items(nodes) + [it];
    AboveIs(items, n, it.depth, p);
    forall i | 0 <= i <= n
      ensures grown[i].children == Kids(items, i, n + 1)
    {
      if i < n {
        KidsCong(Items(nodes), items, i, n);
        KidsNext(items, i, n);
      } else {
        KidsNone(items, n, n + 1);
      }
    }
  }

  /** Rewriting the text of one node keeps the links right. */
  lemma LinkedRewrite(nodes: seq<Builder>, j: nat, it: Item)
    requires Linked(nodes) && j < |nodes| && it.depth == nodes[j].item.depth
    ensures var edited := nodes[j := nodes[j].(item := it)];
      Linked(edited) && Items(edited) == Items(nodes)[j := it]
  {
    hide Kids;
    var edited := nodes[j := nodes[j].(item := it)];
    forall i | 0 <= i < |nodes|
      ensures edited[i].children == Kids(Items(edited), i, |nodes|)
    {
      KidsCong(Items(nodes), Items(edited), i, |nodes|);
    }
  }

  lemma ChainCong(a: seq<Item>, b: seq<Item>, stack: seq<nat>)
    requires Chain(a, stack) && |a| <= |b| && forall i :: 0 <= i < |a| ==> a[i].depth == b[i].depth
    ensures Chain(b, stack)
  {
    hide Above;
    forall k | 0 < k < |stack|
      ensures Parent(b, stack[k]) == stack[k - 1]
    {
      AboveCong(a, b, stack[k], a[stack[k]].depth);
    }
  }

  lemma FreezeIsTree(nodes: seq<Builder>)
    requires nodes != [] && Linked(nodes) && IsThread(Items(nodes))
    ensures Freeze(nodes, 0) == Tree(Items(nodes))
  {
    FreezeIsTreeOf(nodes, 0);
    TreeByParents(Items(nodes));
  }

  lemma PublishAppend(done: seq<Flat>, t: Flat, total: nat)
    requires Shapely(done) && IsThread(t.items)
    ensures Shapely(done + [t])
    ensures PublishAll(done + [t], total) == PublishAll(done, total) + [Publish(t, |done| + 1, total)]
  {
    hide Publish, IsThread;
  }

  lemma MentionsAppend(items: seq<Item>, it: Item)
    ensures AllMentions(items + [it]) == AllMentions(items) + it.mentions
  {
    assert (items + [it])[..|items|] == items;
  }

  lemma ChainBounds(items: seq<Item>, stack: seq<nat>)
    requires Chain(items, stack)
    ensures stack != [] && stack[0] == 0 && forall k :: 0 <= k < |stack| ==> stack[k] < |items|
  {
  }

  lemma ChainPush(items: seq<Item>, it: Item, stack: seq<nat>)
    requires Chain(items, stack) && Parent(items + [it], |items|) == stack[|stack| - 1]
    ensures Chain(items + [it], stack + [|items|])
  {
    hide Above;
    ChainCong(items, items + [it], stack);
  }

  lemma MentionsExtend(items: seq<Item>, content: string)
    requires items != []
    ensures var last := |items| - 1;
      AllMentions(items[last := Extend(items[last], content)]) == AllMentions(items) + Mentions(content)
  {
    hide Mentions;
    var last := |items| - 1;
    assert items[last := Extend(items[last], content)][..last] == items[..last];
  }

  /** The running fields of the thread under construction agree with its comments. */
  ghost predicate Sound(nodes: seq<Builder>, stack: seq<nat>, replyCount: nat, last: string, mentioned: seq<string>) {
    var items := Items(nodes);
    && IsThread(items) && Linked(nodes) && Chain(items, stack) && stack[|stack| - 1] == |nodes| - 1
    && replyCount == |nodes| - 1 && last == items[|nodes| - 1].speaker && mentioned == AllMentions(items)
  }

  lemma SoundRoot(n: nat, raw: string, tag: Tag)
    ensures var it := NewItem(1, n, raw, tag);
      Sound([Builder(it, [])], [0], 0, tag.speaker, it.mentions) && Items([Builder(it, [])]) == [it]
  {
    hide Mentions, RStrip;
    var it := NewItem(1, n, raw, tag);
    assert Items([Builder(it, [])]) == [] + [it];
    MentionsAppend([], it);
  }

  lemma SoundExtend(nodes: seq<Builder>, stack: seq<nat>, replyCount: nat, last: string, mentioned: seq<string>,
                    content: string)
    requires nodes != [] && Sound(nodes, stack, replyCount, last, mentioned)
    ensures stack != [] && stack[|stack| - 1] == |nodes| - 1
    ensures var j := |nodes| - 1;
      var edited := nodes[j := nodes[j].(item := Extend(nodes[j].item, content))];
      && Sound(edited, stack, replyCount, last, mentioned + Mentions(content))
      && Items(edited) == Items(nodes)[..j] + [Extend(nodes[j].item, content)]
  {
    hide Kids, Above, Linked, Chain, AllMentions, Mentions;
    var j, items := |nodes| - 1, Items(nodes);
    ChainBounds(items, stack);
    LinkedRewrite(nodes, j, Extend(nodes[j].item, content));
    ChainCong(items, items[j := Extend(items[j], content)], stack);
    MentionsExtend(items, content);
  }

  /** Pushing onto the stack that was popped to the new comment's parent `p`. */
  lemma SoundPush(nodes: seq<Builder>, stack: seq<nat>, p: nat, it: Item, replyCount: nat, last: string,
                  mentioned: seq<string>)
    requires nodes != [] && exists before :: Sound(nodes, before, replyCount, last, mentioned)
    requires Chain(Items(nodes), stack)
    requires p < |nodes| && stack != [] && stack[|stack| - 1] == p && nodes[p].item.depth < it.depth && it.depth > 1
    requires forall i :: p < i < |nodes| ==> nodes[i].item.depth >= it.depth
    ensures Sound(Grow(nodes, p, it), stack + [|nodes|], replyCount + 1, it.speaker, mentioned + it.mentions)
    ensures Items(Grow(nodes, p, it)) == Items(nodes) + [it]
  {
    hide Kids, Above, Linked, Chain, AllMentions, Parent;
    var items := Items(nodes);
    LinkedAppend(nodes, p, it);
    ChainPush(items, it, stack);
    MentionsAppend(items, it);
  }

  class Accumulator {
    const total: nat
    var threads: seq<Thread>
    var anchorText: string
    var anchorLine: nat
    /** `_root` is `nodes[0]` when there is one. */
    var nodes: seq<Builder>
    var rootStatus: Status
    var rootAnchorLine: nat
    var rootAnchorText: string
    var stack: seq<nat>
    var replyCount: nat
    var last: string
    var mentioned: seq<string>
    ghost var done: seq<Flat>

    ghost predicate Valid()
      reads this
    {
      && Shapely(done) && threads == PublishAll(done, total)
      && (nodes == [] <==> stack == [])
      && (nodes != [] ==> Sound(nodes, stack, replyCount, last, mentioned))
    }

    ghost function Cur(): Option<Flat>
      reads this
    {
      if nodes == [] then None else Some(Flat(Items(nodes), rootStatus, rootAnchorLine, rootAnchorText))
    }

    /** The scan state; whether a fence is open is the caller's to track. */
    ghost function View(): State
      reads this
    {
      State(false, done, anchorLine, anchorText, Cur())
    }

    constructor (total: nat)
      ensures Valid() && this.total == total && View() == START
    {
      this.total := total;
      threads, anchorText, anchorLine := [], "", 0;
      nodes, stack, replyCount, last, mentioned := [], [], 0, "", [];
      rootStatus, rootAnchorLine, rootAnchorText := Open, 0, "";
      done := [];
    }

    method Flush()
      requires Valid()
      modifies this
      ensures Valid()
      ensures View() == Scan.Flush(old(View()))
    {
      hide Kids, Above, Dedup, Normalize, AllMentions, Build, Freeze, TreeOf, IsThread;
      if nodes == [] {
        return;
      }
      var root := nodes[0].item;
      var thread := Thread(|threads| + 1, root.speaker, rootStatus, last, replyCount,
                           Take(Normalize(root.body), SNIPPET_LEN), Dedup(mentioned), Freeze(nodes, 0),
                           total, rootAnchorLine, rootAnchorText, root.line, root.text);
      FreezeIsTree(nodes);
      ghost var flat := Cur().value;
      assert thread == Publish(flat, |done| + 1, total);
      PublishAppend(done, flat, total);
      threads, done := threads + [thread], done + [flat];
      nodes, stack := [], [];
    }

    method ContinueLastComment(content: string)
      requires Valid()
      modifies this
      ensures Valid()
      ensures View() == (var s := old(View());
        if s.cur.None? then s else s.(cur := Some(ExtendLast(s.cur.value, content))))
    {
      hide Sound, Mentions, Extend, PublishAll;
      if stack == [] {
        return;
      }
      SoundExtend(nodes, stack, replyCount, last, mentioned, content);
      var j := stack[|stack| - 1];
      nodes := nodes[j := nodes[j].(item := Extend(nodes[j].item, content))];
      mentioned := mentioned + Mentions(content);
    }

    method OnNonQuote(n: nat, raw: string)
      requires Valid() && (Classify(raw).Blank? || Classify(raw).Plain?)
      modifies this
      ensures Valid()
      ensures View() == Scan.Feed(old(View()), n, raw)
    {
      hide Sound, PublishAll, IsThread, Items, Classify, Strip;
      BlankIff(raw);
      if Strip(raw) == "" {
        return;
      }
      Flush();
      anchorText, anchorLine := Strip(raw), n;
    }

    /** What is left of the state when no thread is open. */
    lemma Flushed(s: State)
      requires Valid() && View() == Scan.Flush(s)
      ensures Shapely(done) && threads == PublishAll(done, total)
      ensures done == Scan.Flush(s).done && anchorLine == s.anchorLine && anchorText == s.anchorText
      ensures !s.inFence
    {
      hide Shapely, PublishAll, Sound, Items;
    }

    lemma Opened(s: State, n: nat, raw: string, tag: Tag)
      requires Shapely(done) && threads == PublishAll(done, total)
      requires done == Scan.Flush(s).done && anchorLine == s.anchorLine && anchorText == s.anchorText && !s.inFence
      requires nodes == [Builder(NewItem(1, n, raw, tag), [])] && stack == [0] && replyCount == 0
      requires last == tag.speaker && mentioned == nodes[0].item.mentions
      requires rootStatus == if tag.status.Some? then tag.status.value else Open
      requires rootAnchorLine == anchorLine && rootAnchorText == anchorText
      ensures Valid() && View() == OpenRoot(s, n, raw, tag)
    {
      hide Shapely, PublishAll, Sound, Items, NewItem;
      SoundRoot(n, raw, tag);
    }

    method AddRoot(n: nat, raw: string, tag: Tag)
      requires Valid()
      modifies this
      ensures Valid() && View() == OpenRoot(old(View()), n, raw, tag)
    {
      hide Valid, View, OpenRoot, Shapely, PublishAll, Scan.Flush, NewItem;
      ghost var s := View();
      var node := Builder(NewItem(1, n, raw, tag), []);
      Flush();
      Flushed(s);
      nodes, stack := [node], [0];
      rootStatus := if tag.status.Some? then tag.status.value else Open;
      rootAnchorLine, rootAnchorText := anchorLine, anchorText;
      replyCount, last, mentioned := 0, tag.speaker, node.item.mentions;
      Opened(s, n, raw, tag);
    }

    /** Pops the stack to the nearest earlier comment shallower than `depth`. */
    method PopTo(depth: nat) returns (p: nat)
      requires Valid() && nodes != [] && depth > 1
      modifies this`stack
      ensures p < |nodes| && stack != [] && stack[|stack| - 1] == p && Chain(Items(nodes), stack)
      ensures Sound(nodes, old(stack), replyCount, last, mentioned)
      ensures nodes[p].item.depth < depth && forall i :: p < i < |nodes| ==> nodes[i].item.depth >= depth
    {
      hide Kids, Above, AllMentions, PublishAll, Chain, Linked;
      ghost var items := Items(nodes);
      ChainBounds(items, stack);
      while |stack| > 1 && nodes[stack[|stack| - 1]].item.depth >= depth
        invariant stack != [] && Chain(items, stack) && stack[0] == 0
        invariant forall k :: 0 <= k < |stack| ==> stack[k] < |items|
        invariant forall i :: stack[|stack| - 1] < i < |nodes| ==> nodes[i].item.depth >= depth
      {
        StackGap(items, stack);
        stack := stack[..|stack| - 1];
      }
      p := stack[|stack| - 1];
    }

    method AddComment(n: nat, raw: string, depth: nat, tag: Tag)
      requires Valid() && Classify(raw) == Tagged(depth, tag) && depth >= 1
      modifies this
      ensures Valid()
      ensures View() == Scan.Feed(old(View()), n, raw)
    {
      hide Kids, Above, AllMentions, Mentions, PublishAll, Classify, OpenRoot, Grow, Shapely, Sound, RStrip;
      if depth == 1 || nodes == [] {
        AddRoot(n, raw, tag);  // an orphan reply is promoted to a root
        return;
      }
      var it := NewItem(depth, n, raw, tag);
      var p := PopTo(depth);
      SoundPush(nodes, stack, p, it, replyCount, last, mentioned);
      stack := stack + [|nodes|];
      nodes := Grow(nodes, p, it);
      replyCount, last, mentioned := replyCount + 1, tag.speaker, mentioned + it.mentions;
    }

    method Feed(n: nat, raw: string)
      requires Valid()
      modifies this
      ensures Valid()
      ensures View() == Scan.Feed(old(View()), n, raw)
    {
      hide Sound, PublishAll, IsThread, Items, Classify, Strip, ExtendLast, OpenRoot, NewItem, Scan.Flush;
      match Classify(raw) {
        case Tagged(depth, tag) =>
          TaggedDepth(raw);
          AddComment(n, raw, depth, tag);
        case Untagged(content) => ContinueLastComment(content);
        case Fence =>
        case _ => OnNonQuote(n, raw);
      }
    }
  }

  lemma BlankIff(raw: string)
    ensures Classify(raw).Blank? <==> Strip(raw) == ""
  {
    hide ParseTag;
  }

  /** Between a stack entry and the one below it everything is at least as deep as the entry. */
  lemma StackGap(items: seq<Item>, stack: seq<nat>)
    requires Chain(items, stack) && |stack| > 1
    ensures Chain(items, stack[..|stack| - 1])
    ensures var p, q := stack[|stack| - 2], stack[|stack| - 1];
      p < q < |items| && forall i :: p < i < q ==> items[i].depth >= items[q].depth
  {
    var q := stack[|stack| - 1];
    assert Parent(items, q) == stack[|stack| - 2];
  }

  /** `parse_threads`. */
  method ParseThreads(text: string) returns (ts: seq<Thread>)
    ensures ts == Threads(text)
  {
    hide Sound, PublishAll, IsThread, Items, Classify, Strip, ExtendLast, OpenRoot, NewItem, SplitLines, Dedup;
    var ls := SplitLines(text);
    var acc := new Accumulator(|ls|);
    var inFence := false;
    for idx := 0 to |ls|
      invariant acc.Valid() && fresh(acc) && acc.total == |ls|
      invariant acc.View() == At(ls, idx).(inFence := false) && inFence == At(ls, idx).inFence
    {
      var raw := ls[idx];
      if Classify(raw).Fence? {
        inFence := !inFence;
      } else if !inFence {
        acc.Feed(idx + 1, raw);
      }
    }
    acc.Flush();
    assert acc.done == Parse(ls);
    ts := acc.threads;
  }
}
