/** The writer and the delta checker agree: every write that changes the text is a discussion delta
    under some alignment the matcher could return. */
module DeltaAgree {
  import opened Text
  import opened Syntax
  import opened Forest
  import opened Scan
  import opened Frame
  import opened Splice
  import opened Blocks
  import opened ReplyProof
  import opened ReplyExact
  import opened StartProof
  import opened StatusProof
  import opened Locate
  import opened Writer
  import opened Delta
  import Document

  /** Some opcodes tile the prepared bodies and pass. */
  ghost predicate IsDelta(base: string, current: string) {
    exists ops :: Tiles(Prepare(base).body, Prepare(current).body, ops, 0, 0) && DeltaUnder(base, current, ops)
  }

  // ----- alignments -----

  lemma TilesEnd(a: seq<string>, b: seq<string>)
    ensures Tiles(a, b, [], |a|, |b|)
  {
  }

  lemma TilesStep(a: seq<string>, b: seq<string>, o: Op, ops: seq<Op>)
    requires o.i1 <= o.i2 <= |a| && o.j1 <= o.j2 <= |b| && Tiles(a, b, ops, o.i2, o.j2)
    requires o.tag == Equal ==> a[o.i1..o.i2] == b[o.j1..o.j2]
    requires (o.tag == Delete ==> o.j1 == o.j2) && (o.tag == Insert ==> o.i1 == o.i2)
    ensures Tiles(a, b, [o] + ops, o.i1, o.j1)
  {
    assert ([o] + ops)[1..] == ops;
  }

  /** Everything up to `n` stays, `[n, m)` is new in `b`, and the rest stays. */
  lemma ThreeTiles(a: seq<string>, b: seq<string>, n: nat, m: nat)
    requires n <= |a| && n <= m <= |b| && a[0..n] == b[0..n] && a[n..|a|] == b[m..|b|]
    ensures Tiles(a, b, [Op(Equal, 0, n, 0, n), Op(Insert, n, n, n, m), Op(Equal, n, |a|, m, |b|)], 0, 0)
  {
    hide Tiles;
    var p, q, r := Op(Equal, 0, n, 0, n), Op(Insert, n, n, n, m), Op(Equal, n, |a|, m, |b|);
    TilesEnd(a, b);
    TilesStep(a, b, r, []);
    assert [r] + [] == [r];
    TilesStep(a, b, q, [r]);
    assert [q] + [r] == [q, r];
    TilesStep(a, b, p, [q, r]);
    assert [p] + [q, r] == [p, q, r];
  }

  lemma SamePrefix(x: seq<string>, g: seq<string>, y: seq<string>, a: seq<string>, b: seq<string>)
    requires a == x + y && b == x + g + y
    ensures a[0..|x|] == b[0..|x|]
  {
    assert a[0..|x|] == x && b[0..|x|] == x;
  }

  lemma SameSuffix(x: seq<string>, g: seq<string>, y: seq<string>, a: seq<string>, b: seq<string>)
    requires a == x + y && b == x + g + y
    ensures |a| == |x| + |y| && |b| == |x| + |g| + |y| && a[|x|..|a|] == b[|x| + |g|..|b|]
  {
    assert a[|x|..|a|] == y && b[|x| + |g|..|b|] == y;
  }

  /** The new body is the old one with framing blanks at up to two neighbouring places. */
  lemma InsertionPasses(base: string, current: string, x: seq<string>, g: seq<string>, y: seq<string>)
    requires Prepare(base).body == x + y && Prepare(current).body == x + g + y
    requires forall p :: |x| <= p < |x| + |g| ==> Prepare(current).framing[p]
    requires base != current && Threads(current) != []
    ensures IsDelta(base, current)
  {
    hide Prepare, Threads, Tiles;
    var a, b, n, m := Prepare(base).body, Prepare(current).body, |x|, |x| + |g|;
    SamePrefix(x, g, y, a, b);
    SameSuffix(x, g, y, a, b);
    ThreeTiles(a, b, n, m);
    var ops := [Op(Equal, 0, n, 0, n), Op(Insert, n, n, n, m), Op(Equal, n, |a|, m, |b|)];
    assert DeltaUnder(base, current, ops);
  }

  // ----- bodies of spliced documents -----

  lemma {:induction false} BodySplit(ks: seq<string>, D: set<nat>, i: nat, m: nat, j: nat)
    requires i <= m <= j <= |ks|
    ensures Body(ks, D, i, j) == Body(ks, D, i, m) + Body(ks, D, m, j)
    ensures Numbers(ks, D, i, j) == Numbers(ks, D, i, m) + Numbers(ks, D, m, j)
    decreases j - m
  {
    if m < j {
      BodySplit(ks, D, i, m, j - 1);
    }
  }

  /** Two stretches with the same lines and the same discussion marks have the same body. */
  lemma {:induction false} BodySame(ks: seq<string>, D: set<nat>, hs: seq<string>, E: set<nat>, i: nat, j: nat, d: nat)
    requires i <= j <= |ks| && j + d <= |hs|
    requires forall n: nat :: i < n <= j ==> (n in D <==> n + d in E)
    requires forall n: nat :: i < n <= j && n !in D ==> ks[n - 1] == hs[n + d - 1]
    ensures Body(hs, E, i + d, j + d) == Body(ks, D, i, j)
    decreases j - i
  {
    if i < j {
      BodySame(ks, D, hs, E, i, j - 1, d);
    }
  }

  /** A stretch of discussion lines has no body. */
  lemma {:induction false} BodyNone(ks: seq<string>, D: set<nat>, i: nat, j: nat)
    requires i <= j <= |ks| && forall n: nat :: i < n <= j ==> n in D
    ensures Body(ks, D, i, j) == []
    decreases j - i
  {
    if i < j {
      BodyNone(ks, D, i, j - 1);
    }
  }

  /** A stretch without discussion lines is all body. */
  lemma {:induction false} BodyAll(ks: seq<string>, D: set<nat>, i: nat, j: nat)
    requires i <= j <= |ks| && forall n: nat :: i < n <= j ==> n !in D
    ensures Body(ks, D, i, j) == ks[i..j]
    decreases j - i
  {
    if i < j {
      BodyAll(ks, D, i, j - 1);
      assert ks[i..j] == ks[i..j - 1] + [ks[j - 1]];
    }
  }

  /** `out` is `ls` with a run `[b, e)` of discussion lines put in at `at`, perhaps with one empty line
      before it and one after it; everything else keeps its mark. */
  ghost predicate Grown(ls: seq<string>, nl: bool, out: seq<string>, at: nat, b: nat, e: nat, f: nat) {
    && at <= b < e <= f <= |out| && at <= |ls| && b <= at + 1 && f <= e + 1 && |out| == |ls| + f - at
    && out[..at] == ls[..at] && out[f..] == ls[at..]
    && (forall m :: at <= m < b ==> out[m] == "")
    && (forall m :: e <= m < f ==> out[m] == "")
    && (forall n: nat :: 1 <= n <= at ==> (n in Discussion(out) <==> n in Discussion(ls)))
    && (forall n: nat :: b < n <= e ==> n in Discussion(out))
    && (forall n: nat :: at < n <= |ls| ==> (n + (f - at) in Discussion(out) <==> n in Discussion(ls)))
    && (e < f ==> f < |out|)
    && (at == |ls| && at > 0 && !nl ==> at in Discussion(ls))
  }

  lemma NotDiscussion(out: seq<string>, m: nat)
    requires m < |out| && out[m] == ""
    ensures m + 1 !in Discussion(out)
  {
    BlankLine();
  }

  lemma EndedPrefix(ls: seq<string>, nl: bool, out: seq<string>, at: nat, n: nat)
    requires at <= |ls| && at < |out| && out[..at] == ls[..at] && 1 <= n <= at
    ensures n < |ls| || nl ==> Ended(out, nl)[n - 1] == Ended(ls, nl)[n - 1]
  {
    assert out[n - 1] == out[..at][n - 1] == ls[..at][n - 1] == ls[n - 1];
  }

  lemma EndedSuffix(ls: seq<string>, nl: bool, out: seq<string>, at: nat, d: nat, n: nat)
    requires |out| == |ls| + d && at < n <= |ls| && out[at + d..] == ls[at..]
    ensures Ended(out, nl)[n + d - 1] == Ended(ls, nl)[n - 1]
  {
    assert out[n + d - 1] == out[at + d..][n - 1 - at] == ls[at..][n - 1 - at] == ls[n - 1];
  }

  lemma GrownHead(ls: seq<string>, nl: bool, out: seq<string>, at: nat, b: nat, e: nat, f: nat)
    requires Grown(ls, nl, out, at, b, e, f) && at <= |ls| && at <= |out|
    ensures Body(Ended(out, nl), Discussion(out), 0, at) == Body(Ended(ls, nl), Discussion(ls), 0, at)
  {
    hide Discussion, Ended, Body;
    var ks, hs, D := Ended(ls, nl), Ended(out, nl), Discussion(ls);
    forall n: nat | 0 < n <= at && n !in D
      ensures ks[n - 1] == hs[n - 1]
    {
      EndedPrefix(ls, nl, out, at, n);
    }
    BodySame(ks, D, hs, Discussion(out), 0, at, 0);
  }

  lemma GrownTail(ls: seq<string>, nl: bool, out: seq<string>, at: nat, b: nat, e: nat, f: nat)
    requires Grown(ls, nl, out, at, b, e, f) && at <= |ls| && f <= |out|
    ensures Body(Ended(out, nl), Discussion(out), f, |out|) == Body(Ended(ls, nl), Discussion(ls), at, |ls|)
  {
    hide Discussion, Ended, Body;
    var ks, hs, D := Ended(ls, nl), Ended(out, nl), Discussion(ls);
    forall n: nat | at < n <= |ks| && n !in D
      ensures ks[n - 1] == hs[n + (f - at) - 1]
    {
      EndedSuffix(ls, nl, out, at, f - at, n);
    }
    BodySame(ks, D, hs, Discussion(out), at, |ks|, f - at);
  }

  lemma GrownMiddle(ls: seq<string>, nl: bool, out: seq<string>, at: nat, b: nat, e: nat, f: nat)
    requires Grown(ls, nl, out, at, b, e, f) && at <= b < e <= f <= |out|
    ensures var hs, E := Ended(out, nl), Discussion(out);
      && Body(hs, E, at, b) == hs[at..b] && Body(hs, E, b, e) == [] && Body(hs, E, e, f) == hs[e..f]
  {
    hide Discussion, Ended, Body;
    var hs, E := Ended(out, nl), Discussion(out);
    forall n: nat | at < n <= b || e < n <= f
      ensures n !in E
    {
      NotDiscussion(out, n - 1);
    }
    BodyAll(hs, E, at, b);
    BodyNone(hs, E, b, e);
    BodyAll(hs, E, e, f);
  }

  lemma BodyParts(ks: seq<string>, D: set<nat>, i: nat, m: nat, j: nat)
    requires i <= m <= j <= |ks|
    ensures Body(ks, D, i, j) == Body(ks, D, i, m) + Body(ks, D, m, j)
  {
    BodySplit(ks, D, i, m, j);
  }

  lemma Regroup(x: seq<string>, p: seq<string>, q: seq<string>, y: seq<string>)
    ensures x + (p + ([] + (q + y))) == x + (p + q) + y
  {
  }

  /** The body of the grown document: the old one with the new blank lines in between. */
  lemma GrownBody(ls: seq<string>, nl: bool, out: seq<string>, at: nat, b: nat, e: nat, f: nat)
    requires Grown(ls, nl, out, at, b, e, f) && at <= b < e <= f <= |out| && at <= |ls|
    ensures var ks, hs, D, E := Ended(ls, nl), Ended(out, nl), Discussion(ls), Discussion(out);
      var x, y := Body(ks, D, 0, at), Body(ks, D, at, |ks|);
      && Body(ks, D, 0, |ks|) == x + y
      && Body(hs, E, 0, |hs|) == x + (hs[at..b] + hs[e..f]) + y
  {
    hide Discussion, Ended, Body, Grown;
    var ks, hs, D, E := Ended(ls, nl), Ended(out, nl), Discussion(ls), Discussion(out);
    GrownHead(ls, nl, out, at, b, e, f);
    GrownMiddle(ls, nl, out, at, b, e, f);
    GrownTail(ls, nl, out, at, b, e, f);
    BodyParts(ks, D, 0, at, |ks|);
    BodyParts(hs, E, 0, at, |hs|);
    BodyParts(hs, E, at, b, |hs|);
    BodyParts(hs, E, b, e, |hs|);
    BodyParts(hs, E, e, f, |hs|);
    Regroup(Body(ks, D, 0, at), hs[at..b], hs[e..f], Body(ks, D, at, |ks|));
  }

  /** The new blank lines are framing. */
  lemma GrownFraming(ls: seq<string>, nl: bool, out: seq<string>, at: nat, b: nat, e: nat, f: nat, n: nat)
    requires Grown(ls, nl, out, at, b, e, f) && (at < n <= b || e < n <= f)
    ensures n in Framing(Ended(out, nl), Discussion(out))
  {
    hide Discussion;
    var hs, E := Ended(out, nl), Discussion(out);
    assert out[n - 1] == "";
    assert hs[n - 1] == "\n";
    assert EmptyLine(hs, n);
    var dl := if n <= b then b + 1 else e;
    assert dl in E && Frames(hs, n, dl);
  }

  /** A grown document passes the delta checker. */
  lemma GrownIsDelta(base: string, current: string, at: nat, b: nat, e: nat, f: nat)
    requires Grown(SplitLines(base), EndsNl(base), SplitLines(current), at, b, e, f)
    requires EndsNl(current) == EndsNl(base) && Threads(current) != []
    ensures IsDelta(base, current)
  {
    hide SplitLines, EndsNl, Discussion, Threads, Framing, Ended, Body, Numbers, IsDelta, Grown;
    var ls, out, nl := SplitLines(base), SplitLines(current), EndsNl(base);
    GrownSizes(ls, nl, out, at, b, e, f);
    GrownBody(ls, nl, out, at, b, e, f);
    var ks, hs, D, E := Ended(ls, nl), Ended(out, nl), Discussion(ls), Discussion(out);
    var x, g, y := Body(ks, D, 0, at), hs[at..b] + hs[e..f], Body(ks, D, at, |ks|);
    forall p | |x| <= p < |x| + |g|
      ensures Prepare(current).framing[p]
    {
      GrownHead(ls, nl, out, at, b, e, f);
      GrownNumber(ls, nl, out, at, b, e, f, p);
      GrownFraming(ls, nl, out, at, b, e, f, Numbers(hs, E, 0, |hs|)[p]);
    }
    InsertionPasses(base, current, x, g, y);
  }

  lemma GrownSizes(ls: seq<string>, nl: bool, out: seq<string>, at: nat, b: nat, e: nat, f: nat)
    requires Grown(ls, nl, out, at, b, e, f)
    ensures at <= b < e <= f <= |out| && at <= |ls| && out != ls
  {
  }

  /** The body positions between the two old stretches are the new blank lines. */
  lemma GrownNumber(ls: seq<string>, nl: bool, out: seq<string>, at: nat, b: nat, e: nat, f: nat, p: nat)
    requires Grown(ls, nl, out, at, b, e, f) && at <= b < e <= f <= |out| && at <= |ls|
    requires var h := |Body(Ended(out, nl), Discussion(out), 0, at)|; h <= p < h + (b - at) + (f - e)
    ensures p < |Numbers(Ended(out, nl), Discussion(out), 0, |out|)|
    ensures var n := Numbers(Ended(out, nl), Discussion(out), 0, |out|)[p]; at < n <= b || e < n <= f
  {
    hide Discussion, Ended, Body, Grown;
    var hs, E := Ended(out, nl), Discussion(out);
    GrownMiddle(ls, nl, out, at, b, e, f);
    BodySplit(hs, E, 0, at, |hs|);
    BodySplit(hs, E, at, b, |hs|);
    BodySplit(hs, E, b, e, |hs|);
    BodySplit(hs, E, e, f, |hs|);
  }

  // ----- the delta checker's scan over spliced documents -----

  lemma {:induction false} MarkPrefix(ls: seq<string>, out: seq<string>, i: nat)
    requires i <= |ls| && i <= |out| && out[..i] == ls[..i]
    ensures MarkAt(out, i) == MarkAt(ls, i)
    ensures forall n: nat :: 1 <= n <= i ==> (n in Discussion(out) <==> n in Discussion(ls))
  {
    hide Classify;
    if i > 0 {
      assert out[..i - 1] == out[..i][..i - 1] && ls[..i - 1] == ls[..i][..i - 1];
      assert out[i - 1] == out[..i][i - 1] == ls[..i][i - 1] == ls[i - 1];
      MarkPrefix(ls, out, i - 1);
    }
  }

  /** The marks may differ only in an open thread that no quote has continued yet. */
  ghost predicate MarksMatch(ls: seq<string>, at: nat, i: nat, m: Mark, u: Mark)
    requires i <= |ls|
  {
    m == u || (m == Mark(false, false) && u == Mark(false, true) && forall q :: at <= q < i ==> Classify(ls[q]).Blank?)
  }

  /** The first line from `i` on that is not blank is no untagged quote. */
  predicate NoOrphan(ls: seq<string>, i: nat)
    decreases |ls| - i
  {
    i < |ls| ==> if Classify(ls[i]).Blank? then NoOrphan(ls, i + 1) else !Classify(ls[i]).Untagged?
  }

  lemma {:induction false} OrphanAt(ls: seq<string>, at: nat, i: nat)
    requires at <= i < |ls| && NoOrphan(ls, at) && forall q :: at <= q < i ==> Classify(ls[q]).Blank?
    ensures !Classify(ls[i]).Untagged?
    decreases i - at
  {
    hide Classify;
    if at < i {
      OrphanAt(ls, at + 1, i);
    }
  }

  lemma {:induction false} MarkSuffix(ls: seq<string>, out: seq<string>, at: nat, d: nat, i: nat)
    requires at <= i <= |ls| && |out| == |ls| + d && out[at + d..] == ls[at..]
    requires MarksMatch(ls, at, at, MarkAt(ls, at), MarkAt(out, at + d))
    requires MarkAt(ls, at) == MarkAt(out, at + d) || NoOrphan(ls, at)
    ensures MarksMatch(ls, at, i, MarkAt(ls, i), MarkAt(out, i + d))
    ensures MarkAt(ls, at) == MarkAt(out, at + d) ==> MarkAt(ls, i) == MarkAt(out, i + d)
    ensures forall n: nat :: at < n <= i ==> (n + d in Discussion(out) <==> n in Discussion(ls))
    decreases i
  {
    hide Classify, NoOrphan;
    if i > at {
      MarkSuffix(ls, out, at, d, i - 1);
      assert out[i + d - 1] == out[at + d..][i - 1 - at] == ls[i - 1];
      if MarkAt(ls, i - 1) != MarkAt(out, i + d - 1) {
        OrphanAt(ls, at, i - 1);
      }
    }
  }

  /** A block whose head is a tag, or that continues a thread, is all discussion. */
  lemma {:induction false} BlockMarks(out: seq<string>, b: nat, depth: nat, speaker: string, message: string, i: nat)
    requires BlockAt(out, b, depth, speaker, message) && depth >= 1 && 1 <= i <= |Parts(message)| <= |out| - b
    requires !MarkAt(out, b).inFence && (MarkAt(out, b).inThread || Classify(out[b]).Tagged?)
    ensures MarkAt(out, b + i) == Mark(false, true)
    ensures forall n: nat :: b < n <= b + i ==> n in Discussion(out)
  {
    hide Classify, Parts, BlockAt;
    BlockQuote(out, b, depth, speaker, message, i - 1);
    if i > 1 {
      BlockMarks(out, b, depth, speaker, message, i - 1);
    }
  }

  lemma {:induction false} BlankMarks(out: seq<string>, i: nat, j: nat)
    requires i <= j <= |out| && forall m :: i <= m < j ==> out[m] == ""
    ensures MarkAt(out, j) == MarkAt(out, i)
  {
    BlankLine();
    hide Classify;
    if i < j {
      BlankMarks(out, i, j - 1);
    }
  }

  // ----- reply -----

  /** The delta checker sees the target's subtree as discussion up to the insertion point. */
  lemma {:induction false} SubtreeMarks(ls: seq<string>, i: nat, last: nat, depth: nat)
    requires last < i <= |ls| && MarkAt(ls, i) == Mark(false, true) && MarkAt(ls, last + 1) == Mark(false, true)
    requires last + 1 in Discussion(ls)
    ensures var at := SubtreeScan(ls, i, last, depth);
      at in Discussion(ls) && MarkAt(ls, at) == Mark(false, true)
    decreases |ls| - i
  {
    hide Classify;
    if i < |ls| && !Classify(ls[i]).Fence? && !Classify(ls[i]).Plain?
       && !(Classify(ls[i]).Tagged? && Classify(ls[i]).depth <= depth) {
      MarkNext(ls, i);
      SubtreeMarks(ls, i + 1, if Classify(ls[i]).Blank? then last else i, depth);
    }
  }

  lemma TargetMarks(ls: seq<string>, k: nat, j: nat)
    requires k < |Parse(ls)| && j < |Parse(ls)[k].items|
    ensures var it := Parse(ls)[k].items[j];
      && 1 <= it.line <= |ls| && SubtreeEndIndex(ls, it) in Discussion(ls)
      && MarkAt(ls, SubtreeEndIndex(ls, it)) == Mark(false, true)
  {
    hide Classify, At, Parse, MarkAt;
    CommentIsTag(ls, k, j);
    var n := Parse(ls)[k].items[j].line;
    MarkFence(ls, n - 1);
    MarkNext(ls, n - 1);
    DiscussionNext(ls, n - 1);
    SubtreeMarks(ls, n, n - 1, Parse(ls)[k].items[j].depth);
  }

  lemma ReplyGrown(ls: seq<string>, nl: bool, k: nat, j: nat, speaker: string, message: string)
    requires k < |Parse(ls)| && j < |Parse(ls)[k].items|
    ensures var it := Parse(ls)[k].items[j];
      && 1 <= it.line <= |ls|
      && var at := SubtreeEndIndex(ls, it);
        Grown(ls, nl, ReplyLines(ls, it, speaker, message), at, at, at + |Parts(message)|,
              at + ReplySize(ls, it, message))
  {
    hide Classify, At, Parse, MarkAt, Discussion, SubtreeEndIndex, Parts, ReplyLines, BlockAt, NoOrphan;
    TargetMarks(ls, k, j);
    var it := Parse(ls)[k].items[j];
    var out, at, d := ReplyLines(ls, it, speaker, message), SubtreeEndIndex(ls, it), ReplySize(ls, it, message);
    ReplyPieces(ls, out, it, speaker, message, d);
    MarkPrefix(ls, out, at);
    BlockMarks(out, at, it.depth + 1, speaker, message, |Parts(message)|);
    BlankMarks(out, at + |Parts(message)|, at + d);
    MarkSuffix(ls, out, at, d, |ls|);
  }

  /** A comment above the insertion point is still one, so the new text has threads. */
  lemma CommentStays(ls: seq<string>, text: string, at: nat, n: nat)
    requires at <= |ls| && at <= |SplitLines(text)| && SplitLines(text)[..at] == ls[..at]
    requires 1 <= n <= at && !At(ls, n - 1).inFence && Classify(ls[n - 1]).Tagged?
    ensures Threads(text) != []
  {
    hide Classify, At, Parse, SplitLines, Publish;
    var out := SplitLines(text);
    assert out[..n - 1] == out[..at][..n - 1] && ls[..n - 1] == ls[..at][..n - 1];
    assert out[n - 1] == out[..at][n - 1] == ls[n - 1];
    AtPrefix(out, ls, n - 1);
    var k, j := TaggedIsComment(out, n);
    ThreadCount(text);
  }

  /** Every reply is a discussion delta, whatever its speaker and message. */
  lemma ReplyIsDelta(text: string, k: nat, j: nat, speaker: string, message: string)
    requires k < |Parse(SplitLines(text))| && j < |Parse(SplitLines(text))[k].items| && OneLine(speaker)
    ensures var ls, target := SplitLines(text), Parse(SplitLines(text))[k].items[j];
      1 <= target.line <= |ls|
      && IsDelta(text, Render(ReplyLines(ls, target, speaker, message), EndsNl(text)))
  {
    hide SplitLines, Parse, OneLine, ReplyLines, SubtreeEndIndex, Grown, IsDelta, Parts, Threads, Render,
      EndsNl, BlockAt, Classify, At, Renderable, Gap;
    var ls := SplitLines(text);
    ParsedInText(ls, k);
    var it := Parse(ls)[k].items[j];
    var out, at := ReplyLines(ls, it, speaker, message), SubtreeEndIndex(ls, it);
    var edited := Render(out, EndsNl(text));
    ReplyText(text, it, speaker, message);
    ReplyGrown(ls, EndsNl(text), k, j, speaker, message);
    ReplyPieces(ls, out, it, speaker, message, ReplySize(ls, it, message));
    RenderEnds(out, EndsNl(text));
    CommentIsTag(ls, k, j);
    CommentStays(ls, edited, at, it.line);
    GrownIsDelta(text, edited, at, at, at + |Parts(message)|, at + ReplySize(ls, it, message));
  }

  // ----- how much of a body is not empty -----

  lemma SolidCons(x: seq<string>)
    requires x != []
    ensures |Solid(x)| == |Solid(x[1..])| + if IsFraming(x[0]) then 0 else 1
  {
    hide IsFraming;
  }

  lemma {:induction false} SolidConcat(x: seq<string>, y: seq<string>)
    ensures |Solid(x + y)| == |Solid(x)| + |Solid(y)|
  {
    hide IsFraming, Solid;
    if x == [] {
      assert [] + y == y;
      NoSolid();
    } else {
      SolidConcat(x[1..], y);
      assert (x + y)[1..] == x[1..] + y;
      SolidCons(x);
      SolidCons(x + y);
    }
  }

  lemma NoSolid()
    ensures Solid([]) == []
  {
  }

  /** The number of body lines that are not empty. */
  function Count(ks: seq<string>, D: set<nat>, i: nat, j: nat): nat
    requires i <= j <= |ks|
  {
    |Solid(Body(ks, D, i, j))|
  }

  lemma CountSplit(ks: seq<string>, D: set<nat>, i: nat, m: nat, j: nat)
    requires i <= m <= j <= |ks|
    ensures Count(ks, D, i, j) == Count(ks, D, i, m) + Count(ks, D, m, j)
  {
    hide Body, Solid;
    BodyParts(ks, D, i, m, j);
    SolidConcat(Body(ks, D, i, m), Body(ks, D, m, j));
  }

  lemma CountLast(ks: seq<string>, D: set<nat>, i: nat, j: nat)
    requires i < j <= |ks|
    ensures Count(ks, D, i, j) == Count(ks, D, i, j - 1) + if j in D || EmptyLine(ks, j) then 0 else 1
  {
    hide IsFraming, Solid, Body;
    CountSplit(ks, D, i, j - 1, j);
    OneLineBody(ks, D, j);
    NoSolid();
    SolidCons([ks[j - 1]]);
    assert [ks[j - 1]][1..] == [];
  }

  lemma OneLineBody(ks: seq<string>, D: set<nat>, j: nat)
    requires 1 <= j <= |ks|
    ensures Body(ks, D, j - 1, j) == if j in D then [] else [ks[j - 1]]
  {
    assert Body(ks, D, j - 1, j - 1) == [];
  }

  lemma CountNone(ks: seq<string>, D: set<nat>, i: nat)
    requires i <= |ks|
    ensures Count(ks, D, i, i) == 0
  {
  }

  /** A stretch of discussion and empty lines. */
  lemma {:induction false} CountZero(ks: seq<string>, D: set<nat>, i: nat, j: nat)
    requires i <= j <= |ks| && forall n: nat :: i < n <= j ==> n in D || EmptyLine(ks, n)
    ensures Count(ks, D, i, j) == 0
    decreases j - i
  {
    hide Count, EmptyLine;
    if i == j {
      CountNone(ks, D, i);
    } else {
      CountZero(ks, D, i, j - 1);
      CountLast(ks, D, i, j);
    }
  }

  /** A stretch where the lines are empty together and discussion lines stay such, shifted by `d`: there are no more
      body lines than before, and fewer if line `n` was one and is none. */
  lemma {:induction false} CountLess(ks: seq<string>, D: set<nat>, hs: seq<string>, E: set<nat>, i: nat, j: nat, d: nat,
                                     n: nat)
    requires i <= j <= |ks| && j + d <= |hs|
    requires forall m: nat :: i < m <= j && m in D ==> m + d in E
    requires forall m: nat :: i < m <= j && m + d !in E ==> (EmptyLine(ks, m) <==> EmptyLine(hs, m + d))
    requires i < n <= j ==> n !in D && n + d in E && !EmptyLine(ks, n)
    ensures Count(ks, D, i, j) >= Count(hs, E, i + d, j + d) + if i < n <= j then 1 else 0
    decreases j - i
  {
    hide Count, EmptyLine;
    if i == j {
      CountNone(hs, E, i + d);
    } else {
      CountLess(ks, D, hs, E, i, j - 1, d, if n == j then 0 else n);
      CountLast(ks, D, i, j);
      CountLast(hs, E, i + d, j + d);
    }
  }

  /** The same stretch, when discussion lines also were such. */
  lemma {:induction false} CountSame(ks: seq<string>, D: set<nat>, hs: seq<string>, E: set<nat>, i: nat, j: nat, d: nat)
    requires i <= j <= |ks| && j + d <= |hs|
    requires forall m: nat :: i < m <= j ==> (m in D <==> m + d in E)
    requires forall m: nat :: i < m <= j ==> (EmptyLine(ks, m) <==> EmptyLine(hs, m + d))
    ensures Count(ks, D, i, j) == Count(hs, E, i + d, j + d)
    decreases j - i
  {
    hide Count, EmptyLine;
    if i == j {
      CountNone(ks, D, i);
      CountNone(hs, E, i + d);
    } else {
      CountSame(ks, D, hs, E, i, j - 1, d);
      CountLast(ks, D, i, j);
      CountLast(hs, E, i + d, j + d);
    }
  }

  lemma EndedFraming(ls: seq<string>, nl: bool, n: nat)
    requires 1 <= n <= |ls|
    ensures IsFraming(Ended(ls, nl)[n - 1]) <==> IsFraming(ls[n - 1])
  {
    var l, k := ls[n - 1], Ended(ls, nl)[n - 1];
    assert l <= k && (k == l || k == l + "\n");
    assert forall i :: 0 <= i < |l| ==> k[i] == l[i];
  }

  lemma QuoteIsSolid(ls: seq<string>, nl: bool, i: nat)
    requires i < |ls| && IsQuote(Classify(ls[i]))
    ensures !IsFraming(Ended(ls, nl)[i])
  {
    hide ParseTag, QuoteDepth;
    var k := |ls[i]| - |LStrip(ls[i])|;
    assert ls[i][k] == '>' && Ended(ls, nl)[i][k] == '>';
  }

  /** With another number of non-empty body lines no alignment passes. */
  lemma CountDecides(base: string, current: string)
    requires var ls, out := SplitLines(base), SplitLines(current);
      Count(Ended(ls, EndsNl(base)), Discussion(ls), 0, |ls|)
        != Count(Ended(out, EndsNl(current)), Discussion(out), 0, |out|)
    ensures !IsDelta(base, current)
  {
    hide SplitLines, Threads, EndsNl, Classify, Framing, Body, Numbers, Ended, Solid, IsFraming, Tiles, DeltaUnder;
    forall ops | Tiles(Prepare(base).body, Prepare(current).body, ops, 0, 0)
      ensures !DeltaUnder(base, current, ops)
    {
      if DeltaUnder(base, current, ops) { DeltaSound(base, current, ops); }
    }
  }
}
