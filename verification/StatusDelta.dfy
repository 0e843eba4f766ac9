/** Status changes and the delta checker: a rewritten root line passes exactly when it still belongs to a
    discussion, by its own tag or as a quote after one. */
module StatusDelta {
  import opened Text
  import opened Syntax
  import opened Forest
  import opened Scan
  import opened Frame
  import opened Splice
  import opened Blocks
  import opened ReplyProof
  import opened ReplyExact
  import opened StatusProof
  import opened Locate
  import opened Writer
  import opened Delta
  import opened DeltaAgree
  import Document

  // ----- rewriting tag lines as quotes -----

  /** `ls2` is `ls` with the unfenced tag lines `R` rewritten as quotes. */
  ghost predicate Requoted(ls: seq<string>, ls2: seq<string>, R: set<nat>) {
    && |ls| == |ls2|
    && (forall n :: n in R ==> 1 <= n <= |ls|)
    && forall n :: 1 <= n <= |ls| ==> if n in R then RequotedLine(ls, ls2, n) else ls2[n - 1] == ls[n - 1]
  }

  ghost predicate RequotedLine(ls: seq<string>, ls2: seq<string>, n: nat)
    requires 1 <= n <= |ls| == |ls2|
  {
    !MarkAt(ls, n - 1).inFence && Classify(ls[n - 1]).Tagged? && IsQuote(Classify(ls2[n - 1]))
  }

  /** The new line `n` is a tag, or a quote in a run that has a tag already. */
  predicate StaysMarked(ls: seq<string>, ls2: seq<string>, n: nat)
    requires 1 <= n <= |ls| == |ls2|
  {
    Classify(ls2[n - 1]).Tagged? || MarkAt(ls, n - 1).inThread
  }

  /** Rewriting can only take marks away. */
  lemma {:induction false} MarksBelow(ls: seq<string>, ls2: seq<string>, R: set<nat>, i: nat)
    requires Requoted(ls, ls2, R) && i <= |ls| == |ls2|
    ensures MarkAt(ls2, i).inFence == MarkAt(ls, i).inFence
    ensures MarkAt(ls2, i).inThread ==> MarkAt(ls, i).inThread
    ensures forall n: nat :: 1 <= n <= i && IsDiscussion(ls2, n) ==> IsDiscussion(ls, n)
    ensures forall n: nat :: 1 <= n <= i && n in R ==> IsDiscussion(ls, n)
  {
    hide Classify;
    if i > 0 {
      MarksBelow(ls, ls2, R, i - 1);
      assert i in R ==> RequotedLine(ls, ls2, i);
    }
  }

  /** When every rewritten line stays marked, so does everything else. */
  lemma {:induction false} MarksSame(ls: seq<string>, ls2: seq<string>, R: set<nat>, i: nat)
    requires Requoted(ls, ls2, R) && i <= |ls| == |ls2|
    requires forall n: nat :: n in R ==> StaysMarked(ls, ls2, n)
    ensures MarkAt(ls2, i) == MarkAt(ls, i)
    ensures forall n: nat :: 1 <= n <= i ==> (IsDiscussion(ls2, n) <==> IsDiscussion(ls, n))
  {
    hide Classify;
    if i > 0 {
      MarksSame(ls, ls2, R, i - 1);
      assert i in R ==> RequotedLine(ls, ls2, i) && StaysMarked(ls, ls2, i);
    }
  }

  /** A discussion line has a tag at or before it. */
  lemma {:induction false} MarkHasTag(ls: seq<string>, i: nat) returns (m: nat)
    requires i <= |ls| && MarkAt(ls, i).inThread && !MarkAt(ls, i).inFence
    ensures 1 <= m <= i && !MarkAt(ls, m - 1).inFence && Classify(ls[m - 1]).Tagged?
  {
    hide Classify;
    if MarkAt(ls, i - 1).inThread && !MarkAt(ls, i - 1).inFence && !Classify(ls[i - 1]).Tagged? {
      m := MarkHasTag(ls, i - 1);
    } else {
      m := i;
    }
  }

  lemma DiscussionHasThread(text: string, n: nat)
    requires 1 <= n <= |SplitLines(text)| && IsDiscussion(SplitLines(text), n)
    ensures Threads(text) != []
  {
    hide Classify, SplitLines, Threads, Parse, At;
    var ls := SplitLines(text);
    var m := n;
    if !Classify(ls[n - 1]).Tagged? { m := MarkHasTag(ls, n - 1); }
    MarkFence(ls, m - 1);
    var k, j := TaggedIsComment(ls, m);
    ThreadCount(text);
  }

  lemma SameBodyPasses(base: string, current: string)
    requires Prepare(base).body == Prepare(current).body && base != current && Threads(current) != []
    ensures IsDelta(base, current)
  {
    hide Prepare, Threads;
    var n := |Prepare(base).body|;
    var ops := [Op(Equal, 0, n, 0, n)];
    assert ops[1..] == [];
    assert Tiles(Prepare(base).body, Prepare(current).body, ops, 0, 0);
    assert DeltaUnder(base, current, ops);
  }

  lemma LineKept(ls: seq<string>, ls2: seq<string>, R: set<nat>, nl: bool, n: nat)
    requires Requoted(ls, ls2, R) && 1 <= n <= |ls| == |ls2| && n !in R
    ensures Ended(ls, nl)[n - 1] == Ended(ls2, nl)[n - 1]
  {
    hide RequotedLine;
  }

  lemma SameMarksSameBody(base: string, current: string, R: set<nat>)
    requires Requoted(SplitLines(base), SplitLines(current), R) && EndsNl(base) == EndsNl(current)
    requires |SplitLines(current)| == |SplitLines(base)|
    requires Discussion(SplitLines(current)) == Discussion(SplitLines(base)) && R <= Discussion(SplitLines(base))
    ensures Prepare(base).body == Prepare(current).body
  {
    hide SplitLines, EndsNl, Framing, Body, Numbers, Ended, Discussion, Requoted;
    var ls, ls2, nl := SplitLines(base), SplitLines(current), EndsNl(base);
    forall m: nat | 0 < m <= |ls| && m !in Discussion(ls)
      ensures Ended(ls, nl)[m - 1] == Ended(ls2, nl)[m - 1]
    {
      LineKept(ls, ls2, R, nl, m);
    }
    BodySame(Ended(ls, nl), Discussion(ls), Ended(ls2, nl), Discussion(ls2), 0, |ls|, 0);
  }

  lemma RequotedNothing(base: string, current: string, R: set<nat>)
    requires Requoted(SplitLines(base), SplitLines(current), R) && R == {} && EndsNl(base) == EndsNl(current)
    ensures base == current
  {
    hide SplitLines, EndsNl, Render, RequotedLine;
    var ls, ls2 := SplitLines(base), SplitLines(current);
    forall i | 0 <= i < |ls| ensures ls[i] == ls2[i] {
      assert i + 1 !in R;
    }
    assert ls == ls2;
    RenderSplit(base);
    RenderSplit(current);
  }

  lemma RequotedPasses(base: string, current: string, R: set<nat>)
    requires Requoted(SplitLines(base), SplitLines(current), R) && EndsNl(base) == EndsNl(current) && base != current
    requires |SplitLines(current)| == |SplitLines(base)|
    requires forall n: nat :: n in R ==> StaysMarked(SplitLines(base), SplitLines(current), n)
    ensures IsDelta(base, current)
  {
    hide SplitLines, Threads, EndsNl, IsDelta, IsDiscussion, StaysMarked, Prepare, RequotedLine, Render, MarkAt;
    var ls, ls2 := SplitLines(base), SplitLines(current);
    if R == {} {
      RequotedNothing(base, current, R);
    } else {
      MarksSame(ls, ls2, R, |ls|);
      MarksBelow(ls, ls2, R, |ls|);
      var n: nat :| n in R;
      DiscussionHasThread(current, n);
      SameMarksSameBody(base, current, R);
      SameBodyPasses(base, current);
    }
  }

  // ----- a line that is not marked any more -----

  lemma RequotedFails(base: string, current: string, R: set<nat>, n: nat)
    requires Requoted(SplitLines(base), SplitLines(current), R) && EndsNl(base) == EndsNl(current)
    requires |SplitLines(current)| == |SplitLines(base)|
    requires n in R && 1 <= n <= |SplitLines(base)| && !StaysMarked(SplitLines(base), SplitLines(current), n)
    ensures !IsDelta(base, current)
  {
    hide SplitLines, Threads, EndsNl, Classify, Ended, Count, IsFraming, IsDelta;
    var ls, ls2, nl := SplitLines(base), SplitLines(current), EndsNl(base);
    MarksBelow(ls, ls2, R, |ls|);
    MarksBelow(ls, ls2, R, n - 1);
    assert RequotedLine(ls, ls2, n);
    QuoteIsSolid(ls2, nl, n - 1);
    forall m: nat | 1 <= m <= |ls| && m !in Discussion(ls)
      ensures Ended(ls2, nl)[m - 1] == Ended(ls, nl)[m - 1]
    {
      LineKept(ls, ls2, R, nl, m);
    }
    CountLess(Ended(ls2, nl), Discussion(ls2), Ended(ls, nl), Discussion(ls), 0, |ls|, 0, n);
    CountDecides(base, current);
  }

  /** A rewriting of root lines passes exactly when it changes the text and every line stays marked. */
  lemma RequotedIsDelta(base: string, current: string, R: set<nat>)
    requires Requoted(SplitLines(base), SplitLines(current), R) && EndsNl(base) == EndsNl(current)
    requires |SplitLines(current)| == |SplitLines(base)|
    ensures IsDelta(base, current) <==>
      base != current && forall n: nat :: n in R ==> StaysMarked(SplitLines(base), SplitLines(current), n)
  {
    hide SplitLines, EndsNl, StaysMarked, Threads, Prepare, Tiles, RequotedLine;
    if n: nat :| n in R && !StaysMarked(SplitLines(base), SplitLines(current), n) {
      RequotedFails(base, current, R, n);
    } else if base != current {
      RequotedPasses(base, current, R);
    }
  }

  // ----- status changes -----

  /** The name is still one when it is read back: stripped, and without the `@`, it is no label. */
  predicate KeepsTag(speaker: string) {
    Lower(DropAt(Strip(speaker))) !in LABELS
  }

  lemma RootLineKind(t: Flat, raw: string, st: Status)
    requires t.items != [] && Classify(raw).Tagged? && Classify(raw).tag.speaker == t.items[0].speaker && st != Open
    ensures IsQuote(Classify(RootLine(t, raw, st)))
    ensures Classify(RootLine(t, raw, st)).Tagged? <==> KeepsTag(t.items[0].speaker)
  {
    hide Classify, ParseTag, TagText, Parts, Lower, Strip, DropAt, QuoteLine, NoMarks, LStrip;
    TaggedSpeaker(raw);
    var part := Parts(Classify(raw).tag.body)[0];
    QuoteLineKind(1, TagText(t.items[0].speaker, st, part));
    TagTextParses(t.items[0].speaker, st, part);
  }

  /** The thread's new root line still belongs to a discussion. */
  ghost predicate RootStays(ls: seq<string>, t: Flat) {
    t.items != [] && 1 <= t.items[0].line <= |ls|
    && (KeepsTag(t.items[0].speaker) || MarkAt(ls, t.items[0].line - 1).inThread)
  }

  lemma RootRequoted(ls: seq<string>, ls2: seq<string>, k: nat, st: Status)
    requires k < |Parse(ls)| && Rooted(ls, Parse(ls)[k]) && |ls2| == |ls| && st != Open
    requires ls2[Parse(ls)[k].items[0].line - 1] == RootLine(Parse(ls)[k], ls[Parse(ls)[k].items[0].line - 1], st)
    ensures var n := Parse(ls)[k].items[0].line;
      RequotedLine(ls, ls2, n) && (StaysMarked(ls, ls2, n) <==> RootStays(ls, Parse(ls)[k]))
  {
    hide Parse, Classify, At, MarkAt, RootLine, KeepsTag;
    var n := Parse(ls)[k].items[0].line;
    RootLineKind(Parse(ls)[k], ls[n - 1], st);
    MarkFence(ls, n - 1);
  }

  /** A status change is a discussion delta exactly when it changes the text and the root line stays in its
      discussion. */
  lemma StatusIsDelta(text: string, k: nat, st: Status)
    requires k < |Parse(SplitLines(text))| && st != Open
    ensures Parse(SplitLines(text))[k].items != []
    ensures var ls := SplitLines(text);
      var edited := Render(StatusLines(ls, Parse(ls)[k], st), EndsNl(text));
      IsDelta(text, edited) <==> edited != text && RootStays(ls, Parse(ls)[k])
  {
    hide Parse, SplitLines, Render, RootLine, At, Classify, Threads, IsDelta, EndsNl, Renderable, RequotedLine,
      StaysMarked, RootStays;
    var ls := SplitLines(text);
    RootBorn(ls, k);
    var t := Parse(ls)[k];
    var n, out := t.items[0].line, StatusLines(ls, t, st);
    Document.StatusText(text, k, st);
    RootRequoted(ls, out, k, st);
    var edited := Render(out, EndsNl(text));
    RenderEnds(out, EndsNl(text));
    assert Requoted(ls, out, {n});
    RequotedIsDelta(text, edited, {n});
  }

  lemma ResolveRequoted(ls: seq<string>)
    requires Shapely(Parse(ls))
    ensures var R := PendingLines(Parse(ls));
      var out := ResolveLines(ls, Parse(ls));
      && Requoted(ls, out, R)
      && ((forall n: nat :: n in R ==> StaysMarked(ls, out, n)) <==>
          forall k :: 0 <= k < |Parse(ls)| && Parse(ls)[k].status != Resolved ==> RootStays(ls, Parse(ls)[k]))
  {
    hide Parse, RootLine, ResolveLines, At, Classify, RequotedLine, StaysMarked, RootStays, MarkAt;
    ParseApart(ls);
    var ts, out, R := Parse(ls), ResolveLines(ls, Parse(ls)), PendingLines(Parse(ls));
    forall k | 0 <= k < |ts| && ts[k].status != Resolved
      ensures 1 <= ts[k].items[0].line <= |ls| && RequotedLine(ls, out, ts[k].items[0].line)
      ensures StaysMarked(ls, out, ts[k].items[0].line) <==> RootStays(ls, ts[k])
    {
      RootBorn(ls, k);
      Touched(ls, ts, k);
      RootRequoted(ls, out, k, Resolved);
    }
    forall n | 1 <= n <= |ls| && n !in R
      ensures out[n - 1] == ls[n - 1]
    {
      Untouched(ls, ts, n - 1);
    }
  }

  /** Closing all threads is a discussion delta exactly when it changes the text and every root line it rewrites
      stays in its discussion. */
  lemma ResolveIsDelta(text: string)
    ensures var ls := SplitLines(text);
      Shapely(Parse(ls)) &&
      var edited := Render(ResolveLines(ls, Parse(ls)), EndsNl(text));
      IsDelta(text, edited) <==>
        edited != text
        && forall k :: 0 <= k < |Parse(ls)| && Parse(ls)[k].status != Resolved ==> RootStays(ls, Parse(ls)[k])
  {
    hide Parse, SplitLines, Render, At, Classify, Threads, IsDelta, EndsNl, Renderable, ResolveLines, RequotedLine,
      StaysMarked, RootStays, PendingLines;
    var ls := SplitLines(text);
    ParseShapely(ls);
    ResolveRequoted(ls);
    Document.ResolveRenderable(text);
    var out := ResolveLines(ls, Parse(ls));
    RenderEnds(out, EndsNl(text));
    RequotedIsDelta(text, Render(out, EndsNl(text)), PendingLines(Parse(ls)));
  }
}
