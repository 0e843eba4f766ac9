/** The reply theorem on trees, and why its condition cannot be weakened: when something after the
    insertion point still belongs to the target, the reply takes it over. */
module ReplyExact {
  import opened Wrappers
  import opened Text
  import opened Syntax
  import opened Forest
  import opened Scan
  import opened Frame
  import opened Splice
  import opened Blocks
  import opened ReplyProof

  lemma ShiftThread(at: nat, d: nat, t: Flat, lo: nat, hi: nat)
    requires Tidy(t, lo, hi)
    ensures var u := ShiftFlat(at, d, t);
      IsThread(u.items) && LinesIncrease(u.items) && Tree(u.items) == MapTree(Tree(t.items), ShiftItem(at, d))
  {
    TreeMap(t.items, ShiftItem(at, d));
  }

  lemma ShiftSubtreeEnd(at: nat, d: nat, items: seq<Item>, j: nat)
    requires j < |items|
    ensures SubtreeEnd(MapItems(items, ShiftItem(at, d)), j) == SubtreeEnd(items, j)
  {
    SubtreeEndSpan(items, j);
    SubtreeEndIs(MapItems(items, ShiftItem(at, d)), j, SubtreeEnd(items, j));
  }

  /** What the edit of `WithReply` means on trees. */
  ghost predicate OneMoreChild(ts: seq<Flat>, us: seq<Flat>, k: nat, target: Item, at: nat, d: nat, x: Item) {
    && |us| == |ts| && k < |ts| && ts[k].items != [] && us[k].items != []
    && (forall i :: 0 <= i < |ts| && i != k ==> us[i] == ShiftFlat(at, d, ts[i]))
    && us[k].status == ts[k].status && us[k].anchorText == ts[k].anchorText
    && Tree(us[k].items)
       == AddChild(MapTree(Tree(ts[k].items), ShiftItem(at, d)), target.line, Comment(x, []))
  }

  lemma WithReplyOnTrees(ts: seq<Flat>, k: nat, j: nat, at: nat, d: nat, x: Item, lo: nat, hi: nat)
    requires k < |ts| && j < |ts[k].items| && Tidy(ts[k], lo, hi)
    requires x.depth == ts[k].items[j].depth + 1 && ts[k].items[j].line <= at
    ensures OneMoreChild(ts, WithReply(ts, k, j, at, d, x), k, ts[k].items[j], at, d, x)
  {
    hide MapTree, AddChild, Tree, Build, SubtreeEnd;
    var u := ShiftFlat(at, d, ts[k]);
    ShiftThread(at, d, ts[k], lo, hi);
    ShiftSubtreeEnd(at, d, ts[k].items, j);
    assert u.items[j].line == ts[k].items[j].line && u.items[j].depth == ts[k].items[j].depth;
    ReplyInTree(u.items, j, x);
  }

  /** On trees: every other thread is the same up to line numbers; in the target's thread exactly the
      target changes, by one new last child one level deeper. */
  lemma ReplyOnTrees(ls: seq<string>, k: nat, j: nat, speaker: string, message: string)
    requires k < |Parse(ls)| && j < |Parse(ls)[k].items|
    requires SpeakerOk(speaker) && MessageOk(message)
    requires var target := Parse(ls)[k].items[j];
      1 <= target.line <= |ls| ==> SubtreeEnds(ls, target, ReplyItem(ls, target, speaker, message).body)
    ensures var target := Parse(ls)[k].items[j];
      && 1 <= target.line <= |ls|
      && OneMoreChild(Parse(ls), Parse(ReplyLines(ls, target, speaker, message)), k, target,
           SubtreeEndIndex(ls, target), ReplySize(ls, target, message), ReplyItem(ls, target, speaker, message))
  {
    hide Parse, SubtreeEndIndex, ReplyLines, ReplySize, Written, SpeakerOk, MessageOk, OneMoreChild, WithReply, Tidy,
      Under, Good, At, SubtreeEnds, Floor;
    ReplyRefines(ls, k, j, speaker, message);
    AtInsertion(ls, k, j);
    var ts, target := Parse(ls), Parse(ls)[k].items[j];
    var at, d := SubtreeEndIndex(ls, target), ReplySize(ls, target, message);
    ParseTidy(ls);
    WrittenIs(target.depth + 1, at + 1, speaker, message);
    WithReplyOnTrees(ts, k, j, at, d, ReplyItem(ls, target, speaker, message), Floor(ts, k), |ls|);
  }

  // ----- necessity -----

  /** The line that `NextEvent` speaks of, and the state in which it is read. */
  lemma {:induction false} EventLine(ls: seq<string>, i: nat, hollow: bool) returns (m: nat)
    requires i <= |ls| && NextEvent(ls, i, At(ls, i).inFence, hollow) != Blank
    requires hollow ==> Hollow(At(ls, i))
    ensures i <= m < |ls| && Classify(ls[m]) == NextEvent(ls, i, At(ls, i).inFence, hollow)
    ensures At(ls, m) == At(ls, i).(inFence := false)
    decreases |ls| - i
  {
    hide Classify, Feed;
    var f := At(ls, i).inFence;
    if Classify(ls[i]).Fence? || Classify(ls[i]).Blank? || f || (hollow && Classify(ls[i]) == Untagged("")) {
      BlankKeeps(At(ls, i), i + 1, ls[i]);
      HollowKeeps(At(ls, i), i + 1, ls[i]);
      m := EventLine(ls, i + 1, hollow);
    } else {
      m := i;
    }
  }

  lemma HollowKeeps(s: State, n: nat, raw: string)
    ensures Hollow(s) && Classify(raw) == Untagged("") && !s.inFence ==> Step(s, n, raw) == s
  {
    hide Classify, ExtendLast;
    if Hollow(s) && s.cur.Some? { HollowQuote(s.cur.value); }
  }

  lemma {:induction false} NextEventSuffix(ls: seq<string>, out: seq<string>, i: nat, d: nat, f: bool, hollow: bool)
    requires i <= |ls| && |out| == |ls| + d && out[i + d..] == ls[i..]
    ensures NextEvent(out, i + d, f, hollow) == NextEvent(ls, i, f, hollow)
    decreases |ls| - i
  {
    hide Classify;
    if i < |ls| {
      assert out[i + d] == out[i + d..][0] && ls[i] == ls[i..][0];
      assert out[i + 1 + d..] == out[i + d..][1..] && ls[i + 1..] == ls[i..][1..];
      NextEventSuffix(ls, out, i + 1, d, if Classify(ls[i]).Fence? then !f else f, hollow);
    }
  }

  /** What a quote holds starts with no white space, so nothing but the empty text is lost by stripping. */
  lemma QuoteText(raw: string)
    requires Classify(raw).Untagged? && Classify(raw).content != ""
    ensures RStrip(Classify(raw).content) != ""
  {
    hide ParseTag, QuoteDepth;
  }

  /** A quote read in an open thread either lengthens the last body or adds a comment after it. */
  lemma QuoteGrows(s: State, n: nat, raw: string)
    requires !s.inFence && s.cur.Some? && s.cur.value.items != []
    requires Classify(raw).Untagged? || (Classify(raw).Tagged? && Classify(raw).depth > 1)
    ensures var t, u := s.cur.value, Step(s, n, raw).cur;
      && Step(s, n, raw).done == s.done && u.Some? && |t.items| <= |u.value.items|
      && var e := |t.items|;
        && (Classify(raw).Untagged? && (t.items[e - 1].body != "" || Classify(raw) != Untagged("")) ==>
              |u.value.items[e - 1].body| > |t.items[e - 1].body|)
        && (Classify(raw).Tagged? ==> |u.value.items| == e + 1 && u.value.items[e].depth == Classify(raw).depth)
  {
    hide Classify, RStrip, Mentions;
    if Classify(raw).Untagged? && Classify(raw) != Untagged("") { QuoteText(raw); }
  }

  /** What is in the open thread at line `i` is in the parse, perhaps with a longer body. */
  lemma CurInParse(ls: seq<string>, i: nat)
    requires i <= |ls| && At(ls, i).cur.Some?
    ensures |At(ls, i).done| < |Parse(ls)| && LaterFlat(At(ls, i).cur.value, Parse(ls)[|At(ls, i).done|])
  {
    hide At, LaterFlat;
    AtLater(ls, i, |ls|);
    WholeCur(At(ls, i));
  }

  lemma CurKept(items: seq<Item>, x: Item, a: Flat, b: Flat)
    requires a.items == items + [x] && LaterFlat(a, b)
    ensures |items| < |b.items| && Later(x, b.items[|items|])
    ensures forall j :: 0 <= j < |items| ==> b.items[j] == items[j]
  {
    assert a.items[|items|] == x;
    forall j | 0 <= j < |items| ensures b.items[j] == items[j] {
      assert a.items[j] == items[j];
    }
  }

  /** In the new parse the written comment stands where the block put it, and a continuation line
      that follows becomes part of it. */
  lemma NewComment(out: seq<string>, i: nat, k: nat, items: seq<Item>, x: Item, hollow: bool)
    requires hollow ==> x.body == ""
    requires i <= |out| && !At(out, i).inFence && |At(out, i).done| == k
    requires At(out, i).cur.Some? && At(out, i).cur.value.items == items + [x]
    ensures k < |Parse(out)| && |items| < |Parse(out)[k].items| && Parse(out)[k].items[|items|].line == x.line
    ensures forall j :: 0 <= j < |items| ==> Parse(out)[k].items[j] == items[j]
    ensures var next := NextEvent(out, i, false, hollow);
      next.Untagged? && (x.body != "" || next != Untagged("")) ==> |Parse(out)[k].items[|items|].body| > |x.body|
  {
    hide At, Parse, NextEvent, Classify, Step;
    CurInParse(out, i);
    CurKept(items, x, At(out, i).cur.value, Parse(out)[k]);
    if NextEvent(out, i, false, hollow).Untagged? {
      var m := EventLine(out, i, hollow);
      QuoteGrows(At(out, m), m + 1, out[m]);
      AtNext(out, m);
      CurInParse(out, m + 1);
    }
  }

  lemma AtNext(ls: seq<string>, m: nat)
    requires m < |ls|
    ensures At(ls, m + 1) == Step(At(ls, m), m + 1, ls[m])
  {
    hide Step;
  }

  /** In the old parse a deeper tag that follows makes the target's subtree longer. */
  lemma DeeperFollows(ls: seq<string>, i: nat, k: nat, j: nat, line: nat, depth: nat, hollow: bool)
    requires i <= |ls| && (hollow ==> Hollow(At(ls, i)))
    requires i <= |ls| && |At(ls, i).done| == k && Under(At(ls, i), At(ls, i).done, j, line, depth)
    requires depth >= 1
    requires NextEvent(ls, i, false, hollow).Tagged? && NextEvent(ls, i, false, hollow).depth > depth
    ensures k < |Parse(ls)| && j < |Parse(ls)[k].items|
      && SubtreeEnd(Parse(ls)[k].items, j) > |At(ls, i).cur.value.items|
  {
    hide At, Parse, NextEvent, Classify, Step, SubtreeEnd;
    var m := EventLine(ls, i, hollow);
    var e := |At(ls, i).cur.value.items|;
    QuoteGrows(At(ls, m), m + 1, ls[m]);
    AtNext(ls, m);
    CurInParse(ls, m + 1);
    CurInParse(ls, i);
    var before, items := At(ls, i).cur.value.items, Parse(ls)[k].items;
    assert forall p :: 0 <= p < e ==> Later(before[p], items[p]);
    assert items[e].depth > depth;
    SubtreeEndSpan(items, j);
  }

  /** In the old parse a quote that follows lengthens a body that is there. */
  lemma BodyFollows(ls: seq<string>, i: nat, k: nat)
    requires i <= |ls| && !At(ls, i).inFence && |At(ls, i).done| == k && !Hollow(At(ls, i))
    requires NextEvent(ls, i, false, false).Untagged?
    ensures var items := At(ls, i).cur.value.items;
      k < |Parse(ls)| && |items| <= |Parse(ls)[k].items|
      && |Parse(ls)[k].items[|items| - 1].body| > |items[|items| - 1].body|
  {
    hide At, Parse, NextEvent, Classify, Step;
    var m := EventLine(ls, i, false);
    QuoteGrows(At(ls, m), m + 1, ls[m]);
    AtNext(ls, m);
    CurInParse(ls, m + 1);
  }

  lemma InsertedAt(ts: seq<Flat>, k: nat, j: nat, at: nat, d: nat, x: Item)
    requires k < |ts| && j < |ts[k].items|
    ensures var E := SubtreeEnd(ts[k].items, j);
      |WithReply(ts, k, j, at, d, x)| == |ts| && E < |WithReply(ts, k, j, at, d, x)[k].items|
      && WithReply(ts, k, j, at, d, x)[k].items[E] == x
      && (E > 0 ==> WithReply(ts, k, j, at, d, x)[k].items[E - 1].body == ts[k].items[E - 1].body)
  {
    hide SubtreeEnd;
  }

  lemma SameLine(items: seq<Item>, a: nat, b: nat)
    requires LinesIncrease(items) && a < |items| && b < |items| && items[a].line == items[b].line
    ensures a == b
  {
  }

  /** The condition is necessary: if the reply refines the tree insertion, then nothing after the insertion
      point still belongs to the target. */
  lemma ReplyNeeds(ls: seq<string>, k: nat, j: nat, speaker: string, message: string)
    requires k < |Parse(ls)| && j < |Parse(ls)[k].items|
    requires SpeakerOk(speaker) && MessageOk(message)
    requires Refines(ls, k, j, speaker, message)
    ensures var it := Parse(ls)[k].items[j];
      SubtreeEnds(ls, it, ReplyItem(ls, it, speaker, message).body)
  {
    hide At, Good, Parts, Written, SpeakerOk, MessageOk, ReplyLines, SubtreeEndIndex, Classify, Parse, NextEvent, Step,
      WithReply, SubtreeEnd, Gap, Hollow;
    AtInsertion(ls, k, j);
    var it := Parse(ls)[k].items[j];
    var at, out := SubtreeEndIndex(ls, it), ReplyLines(ls, it, speaker, message);
    var s, d, x := At(ls, at), ReplySize(ls, it, message), ReplyItem(ls, it, speaker, message);
    var items, E := s.cur.value.items, SubtreeEnd(Parse(ls)[k].items, j);
    var hollow := x.body == "" && Hollow(s);
    AfterBlock(ls, out, it, speaker, message, d);
    NextEventSuffix(ls, out, at, d, false, hollow);
    NewComment(out, at + d, k, items, x, hollow);
    InsertedAt(Parse(ls), k, j, at, d, x);
    ParseTidy(out);
    SameLine(Parse(out)[k].items, |items|, E);
    var next := NextEvent(ls, at, false, hollow);
    if next.Tagged? && next.depth > it.depth {
      DeeperFollows(ls, at, k, j, it.line, it.depth, hollow);
    } else if next == Untagged("") && !hollow && x.body == "" {
      BodyFollows(ls, at, k);
    }
  }

  // ----- necessity of the other two conditions -----

  /** Every tagged line outside a fence is a comment of the parse. */
  lemma TaggedIsComment(ls: seq<string>, n: nat) returns (k: nat, j: nat)
    requires 1 <= n <= |ls| && !At(ls, n - 1).inFence && Classify(ls[n - 1]).Tagged?
    ensures k < |Parse(ls)| && j < |Parse(ls)[k].items| && Parse(ls)[k].items[j].line == n
  {
    hide Parse, Classify, Flush, RStrip, Mentions;
    var s := At(ls, n);
    assert s == Step(At(ls, n - 1), n, ls[n - 1]);
    k, j := |s.done|, |s.cur.value.items| - 1;
    assert s.cur.value.items[j].line == n;
    CurInParse(ls, n);
    assert Later(s.cur.value.items[j], Parse(ls)[k].items[j]);
  }

  /** Written lines never open or close a fence. */
  lemma {:induction false} BlockUnfenced(out: seq<string>, at: nat, depth: nat, speaker: string, message: string,
                                         i: nat)
    requires BlockAt(out, at, depth, speaker, message) && depth >= 1 && i <= |Parts(message)| <= |out| - at
    ensures At(out, at + i).inFence == At(out, at).inFence
  {
    hide Parts, HeadLine, ParseTag, Feed, Classify, BlockAt, LStrip;
    if i > 0 {
      BlockUnfenced(out, at, depth, speaker, message, i - 1);
      BlockQuote(out, at, depth, speaker, message, i - 1);
      StepFence(At(out, at + i - 1), at + i, out[at + i - 1]);
    }
  }

  lemma StepFence(s: State, n: nat, raw: string)
    requires !Classify(raw).Fence?
    ensures Step(s, n, raw).inFence == s.inFence
  {
    hide Classify, ExtendLast, NewItem, Strip;
  }

  lemma BlockQuote(out: seq<string>, at: nat, depth: nat, speaker: string, message: string, i: nat)
    requires BlockAt(out, at, depth, speaker, message) && depth >= 1 && i < |Parts(message)| <= |out| - at
    ensures IsQuote(Classify(out[at + i]))
    ensures i == 0 ==> out[at] == HeadLine(depth, speaker, Open, Parts(message)[0])
    ensures i > 0 && ParseTag(LStrip(Parts(message)[i])).Some? ==> Classify(out[at + i]).Tagged?
  {
    hide Parts, ParseTag, Classify, QuoteLine, LStrip;
    var parts := Parts(message);
    assert out[at + i] == out[at..at + |parts|][i];
    if i == 0 {
      QuoteLineKind(depth, TagText(speaker, Open, parts[0]));
    } else {
      assert parts[1..][i - 1] == parts[i];
      QuoteLineKind(depth, parts[i]);
    }
  }

  /** No comment of the edited parse stands on a line of the block but the first. */
  lemma NoOtherLine(ts: seq<Flat>, k: nat, j: nat, at: nat, d: nat, x: Item, a: nat, b: nat)
    requires k < |ts| && j < |ts[k].items| && x.line == at + 1
    requires a < |WithReply(ts, k, j, at, d, x)| && b < |WithReply(ts, k, j, at, d, x)[a].items|
    ensures var n := WithReply(ts, k, j, at, d, x)[a].items[b].line; n <= at + 1 || n > at + d
  {
    hide SubtreeEnd;
  }

  lemma ReplyNeedsBlock(ls: seq<string>, k: nat, j: nat, speaker: string, message: string)
    requires k < |Parse(ls)| && j < |Parse(ls)[k].items|
    requires Refines(ls, k, j, speaker, message)
    ensures SpeakerOk(speaker) && MessageOk(message)
  {
    hide At, Good, Parts, Written, SpeakerOk, ReplyLines, SubtreeEndIndex, Classify, Parse, Step, WithReply,
      SubtreeEnd, Gap, Born, BlockAt, ParseTag, LStrip, HeadLine, QuoteLine;
    AtInsertion(ls, k, j);
    var it := Parse(ls)[k].items[j];
    var at, out := SubtreeEndIndex(ls, it), ReplyLines(ls, it, speaker, message);
    var d, x, depth := ReplySize(ls, it, message), ReplyItem(ls, it, speaker, message), it.depth + 1;
    ReplyPieces(ls, out, it, speaker, message, d);
    AtPrefix(out, ls, at);
    InsertedAt(Parse(ls), k, j, at, d, x);
    WrittenIs(depth, at + 1, speaker, message);
    SpeakerFromParse(out, k, SubtreeEnd(Parse(ls)[k].items, j), at, depth, speaker, message);
    forall i | 0 < i < |Parts(message)|
      ensures ParseTag(LStrip(Parts(message)[i])).None?
    {
      BlockUnfenced(out, at, depth, speaker, message, i);
      BlockQuote(out, at, depth, speaker, message, i);
      if ParseTag(LStrip(Parts(message)[i])).Some? {
        var a, b := TaggedIsComment(out, at + i + 1);
        NoOtherLine(Parse(ls), k, j, at, d, x, a, b);
      }
    }
  }

  lemma SpeakerFromParse(out: seq<string>, k: nat, e: nat, at: nat, depth: nat, speaker: string, message: string)
    requires BlockAt(out, at, depth, speaker, message) && depth >= 1 && |Parts(message)| <= |out| - at
    requires k < |Parse(out)| && e < |Parse(out)[k].items|
    requires Parse(out)[k].items[e].line == at + 1 && Parse(out)[k].items[e].speaker == speaker
    ensures SpeakerOk(speaker)
  {
    hide At, Parts, SpeakerOk, Classify, BlockAt, HeadLine, NewItem;
    AtBorn(out, |out|);
    assert Born(out, k, e, Parse(out)[k].items[e]);
    BlockQuote(out, at, depth, speaker, message, 0);
    SpeakerRoundTrip(depth, speaker, Parts(message)[0]);
  }

  /** The exact condition: the reply refines adding a last child if and only if the speaker is a proper name, no
      further line of the message is a tag, and nothing after the insertion point still belongs to the target. */
  lemma ReplyExactly(ls: seq<string>, k: nat, j: nat, speaker: string, message: string)
    requires k < |Parse(ls)| && j < |Parse(ls)[k].items| && 1 <= Parse(ls)[k].items[j].line <= |ls|
    ensures var it := Parse(ls)[k].items[j];
      Refines(ls, k, j, speaker, message) <==>
        SpeakerOk(speaker) && MessageOk(message)
        && SubtreeEnds(ls, it, ReplyItem(ls, it, speaker, message).body)
  {
    hide Refines, SpeakerOk, MessageOk, SubtreeEnds, Parse, ReplyItem;
    if Refines(ls, k, j, speaker, message) {
      ReplyNeedsBlock(ls, k, j, speaker, message);
      ReplyNeeds(ls, k, j, speaker, message);
    }
    var it := Parse(ls)[k].items[j];
    if SpeakerOk(speaker) && MessageOk(message) && SubtreeEnds(ls, it, ReplyItem(ls, it, speaker, message).body) {
      ReplyRefines(ls, k, j, speaker, message);
    }
  }
}
