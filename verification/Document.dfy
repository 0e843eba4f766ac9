/** The promises of the discussion engine on whole texts: what each write does to the threads a query
    returns, and what it does to tokens taken before the write. */
module Document {
  import opened Wrappers
  import opened Text
  import opened Syntax
  import opened Forest
  import opened Scan
  import opened Frame
  import opened Splice
  import opened Blocks
  import opened Distance
  import opened Locate
  import opened Relocation
  import Placing
  import opened ReplyProof
  import opened ReplyExact
  import opened StartProof
  import opened StatusProof
  import opened Writer

  /** The conditions under which a reply is read as one more last child. */
  predicate ReplyReads(ls: seq<string>, target: Item, speaker: string, message: string)
    requires 1 <= target.line <= |ls|
  {
    SpeakerOk(speaker) && OneLine(speaker) && MessageOk(message)
    && SubtreeEnds(ls, target, ReplyItem(ls, target, speaker, message).body)
  }

  /** The threads `us` are those of `ls` with the written comment as one more last child of comment `j` of thread
      `k`, exactly when the conditions hold; then this is so on trees, too. */
  ghost predicate Lands(ls: seq<string>, us: seq<Flat>, k: nat, j: nat, speaker: string, message: string) {
    && k < |Parse(ls)| && j < |Parse(ls)[k].items|
    && var target := Parse(ls)[k].items[j];
      && 1 <= target.line <= |ls|
      && var at, d := SubtreeEndIndex(ls, target), ReplySize(ls, target, message);
        var x := ReplyItem(ls, target, speaker, message);
        && (ReplyReads(ls, target, speaker, message) <==> us == WithReply(Parse(ls), k, j, at, d, x))
        && (ReplyReads(ls, target, speaker, message) ==> OneMoreChild(Parse(ls), us, k, target, at, d, x))
  }

  /** No comment of a text has a speaker that goes over a line's end. */
  lemma SpeakersOneLine(text: string, k: nat, j: nat)
    requires k < |Parse(SplitLines(text))| && j < |Parse(SplitLines(text))[k].items|
    ensures OneLine(Parse(SplitLines(text))[k].items[j].speaker)
  {
    hide At, SplitLines, Classify, NewItem, Later;
    var ls := SplitLines(text);
    RenderSplit(text);
    AtBorn(ls, |ls|);
    var it := Parse(ls)[k].items[j];
    assert Born(ls, k, j, it);
    ParsedOneLine(ls[it.line - 1]);
  }

  lemma BrokenSpeaker(text: string, ts: seq<Flat>, k: nat, j: nat, at: nat, d: nat, x: Item)
    requires k < |ts| && j < |ts[k].items| && !OneLine(x.speaker)
    ensures Parse(SplitLines(text)) != WithReply(ts, k, j, at, d, x)
  {
    hide Parse, SplitLines, OneLine, WithReply, SubtreeEnd;
    InsertedAt(ts, k, j, at, d, x);
    if Parse(SplitLines(text)) == WithReply(ts, k, j, at, d, x) {
      SpeakersOneLine(text, k, SubtreeEnd(ts[k].items, j));
    }
  }

  /** A speaker that goes over a line's end does not land. */
  lemma BrokenReply(text: string, ls: seq<string>, k: nat, j: nat, speaker: string, message: string)
    requires k < |Parse(ls)| && j < |Parse(ls)[k].items| && !OneLine(speaker)
    requires 1 <= Parse(ls)[k].items[j].line <= |ls|
    ensures Lands(ls, Parse(SplitLines(text)), k, j, speaker, message)
  {
    hide Parse, SplitLines, SubtreeEndIndex, ReplySize, SpeakerOk, MessageOk, SubtreeEnds, OneLine, WithReply, Written,
      OneMoreChild;
    var target := Parse(ls)[k].items[j];
    var at := SubtreeEndIndex(ls, target);
    WrittenIs(target.depth + 1, at + 1, speaker, message);
    BrokenSpeaker(text, Parse(ls), k, j, at, ReplySize(ls, target, message), ReplyItem(ls, target, speaker, message));
  }

  /** `reply` on texts. */
  lemma ReplyOnText(text: string, k: nat, j: nat, speaker: string, message: string)
    requires k < |Parse(SplitLines(text))| && j < |Parse(SplitLines(text))[k].items|
    ensures var ls, target := SplitLines(text), Parse(SplitLines(text))[k].items[j];
      1 <= target.line <= |ls|
      && var edited := Render(ReplyLines(ls, target, speaker, message), EndsNl(text));
        && (OneLine(speaker) ==> SplitLines(edited) == ReplyLines(ls, target, speaker, message))
        && Lands(ls, Parse(SplitLines(edited)), k, j, speaker, message)
  {
    hide Parse, SplitLines, Render, ReplyLines, SubtreeEndIndex, ReplySize, ReplyItem, OneMoreChild, SpeakerOk,
      MessageOk, SubtreeEnds, OneLine, WithReply;
    var ls := SplitLines(text);
    ParsedInText(ls, k);
    var target := Parse(ls)[k].items[j];
    if OneLine(speaker) {
      ReplyText(text, target, speaker, message);
      ReplyExactly(ls, k, j, speaker, message);
      if ReplyReads(ls, target, speaker, message) { ReplyOnTrees(ls, k, j, speaker, message); }
    } else {
      BrokenReply(Render(ReplyLines(ls, target, speaker, message), EndsNl(text)), ls, k, j, speaker, message);
    }
  }

  /** Comment `j` is the one a request names: the root when it names none, and otherwise the only one that its
      comment token means. */
  ghost predicate Named(items: seq<Item>, replyTo: Option<CommentToken>, j: nat) {
    match replyTo
    case None => j == 0
    case Some(tok) => MeansOnly(items, tok, j)
  }

  ghost predicate NamesOne(items: seq<Item>, replyTo: Option<CommentToken>) {
    exists j: nat :: Named(items, replyTo, j)
  }

  lemma TargetExactly(items: seq<Item>, replyTo: Option<CommentToken>)
    requires IsThread(items)
    ensures ReplyTarget(Tree(items), replyTo).OneComment? <==> NamesOne(items, replyTo)
    ensures forall j: nat :: Named(items, replyTo, j) ==>
      j < |items| && ReplyTarget(Tree(items), replyTo).OneComment?
      && ReplyTarget(Tree(items), replyTo).comment.item == items[j]
  {
    hide LocateComment, Means, Build;
    match replyTo {
      case None => assert Named(items, replyTo, 0);
      case Some(tok) =>
        CommentExactly(items, tok);
        if j: nat :| MeansOnly(items, tok, j) { assert Named(items, replyTo, j); }
    }
  }

  /** A successful reply went to the comment it was asked for, in the located thread. */
  lemma ReplyGoesTo(text: string, id: nat, tok: Token, speaker: string, message: string,
                    replyTo: Option<CommentToken>) returns (j: nat)
    requires ReplySpec(text, id, tok, speaker, message, replyTo).Ok?
    ensures var ls := SplitLines(text);
      && 1 <= id <= |Parse(ls)| && j < |Parse(ls)[id - 1].items| && 1 <= Parse(ls)[id - 1].items[j].line <= |ls|
      && Named(Parse(ls)[id - 1].items, replyTo, j)
      && ReplySpec(text, id, tok, speaker, message, replyTo)
         == Ok(Render(ReplyLines(ls, Parse(ls)[id - 1].items[j], speaker, message), EndsNl(text)))
  {
    hide LocateSpec, SplitLines, Parse, ReplyTarget, ReplyLines, Tree, Render, Named;
    LocatedThread(text, tok, id);
    ParseShapely(SplitLines(text));
    var items := Parse(SplitLines(text))[id - 1].items;
    TargetExactly(items, replyTo);
    j :| Named(items, replyTo, j);
  }

  /** Exactly when `reply` writes: when one thread only is at the best level of the token's matches, it has the
      requested number, and one comment of it only is named. */
  lemma ReplySucceeds(text: string, id: nat, tok: Token, speaker: string, message: string,
                      replyTo: Option<CommentToken>)
    ensures ReplySpec(text, id, tok, speaker, message, replyTo).Ok? <==>
      && id >= 1 && id <= |Parse(SplitLines(text))| && Singled(Threads(text), tok, Growth(text, tok), id - 1)
      && NamesOne(Parse(SplitLines(text))[id - 1].items, replyTo)
    ensures (exists s :: ReplySpec(text, id, tok, speaker, message, replyTo) == Err(CommentNotLocated(s))) <==>
      && id >= 1 && id <= |Parse(SplitLines(text))| && Singled(Threads(text), tok, Growth(text, tok), id - 1)
      && !NamesOne(Parse(SplitLines(text))[id - 1].items, replyTo)
  {
    hide LocateSpec, SplitLines, Parse, ReplyTarget, ReplyLines, Tree, Singled, NamesOne, Render, Threads;
    LocateExactly(text, tok, id);
    ParseShapely(SplitLines(text));
    if LocateSpec(text, tok, id) == Unique(id) {
      LocatedThread(text, tok, id);
      TargetExactly(Parse(SplitLines(text))[id - 1].items, replyTo);
    }
  }

  /** A reply that succeeds goes to the comment the request names, in the located thread, and lands there. */
  lemma ReplyDocument(text: string, id: nat, tok: Token, speaker: string, message: string,
                      replyTo: Option<CommentToken>, edited: string) returns (j: nat)
    requires ReplySpec(text, id, tok, speaker, message, replyTo) == Ok(edited)
    ensures var ls := SplitLines(text);
      && id >= 1 && Singled(Threads(text), tok, Growth(text, tok), id - 1)
      && id <= |Parse(ls)| && j < |Parse(ls)[id - 1].items| && Named(Parse(ls)[id - 1].items, replyTo, j)
      && Lands(ls, Parse(SplitLines(edited)), id - 1, j, speaker, message)
  {
    hide LocateSpec, SplitLines, Parse, Render, ReplyLines, ReplyTarget, Tree, Lands, ReplySpec, Singled, Named,
      NamesOne;
    ReplySucceeds(text, id, tok, speaker, message, replyTo);
    j := ReplyGoesTo(text, id, tok, speaker, message, replyTo);
    ReplyOnText(text, id - 1, j, speaker, message);
  }

  /** The conditions under which a started thread is read as one. */
  predicate StartReads(ls: seq<string>, idx: nat, speaker: string, message: string)
    requires idx <= |ls|
  {
    SpeakerOk(speaker) && OneLine(speaker) && MessageOk(message)
    && StartsAfresh(ls, idx, StartItem(ls, idx, speaker, message).body)
  }

  /** The threads `us` are those of `ls` with one new open thread at its place, exactly when the conditions hold. */
  ghost predicate Appears(ls: seq<string>, us: seq<Flat>, idx: nat, speaker: string, message: string)
    requires idx <= |ls|
  {
    var k := |Flush(At(ls, idx)).done|;
    && k <= |Parse(ls)|
    && (StartReads(ls, idx, speaker, message) <==>
          us == WithThread(Parse(ls), k, idx, StartSize(ls, idx, message),
                           NewThread(At(ls, idx), StartItem(ls, idx, speaker, message))))
  }

  lemma BrokenStart(text: string, ts: seq<Flat>, k: nat, idx: nat, d: nat, t: Flat)
    requires k <= |ts| && t.items != [] && !OneLine(t.items[0].speaker)
    ensures Parse(SplitLines(text)) != WithThread(ts, k, idx, d, t)
  {
    hide Parse, SplitLines, OneLine;
    if Parse(SplitLines(text)) == WithThread(ts, k, idx, d, t) {
      assert |ShiftAll(idx, d, ts[..k])| == k;
      SpeakersOneLine(text, k, 0);
    }
  }

  /** `start` on texts, for an anchor line of at least 1: the threads of the returned text are the old ones and one
      new open thread, exactly when the conditions hold. */
  lemma StartDocument(text: string, anchorLine: int, speaker: string, message: string, edited: string)
    returns (idx: nat)
    requires anchorLine >= 1 && StartSpec(text, anchorLine, speaker, message) == Ok(edited)
    ensures AnchorIndex(SplitLines(text), anchorLine - 1) == Some(idx) && idx <= |SplitLines(text)|
    ensures Appears(SplitLines(text), Parse(SplitLines(edited)), idx, speaker, message)
  {
    hide Parse, SplitLines, Render, StartLines, SpeakerOk, MessageOk, OneLine, At, WithThread, AnchorIndex,
      StartsAfresh, Written, Before, After, Parts;
    var ls := SplitLines(text);
    idx := AnchorIndex(ls, anchorLine - 1).value;
    FlushedInParse(ls, idx);
    if OneLine(speaker) {
      StartText(text, idx, speaker, message);
      StartExactly(ls, idx, speaker, message);
    } else {
      WrittenIs(1, idx + |Before(ls, idx)| + 1, speaker, message);
      BrokenStart(edited, Parse(ls), |Flush(At(ls, idx)).done|, idx, StartSize(ls, idx, message),
                  NewThread(At(ls, idx), StartItem(ls, idx, speaker, message)));
    }
  }

  /** The threads finished or open at a line are threads of the parse. */
  lemma FlushedInParse(ls: seq<string>, idx: nat)
    requires idx <= |ls|
    ensures |Flush(At(ls, idx)).done| <= |Parse(ls)|
  {
    hide At, Parse, LaterFlat;
    DoneStays(ls, idx);
    if At(ls, idx).cur.Some? { CurInParse(ls, idx); }
  }

  // ----- tokens across writes -----

  /** A thread that is not yet open or finished after `i` lines has its root further down. */
  lemma OpensLater(ls: seq<string>, m: nat, i: nat)
    requires m < |Parse(ls)| && i <= |ls| && |Whole(At(ls, i))| <= m
    ensures Parse(ls)[m].items != [] && Parse(ls)[m].items[0].line > i
  {
    hide Classify, At, Parse, NewItem, LaterFlat, RStrip;
    ParseShapely(ls);
    FirstBorn(ls, m);
    var it := Parse(ls)[m].items[0];
    if it.line <= i {
      AtLater(ls, it.line, i);
      WholeCur(At(ls, it.line));
    }
  }

  lemma ShiftedRoot(at: nat, d: nat, t: Flat)
    requires t.items != [] && t.items[0].line > at
    ensures var u := ShiftFlat(at, d, t);
      && u.items != [] && u.items[0].line == t.items[0].line + d && u.items[0].text == t.items[0].text
      && u.anchorText == t.anchorText
  {
  }

  /** Same root text and anchor text, and the root line moved by as much as the text grew. */
  lemma MovedExactly(text: string, edited: string, m: nat, m2: nat, d: nat)
    requires m < |Threads(text)| && m2 < |Threads(edited)|
    requires |SplitLines(edited)| == |SplitLines(text)| + d
    requires var t, u := Parse(SplitLines(text))[m], Parse(SplitLines(edited))[m2];
      && t.items != [] && u.items != [] && u.items[0].line == t.items[0].line + d
      && u.items[0].text == t.items[0].text && u.anchorText == t.anchorText
    ensures forall id: nat ::
      LocateSpec(edited, TokenFor(Threads(text)[m]), id) == if id == m2 + 1 then Unique(id) else Stale
  {
    hide Threads, SplitLines, Parse, LocateSpec, Tree, Dedup, AllMentions, Normalize;
    ThreadAt(text, m);
    ThreadAt(edited, m2);
    forall id: nat
      ensures LocateSpec(edited, TokenFor(Threads(text)[m]), id) == if id == m2 + 1 then Unique(id) else Stale
    {
      ExactDecides(edited, TokenFor(Threads(text)[m]), id, m2);
    }
  }

  /** After a reply, the old token of every later thread still finds that thread under its id. */
  lemma TokenSurvivesReply(text: string, k: nat, j: nat, speaker: string, message: string, m: nat)
    requires k < |Parse(SplitLines(text))| && j < |Parse(SplitLines(text))[k].items|
    requires k < m < |Threads(text)|
    requires var ls, target := SplitLines(text), Parse(SplitLines(text))[k].items[j];
      1 <= target.line <= |ls| ==> ReplyReads(ls, target, speaker, message)
    ensures var target := Parse(SplitLines(text))[k].items[j];
      && 1 <= target.line <= |SplitLines(text)|
      && var edited := Render(ReplyLines(SplitLines(text), target, speaker, message), EndsNl(text));
        LocateSpec(edited, TokenFor(Threads(text)[m]), m + 1) == Unique(m + 1)
  {
    hide Parse, SplitLines, Render, ReplyLines, SubtreeEndIndex, ReplyItem, SpeakerOk, MessageOk, Threads, Tree,
      AddChild, SubtreeEnds, OneLine, LocateSpec, At, ShiftFlat, Under, Good, Gap, Parts, Refines;
    ReplyOnText(text, k, j, speaker, message);
    var ls := SplitLines(text);
    var target := Parse(ls)[k].items[j];
    var out := ReplyLines(ls, target, speaker, message);
    var edited, at, d := Render(out, EndsNl(text)), SubtreeEndIndex(ls, target), ReplySize(ls, target, message);
    ThreadCount(text);
    ThreadCount(edited);
    AtInsertion(ls, k, j);
    UnderDone(At(ls, at), At(ls, at).done, j, target.line, target.depth);
    WholeCur(At(ls, at));
    OpensLater(ls, m, at);
    ShiftedRoot(at, d, Parse(ls)[m]);
    ReplyPieces(ls, out, target, speaker, message, d);
    MovedExactly(text, edited, m, m, d);
  }

  /** No thread but number `m` is near where the token points. */
  predicate NearAlone(ts: seq<Thread>, tok: Token, delta: int, m: nat) {
    forall u :: 0 <= u < |ts| && u != m ==> !Near(tok, delta, ts[u])
  }

  lemma OnlyNear(ts: seq<Thread>, tok: Token, delta: int, m: nat)
    requires m < |ts| && Near(tok, delta, ts[m]) && !Exact(tok, delta, ts[m]) && NearAlone(ts, tok, delta, m)
    ensures L0(ts, tok, delta) == [] && L1(ts, tok, delta) == [ts[m]]
  {
    hide Lev, Pick;
    LevZero(tok.rootText, tok.rootText);
    LevZero(tok.anchorText, tok.anchorText);
    assert forall t :: Exact(tok, delta, t) ==> Near(tok, delta, t);
    PickNone(ts, (t: Thread) => Exact(tok, delta, t));
    PickOne(ts, (t: Thread) => Near(tok, delta, t), m);
  }

  lemma AnotherNear(ts: seq<Thread>, tok: Token, delta: int, m: nat, u: nat)
    requires m < |ts| && u < |ts| && u != m && forall i :: 0 <= i < |ts| ==> ts[i].id == i + 1
    requires Near(tok, delta, ts[m]) && !Exact(tok, delta, ts[m]) && Near(tok, delta, ts[u])
    ensures Verdict(L0(ts, tok, delta), m + 1) != Unique(m + 1)
    ensures L1(ts, tok, delta) != [] && Verdict(L1(ts, tok, delta), m + 1) != Unique(m + 1)
  {
    hide Near, Exact, Pick;
    var far, near := L0(ts, tok, delta), L1(ts, tok, delta);
    assert ts[u] != ts[m] && ts[u] in near && ts[m] in near;
    assert far != [] ==> far[0] in far && far[0] in ts;
  }

  /** A thread whose root stayed on its line while the text grew: the token points below it, so only the second
      level can find it, and does if and only if nothing else is near. */
  lemma StayedBehind(text: string, edited: string, m: nat, d: nat)
    requires m < |Threads(text)| && m < |Threads(edited)| && d > 0
    requires |SplitLines(edited)| == |SplitLines(text)| + d
    requires m < |Parse(SplitLines(text))| && m < |Parse(SplitLines(edited))|
    requires var t, u := Parse(SplitLines(text))[m], Parse(SplitLines(edited))[m];
      && t.items != [] && u.items != [] && u.items[0].line == t.items[0].line
      && u.items[0].text == t.items[0].text && u.anchorText == t.anchorText
    ensures var tok := TokenFor(Threads(text)[m]);
      LocateSpec(edited, tok, m + 1) == Unique(m + 1) <==> NearAlone(Threads(edited), tok, d, m)
  {
    hide Threads, SplitLines, Parse, Tree, Dedup, AllMentions, Normalize, Lev, L2, Pick;
    ThreadAt(text, m);
    ThreadAt(edited, m);
    var ts, tok := Threads(edited), TokenFor(Threads(text)[m]);
    LevZero(tok.rootText, tok.rootText);
    LevZero(tok.anchorText, tok.anchorText);
    assert Near(tok, d, ts[m]) && !Exact(tok, d, ts[m]);
    forall u | 0 <= u < |ts| ensures ts[u].id == u + 1 {
      ThreadAt(edited, u);
    }
    if NearAlone(ts, tok, d, m) {
      OnlyNear(ts, tok, d, m);
    } else {
      var u :| 0 <= u < |ts| && u != m && Near(tok, d, ts[u]);
      AnotherNear(ts, tok, d, m, u);
    }
  }

  lemma InsertedRoot(ts: seq<Flat>, k: nat, j: nat, at: nat, d: nat, x: Item, m: nat)
    requires m <= k < |ts| && j < |ts[k].items| && ts[m].items != [] && ts[m].items[0].line <= at
    requires m < |ts|
    ensures var us := WithReply(ts, k, j, at, d, x);
      && |us| == |ts| && us[m].items != [] && us[m].items[0] == ts[m].items[0] && us[m].anchorText == ts[m].anchorText
  {
    SubtreeEndSpan(ts[k].items, j);
  }

  /** After a reply, the old token of its own thread or of an earlier one finds that thread under its id if and
      only if no other thread is near the line to which the token now points. */
  lemma TokenAfterReply(text: string, k: nat, j: nat, speaker: string, message: string, m: nat)
    requires k < |Parse(SplitLines(text))| && j < |Parse(SplitLines(text))[k].items|
    requires m <= k
    requires var ls, target := SplitLines(text), Parse(SplitLines(text))[k].items[j];
      1 <= target.line <= |ls| ==> ReplyReads(ls, target, speaker, message)
    ensures var ls, target := SplitLines(text), Parse(SplitLines(text))[k].items[j];
      && 1 <= target.line <= |ls| && m < |Threads(text)|
      && var edited := Render(ReplyLines(ls, target, speaker, message), EndsNl(text));
        var d := ReplySize(ls, target, message);
        var tok := TokenFor(Threads(text)[m]);
        LocateSpec(edited, tok, m + 1) == Unique(m + 1) <==> NearAlone(Threads(edited), tok, d, m)
  {
    hide Parse, SplitLines, Render, ReplyLines, SubtreeEndIndex, ReplyItem, ReplySize, SpeakerOk, MessageOk, Threads,
      SubtreeEnds, OneLine, LocateSpec, At, WithReply, Under, Good, NearAlone, Near;
    ReplyOnText(text, k, j, speaker, message);
    var ls := SplitLines(text);
    var target := Parse(ls)[k].items[j];
    var out, at := ReplyLines(ls, target, speaker, message), SubtreeEndIndex(ls, target);
    var d := ReplySize(ls, target, message);
    var edited := Render(out, EndsNl(text));
    ThreadCount(text);
    ThreadCount(edited);
    RootAbove(ls, k, j, m);
    InsertedRoot(Parse(ls), k, j, at, d, ReplyItem(ls, target, speaker, message), m);
    ReplyGrows(ls, target, speaker, message);
    StayedBehind(text, edited, m, d);
  }

  lemma RootAbove(ls: seq<string>, k: nat, j: nat, m: nat)
    requires m <= k < |Parse(ls)| && j < |Parse(ls)[k].items|
    ensures Parse(ls)[m].items != [] && Parse(ls)[m].items[0].line <= Parse(ls)[k].items[j].line
  {
    hide Parse, Tidy, LinesIncrease, LastLine, Floor;
    ParseTidy(ls);
    FirstLine(Parse(ls)[k], Floor(Parse(ls), k), |ls|, j);
    FirstLine(Parse(ls)[k], Floor(Parse(ls), k), |ls|, 0);
    RootsOrdered(ls);
  }

  lemma FirstLine(t: Flat, lo: nat, hi: nat, j: nat)
    requires Tidy(t, lo, hi) && j < |t.items|
    ensures t.items[0].line <= t.items[j].line
  {
    hide LastLine;
  }

  lemma ReplyGrows(ls: seq<string>, target: Item, speaker: string, message: string)
    requires 1 <= target.line <= |ls|
    ensures target.line <= SubtreeEndIndex(ls, target)
    ensures |ReplyLines(ls, target, speaker, message)| == |ls| + ReplySize(ls, target, message)
    ensures ReplySize(ls, target, message) > 0
  {
    hide SubtreeEndIndex, Parts, Classify;
  }

  /** After a new thread was started above it, the old token of a thread is refused under its old id,
      never taken for another thread. */
  lemma TokenStaleAfterStart(text: string, idx: nat, speaker: string, message: string, m: nat)
    requires idx <= |SplitLines(text)| && SpeakerOk(speaker) && OneLine(speaker) && MessageOk(message)
    requires StartsAfresh(SplitLines(text), idx, StartItem(SplitLines(text), idx, speaker, message).body)
    requires |Flush(At(SplitLines(text), idx)).done| <= m < |Threads(text)|
    ensures var edited := Render(StartLines(SplitLines(text), idx, speaker, message), EndsNl(text));
      && LocateSpec(edited, TokenFor(Threads(text)[m]), m + 1) == Stale
      && LocateSpec(edited, TokenFor(Threads(text)[m]), m + 2) == Unique(m + 2)
  {
    hide Parse, SplitLines, Render, SpeakerOk, MessageOk, Threads, OneLine, LocateSpec, At, ShiftFlat, Parts, StartItem,
      Before, After, Block, StartsAfresh;
    var ls := SplitLines(text);
    var out, d := StartLines(ls, idx, speaker, message), StartSize(ls, idx, message);
    var edited := Render(out, EndsNl(text));
    StartText(text, idx, speaker, message);
    StartRefines(ls, idx, speaker, message);
    StartPieces(ls, idx, speaker, message);
    ThreadCount(text);
    ThreadCount(edited);
    OpensLater(ls, m, idx);
    ShiftedRoot(idx, d, Parse(ls)[m]);
    var k := |Flush(At(ls, idx)).done|;
    assert Parse(out)[m + 1] == ShiftAll(idx, d, Parse(ls)[k..])[m - k] == ShiftFlat(idx, d, Parse(ls)[m]);
    MovedExactly(text, edited, m, m + 1, d);
  }

  // ----- status changes on texts -----

  lemma StatusText(text: string, k: nat, st: Status)
    requires k < |Parse(SplitLines(text))| && st != Open
    ensures Parse(SplitLines(text))[k].items != []
    ensures var out := StatusLines(SplitLines(text), Parse(SplitLines(text))[k], st);
      SplitLines(Render(out, EndsNl(text))) == out && Renderable(out, EndsNl(text))
  {
    hide Parse, SplitLines, Render, RootLine, OneLine, At, Classify, Opens;
    RenderSplit(text);
    var ls := SplitLines(text);
    RootBorn(ls, k);
    RootLineReads(ls, k, st);
    var t := Parse(ls)[k];
    RootLineNotEmpty(t, ls[t.items[0].line - 1], st);
    RewriteText(text, StatusLines(ls, t, st));
  }

  lemma RootLineNotEmpty(t: Flat, raw: string, st: Status)
    requires t.items != [] && Classify(raw).Tagged?
    ensures RootLine(t, raw, st) != ""
  {
    hide Classify, TagText;
  }

  /** `set_status` on texts, and the tokens of the other threads. */
  lemma StatusDocument(text: string, k: nat, st: Status, m: nat)
    requires k < |Parse(SplitLines(text))| && st != Open && m < |Threads(text)| && m != k
    requires Parse(SplitLines(text))[k].items != [] ==> Lean(Parse(SplitLines(text))[k].items[0].speaker)
    ensures Parse(SplitLines(text))[k].items != [] && StatusExact(SplitLines(text), k, st)
    ensures var edited := Render(StatusLines(SplitLines(text), Parse(SplitLines(text))[k], st), EndsNl(text));
      LocateSpec(edited, TokenFor(Threads(text)[m]), m + 1) == Unique(m + 1)
  {
    hide Parse, SplitLines, Render, RootLine, OneLine, At, Classify, Threads, Lean, LocateSpec, RStrip;
    RenderSplit(text);
    var ls := SplitLines(text);
    StatusExactly(ls, k, st);
    StatusText(text, k, st);
    var edited := Render(StatusLines(ls, Parse(ls)[k], st), EndsNl(text));
    ThreadCount(text);
    ThreadCount(edited);
    ThreadAt(text, m);
    assert Parse(SplitLines(edited))[m] == Parse(ls)[m];
    MovedExactly(text, edited, m, m, 0);
  }

  /** What a successful `set_status` returns: the same number of lines, all as they were but for the root line of the
      requested thread, and a final newline if there was one. */
  lemma StatusWrites(text: string, id: nat, tok: Token, st: Status, operator: string, human: string)
    requires SetStatusSpec(text, id, tok, st, operator, human).Ok?
    ensures 1 <= id <= |Parse(SplitLines(text))| && Parse(SplitLines(text))[id - 1].items != []
    ensures var ls, out := SplitLines(text), SetStatusSpec(text, id, tok, st, operator, human).value;
      var root := Parse(ls)[id - 1].items[0].line;
      && EndsNl(out) == EndsNl(text) && SplitLines(out) == StatusLines(ls, Parse(ls)[id - 1], st)
      && 1 <= root <= |ls| == |SplitLines(out)|
      && forall i :: 0 <= i < |ls| && i != root - 1 ==> SplitLines(out)[i] == ls[i]
  {
    hide LocateSpec, SplitLines, Parse, Render, SetStatusSpec, StatusLines, EndsNl, Renderable;
    StatusReturns(text, id, tok, st, operator, human);
    var ls := SplitLines(text);
    StatusText(text, id - 1, st);
    RenderEnds(StatusLines(ls, Parse(ls)[id - 1], st), EndsNl(text));
    RootInside(ls, id - 1);
    StatusElse(ls, Parse(ls)[id - 1], st);
  }

  lemma StatusReturns(text: string, id: nat, tok: Token, st: Status, operator: string, human: string)
    requires SetStatusSpec(text, id, tok, st, operator, human).Ok?
    ensures st != Open && 1 <= id <= |Parse(SplitLines(text))| && Parse(SplitLines(text))[id - 1].items != []
    ensures SetStatusSpec(text, id, tok, st, operator, human).value
      == Render(StatusLines(SplitLines(text), Parse(SplitLines(text))[id - 1], st), EndsNl(text))
  {
    hide LocateSpec, SplitLines, Parse, Render, MayResolve, SpeakerKey, StatusLines, EndsNl;
    LocatedThread(text, tok, id);
  }

  lemma RootInside(ls: seq<string>, k: nat)
    requires k < |Parse(ls)| && Parse(ls)[k].items != []
    ensures 1 <= Parse(ls)[k].items[0].line <= |ls|
  {
    hide Parse, Classify, At;
    RootBorn(ls, k);
  }

  lemma StatusElse(ls: seq<string>, t: Flat, st: Status)
    requires t.items != []
    ensures forall i :: 0 <= i < |ls| && i != t.items[0].line - 1 ==> StatusLines(ls, t, st)[i] == ls[i]
  {
    hide RootLine;
  }

  lemma {:induction false} ResolveText(text: string, ts: seq<Flat>)
    requires Shapely(ts) && forall k :: 0 <= k < |ts| ==> Rooted(SplitLines(text), ts[k])
    requires RootsApart(ts)
    ensures var ls, out := SplitLines(text), ResolveLines(SplitLines(text), ts);
      Lines(out) && forall i :: 0 <= i < |out| ==> out[i] == ls[i] || out[i] != ""
  {
    hide SplitLines, RootLine, OneLine, Classify, At, IsThread;
    RenderSplit(text);
    var ls := SplitLines(text);
    if ts != [] {
      var pre, t := ts[..|ts| - 1], ts[|ts| - 1];
      ResolveText(text, pre);
      Untouched(ls, pre, t.items[0].line - 1);
      RewrittenLine(t, ls[t.items[0].line - 1], Resolved);
      RootLineNotEmpty(t, ls[t.items[0].line - 1], Resolved);
    }
  }

  lemma ResolveRenderable(text: string)
    requires Shapely(Parse(SplitLines(text)))
    ensures var out := ResolveLines(SplitLines(text), Parse(SplitLines(text)));
      SplitLines(Render(out, EndsNl(text))) == out && Renderable(out, EndsNl(text))
  {
    hide Parse, SplitLines, Render, ResolveLines, OneLine, Rooted, Shapely, RootsApart;
    var ls := SplitLines(text);
    ParseApart(ls);
    forall k | 0 <= k < |Parse(ls)|
      ensures Rooted(ls, Parse(ls)[k])
    {
      RootBorn(ls, k);
    }
    ResolveText(text, Parse(ls));
    RewriteText(text, ResolveLines(ls, Parse(ls)));
  }

  /** Closing all threads of a document with stripped initiators leaves it ready, and closing it again
      returns the same text with count 0. */
  lemma ResolveDocument(text: string)
    requires Shapely(Parse(SplitLines(text))) ==> PendingLean(Parse(SplitLines(text)))
    ensures Shapely(Parse(SplitLines(text)))
    ensures var out := ResolveLines(SplitLines(text), Parse(SplitLines(text)));
      var edited := Render(out, EndsNl(text));
      && SplitLines(edited) == out && ResolveExact(SplitLines(text)) && AllResolved(Parse(SplitLines(edited)))
      && Shapely(Parse(SplitLines(edited)))
      && Render(ResolveLines(SplitLines(edited), Parse(SplitLines(edited))), EndsNl(edited)) == edited
      && Pending(Parse(SplitLines(edited))) == 0
  {
    hide Parse, SplitLines, Render, ResolveLines, OneLine, PendingLean, Rooted, ResolveExact, Shapely, RootsApart,
      AllResolved;
    RenderSplit(text);
    var ls := SplitLines(text);
    ParseShapely(ls);
    ResolveRenderable(text);
    ResolveExactly(ls);
    ResolveSettles(ls);
    RenderSplit(Render(ResolveLines(ls, Parse(ls)), EndsNl(text)));
  }

  // ----- who may resolve -----

  /** The root mentions one party only. */
  predicate MentionsOnly(root: Item, owner: string) {
    root.mentions != [] && forall i :: 0 <= i < |root.mentions| ==> root.mentions[i] == owner
  }

  /** The party is the Human, by the name "Human" or by display name. */
  predicate NamesHuman(owner: string, human: string) {
    !AllSpace(owner) && SpeakerKey(owner) in {SpeakerKey("Human"), SpeakerKey(human)}
  }

  /** The operator is who may resolve the thread: the one party its root mentions, the Human under either name; or,
      when it mentions nobody or several, the speaker who began it. */
  predicate MayClose(root: Item, operator: string, human: string) {
    if exists owner :: owner in root.mentions && MentionsOnly(root, owner)
    then
      if NamesHuman(root.mentions[0], human) then SpeakerKey(operator) in {SpeakerKey("Human"), SpeakerKey(human)}
      else SpeakerKey(operator) == SpeakerKey(root.mentions[0])
    else SpeakerKey(operator) == SpeakerKey(root.speaker)
  }

  lemma {:induction false} DedupOne(ms: seq<string>, m: string)
    requires ms != [] && forall i :: 0 <= i < |ms| ==> ms[i] == m
    ensures Dedup(ms) == [m]
  {
    if |ms| > 1 {
      DedupOne(ms[..|ms| - 1], m);
    } else {
      assert ms[..0] == [] && Dedup([]) == [];
    }
  }

  lemma OwnerExactly(root: Item)
    ensures forall owner :: AdjudicationOwner(root) == Some(owner) <==> MentionsOnly(root, owner)
  {
    var ms := Dedup(root.mentions);
    forall owner ensures AdjudicationOwner(root) == Some(owner) <==> MentionsOnly(root, owner) {
      if MentionsOnly(root, owner) { DedupOne(root.mentions, owner); }
      if AdjudicationOwner(root) == Some(owner) {
        assert ms[0] in root.mentions;
        forall i | 0 <= i < |root.mentions| ensures root.mentions[i] == owner {
          assert root.mentions[i] in ms;
        }
      }
    }
  }

  lemma ResolverExactly(root: Item, operator: string, human: string)
    ensures SpeakerKey(operator) in MayResolve(root, human) <==> MayClose(root, operator, human)
  {
    hide SpeakerKey, AdjudicationOwner, Strip, AllSpace;
    OwnerExactly(root);
    if root.mentions != [] { Placing.StripEmpty(root.mentions[0]); }
    if AdjudicationOwner(root).Some? {
      assert MentionsOnly(root, AdjudicationOwner(root).value);
      assert root.mentions[0] == AdjudicationOwner(root).value;
    }
  }

  /** Exactly when `set_status` writes: for `resolved` or `reopen`, on the one thread that is found and has the
      requested number, and by one who may resolve it when it is to be resolved. */
  lemma SetStatusSucceeds(text: string, id: nat, tok: Token, st: Status, operator: string, human: string)
    ensures SetStatusSpec(text, id, tok, st, operator, human).Ok? <==>
      && st != Open
      && id >= 1 && id <= |Parse(SplitLines(text))| && Singled(Threads(text), tok, Growth(text, tok), id - 1)
      && Parse(SplitLines(text))[id - 1].items != []
      && (st == Resolved ==> MayClose(Parse(SplitLines(text))[id - 1].items[0], operator, human))
    ensures SetStatusSpec(text, id, tok, st, operator, human) == Err(InvalidStatus) <==> st == Open
    ensures SetStatusSpec(text, id, tok, st, operator, human) == Err(NotAllowed) <==>
      && st == Resolved
      && id >= 1 && id <= |Parse(SplitLines(text))| && Singled(Threads(text), tok, Growth(text, tok), id - 1)
      && Parse(SplitLines(text))[id - 1].items != []
      && !MayClose(Parse(SplitLines(text))[id - 1].items[0], operator, human)
  {
    hide LocateSpec, SplitLines, Parse, Singled, Render, Threads, MayResolve, MayClose, SpeakerKey, StatusLines;
    LocateExactly(text, tok, id);
    ParseShapely(SplitLines(text));
    if LocateSpec(text, tok, id) == Unique(id) {
      LocatedThread(text, tok, id);
      ResolverExactly(Parse(SplitLines(text))[id - 1].items[0], operator, human);
    }
  }

  /** The threads that closing them all counts, and those that keep a document from being ready. */
  lemma {:induction false} PendingExactly(ts: seq<Flat>)
    ensures Pending(ts) == |set k | 0 <= k < |ts| && ts[k].status != Resolved|
  {
    if ts != [] {
      var front, n := ts[..|ts| - 1], |ts| - 1;
      PendingExactly(front);
      var a := set k | 0 <= k < |front| && front[k].status != Resolved;
      var b := set k | 0 <= k < |ts| && ts[k].status != Resolved;
      assert forall k :: 0 <= k < n ==> front[k] == ts[k];
      assert b == if ts[n].status != Resolved then a + {n} else a;
    }
  }

  lemma BlockersExactly(text: string, id: nat)
    ensures forall i, j :: 0 <= i < j < |Blockers(Threads(text))| ==>
      Blockers(Threads(text))[i] < Blockers(Threads(text))[j]
    ensures id in Blockers(Threads(text)) <==>
      1 <= id <= |Parse(SplitLines(text))| && Parse(SplitLines(text))[id - 1].status != Resolved
  {
    hide Threads, Parse, SplitLines, Blockers;
    var ts := Threads(text);
    ThreadCount(text);
    ThreadsListed(text);
    forall k | 0 <= k < |ts| ensures ts[k].status == Parse(SplitLines(text))[k].status && ts[k].id == k + 1 {
      ThreadAt(text, k);
    }
    BlockersOf(ts, id);
    BlockersRise(ts);
    if 1 <= id <= |ts| && ts[id - 1].status != Resolved { assert ts[id - 1] in ts; }
  }

  lemma {:induction false} BlockersRise(ts: seq<Thread>)
    requires forall k :: 0 <= k < |ts| ==> ts[k].id == k + 1
    ensures forall n :: n in Blockers(ts) ==> n <= |ts|
    ensures forall i, j :: 0 <= i < j < |Blockers(ts)| ==> Blockers(ts)[i] < Blockers(ts)[j]
  {
    if ts != [] {
      var before := Blockers(ts[..|ts| - 1]);
      BlockersRise(ts[..|ts| - 1]);
      assert forall i :: 0 <= i < |before| ==> before[i] in before;
    }
  }

  lemma {:induction false} BlockersOf(ts: seq<Thread>, id: nat)
    ensures id in Blockers(ts) <==> exists t :: t in ts && t.id == id && t.status != Resolved
  {
    if ts != [] {
      var last := ts[|ts| - 1];
      assert ts == ts[..|ts| - 1] + [last];
      BlockersOf(ts[..|ts| - 1], id);
    }
  }
}
