/** `start` and the delta checker: exactly when a started thread is a discussion delta. */
module StartDelta {
  import opened Text
  import opened Syntax
  import opened Forest
  import opened Scan
  import opened Frame
  import opened Splice
  import opened Blocks
  import opened ReplyProof
  import opened ReplyExact
  import opened StartProof
  import opened Locate
  import opened Writer
  import opened Delta
  import opened DeltaAgree
  import StatusDelta

  /** The block's head line is a tag. */
  predicate HeadTagged(speaker: string, message: string) {
    Classify(HeadLine(1, speaker, Open, Parts(message)[0])).Tagged?
  }

  /** Where the delta checker accepts the block: outside a fence; in a discussion, or with a head that starts one
      and no untagged quote next that it would take over; and not after a last line without a newline, unless that
      is a discussion line. */
  ghost predicate RoomForThread(ls: seq<string>, nl: bool, idx: nat, tagged: bool)
    requires idx <= |ls|
  {
    && !MarkAt(ls, idx).inFence
    && (MarkAt(ls, idx).inThread || (tagged && NoOrphan(ls, idx)))
    && (idx == |ls| && ls != [] && !nl ==> idx in Discussion(ls))
  }

  // ----- where there is room -----

  /** From a discussion, or with a tagged head, the block is all discussion. */
  lemma BlockMarked(ls: seq<string>, idx: nat, speaker: string, message: string)
    requires idx <= |ls| && !MarkAt(ls, idx).inFence && (MarkAt(ls, idx).inThread || HeadTagged(speaker, message))
    ensures var out, b := StartLines(ls, idx, speaker, message), idx + |Before(ls, idx)|;
      var e, f := b + |Parts(message)|, idx + StartSize(ls, idx, message);
      && e <= f <= |out|
      && MarkAt(out, f) == Mark(false, true)
      && (forall n: nat :: b < n <= e ==> n in Discussion(out))
      && (forall n: nat :: 1 <= n <= idx ==> (n in Discussion(out) <==> n in Discussion(ls)))
  {
    hide Classify, MarkAt, Discussion, Parts, SpliceLines, BlockAt, Strip, HeadLine;
    var out, d, b := StartLines(ls, idx, speaker, message), StartSize(ls, idx, message), idx + |Before(ls, idx)|;
    StartPieces(ls, idx, speaker, message);
    MarkPrefix(ls, out, idx);
    BlankMarks(out, idx, b);
    BlockQuote(out, b, 1, speaker, message, 0);
    BlockMarks(out, b, 1, speaker, message, |Parts(message)|);
    BlankMarks(out, b + |Parts(message)|, idx + d);
  }

  lemma StartsMatch(ls: seq<string>, idx: nat, m: Mark)
    requires idx <= |ls| && !m.inFence
    ensures MarksMatch(ls, idx, idx, m, Mark(false, true))
    ensures m.inThread ==> m == Mark(false, true)
  {
  }

  lemma StartGrown(ls: seq<string>, nl: bool, idx: nat, speaker: string, message: string)
    requires idx <= |ls| && RoomForThread(ls, nl, idx, HeadTagged(speaker, message))
    ensures var b := idx + |Before(ls, idx)|;
      Grown(ls, nl, StartLines(ls, idx, speaker, message), idx, b, b + |Parts(message)|,
            idx + StartSize(ls, idx, message))
  {
    hide Classify, MarkAt, Discussion, Parts, SpliceLines, BlockAt, NoOrphan, Strip, HeadTagged, MarksMatch;
    StartPieces(ls, idx, speaker, message);
    BlockMarked(ls, idx, speaker, message);
    StartsMatch(ls, idx, MarkAt(ls, idx));
    MarkSuffix(ls, StartLines(ls, idx, speaker, message), idx, StartSize(ls, idx, message), |ls|);
  }

  /** The new text has threads: the new root, or the one that the block continues. */
  lemma ThreadThere(ls: seq<string>, text: string, idx: nat, speaker: string, message: string)
    requires idx <= |ls| && !MarkAt(ls, idx).inFence && (MarkAt(ls, idx).inThread || HeadTagged(speaker, message))
    requires SplitLines(text) == StartLines(ls, idx, speaker, message)
    ensures Threads(text) != []
  {
    hide Classify, At, Parse, MarkAt, Parts, SpliceLines, BlockAt, Strip, HeadLine, SplitLines, Threads, Before;
    var out, b := SplitLines(text), idx + |Before(ls, idx)|;
    StartPieces(ls, idx, speaker, message);
    if HeadTagged(speaker, message) {
      MarkPrefix(ls, out, idx);
      BlankMarks(out, idx, b);
      BlockQuote(out, b, 1, speaker, message, 0);
      MarkFence(out, b);
      var k, j := TaggedIsComment(out, b + 1);
      ThreadCount(text);
    } else {
      var m := StatusDelta.MarkHasTag(ls, idx);
      MarkFence(ls, m - 1);
      CommentStays(ls, text, idx, m);
    }
  }

  lemma RoomIsDelta(text: string, idx: nat, speaker: string, message: string)
    requires idx <= |SplitLines(text)| && OneLine(speaker)
    requires RoomForThread(SplitLines(text), EndsNl(text), idx, HeadTagged(speaker, message))
    ensures IsDelta(text, Render(StartLines(SplitLines(text), idx, speaker, message), EndsNl(text)))
  {
    hide SplitLines, Parse, OneLine, Grown, IsDelta, Parts, StartSize, Threads, Render, EndsNl, BlockAt, Classify,
      MarkAt, Renderable, Before, SpliceLines, HeadTagged, NoOrphan;
    var ls := SplitLines(text);
    var out, b := StartLines(ls, idx, speaker, message), idx + |Before(ls, idx)|;
    var edited := Render(out, EndsNl(text));
    StartText(text, idx, speaker, message);
    StartGrown(ls, EndsNl(text), idx, speaker, message);
    RenderEnds(out, EndsNl(text));
    ThreadThere(ls, edited, idx, speaker, message);
    GrownIsDelta(text, edited, idx, b, b + |Parts(message)|, idx + StartSize(ls, idx, message));
  }

  // ----- where the block is no discussion -----

  /** In a fence, or outside discussions without any tag, no line of the block is discussion. */
  lemma {:induction false} BlockUnmarked(out: seq<string>, b: nat, speaker: string, message: string, i: nat)
    requires BlockAt(out, b, 1, speaker, message) && i <= |Parts(message)| <= |out| - b
    requires MarkAt(out, b).inFence
      || (!MarkAt(out, b).inThread && !HeadTagged(speaker, message) && MessageOk(message))
    ensures MarkAt(out, b + i) == MarkAt(out, b)
    ensures forall n: nat :: b < n <= b + i ==> n !in Discussion(out)
  {
    hide Classify, Parts, BlockAt, ParseTag, LStrip, HeadLine;
    if i > 0 {
      BlockUnmarked(out, b, speaker, message, i - 1);
      BlockQuote(out, b, 1, speaker, message, i - 1);
      if i > 1 { TailUntagged(out, b, speaker, message, i - 1); }
    }
  }

  lemma TailUntagged(out: seq<string>, b: nat, speaker: string, message: string, i: nat)
    requires BlockAt(out, b, 1, speaker, message) && 0 < i < |Parts(message)| <= |out| - b
    ensures MessageOk(message) ==> !Classify(out[b + i]).Tagged?
  {
    hide Classify, Parts, ParseTag, LStrip, HeadLine, QuoteLine;
    var parts := Parts(message);
    assert out[b + i] == out[b..b + |parts|][i];
    assert parts[1..][i - 1] == parts[i];
    TailRoundTrip(1, parts[i]);
  }

  lemma BlankLineFraming(out: seq<string>, nl: bool, n: nat)
    requires 1 <= n <= |out| && out[n - 1] == ""
    ensures IsFraming(Ended(out, nl)[n - 1])
  {
    EndedFraming(out, nl, n);
  }

  /** The head line as one more body line, the others staying what they are. */
  lemma StuffedCount(ls: seq<string>, out: seq<string>, nl: bool, nl2: bool, idx: nat, b: nat, d: nat)
    requires idx <= |ls| && idx <= b < idx + d && |out| == |ls| + d
    requires out[..idx] == ls[..idx] && out[idx + d..] == ls[idx..]
    requires IsQuote(Classify(out[b])) && b + 1 !in Discussion(out)
    requires forall n: nat :: 1 <= n <= idx ==> (n in Discussion(out) <==> n in Discussion(ls))
    requires forall n: nat :: idx < n <= |ls| ==> (n + d in Discussion(out) <==> n in Discussion(ls))
    ensures Count(Ended(out, nl2), Discussion(out), 0, |out|) > Count(Ended(ls, nl), Discussion(ls), 0, |ls|)
  {
    hide Classify, Discussion, Ended, Count, IsFraming;
    var ks, hs, D, E := Ended(ls, nl), Ended(out, nl2), Discussion(ls), Discussion(out);
    SameFraming(ls, out, nl, nl2, idx, d);
    CountSame(ks, D, hs, E, 0, idx, 0);
    CountSame(ks, D, hs, E, idx, |ls|, d);
    CountSplit(ks, D, 0, idx, |ls|);
    CountSplit(hs, E, 0, idx, |out|);
    CountSplit(hs, E, idx, b + 1, |out|);
    CountSplit(hs, E, b + 1, idx + d, |out|);
    CountLast(hs, E, idx, b + 1);
    QuoteIsSolid(out, nl2, b);
  }

  lemma SameFraming(ls: seq<string>, out: seq<string>, nl: bool, nl2: bool, idx: nat, d: nat)
    requires idx <= |ls| && |out| == |ls| + d && out[..idx] == ls[..idx] && out[idx + d..] == ls[idx..]
    ensures forall n: nat :: 1 <= n <= idx ==> (EmptyLine(Ended(ls, nl), n) <==> EmptyLine(Ended(out, nl2), n))
    ensures forall n: nat :: idx < n <= |ls| ==>
      (EmptyLine(Ended(ls, nl), n) <==> EmptyLine(Ended(out, nl2), n + d))
  {
    hide IsFraming, Ended;
    forall n: nat | 1 <= n <= idx
      ensures EmptyLine(Ended(ls, nl), n) <==> EmptyLine(Ended(out, nl2), n)
    {
      EndedFraming(ls, nl, n);
      EndedFraming(out, nl2, n);
      assert out[n - 1] == out[..idx][n - 1] == ls[..idx][n - 1] == ls[n - 1];
    }
    forall n: nat | idx < n <= |ls|
      ensures EmptyLine(Ended(ls, nl), n) <==> EmptyLine(Ended(out, nl2), n + d)
    {
      EndedFraming(ls, nl, n);
      EndedFraming(out, nl2, n + d);
      assert out[n + d - 1] == out[idx + d..][n - 1 - idx] == ls[idx..][n - 1 - idx] == ls[n - 1];
    }
  }

  lemma UnmarkedCount(ls: seq<string>, idx: nat, speaker: string, message: string, nl: bool)
    requires idx <= |ls|
    requires MarkAt(ls, idx).inFence
      || (!MarkAt(ls, idx).inThread && !HeadTagged(speaker, message) && MessageOk(message))
    ensures var out := StartLines(ls, idx, speaker, message);
      Count(Ended(out, nl), Discussion(out), 0, |out|) > Count(Ended(ls, nl), Discussion(ls), 0, |ls|)
  {
    hide Classify, MarkAt, Discussion, Parts, SpliceLines, BlockAt, Strip, HeadTagged, Count, IsFraming, MessageOk,
      NoOrphan, Before, Ended;
    var out, d, b := StartLines(ls, idx, speaker, message), StartSize(ls, idx, message), idx + |Before(ls, idx)|;
    StartPieces(ls, idx, speaker, message);
    MarkPrefix(ls, out, idx);
    BlankMarks(out, idx, b);
    BlockQuote(out, b, 1, speaker, message, 0);
    BlockUnmarked(out, b, speaker, message, |Parts(message)|);
    BlankMarks(out, b + |Parts(message)|, idx + d);
    MarkSuffix(ls, out, idx, d, |ls|);
    StuffedCount(ls, out, nl, nl, idx, b, d);
  }

  // ----- where the block takes over a quote -----

  /** After the block every line that was discussion still is. */
  lemma {:induction false} MarkAbove(ls: seq<string>, out: seq<string>, at: nat, d: nat, i: nat)
    requires at <= i <= |ls| && |out| == |ls| + d && out[at + d..] == ls[at..]
    requires !MarkAt(ls, at).inFence && MarkAt(out, at + d) == Mark(false, true)
    ensures MarkAt(out, i + d).inFence == MarkAt(ls, i).inFence
    ensures MarkAt(ls, i).inThread ==> MarkAt(out, i + d).inThread
    ensures forall n: nat :: at < n <= i ==> (n in Discussion(ls) ==> n + d in Discussion(out))
    decreases i
  {
    hide Classify;
    if i > at {
      MarkAbove(ls, out, at, d, i - 1);
      assert out[i + d - 1] == out[at + d..][i - 1 - at] == ls[i - 1];
    }
  }

  /** Through blank lines the block's thread stays open. */
  lemma {:induction false} StillOpen(ls: seq<string>, out: seq<string>, at: nat, d: nat, i: nat)
    requires at <= i <= |ls| && |out| == |ls| + d && out[at + d..] == ls[at..]
    requires MarkAt(out, at + d) == Mark(false, true) && forall q :: at <= q < i ==> Classify(ls[q]).Blank?
    ensures MarkAt(out, i + d) == Mark(false, true)
    decreases i
  {
    hide Classify;
    if i > at {
      StillOpen(ls, out, at, d, i - 1);
      assert out[i + d - 1] == out[at + d..][i - 1 - at] == ls[i - 1];
    }
  }

  /** The untagged quote that comes next. */
  lemma {:induction false} NextOrphan(ls: seq<string>, i: nat) returns (m: nat)
    requires i <= |ls| && !NoOrphan(ls, i)
    ensures i <= m < |ls| && Classify(ls[m]).Untagged? && MarkAt(ls, m) == MarkAt(ls, i)
    ensures forall q :: i <= q < m ==> Classify(ls[q]).Blank?
    decreases |ls| - i
  {
    hide Classify;
    m := i;
    if Classify(ls[i]).Blank? { m := NextOrphan(ls, i + 1); }
  }

  lemma OrphanTaken(ls: seq<string>, out: seq<string>, at: nat, d: nat) returns (n: nat)
    requires at <= |ls| && |out| == |ls| + d && out[at + d..] == ls[at..] && !NoOrphan(ls, at)
    requires MarkAt(ls, at) == Mark(false, false) && MarkAt(out, at + d) == Mark(false, true)
    ensures at < n <= |ls| && IsQuote(Classify(ls[n - 1])) && n !in Discussion(ls) && n + d in Discussion(out)
  {
    hide Classify, MarkAt, NoOrphan;
    var m := NextOrphan(ls, at);
    n := m + 1;
    StillOpen(ls, out, at, d, m);
    assert out[m + d] == out[at + d..][m - at] == ls[m];
  }

  lemma TakenCount(ls: seq<string>, idx: nat, speaker: string, message: string, nl: bool)
    requires idx <= |ls| && MarkAt(ls, idx) == Mark(false, false) && HeadTagged(speaker, message) && !NoOrphan(ls, idx)
    ensures var out := StartLines(ls, idx, speaker, message);
      Count(Ended(out, nl), Discussion(out), 0, |out|) < Count(Ended(ls, nl), Discussion(ls), 0, |ls|)
  {
    hide Classify, MarkAt, Discussion, Parts, SpliceLines, BlockAt, Strip, HeadTagged, Count, IsFraming, NoOrphan,
      Before, Ended;
    var out, d, b := StartLines(ls, idx, speaker, message), StartSize(ls, idx, message), idx + |Before(ls, idx)|;
    StartPieces(ls, idx, speaker, message);
    BlockMarked(ls, idx, speaker, message);
    MarkAbove(ls, out, idx, d, |ls|);
    var n := OrphanTaken(ls, out, idx, d);
    QuoteIsSolid(ls, nl, n - 1);
    FewerCount(ls, out, nl, idx, b, b + |Parts(message)|, d, n);
  }

  lemma FewerCount(ls: seq<string>, out: seq<string>, nl: bool, idx: nat, b: nat, e: nat, d: nat, n: nat)
    requires idx < n <= |ls| && idx <= b <= e <= idx + d && |out| == |ls| + d
    requires out[..idx] == ls[..idx] && out[idx + d..] == ls[idx..]
    requires forall m :: idx <= m < b || e <= m < idx + d ==> out[m] == ""
    requires forall m: nat :: b < m <= e ==> m in Discussion(out)
    requires forall m: nat :: 1 <= m <= idx ==> (m in Discussion(out) <==> m in Discussion(ls))
    requires forall m: nat :: idx < m <= |ls| && m in Discussion(ls) ==> m + d in Discussion(out)
    requires n !in Discussion(ls) && n + d in Discussion(out) && !IsFraming(Ended(ls, nl)[n - 1])
    ensures Count(Ended(out, nl), Discussion(out), 0, |out|) < Count(Ended(ls, nl), Discussion(ls), 0, |ls|)
  {
    hide Discussion, Ended, Count, IsFraming;
    var ks, hs, D, E := Ended(ls, nl), Ended(out, nl), Discussion(ls), Discussion(out);
    SameFraming(ls, out, nl, nl, idx, d);
    CountSame(ks, D, hs, E, 0, idx, 0);
    CountLess(ks, D, hs, E, idx, |ls|, d, n);
    CountSplit(ks, D, 0, idx, |ls|);
    CountSplit(hs, E, 0, idx, |out|);
    CountSplit(hs, E, idx, idx + d, |out|);
    forall m: nat | idx < m <= idx + d ensures m in E || EmptyLine(hs, m) {
      if m <= b || m > e {
        assert out[m - 1] == "";
        BlankLineFraming(out, nl, m);
      }
    }
    CountZero(hs, E, idx, idx + d);
  }

  // ----- after a last line without a newline -----

  lemma {:induction false} InSolid(x: seq<string>, y: string)
    ensures y in Solid(x) <==> y in x && !IsFraming(y)
  {
    hide IsFraming;
    if x != [] {
      InSolid(x[1..], y);
      assert x == [x[0]] + x[1..];
    }
  }

  lemma {:induction false} InBody(ks: seq<string>, D: set<nat>, i: nat, j: nat, y: string)
    requires i <= j <= |ks|
    ensures y in Body(ks, D, i, j) <==> exists n: nat :: i < n <= j && n !in D && ks[n - 1] == y
    decreases j - i
  {
    if i < j {
      InBody(ks, D, i, j - 1, y);
      assert j !in D ==> exists n: nat :: i < n <= j && n !in D && ks[n - 1] == ks[j - 1];
    }
  }

  /** The last line, without its newline, is in one body and not in the other. */
  lemma LastLineGone(base: string, current: string, y: string)
    requires y in Body(KeepLines(base), Discussion(SplitLines(base)), 0, |KeepLines(base)|) && !IsFraming(y)
    requires y !in Body(KeepLines(current), Discussion(SplitLines(current)), 0, |KeepLines(current)|)
    ensures !IsDelta(base, current)
  {
    hide SplitLines, Threads, EndsNl, Classify, Framing, Body, Numbers, Ended, Solid, IsFraming, Tiles, DeltaUnder;
    InSolid(Prepare(base).body, y);
    InSolid(Prepare(current).body, y);
    forall ops | Tiles(Prepare(base).body, Prepare(current).body, ops, 0, 0)
      ensures !DeltaUnder(base, current, ops)
    {
      if DeltaUnder(base, current, ops) { DeltaSound(base, current, ops); }
    }
  }

  lemma UnendedLine(ls: seq<string>, out: seq<string>, nl: bool, b: nat, e: nat)
    requires ls != [] && !nl && |ls| !in Discussion(ls) && Lines(ls)
    requires |ls| <= b < e == |out| && out[..|ls|] == ls && forall m: nat :: b < m <= e ==> m in Discussion(out)
    ensures ls[|ls| - 1] in Body(Ended(ls, nl), Discussion(ls), 0, |ls|)
    ensures ls[|ls| - 1] !in Body(Ended(out, nl), Discussion(out), 0, |out|)
  {
    hide Discussion;
    var y, ks, hs := ls[|ls| - 1], Ended(ls, nl), Ended(out, nl);
    InBody(ks, Discussion(ls), 0, |ls|, y);
    assert ks[|ls| - 1] == y;
    InBody(hs, Discussion(out), 0, |out|, y);
    forall n: nat | 0 < n <= |out| && n !in Discussion(out) ensures hs[n - 1] != y {
      assert hs[n - 1] == out[n - 1] + "\n";
      assert hs[n - 1][|out[n - 1]|] == '\n';
      assert OneLine(y);
    }
  }

  lemma UnendedFails(text: string, idx: nat, speaker: string, message: string)
    requires idx == |SplitLines(text)| > 0 && !EndsNl(text) && OneLine(speaker)
    requires var ls := SplitLines(text);
      && !MarkAt(ls, idx).inFence && (MarkAt(ls, idx).inThread || HeadTagged(speaker, message))
      && idx !in Discussion(ls) && !IsFraming(ls[idx - 1])
    ensures !IsDelta(text, Render(StartLines(SplitLines(text), idx, speaker, message), EndsNl(text)))
  {
    hide SplitLines, Render, EndsNl, Renderable, Classify, Parts, SpliceLines, BlockAt, Discussion, IsFraming, Body,
      Ended, IsDelta, Before, HeadTagged, MarkAt, OneLine;
    var ls := SplitLines(text);
    var out, b := StartLines(ls, idx, speaker, message), idx + |Before(ls, idx)|;
    var edited := Render(out, EndsNl(text));
    StartText(text, idx, speaker, message);
    RenderEnds(out, EndsNl(text));
    StartPieces(ls, idx, speaker, message);
    BlockMarked(ls, idx, speaker, message);
    RenderSplit(text);
    LinesOf(text);
    NothingAfter(ls, message);
    assert ls[..idx] == ls;
    UnendedLine(ls, out, EndsNl(text), b, b + |Parts(message)|);
    LastLineGone(text, edited, ls[idx - 1]);
  }

  lemma LinesOf(text: string)
    requires Renderable(SplitLines(text), EndsNl(text))
    ensures Lines(SplitLines(text))
  {
  }

  lemma NothingAfter(ls: seq<string>, message: string)
    ensures StartSize(ls, |ls|, message) == |Before(ls, |ls|)| + |Parts(message)|
  {
    hide Before, Parts;
  }

  // ----- the theorem -----

  /** Exactly when a started thread is a discussion delta, for a head line that belongs to a discussion, or a message
      without tags. */
  lemma StartIsDelta(text: string, idx: nat, speaker: string, message: string)
    requires idx <= |SplitLines(text)| && OneLine(speaker)
    requires HeadTagged(speaker, message) || MarkAt(SplitLines(text), idx).inThread || MessageOk(message)
    requires idx == |SplitLines(text)| && idx > 0 && !EndsNl(text) ==> !IsFraming(SplitLines(text)[idx - 1])
    ensures IsDelta(text, Render(StartLines(SplitLines(text), idx, speaker, message), EndsNl(text)))
      <==> RoomForThread(SplitLines(text), EndsNl(text), idx, HeadTagged(speaker, message))
  {
    hide SplitLines, Render, EndsNl, Renderable, StartLines, Discussion, IsFraming, Count, Ended, IsDelta, HeadTagged,
      NoOrphan, MessageOk, OneLine, MarkAt;
    var ls, nl := SplitLines(text), EndsNl(text);
    var out := StartLines(ls, idx, speaker, message);
    StartText(text, idx, speaker, message);
    RenderEnds(out, nl);
    if RoomForThread(ls, nl, idx, HeadTagged(speaker, message)) {
      RoomIsDelta(text, idx, speaker, message);
    } else if MarkAt(ls, idx).inFence || !(MarkAt(ls, idx).inThread || HeadTagged(speaker, message)) {
      UnmarkedCount(ls, idx, speaker, message, nl);
      CountDecides(text, Render(out, nl));
    } else if !MarkAt(ls, idx).inThread && !NoOrphan(ls, idx) {
      TakenCount(ls, idx, speaker, message, nl);
      CountDecides(text, Render(out, nl));
    } else {
      UnendedFails(text, idx, speaker, message);
    }
  }
}
