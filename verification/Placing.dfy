/** Where the writer puts its lines, read off the text: after which line a reply goes and a new thread begins, what
    surrounds them, and on which documents a reply always lands. */
module Placing {
  import opened Wrappers
  import opened Text
  import opened Syntax
  import opened Forest
  import opened Scan
  import opened Frame
  import opened Splice
  import opened Blocks
  import opened ReplyProof
  import opened ReplyExact
  import opened StartProof

  // ----- reply -----

  /** The line at index `i` ends a subtree of depth `depth`: prose, a fence, or a tag no deeper. */
  predicate Stops(ls: seq<string>, depth: nat, i: nat)
    requires i < |ls|
  {
    var k := Classify(ls[i]);
    k.Fence? || k.Plain? || (k.Tagged? && k.depth <= depth)
  }

  /** The first such line from index `i` on, or the end. */
  function StopAt(ls: seq<string>, depth: nat, i: nat): nat
    decreases |ls| - i
  {
    if i >= |ls| then |ls| else if Stops(ls, depth, i) then i else StopAt(ls, depth, i + 1)
  }

  lemma {:induction false} StopAtIs(ls: seq<string>, depth: nat, i: nat)
    requires i <= |ls|
    ensures var s := StopAt(ls, depth, i);
      && i <= s <= |ls| && (s < |ls| ==> Stops(ls, depth, s)) && forall x :: i <= x < s ==> !Stops(ls, depth, x)
    decreases |ls| - i
  {
    hide Stops;
    if i < |ls| && !Stops(ls, depth, i) { StopAtIs(ls, depth, i + 1); }
  }

  lemma {:induction false} ScanTo(ls: seq<string>, i: nat, last: nat, depth: nat)
    requires last < i <= |ls|
    ensures var s, at := StopAt(ls, depth, i), SubtreeScan(ls, i, last, depth);
      && (at == last + 1 || (i < at <= s <= |ls| && IsQuote(Classify(ls[at - 1]))))
      && forall x :: at <= x < s <= |ls| && i <= x ==> Classify(ls[x]).Blank?
    decreases |ls| - i
  {
    hide Classify;
    if i < |ls| && !Stops(ls, depth, i) {
      StopAtIs(ls, depth, i + 1);
      ScanTo(ls, i + 1, if Classify(ls[i]).Blank? then last else i, depth);
    }
  }

  /** Exactly where a reply goes: after the last quote above the line that ends the target's subtree, or right after
      the target's own line. */
  lemma SubtreeEndExactly(ls: seq<string>, it: Item)
    requires 1 <= it.line <= |ls|
    ensures var s, at := StopAt(ls, it.depth, it.line), SubtreeEndIndex(ls, it);
      && it.line <= at <= s <= |ls| && (at > it.line ==> IsQuote(Classify(ls[at - 1])))
      && forall x :: at <= x < s ==> Classify(ls[x]).Blank?
  {
    hide Classify, Stops;
    StopAtIs(ls, it.depth, it.line);
    ScanTo(ls, it.line, it.line - 1, it.depth);
  }

  /** The subtree of `it` is not cut off by a fence. */
  predicate Unfenced(ls: seq<string>, it: Item)
    requires 1 <= it.line <= |ls|
  {
    var s := StopAt(ls, it.depth, it.line);
    s < |ls| ==> !Classify(ls[s]).Fence?
  }

  lemma {:induction false} BlankEvents(ls: seq<string>, i: nat, e: nat, hollow: bool)
    requires i <= e <= |ls| && forall x :: i <= x < e ==> Classify(ls[x]).Blank?
    ensures NextEvent(ls, i, false, hollow) == NextEvent(ls, e, false, hollow)
    decreases e - i
  {
    hide Classify;
    if i < e { BlankEvents(ls, i + 1, e, hollow); }
  }

  /** Unless a fence cuts it off, nothing after the insertion point still belongs to the target. */
  lemma UnfencedEnds(ls: seq<string>, it: Item, body: string)
    requires 1 <= it.line <= |ls| && Unfenced(ls, it)
    ensures SubtreeEnds(ls, it, body)
  {
    hide Classify, At, SubtreeEndIndex, StopAt;
    var s, at := StopAt(ls, it.depth, it.line), SubtreeEndIndex(ls, it);
    SubtreeEndExactly(ls, it);
    StopAtIs(ls, it.depth, it.line);
    BlankEvents(ls, at, s, body == "" && Hollow(At(ls, at)));
  }

  /** So on a comment whose subtree no fence cuts off, every proper speaker's reply without tags lands. */
  lemma ReplyUnfenced(ls: seq<string>, k: nat, j: nat, speaker: string, message: string)
    requires k < |Parse(ls)| && j < |Parse(ls)[k].items| && 1 <= Parse(ls)[k].items[j].line <= |ls|
    requires Unfenced(ls, Parse(ls)[k].items[j])
    ensures Refines(ls, k, j, speaker, message) <==> SpeakerOk(speaker) && MessageOk(message)
  {
    hide Refines, SpeakerOk, MessageOk, SubtreeEnds, Parse, ReplyItem, Unfenced;
    var it := Parse(ls)[k].items[j];
    UnfencedEnds(ls, it, ReplyItem(ls, it, speaker, message).body);
    ReplyExactly(ls, k, j, speaker, message);
  }

  // ----- start -----

  lemma StripEmpty(s: string)
    ensures Strip(s) == "" <==> AllSpace(s)
  {
    hide IsSpace;
    if AllSpace(s) {
      assert Span(s, IsSpace) == |s|;
    }
  }

  /** The line an index means, counted from the end when it is negative, is white space. */
  predicate EmptyAt(ls: seq<string>, i: int)
    requires -|ls| <= i < |ls|
  {
    AllSpace(ls[if i < 0 then |ls| + i else i])
  }

  /** Exactly where a new thread goes: after the first line from the anchor on that is white space, or at the end; and
      that fails exactly for an anchor further before the first line than the text is long. */
  lemma {:induction false} AnchorExactly(ls: seq<string>, i: int)
    ensures AnchorIndex(ls, i).None? <==> i < -|ls| && i < |ls|
    ensures AnchorIndex(ls, i).Some? ==>
      var idx := AnchorIndex(ls, i).value;
      && idx <= |ls| && (i >= |ls| ==> idx == |ls|)
      && (i < |ls| ==> i < idx && (forall x: int :: i <= x < idx - 1 ==> !EmptyAt(ls, x))
                       && (EmptyAt(ls, idx - 1) || idx == |ls|))
    decreases |ls| - i
  {
    hide Strip, AllSpace;
    if i < |ls| && i >= -|ls| {
      StripEmpty(ls[Slot(|ls|, i)]);
      if Strip(ls[Slot(|ls|, i)]) != "" { AnchorExactly(ls, i + 1); }
    }
  }

  /** At an index that counts from the end the blank line goes as many lines below the block as it has lines, or, for
      a long block, at a place counted from the top; and only above a line with text. */
  lemma FromEndExactly(ls: seq<string>, idx: int, block: seq<string>)
    requires -|ls| <= idx < 0
    ensures var out, at := SpliceFromEnd(ls, idx, block), |ls| + idx;
      var whole, far := ls[..at] + block + ls[at..], at + |block|;
      if |block| < -idx then
        out == ls[..at] + block + ls[at..far] + (if AllSpace(ls[far]) then [] else [""]) + ls[far..]
      else
        var k := idx + |block|;
        out == if AllSpace(whole[k]) then whole else whole[..k] + [""] + whole[k..]
  {
    hide Strip, AllSpace;
    var at, far := |ls| + idx, |ls| + idx + |block|;
    var whole := ls[..at] + block + ls[at..];
    if |block| < -idx {
      var end := far + |block|;
      assert whole == (ls[..at] + block + ls[at..far]) + ls[far..];
      assert whole[end] == ls[far];
      StripEmpty(ls[far]);
    } else {
      StripEmpty(whole[idx + |block|]);
    }
  }

  /** What surrounds a spliced block: a line of white space, or the text's end, on both sides; a blank line is put in
      only where there was none. */
  lemma SpliceExactly(ls: seq<string>, idx: nat, block: seq<string>)
    requires idx <= |ls| && block != []
    ensures var out, b := SpliceLines(ls, idx, block), idx + |Before(ls, idx)|;
      var e := b + |block|;
      && e <= |out| && out[..idx] == ls[..idx] && out[b..e] == block && out[e + |After(ls, idx)|..] == ls[idx..]
      && (b > 0 ==> AllSpace(out[b - 1])) && (e < |out| ==> AllSpace(out[e]))
      && (Before(ls, idx) == [] || (Before(ls, idx) == [""] && !AllSpace(ls[idx - 1])))
      && (After(ls, idx) == [] || (After(ls, idx) == [""] && !AllSpace(ls[idx])))
  {
    hide AllSpace, Before, After;
    NoSpace();
    SeparatorsAre(ls, idx);
    FivePieces(ls[..idx], Before(ls, idx), block, After(ls, idx), ls[idx..]);
    var out, e := SpliceLines(ls, idx, block), idx + |Before(ls, idx)| + |block|;
    if Before(ls, idx) == [] && idx > 0 { assert out[idx - 1] == out[..idx][idx - 1]; }
    if After(ls, idx) == [] && e < |out| { assert out[e] == out[e..][0] == ls[idx]; }
  }

  lemma SeparatorsAre(ls: seq<string>, idx: nat)
    requires idx <= |ls|
    ensures Before(ls, idx) == if idx > 0 && !AllSpace(ls[idx - 1]) then [""] else []
    ensures After(ls, idx) == if idx < |ls| && !AllSpace(ls[idx]) then [""] else []
  {
    hide Strip, AllSpace;
    if idx > 0 { StripEmpty(ls[idx - 1]); }
    if idx < |ls| { StripEmpty(ls[idx]); }
  }

  lemma NoSpace()
    ensures AllSpace("")
  {
  }

  /** What surrounds a reply: the target's subtree above it, and below it no quote. */
  lemma ReplySeparated(ls: seq<string>, target: Item, speaker: string, message: string)
    requires 1 <= target.line <= |ls|
    ensures var out, at := ReplyLines(ls, target, speaker, message), SubtreeEndIndex(ls, target);
      var e := at + |Parts(message)|;
      && e <= |out| && out[..at] == ls[..at] && out[at..e] == Block(target.depth + 1, speaker, Open, message)
      && out[e + |Gap(ls, at)|..] == ls[at..]
      && (e < |out| ==> !IsQuote(Classify(out[e])))
      && (Gap(ls, at) == [] || (Gap(ls, at) == [""] && IsQuote(Classify(ls[at]))))
  {
    hide Classify, SubtreeEndIndex, Parts, HeadLine, TailLines;
    BlankLine();
    var out, at := ReplyLines(ls, target, speaker, message), SubtreeEndIndex(ls, target);
    var block := Block(target.depth + 1, speaker, Open, message);
    assert out[..at] == ls[..at] && out[at..at + |block|] == block;
    assert out[at + |block| + |Gap(ls, at)|..] == ls[at..];
  }

  /** The writer's spelling: as many `>` as the comment is deep, the bold speaker with a marker unless the thread is
      open, the first line of the message, and its other lines as quotes. */
  lemma Canonical(depth: nat, speaker: string, st: Status, message: string)
    ensures var block, parts := Block(depth, speaker, st, message), Parts(message);
      && |block| == |parts| && (SplitLines(message) != [] ==> parts == SplitLines(message))
      && block[0] == Quotes(depth) + " **" + speaker
           + (if st == Resolved then " [RESOLVED]" else if st == Reopen then " [REOPEN]" else "") + ":** " + parts[0]
      && forall i :: 0 < i < |block| ==> block[i] == Quotes(depth) + " " + parts[i]
    ensures |Quotes(depth)| == depth && forall i :: 0 <= i < depth ==> Quotes(depth)[i] == '>'
  {
    hide Parts, HeadLine, QuoteLine;
    var block, parts := Block(depth, speaker, st, message), Parts(message);
    HeadSpelled(depth, speaker, st, parts[0]);
    forall i | 0 < i < |block| ensures block[i] == Quotes(depth) + " " + parts[i] {
      assert block[i] == QuoteLine(depth, parts[1..][i - 1]) && parts[1..][i - 1] == parts[i];
      QuoteSpelled(depth, parts[i]);
    }
    PartsAre(message);
  }

  lemma QuoteSpelled(depth: nat, part: string)
    ensures QuoteLine(depth, part) == Quotes(depth) + " " + part
  {
    hide Quotes;
    assert Quotes(depth) + (" " + part) == Quotes(depth) + " " + part;
  }

  lemma HeadSpelled(depth: nat, speaker: string, st: Status, part: string)
    ensures HeadLine(depth, speaker, st, part) == Quotes(depth) + " **" + speaker
      + (if st == Resolved then " [RESOLVED]" else if st == Reopen then " [REOPEN]" else "") + ":** " + part
  {
    hide Quotes, StatusMark;
    var mark := if st == Resolved then " [RESOLVED]" else if st == Reopen then " [REOPEN]" else "";
    MarkIs(st);
    var q, rest := Quotes(depth), mark + (":**" + (" " + part));
    assert q + (" " + ("**" + (speaker + rest))) == q + " **" + speaker + rest;
    assert q + " **" + speaker + rest == q + " **" + speaker + mark + ":** " + part;
  }

  lemma MarkIs(st: Status)
    ensures StatusMark(st) == if st == Resolved then " [RESOLVED]" else if st == Reopen then " [REOPEN]" else ""
  {
  }

  lemma PartsAre(message: string)
    ensures SplitLines(message) != [] ==> Parts(message) == SplitLines(message)
  {
  }
}
