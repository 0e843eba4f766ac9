/** What the parser makes of the lines the writer emits. */
module Blocks {
  import opened Wrappers
  import opened Text
  import opened Syntax
  import opened Forest
  import opened Scan
  import opened Frame
  import opened Splice

  /** The writer's own formatting, read back from state `s`, is one comment. */
  function AddWritten(s: State, depth: nat, it: Item): State {
    if depth == 1 || s.cur.None?
    then Flush(s).(cur := Some(Flat([it], Open, s.anchorLine, s.anchorText)))
    else s.(cur := Some(AddReply(s.cur.value, it)))
  }

  /** The block of a message stands in `out` from line index `at` on. */
  ghost predicate BlockAt(out: seq<string>, at: nat, depth: nat, speaker: string, message: string) {
    && at + |Parts(message)| <= |out|
    && out[at..at + |Parts(message)|] == Block(depth, speaker, Open, message)
  }

  lemma BlockKinds(out: seq<string>, at: nat, depth: nat, speaker: string, message: string, i: nat)
    requires BlockAt(out, at, depth, speaker, message) && i < |Parts(message)| && depth >= 1
    requires SpeakerOk(speaker) && MessageOk(message)
    ensures i == 0 ==> out[at] == HeadLine(depth, speaker, Open, Parts(message)[0])
    ensures i == 0 ==> Classify(out[at]) == Tagged(depth, Tag(speaker, None, Strip(Parts(message)[0])))
    ensures i > 0 ==> Classify(out[at + i]) == Untagged(LStrip(Parts(message)[i]))
  {
    hide Classify, ParseTag, HeadLine, SpeakerOk, Parts, Strip, LStrip;
    var parts := Parts(message);
    assert out[at + i] == out[at..at + |parts|][i];
    if i == 0 {
      SpeakerRoundTrip(depth, speaker, parts[0]);
    } else {
      assert out[at + i] == QuoteLine(depth, parts[1..][i - 1]);
      TailRoundTrip(depth, parts[i]);
    }
  }

  lemma ExtendedNext(it: Item, parts: seq<string>, i: nat)
    requires 0 < i < |parts|
    ensures Extended(it, parts[1..i + 1]) == Extend(Extended(it, parts[1..i]), LStrip(parts[i]))
  {
    hide Extend, LStrip;
    assert parts[1..i + 1][..i - 1] == parts[1..i];
  }

  /** The state after the first `i` lines of a block. */
  lemma {:induction false} TailScan(out: seq<string>, at: nat, depth: nat, speaker: string, message: string, i: nat)
    requires BlockAt(out, at, depth, speaker, message) && depth >= 1 && 1 <= i <= |Parts(message)| <= |out| - at
    requires SpeakerOk(speaker) && MessageOk(message) && !At(out, at).inFence
    requires depth > 1 ==> At(out, at).cur.Some?
    ensures At(out, at + i) ==
      AddWritten(At(out, at), depth, Extended(HeadItem(depth, at + 1, speaker, message), Parts(message)[1..i]))
  {
    hide Classify, ParseTag, HeadLine, HeadItem, SpeakerOk, Extend, Parts, BlockAt, MessageOk, AddWritten, LStrip, Step;
    var parts, head := Parts(message), HeadItem(depth, at + 1, speaker, message);
    BlockKinds(out, at, depth, speaker, message, i - 1);
    if i == 1 {
      assert parts[1..1] == [];
      HeadStep(At(out, at), depth, at + 1, speaker, message);
    } else {
      TailScan(out, at, depth, speaker, message, i - 1);
      ExtendedNext(head, parts, i - 1);
      TailStep(At(out, at), depth, at + i, Extended(head, parts[1..i - 1]), out[at + i - 1], LStrip(parts[i - 1]));
    }
  }

  lemma HeadStep(s: State, depth: nat, n: nat, speaker: string, message: string)
    requires depth >= 1 && !s.inFence && (depth > 1 ==> s.cur.Some?)
    requires var part := Parts(message)[0];
      Classify(HeadLine(depth, speaker, Open, part)) == Tagged(depth, Tag(speaker, None, Strip(part)))
    ensures Step(s, n, HeadLine(depth, speaker, Open, Parts(message)[0]))
         == AddWritten(s, depth, HeadItem(depth, n, speaker, message))
  {
    hide Classify, HeadLine, NewItem, Strip, Parts;
  }

  lemma TailStep(s: State, depth: nat, n: nat, it: Item, raw: string, content: string)
    requires !s.inFence && Classify(raw) == Untagged(content)
    ensures Step(AddWritten(s, depth, it), n, raw) == AddWritten(s, depth, Extend(it, content))
  {
    hide Classify, Extend;
    var t := AddWritten(s, depth, it).cur.value;
    assert t.items[..|t.items| - 1] + [Extend(it, content)]
      == AddWritten(s, depth, Extend(it, content)).cur.value.items;
  }

  /** A block read from an unfenced state adds exactly the comment it was written for. */
  lemma BlockReads(out: seq<string>, at: nat, depth: nat, speaker: string, message: string)
    requires BlockAt(out, at, depth, speaker, message) && depth >= 1 && at + |Parts(message)| <= |out|
    requires SpeakerOk(speaker) && MessageOk(message)
    requires !At(out, at).inFence && (depth > 1 ==> At(out, at).cur.Some?)
    ensures At(out, at + |Parts(message)|) == AddWritten(At(out, at), depth, Written(depth, at + 1, speaker, message))
  {
    hide BlockAt, HeadItem, SpeakerOk, Extend, Parts, At, MessageOk, AddWritten;
    var parts := Parts(message);
    TailScan(out, at, depth, speaker, message, |parts|);
    assert parts[1..|parts|] == parts[1..];
  }

  lemma {:induction false} ExtendedKeeps(it: Item, parts: seq<string>)
    ensures var r := Extended(it, parts);
      r.depth == it.depth && r.line == it.line && r.speaker == it.speaker && r.text == it.text
      && |it.body| <= |r.body|
  {
    hide RStrip, LStrip, Mentions;
    if parts != [] {
      ExtendedKeeps(it, parts[..|parts| - 1]);
    }
  }

  lemma WrittenIs(depth: nat, line: nat, speaker: string, message: string)
    ensures var it := Written(depth, line, speaker, message);
      it.depth == depth && it.line == line && it.speaker == speaker
  {
    hide RStrip, LStrip, Mentions, Strip, Parts, HeadLine;
    ExtendedKeeps(HeadItem(depth, line, speaker, message), Parts(message)[1..]);
  }

  lemma BlankLine()
    ensures Classify("") == Blank
  {
    assert LStrip("") == "";
  }

  /** Lines the parser reads as blank change nothing. */
  lemma {:induction false} BlankRun(ls: seq<string>, i: nat, j: nat)
    requires i <= j <= |ls| && forall m :: i <= m < j ==> Classify(ls[m]) == Blank
    ensures At(ls, j) == At(ls, i)
  {
    hide Classify;
    if i < j {
      BlankRun(ls, i, j - 1);
    }
  }
}
