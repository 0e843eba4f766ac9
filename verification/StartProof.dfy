/** `start` refines inserting one thread: at an insertion point outside a fence, with nothing after it
    that continues an open thread, exactly one new open thread appears and all others stay. */
module StartProof {
  import opened Wrappers
  import opened Text
  import opened Syntax
  import opened Forest
  import opened Scan
  import opened Frame
  import opened Splice
  import opened Blocks
  import opened ReplyProof
  import opened ReplyExact

  /** The new thread: one comment, open, anchored at the last prose line before it. */
  function NewThread(s: State, x: Item): Flat {
    Flat([x], Open, s.anchorLine, s.anchorText)
  }

  function WithThread(ts: seq<Flat>, k: nat, idx: nat, d: nat, t: Flat): seq<Flat>
    requires k <= |ts|
  {
    ShiftAll(idx, d, ts[..k]) + [t] + ShiftAll(idx, d, ts[k..])
  }

  /** The parser sees what follows the insertion as the beginning of something new. */
  predicate StartsAfresh(ls: seq<string>, idx: nat, body: string)
    requires idx <= |ls|
  {
    var s := At(ls, idx);
    !s.inFence && Ends(NextEvent(ls, idx, false, body == "" && Hollow(s)), 1)
  }

  /** The line is no event: a fence, a blank line, a line inside a fence, or with `hollow` a quote without text. */
  predicate Silent(s: State, raw: string, hollow: bool) {
    s.inFence || Classify(raw).Fence? || Classify(raw).Blank? || (hollow && Classify(raw) == Untagged(""))
  }

  /** Old state `s` and new state `u` after the insertion, where `s0` is the state at it and `t` the new
      thread: while `waiting`, the new thread is still open; from the first event on it is finished. */
  ghost predicate InStep(waiting: bool, s0: State, t: Flat, idx: nat, d: nat, s: State, u: State) {
    var k := |Flush(s0).done|;
    if waiting then s == s0.(inFence := s.inFence) && u == Flush(s0).(cur := Some(t), inFence := s.inFence)
    else
      && k <= |s.done| && s.done[..k] == Flush(s0).done
      && u == State(s.inFence, Flush(s0).done + [t] + ShiftAll(idx, d, s.done[k..]),
                    Shift(idx, d, s.anchorLine), s.anchorText,
                    match s.cur case None => None case Some(c) => Some(ShiftFlat(idx, d, c)))
  }

  lemma ShiftAppend(idx: nat, d: nat, done: seq<Flat>, k: nat, c: Flat)
    requires k <= |done|
    ensures (done + [c])[k..] == done[k..] + [c] && (done + [c])[..k] == done[..k]
    ensures ShiftAll(idx, d, done[k..] + [c]) == ShiftAll(idx, d, done[k..]) + [ShiftFlat(idx, d, c)]
  {
    hide ShiftFlat;
  }

  lemma ShiftRoot(idx: nat, d: nat, n: nat, raw: string, tag: Tag, st: Status, anchorLine: nat, anchorText: string)
    requires n > idx
    ensures ShiftFlat(idx, d, Flat([NewItem(1, n, raw, tag)], st, anchorLine, anchorText))
         == Flat([NewItem(1, n + d, raw, tag)], st, Shift(idx, d, anchorLine), anchorText)
  {
    hide RStrip, Mentions;
    assert MapItems([NewItem(1, n, raw, tag)], ShiftItem(idx, d)) == [NewItem(1, n + d, raw, tag)];
  }

  /** Flushing keeps the scans in step, with the new thread finished on the new side. */
  lemma FlushInStep(waiting: bool, s0: State, t: Flat, idx: nat, d: nat, s: State, u: State)
    requires Good(s0, idx) && InStep(waiting, s0, t, idx, d, s, u)
    ensures InStep(false, s0, t, idx, d, Flush(s), Flush(u))
    ensures Flush(s).cur.None? && Flush(s).inFence == s.inFence
    ensures Flush(s).anchorLine == s.anchorLine && Flush(s).anchorText == s.anchorText
    ensures Flush(u).anchorLine == u.anchorLine && Flush(u).anchorText == u.anchorText
  {
    hide ShiftFlat, Tidy, ShiftAll;
    var k := |Flush(s0).done|;
    if waiting {
      assert Flush(s).done[k..] == [];
      assert ShiftAll(idx, d, []) == [];
      assert Flush(s).done[..k] == Flush(s0).done;
      assert Flush(s0).done + [t] + [] == Flush(s0).done + [t];
    } else if s.cur.Some? {
      ShiftAppend(idx, d, s.done, k, s.cur.value);
      Assoc(Flush(s0).done + [t], ShiftAll(idx, d, s.done[k..]), [ShiftFlat(idx, d, s.cur.value)]);
    }
  }

  lemma WaitingHollow(s0: State, t: Flat, idx: nat, d: nat, s: State, u: State, n: nat, raw: string)
    requires InStep(true, s0, t, idx, d, s, u) && !s.inFence && Classify(raw) == Untagged("")
    requires Hollow(s0) && t.items != [] && t.items[|t.items| - 1].body == ""
    ensures InStep(true, s0, t, idx, d, Step(s, n, raw), Step(u, n + d, raw))
  {
    hide Classify, ExtendLast, Flush;
    HollowKeeps(s, n, raw);
    HollowKeeps(u, n + d, raw);
  }

  lemma StartStep(waiting: bool, s0: State, t: Flat, idx: nat, d: nat, s: State, u: State, n: nat, raw: string,
                  hollow: bool)
    requires Good(s0, idx) && InStep(waiting, s0, t, idx, d, s, u) && n > idx
    requires waiting && !Silent(s, raw, hollow) ==> Ends(Classify(raw), 1)
    requires hollow ==> Hollow(s0) && t.items != [] && t.items[|t.items| - 1].body == ""
    ensures InStep(waiting && Silent(s, raw, hollow), s0, t, idx, d, Step(s, n, raw), Step(u, n + d, raw))
  {
    hide Classify, ShiftFlat, ExtendLast, AddReply, NewItem, Strip, Good, Flush, ShiftAll, Hollow;
    FlushInStep(waiting, s0, t, idx, d, s, u);
    if waiting && !s.inFence && hollow && Classify(raw) == Untagged("") {
      WaitingHollow(s0, t, idx, d, s, u, n, raw);
    } else if !Silent(s, raw, false) {
      match Classify(raw) {
        case Untagged(content) =>
          if s.cur.Some? {
            ShiftExtend(idx, d, s.cur.value, content);
          }
        case Tagged(depth, tag) =>
          TaggedDepth(raw);
          var status := if tag.status.Some? then tag.status.value else Open;
          ShiftRoot(idx, d, n, raw, tag, status, s.anchorLine, s.anchorText);
          if s.cur.Some? {
            ShiftAdd(idx, d, s.cur.value, n, depth, raw, tag);
          }
        case Plain =>
      }
    }
  }

  /** The lines `[idx, i)` hold no event. */
  ghost predicate Hush(ls: seq<string>, idx: nat, i: nat, hollow: bool)
    requires i <= |ls|
  {
    forall m :: idx <= m < i ==> Silent(At(ls, m), ls[m], hollow)
  }

  lemma SilentEvent(ls: seq<string>, i: nat, hollow: bool)
    requires i < |ls|
    ensures Silent(At(ls, i), ls[i], hollow) ==>
      NextEvent(ls, i, At(ls, i).inFence, hollow) == NextEvent(ls, i + 1, At(ls, i + 1).inFence, hollow)
    ensures !Silent(At(ls, i), ls[i], hollow) ==> NextEvent(ls, i, At(ls, i).inFence, hollow) == Classify(ls[i])
  {
    hide Classify;
  }

  lemma HushNext(ls: seq<string>, idx: nat, i: nat, hollow: bool)
    requires idx <= i < |ls|
    ensures Hush(ls, idx, i + 1, hollow) <==> Hush(ls, idx, i, hollow) && Silent(At(ls, i), ls[i], hollow)
  {
    hide At, Silent;
  }

  lemma {:induction false} StartSuffix(ls: seq<string>, out: seq<string>, idx: nat, d: nat, i: nat, t: Flat,
                                      hollow: bool)
    requires idx <= i <= |ls| && |out| == |ls| + d && out[idx + d..] == ls[idx..]
    requires !At(ls, idx).inFence && Ends(NextEvent(ls, idx, false, hollow), 1)
    requires hollow ==> Hollow(At(ls, idx)) && t.items != [] && t.items[|t.items| - 1].body == ""
    requires At(out, idx + d) == Flush(At(ls, idx)).(cur := Some(t))
    ensures InStep(Hush(ls, idx, i, hollow), At(ls, idx), t, idx, d, At(ls, i), At(out, i + d))
    ensures Hush(ls, idx, i, hollow) ==>
      NextEvent(ls, i, At(ls, i).inFence, hollow) == NextEvent(ls, idx, false, hollow)
    decreases i
  {
    hide InStep, Step, Classify, Good, Silent, NextEvent, Flush, At, Hush, Hollow;
    var s0 := At(ls, idx);
    AtGood(ls, idx);
    if i == idx {
      StepsBegin(ls, s0, t, idx, d, hollow);
    } else {
      StartSuffix(ls, out, idx, d, i - 1, t, hollow);
      assert out[i + d - 1] == out[idx + d..][i - 1 - idx] == ls[i - 1];
      SilentEvent(ls, i - 1, hollow);
      HushNext(ls, idx, i - 1, hollow);
      AtNext(ls, i - 1);
      AtNext(out, i + d - 1);
      StartStep(Hush(ls, idx, i - 1, hollow), s0, t, idx, d, At(ls, i - 1), At(out, i + d - 1), i, ls[i - 1], hollow);
    }
  }

  lemma StepsBegin(ls: seq<string>, s0: State, t: Flat, idx: nat, d: nat, hollow: bool)
    requires !s0.inFence && idx <= |ls|
    ensures InStep(true, s0, t, idx, d, s0, Flush(s0).(cur := Some(t))) && Hush(ls, idx, idx, hollow)
  {
  }

  // ----- the theorem -----

  function StartItem(ls: seq<string>, idx: nat, speaker: string, message: string): Item
    requires idx <= |ls|
  {
    Written(1, idx + |Before(ls, idx)| + 1, speaker, message)
  }

  function StartSize(ls: seq<string>, idx: nat, message: string): nat
    requires idx <= |ls|
  {
    |Before(ls, idx)| + |Parts(message)| + |After(ls, idx)|
  }

  /** What `start` promises: one new open thread at its place, all others unchanged but for line numbers. */
  ghost predicate Starts(ls: seq<string>, idx: nat, speaker: string, message: string)
    requires idx <= |ls|
  {
    var s := At(ls, idx);
    && |Flush(s).done| <= |Parse(ls)|
    && Parse(StartLines(ls, idx, speaker, message))
       == WithThread(Parse(ls), |Flush(s).done|, idx, StartSize(ls, idx, message),
                     NewThread(s, StartItem(ls, idx, speaker, message)))
  }

  lemma FivePieces<T>(a: seq<T>, b: seq<T>, c: seq<T>, d: seq<T>, e: seq<T>)
    ensures var s, i := a + b + c + d + e, |a| + |b|;
      && |s| == i + |c| + |d| + |e|
      && s[..|a|] == a && s[i..i + |c|] == c && s[i + |c| + |d|..] == e
      && (forall m :: |a| <= m < i ==> s[m] == b[m - |a|])
      && (forall m :: i + |c| <= m < i + |c| + |d| ==> s[m] == d[m - i - |c|])
  {
  }

  lemma BlankAround(ls: seq<string>, idx: nat)
    requires idx <= |ls|
    ensures forall m :: 0 <= m < |Before(ls, idx)| ==> Before(ls, idx)[m] == ""
    ensures forall m :: 0 <= m < |After(ls, idx)| ==> After(ls, idx)[m] == ""
  {
    hide Strip;
  }

  lemma StartPieces(ls: seq<string>, idx: nat, speaker: string, message: string)
    requires idx <= |ls|
    ensures var out, d := SpliceLines(ls, idx, Block(1, speaker, Open, message)), StartSize(ls, idx, message);
      var b := idx + |Before(ls, idx)|;
      && |out| == |ls| + d && out[..idx] == ls[..idx] && out[idx + d..] == ls[idx..]
      && BlockAt(out, b, 1, speaker, message) && b + |Parts(message)| <= idx + d
      && (forall m :: idx <= m < b ==> out[m] == "")
      && (forall m :: b + |Parts(message)| <= m < idx + d ==> out[m] == "")
  {
    hide Parts, HeadLine, Strip, QuoteLine, Before, After;
    var block := Block(1, speaker, Open, message);
    assert |block| == |Parts(message)|;
    BlankAround(ls, idx);
    FivePieces(ls[..idx], Before(ls, idx), block, After(ls, idx), ls[idx..]);
  }

  lemma StartRefines(ls: seq<string>, idx: nat, speaker: string, message: string)
    requires idx <= |ls| && SpeakerOk(speaker) && MessageOk(message)
    requires StartsAfresh(ls, idx, StartItem(ls, idx, speaker, message).body)
    ensures Starts(ls, idx, speaker, message)
  {
    hide At, Parts, Written, SpeakerOk, MessageOk, BlockAt, Classify, NextEvent, SpliceLines, Before, After, Good,
      InStep, Hush, Flush;
    var out, d := StartLines(ls, idx, speaker, message), StartSize(ls, idx, message);
    var b, s, x := idx + |Before(ls, idx)|, At(ls, idx), StartItem(ls, idx, speaker, message);
    StartPieces(ls, idx, speaker, message);
    AtPrefix(out, ls, idx);
    BlankLine();
    BlankRun(out, idx, b);
    BlockReads(out, b, 1, speaker, message);
    BlankRun(out, b + |Parts(message)|, idx + d);
    assert At(out, idx + d) == Flush(s).(cur := Some(NewThread(s, x)));
    var hollow := x.body == "" && Hollow(s);
    StartSuffix(ls, out, idx, d, |ls|, NewThread(s, x), hollow);
    AtGood(ls, idx);
    StartWhole(Hush(ls, idx, |ls|, hollow), s, NewThread(s, x), idx, d, At(ls, |ls|), At(out, |out|));
  }

  lemma StartWhole(waiting: bool, s0: State, t: Flat, idx: nat, d: nat, s: State, u: State)
    requires Good(s0, idx) && InStep(waiting, s0, t, idx, d, s, u)
    ensures |Flush(s0).done| <= |Whole(s)| && Whole(u) == WithThread(Whole(s), |Flush(s0).done|, idx, d, t)
  {
    hide ShiftAll, ShiftFlat, Good, Flush;
    FlushInStep(waiting, s0, t, idx, d, s, u);
    FlushGood(s0, idx);
    ShiftDone(idx, d, Flush(s0));
  }

  // ----- the condition is exact -----

  /** If the new thread appears where it should, its block was read outside a fence, by its speaker. */
  lemma BlockWasRead(out: seq<string>, b: nat, k: nat, speaker: string, message: string, x: Item)
    requires BlockAt(out, b, 1, speaker, message) && |Parts(message)| <= |out| - b
    requires k < |Parse(out)| && Parse(out)[k].items == [x] && x.line == b + 1 && x.speaker == speaker
    ensures SpeakerOk(speaker) && !At(out, b).inFence
  {
    hide At, Parts, SpeakerOk, Classify, BlockAt, HeadLine, NewItem;
    SpeakerFromParse(out, k, 0, b, 1, speaker, message);
    AtBorn(out, |out|);
    assert Born(out, k, 0, Parse(out)[k].items[0]);
    BlockUnfenced(out, b, 1, speaker, message, 1);
  }

  /** No comment of the edited parse stands on the inserted lines, except the new root. */
  lemma OnlyRootLine(ts: seq<Flat>, k: nat, idx: nat, d: nat, t: Flat, a: nat, c: nat)
    requires k <= |ts| && |t.items| == 1
    requires a < |WithThread(ts, k, idx, d, t)| && c < |WithThread(ts, k, idx, d, t)[a].items|
    ensures var n := WithThread(ts, k, idx, d, t)[a].items[c].line; n <= idx || n > idx + d || n == t.items[0].line
  {
  }

  lemma StartNeedsMessage(ts: seq<Flat>, out: seq<string>, k: nat, idx: nat, d: nat, b: nat, speaker: string,
                          message: string, t: Flat)
    requires k <= |ts| && Parse(out) == WithThread(ts, k, idx, d, t) && |t.items| == 1 && t.items[0].line == b + 1
    requires BlockAt(out, b, 1, speaker, message) && |Parts(message)| <= |out| - b
    requires idx <= b && b + |Parts(message)| <= idx + d && !At(out, b).inFence
    ensures MessageOk(message)
  {
    hide At, Parts, Classify, BlockAt, Parse, ParseTag, LStrip, WithThread;
    forall i | 0 < i < |Parts(message)|
      ensures ParseTag(LStrip(Parts(message)[i])).None?
    {
      BlockUnfenced(out, b, 1, speaker, message, i);
      BlockQuote(out, b, 1, speaker, message, i);
      if ParseTag(LStrip(Parts(message)[i])).Some? {
        var a, c := TaggedIsComment(out, b + i + 1);
        OnlyRootLine(ts, k, idx, d, t, a, c);
      }
    }
  }

  lemma StartNeeds(ls: seq<string>, idx: nat, speaker: string, message: string)
    requires idx <= |ls| && Starts(ls, idx, speaker, message)
    ensures SpeakerOk(speaker) && MessageOk(message)
    ensures StartsAfresh(ls, idx, StartItem(ls, idx, speaker, message).body)
  {
    hide At, Parts, Written, SpeakerOk, MessageOk, BlockAt, Classify, NextEvent, SpliceLines, Before, After, Good,
      Flush, Parse, ShiftAll, Hollow;
    var out, d := StartLines(ls, idx, speaker, message), StartSize(ls, idx, message);
    var b, s, x := idx + |Before(ls, idx)|, At(ls, idx), StartItem(ls, idx, speaker, message);
    var k := |Flush(s).done|;
    StartPieces(ls, idx, speaker, message);
    AtPrefix(out, ls, idx);
    BlankLine();
    BlankRun(out, idx, b);
    WrittenIs(1, b + 1, speaker, message);
    assert Parse(out)[k] == NewThread(s, x);
    BlockWasRead(out, b, k, speaker, message, x);
    StartNeedsMessage(Parse(ls), out, k, idx, d, b, speaker, message, NewThread(s, x));
    BlockReads(out, b, 1, speaker, message);
    BlankRun(out, b + |Parts(message)|, idx + d);
    var hollow := x.body == "" && Hollow(s);
    NextEventSuffix(ls, out, idx, d, false, hollow);
    FlushedCur(s, NewThread(s, x));
    NothingFollows(out, idx + d, k, x, hollow);
    var next := NextEvent(ls, idx, false, hollow);
    if next == Untagged("") && !Hollow(s) {
      BodyStays(ls, out, idx, d, NewThread(s, x), k);
    }
  }

  /** A thread that is finished stays as it is. */
  lemma {:induction false} DoneStays(ls: seq<string>, i: nat)
    requires i <= |ls|
    ensures At(ls, i).done <= Parse(ls)
    decreases |ls| - i
  {
    hide Classify, ExtendLast, AddReply, NewItem, Strip;
    if i < |ls| {
      DoneStays(ls, i + 1);
    }
  }

  /** The body of the thread that was open at the insertion is final there; in the old text a quote that follows
      would lengthen it. */
  lemma BodyStays(ls: seq<string>, out: seq<string>, idx: nat, d: nat, t: Flat, k: nat)
    requires idx <= |ls| && idx + d <= |out| && !At(ls, idx).inFence && !Hollow(At(ls, idx))
    requires k == |Flush(At(ls, idx)).done| <= |Parse(ls)| && Parse(out) == WithThread(Parse(ls), k, idx, d, t)
    requires At(out, idx + d).done == Flush(At(ls, idx)).done
    ensures !NextEvent(ls, idx, false, false).Untagged?
  {
    hide At, Parse, NextEvent;
    var s := At(ls, idx);
    DoneStays(out, idx + d);
    assert Parse(out)[k - 1] == s.cur.value;
    assert Parse(out)[k - 1] == ShiftFlat(idx, d, Parse(ls)[k - 1]);
    assert |s.cur.value.items| == |Parse(ls)[k - 1].items|;
    assert forall i :: 0 <= i < |s.cur.value.items| ==> s.cur.value.items[i].body == Parse(ls)[k - 1].items[i].body;
    if NextEvent(ls, idx, false, false).Untagged? { BodyFollows(ls, idx, k - 1); }
  }

  lemma FlushedCur(s: State, t: Flat)
    ensures Flush(s).inFence == s.inFence && Flush(Flush(s).(cur := Some(t))).done == Flush(s).done + [t]
  {
  }

  /** The exact condition for `start`. */
  lemma StartExactly(ls: seq<string>, idx: nat, speaker: string, message: string)
    requires idx <= |ls|
    ensures Starts(ls, idx, speaker, message) <==>
      SpeakerOk(speaker) && MessageOk(message)
      && StartsAfresh(ls, idx, StartItem(ls, idx, speaker, message).body)
  {
    hide Starts, SpeakerOk, MessageOk, StartsAfresh, StartItem;
    if Starts(ls, idx, speaker, message) {
      StartNeeds(ls, idx, speaker, message);
    }
    var body := StartItem(ls, idx, speaker, message).body;
    if SpeakerOk(speaker) && MessageOk(message) && StartsAfresh(ls, idx, body) {
      StartRefines(ls, idx, speaker, message);
    }
  }

  /** If a quote that is no root follows, it goes into the new thread, unless it has no text and nor has the new
      comment. */
  lemma NothingFollows(out: seq<string>, i: nat, k: nat, x: Item, hollow: bool)
    requires i <= |out| && !At(out, i).inFence && |At(out, i).done| == k && (hollow ==> x.body == "")
    requires At(out, i).cur.Some? && At(out, i).cur.value.items == [x]
    requires k < |Parse(out)| && Parse(out)[k].items == [x]
    ensures var next := NextEvent(out, i, false, hollow);
      Ends(next, 1) || (next == Untagged("") && x.body == "")
  {
    hide At, Parse, NextEvent, Classify, Step;
    if !Ends(NextEvent(out, i, false, hollow), 1) {
      var m := EventLine(out, i, hollow);
      QuoteGrows(At(out, m), m + 1, out[m]);
      AtNext(out, m);
      CurInParse(out, m + 1);
    }
  }
}
