/** `reply` refines adding a last child in the target's tree: parsing its output gives the same
    threads with line numbers shifted, and one new comment at the end of the target's subtree. */
module ReplyProof {
  import opened Wrappers
  import opened Text
  import opened Syntax
  import opened Forest
  import opened Scan
  import opened Frame
  import opened Splice
  import opened Blocks

  /** Thread `k` of a parse with `x` added at the end of the subtree of its comment `j`, after `d`
      lines went in at line index `at`. */
  function WithReply(ts: seq<Flat>, k: nat, j: nat, at: nat, d: nat, x: Item): seq<Flat>
    requires k < |ts| && j < |ts[k].items|
  {
    var t := ShiftFlat(at, d, ts[k]);
    ShiftAll(at, d, ts)[k := t.(items := Insert(t.items, SubtreeEnd(ts[k].items, j), x))]
  }

  // ----- the subtree scanner agrees with the parser -----

  /** The open thread holds comment `j`, on `line`, and since then only its descendants. */
  ghost predicate Under(s: State, done: seq<Flat>, j: nat, line: nat, depth: nat) {
    && !s.inFence && s.done == done && s.cur.Some? && j < |s.cur.value.items|
    && s.cur.value.items[j].line == line && s.cur.value.items[j].depth == depth
    && forall i :: j < i < |s.cur.value.items| ==> s.cur.value.items[i].depth > depth
  }

  lemma UnderStep(s: State, done: seq<Flat>, j: nat, line: nat, depth: nat, n: nat, raw: string)
    requires Under(s, done, j, line, depth) && depth >= 1
    requires Classify(raw).Blank? || Classify(raw).Untagged? || (Classify(raw).Tagged? && Classify(raw).depth > depth)
    ensures Under(Step(s, n, raw), done, j, line, depth)
  {
    hide Classify, RStrip, Mentions;
    if Classify(raw).Untagged? {
      ExtendLater(s.cur.value, Classify(raw).content);
      ExtendSize(s.cur.value, Classify(raw).content);
    }
  }

  /** The writer's scanner stops inside the parser's open thread, with the subtree complete so far,
      and only blank lines before the line that stopped it. */
  lemma {:induction false} SubtreeScanAgrees(ls: seq<string>, i: nat, last: nat, done: seq<Flat>, j: nat, line: nat,
                                             depth: nat)
    requires last < i <= |ls| && depth >= 1
    requires Under(At(ls, i), done, j, line, depth)
    requires At(ls, last + 1) == At(ls, i)
    ensures Under(At(ls, SubtreeScan(ls, i, last, depth)), done, j, line, depth)
    decreases |ls| - i
  {
    hide Classify, Under, Step;
    if i < |ls| && !Classify(ls[i]).Fence? && !Classify(ls[i]).Plain?
       && !(Classify(ls[i]).Tagged? && Classify(ls[i]).depth <= depth) {
      UnderStep(At(ls, i), done, j, line, depth, i + 1, ls[i]);
      BlankKeeps(At(ls, i), i + 1, ls[i]);
      SubtreeScanAgrees(ls, i + 1, if Classify(ls[i]).Blank? then last else i, done, j, line, depth);
    }
  }

  lemma BlankKeeps(s: State, n: nat, raw: string)
    ensures Classify(raw).Blank? ==> Step(s, n, raw) == s
  {
    hide Classify;
  }

  /** At the target's line the target is the last comment of the open thread. */
  lemma TargetUnder(ls: seq<string>, k: nat, j: nat)
    requires k < |Parse(ls)| && j < |Parse(ls)[k].items|
    ensures var it := Parse(ls)[k].items[j];
      && 1 <= it.line <= |ls| && it.depth >= 1
      && |At(ls, it.line).done| == k && Under(At(ls, it.line), At(ls, it.line).done, j, it.line, it.depth)
  {
    hide Classify, At, NewItem;
    AtBorn(ls, |ls|);
    ParseTidy(ls);
    assert Born(ls, k, j, Parse(ls)[k].items[j]);
  }

  // ----- the suffix -----

  /** What one thread becomes: shifted, and with `x` after its first `e` comments if its root is on line `r`. */
  function Edit(at: nat, d: nat, r: nat, e: nat, x: Item, t: Flat): Flat {
    var u := ShiftFlat(at, d, t);
    if t.items != [] && t.items[0].line == r && e <= |t.items| then u.(items := Insert(u.items, e, x)) else u
  }

  function EditAll(at: nat, d: nat, r: nat, e: nat, x: Item, ts: seq<Flat>): (us: seq<Flat>)
    ensures |us| == |ts| && forall i :: 0 <= i < |ts| ==> us[i] == Edit(at, d, r, e, x, ts[i])
  {
    seq(|ts|, i requires 0 <= i < |ts| => Edit(at, d, r, e, x, ts[i]))
  }

  function EditState(at: nat, d: nat, r: nat, e: nat, x: Item, s: State): State {
    State(s.inFence, EditAll(at, d, r, e, x, s.done), Shift(at, d, s.anchorLine), s.anchorText,
          match s.cur case None => None case Some(t) => Some(Edit(at, d, r, e, x, t)))
  }

  /** The open thread is the target's and nothing was added to it since the insertion point. */
  predicate Quiet(r: nat, e: nat, s: State) {
    s.cur.Some? && s.cur.value.items != [] && s.cur.value.items[0].line == r && |s.cur.value.items| <= e
  }

  lemma EditExtend(at: nat, d: nat, r: nat, e: nat, x: Item, t: Flat, content: string)
    requires t.items != [] && (t.items[0].line == r ==> |t.items| > e)
    ensures Edit(at, d, r, e, x, ExtendLast(t, content)) == ExtendLast(Edit(at, d, r, e, x, t), content)
  {
    hide Extend;
    ShiftExtend(at, d, t, content);
    ExtendSize(t, content);
    ExtendRoot(t, content);
    var u, v := ShiftFlat(at, d, t), ShiftFlat(at, d, ExtendLast(t, content));
    if t.items[0].line == r {
      assert Insert(v.items, e, x) == ExtendLast(u.(items := Insert(u.items, e, x)), content).items;
    }
  }

  lemma ExtendRoot(t: Flat, content: string)
    requires t.items != []
    ensures ExtendLast(t, content).items != [] && ExtendLast(t, content).items[0].line == t.items[0].line
  {
    hide RStrip, Mentions;
  }

  lemma EditAdd(at: nat, d: nat, r: nat, e: nat, x: Item, t: Flat, n: nat, depth: nat, raw: string, tag: Tag)
    requires t.items != [] && n > at && (t.items[0].line == r ==> |t.items| >= e)
    ensures Edit(at, d, r, e, x, AddReply(t, NewItem(depth, n, raw, tag)))
         == AddReply(Edit(at, d, r, e, x, t), NewItem(depth, n + d, raw, tag))
  {
    hide NewItem;
    ShiftAdd(at, d, t, n, depth, raw, tag);
    var u, y := ShiftFlat(at, d, t), NewItem(depth, n + d, raw, tag);
    if t.items[0].line == r {
      assert Insert(u.items + [y], e, x) == Insert(u.items, e, x) + [y];
    }
  }

  lemma EditRoot(at: nat, d: nat, r: nat, e: nat, x: Item, s: State, n: nat, raw: string, tag: Tag)
    requires n > at && r <= at
    ensures EditState(at, d, r, e, x, OpenRoot(s, n, raw, tag))
      == OpenRoot(EditState(at, d, r, e, x, s), n + d, raw, tag)
  {
    hide RStrip, Mentions, Edit;
    EditFlush(at, d, r, e, x, s);
    var root := OpenRoot(s, n, raw, tag).cur.value;
    FreshEdit(at, d, r, e, x, root, n);
    assert ShiftFlat(at, d, root).items == [NewItem(1, n + d, raw, tag)];
  }

  lemma FreshEdit(at: nat, d: nat, r: nat, e: nat, x: Item, t: Flat, n: nat)
    requires |t.items| == 1 && t.items[0].line == n && n > at && r <= at
    ensures Edit(at, d, r, e, x, t) == ShiftFlat(at, d, t)
  {
  }

  lemma EditFlush(at: nat, d: nat, r: nat, e: nat, x: Item, s: State)
    ensures EditState(at, d, r, e, x, Flush(s)) == Flush(EditState(at, d, r, e, x, s))
  {
    hide Edit;
    if s.cur.Some? {
      assert EditAll(at, d, r, e, x, s.done + [s.cur.value])
        == EditAll(at, d, r, e, x, s.done) + [Edit(at, d, r, e, x, s.cur.value)];
    }
  }

  lemma EditHollow(at: nat, d: nat, r: nat, e: nat, x: Item, t: Flat)
    requires t.items != [] && t.items[0].line == r && |t.items| == e
    requires t.items[e - 1].body == "" && x.body == ""
    ensures ExtendLast(t, "") == t && ExtendLast(Edit(at, d, r, e, x, t), "") == Edit(at, d, r, e, x, t)
  {
    hide ExtendLast;
    HollowQuote(t);
    HollowQuote(Edit(at, d, r, e, x, t));
  }

  lemma EditContinue(at: nat, d: nat, r: nat, e: nat, x: Item, s: State, content: string)
    requires s.cur.Some? && s.cur.value.items != []
    requires s.cur.value.items[0].line == r ==> |s.cur.value.items| >= e
    requires Quiet(r, e, s) ==> content == "" && x.body == "" && Hollow(s)
    ensures Edit(at, d, r, e, x, ExtendLast(s.cur.value, content))
      == ExtendLast(Edit(at, d, r, e, x, s.cur.value), content)
  {
    hide Edit, ExtendLast;
    if Quiet(r, e, s) {
      EditHollow(at, d, r, e, x, s.cur.value);
    } else {
      EditExtend(at, d, r, e, x, s.cur.value, content);
    }
  }

  /** Scanning a line after the insertion commutes with the edit, unless that line gives text to the
      comment before the insertion point. */
  lemma EditStep(at: nat, d: nat, r: nat, e: nat, x: Item, s: State, n: nat, raw: string)
    requires n > at && r <= at && Good(s, n - 1)
    requires s.cur.Some? && s.cur.value.items[0].line == r ==> |s.cur.value.items| >= e
    requires Quiet(r, e, s) && !s.inFence && Classify(raw).Untagged? ==>
      Classify(raw) == Untagged("") && x.body == "" && Hollow(s)
    ensures Step(EditState(at, d, r, e, x, s), n + d, raw) == EditState(at, d, r, e, x, Step(s, n, raw))
  {
    hide Classify, Edit, ExtendLast, AddReply, NewItem, OpenRoot, Strip, EditAll, Hollow, Quiet;
    EditFlush(at, d, r, e, x, s);
    if s.cur.Some? {
      assert s.cur.value.items != [];
    }
    match Classify(raw) {
      case Untagged(content) =>
        if s.cur.Some? && !s.inFence {
          EditContinue(at, d, r, e, x, s, content);
        }
      case Tagged(depth, tag) =>
        EditRoot(at, d, r, e, x, s, n, raw, tag);
        if s.cur.Some? && !s.inFence {
          EditAdd(at, d, r, e, x, s.cur.value, n, depth, raw, tag);
        }
      case _ =>
    }
  }

  /** Thread `k` starts with the comments `items`; the next one, if any, is no deeper than `depth`. */
  ghost predicate Tracks(s: State, k: nat, items: seq<Item>, depth: nat) {
    && k < |Whole(s)| && items <= Whole(s)[k].items
    && (|Whole(s)[k].items| > |items| ==> Whole(s)[k].items[|items|].depth <= depth)
  }

  ghost predicate Safe(ls: seq<string>, i: nat, r: nat, e: nat, depth: nat, hollow: bool)
    requires i <= |ls|
  {
    Quiet(r, e, At(ls, i)) ==>
      Ends(NextEvent(ls, i, At(ls, i).inFence, hollow), depth) && (hollow ==> Hollow(At(ls, i)))
  }

  /** The open thread has its root on line `r` only if it is thread `k`. */
  lemma OnlyTarget(s: State, n: nat, k: nat, items: seq<Item>, depth: nat)
    requires Good(s, n) && Tracks(s, k, items, depth) && items != []
    ensures forall i :: 0 <= i < |Whole(s)| ==> Whole(s)[i].items != []
    ensures forall i :: 0 <= i < |Whole(s)| && Whole(s)[i].items[0].line == items[0].line ==> i == k
    ensures Whole(s)[k].items[0] == items[0] && |Whole(s)[k].items| >= |items| && items[0].line <= n
    ensures s.cur.Some? ==> s.cur.value == Whole(s)[|s.done|]
  {
    FlushGood(s, n);
    var ts := Whole(s);
    hide Tidy, Flush;
    TidySpan(ts[k], Floor(ts, k), n);
    assert ts[k].items[0] == items[0];
    forall i | 0 <= i < |ts|
      ensures ts[i].items != []
      ensures ts[i].items[0].line == items[0].line ==> i == k
    {
      TidySpan(ts[i], Floor(ts, i), n);
      if i < k {
        RootsIncrease(ts, n, i, k);
      } else if k < i {
        RootsIncrease(ts, n, k, i);
      }
    }
    assert s.cur.Some? ==> s.cur.value == ts[|s.done|] by {
      WholeCur(s);
    }
  }

  lemma WholeCur(s: State)
    ensures s.cur.Some? ==> |Whole(s)| == |s.done| + 1 && Whole(s)[|s.done|] == s.cur.value
  {
  }

  lemma TrackStep(ls: seq<string>, i: nat, k: nat, items: seq<Item>, depth: nat, hollow: bool)
    requires i < |ls| && items != [] && Good(At(ls, i), i)
    requires Tracks(At(ls, i), k, items, depth) && Safe(ls, i, items[0].line, |items|, depth, hollow)
    ensures Tracks(At(ls, i + 1), k, items, depth) && Safe(ls, i + 1, items[0].line, |items|, depth, hollow)
  {
    hide Classify, RStrip, Mentions, Strip, ExtendLast, Tidy, OpenRoot, Good;
    var s := At(ls, i);
    OnlyTarget(s, i, k, items, depth);
    if !s.inFence && !Classify(ls[i]).Fence? {
      match Classify(ls[i]) {
        case Tagged(d, tag) =>
          if d == 1 || s.cur.None? {
            OpenRootWhole(s, i + 1, ls[i]);
            NewRootLine(s, i, ls[i]);
          } else {
            TrackAdd(s.cur.value, items, depth, NewItem(d, i + 1, ls[i], tag));
          }
        case Untagged(content) =>
          if Quiet(items[0].line, |items|, s) {
            HollowQuote(s.cur.value);
          } else if s.cur.Some? {
            TrackExtend(s.cur.value, items, depth, content);
            ExtendRoot(s.cur.value, content);
          }
        case _ =>
      }
    }
  }

  lemma TrackAdd(t: Flat, items: seq<Item>, depth: nat, it: Item)
    ensures |AddReply(t, it).items| == |t.items| + 1
    ensures items <= t.items ==> items <= AddReply(t, it).items
    ensures |t.items| > |items| ==> AddReply(t, it).items[|items|] == t.items[|items|]
    ensures |t.items| == |items| ==> AddReply(t, it).items[|items|] == it
    ensures t.items != [] ==> AddReply(t, it).items[0] == t.items[0]
  {
  }

  lemma TrackExtend(t: Flat, items: seq<Item>, depth: nat, content: string)
    ensures |ExtendLast(t, content).items| == |t.items|
    ensures |t.items| > |items| && items <= t.items && t.items[|items|].depth <= depth ==>
      items <= ExtendLast(t, content).items && ExtendLast(t, content).items[|items|].depth <= depth
  {
    hide RStrip, Mentions;
  }

  lemma NewRootLine(s: State, i: nat, raw: string)
    requires Classify(raw).Tagged?
    ensures var t := OpenRoot(s, i + 1, raw, Classify(raw).tag).cur.value;
      |t.items| == 1 && t.items[0].line == i + 1
  {
    hide Classify;
  }

  /** After the insertion both scans run in step. */
  lemma {:induction false} SuffixAgrees(ls: seq<string>, out: seq<string>, at: nat, d: nat, i: nat,
                                        k: nat, items: seq<Item>, depth: nat, x: Item, hollow: bool)
    requires at <= i <= |ls| && |out| == |ls| + d && out[at + d..] == ls[at..]
    requires items != [] && items[0].line <= at
    requires Tracks(At(ls, at), k, items, depth) && Safe(ls, at, items[0].line, |items|, depth, hollow)
    requires hollow ==> x.body == ""
    requires At(out, at + d) == EditState(at, d, items[0].line, |items|, x, At(ls, at))
    ensures Tracks(At(ls, i), k, items, depth) && Safe(ls, i, items[0].line, |items|, depth, hollow)
    ensures At(out, i + d) == EditState(at, d, items[0].line, |items|, x, At(ls, i))
    decreases i
  {
    hide EditState, Tracks, Good, Step;
    if i > at {
      SuffixAgrees(ls, out, at, d, i - 1, k, items, depth, x, hollow);
      AtGood(ls, i - 1);
      var s := At(ls, i - 1);
      TrackStep(ls, i - 1, k, items, depth, hollow);
      OnlyTarget(s, i - 1, k, items, depth);
      assert out[i + d - 1] == out[at + d..][i - 1 - at] == ls[i - 1];
      QuietEvent(ls, i - 1, items[0].line, |items|, depth, hollow);
      EditStep(at, d, items[0].line, |items|, x, s, i, ls[i - 1]);
    }
  }

  lemma QuietEvent(ls: seq<string>, i: nat, r: nat, e: nat, depth: nat, hollow: bool)
    requires i < |ls| && Safe(ls, i, r, e, depth, hollow)
    ensures Quiet(r, e, At(ls, i)) && !At(ls, i).inFence && Classify(ls[i]).Untagged? ==>
      hollow && Classify(ls[i]) == Untagged("") && Hollow(At(ls, i))
  {
    hide Classify, At;
  }

  lemma EditWhole(at: nat, d: nat, r: nat, e: nat, x: Item, s: State)
    ensures Whole(EditState(at, d, r, e, x, s)) == EditAll(at, d, r, e, x, Whole(s))
  {
    hide Edit, EditAll;
    EditFlush(at, d, r, e, x, s);
  }

  // ----- the theorem, line by line -----

  /** The lines of a reply, as the pieces the scan meets. */
  ghost predicate ReplyAt(ls: seq<string>, out: seq<string>, target: Item, speaker: string, message: string, d: nat)
    requires 1 <= target.line <= |ls|
  {
    var at := SubtreeEndIndex(ls, target);
    && out == ReplyLines(ls, target, speaker, message)
    && d == |Parts(message)| + |Gap(ls, at)|
  }

  lemma ReplyPieces(ls: seq<string>, out: seq<string>, target: Item, speaker: string, message: string, d: nat)
    requires 1 <= target.line <= |ls| && ReplyAt(ls, out, target, speaker, message, d)
    ensures var at := SubtreeEndIndex(ls, target);
      && |out| == |ls| + d && out[..at] == ls[..at] && out[at + d..] == ls[at..]
      && BlockAt(out, at, target.depth + 1, speaker, message)
      && forall m :: at + |Parts(message)| <= m < at + d ==> out[m] == ""
  {
    hide Parts, HeadLine, SubtreeEndIndex, Classify, QuoteLine;
    var at := SubtreeEndIndex(ls, target);
    var block, gap := Block(target.depth + 1, speaker, Open, message), Gap(ls, at);
    assert |block| == |Parts(message)|;
    Pieces(ls[..at], block, gap, ls[at..]);
  }

  lemma Pieces<T>(a: seq<T>, b: seq<T>, c: seq<T>, d: seq<T>)
    ensures var s := a + b + c + d;
      && s[..|a|] == a && s[|a|..|a| + |b|] == b && s[|a| + |b|..|a| + |b| + |c|] == c
      && s[|a| + |b| + |c|..] == d
      && forall m :: |a| + |b| <= m < |a| + |b| + |c| ==> s[m] == c[m - |a| - |b|]
  {
  }

  /** Just after the block, the state is the edited one. */
  lemma EditAtInsertion(s: State, at: nat, d: nat, k: nat, x: Item, depth: nat)
    requires Good(s, at) && s.cur.Some? && |s.done| == k && s.cur.value.items != []
    ensures var items := s.cur.value.items;
      && EditState(at, d, items[0].line, |items|, x, s) == s.(cur := Some(AddReply(s.cur.value, x)))
      && Tracks(s, k, items, depth)
  {
    hide Tidy, ShiftFlat;
    var t := s.cur.value;
    var r, e := t.items[0].line, |t.items|;
    WholeCur(s);
    ShiftDone(at, d, s);
    assert Tracks(s, k, t.items, depth);
    OnlyTarget(s, at, k, t.items, depth);
    forall i | 0 <= i < |s.done|
      ensures Edit(at, d, r, e, x, s.done[i]) == s.done[i]
    {
      assert Whole(s)[i] == s.done[i];
      assert ShiftAll(at, d, s.done)[i] == s.done[i];
    }
    assert EditAll(at, d, r, e, x, s.done) == s.done;
    assert Insert(t.items, e, x) == t.items + [x];
  }

  lemma AfterBlock(ls: seq<string>, out: seq<string>, target: Item, speaker: string, message: string, d: nat)
    requires 1 <= target.line <= |ls| && ReplyAt(ls, out, target, speaker, message, d) && target.depth >= 1
    requires SpeakerOk(speaker) && MessageOk(message)
    requires var s := At(ls, SubtreeEndIndex(ls, target)); !s.inFence && s.cur.Some?
    ensures var at := SubtreeEndIndex(ls, target);
      var s := At(ls, at);
      && |out| == |ls| + d && out[at + d..] == ls[at..]
      && At(out, at + d) == s.(cur := Some(AddReply(s.cur.value, Written(target.depth + 1, at + 1, speaker, message))))
  {
    hide ReplyAt, Parts, Written, At, BlockAt, Classify, SpeakerOk, MessageOk;
    var at := SubtreeEndIndex(ls, target);
    ReplyPieces(ls, out, target, speaker, message, d);
    ReplyLen(ls, out, target, speaker, message, d);
    AtPrefix(out, ls, at);
    BlockReads(out, at, target.depth + 1, speaker, message);
    BlankLine();
    BlankRun(out, at + |Parts(message)|, at + d);
  }

  lemma ReplyLen(ls: seq<string>, out: seq<string>, target: Item, speaker: string, message: string, d: nat)
    requires 1 <= target.line <= |ls| && ReplyAt(ls, out, target, speaker, message, d)
    ensures d >= |Parts(message)|
  {
  }

  /** The reply's own comment and where it stands. */
  function ReplyItem(ls: seq<string>, target: Item, speaker: string, message: string): Item
    requires 1 <= target.line <= |ls|
  {
    Written(target.depth + 1, SubtreeEndIndex(ls, target) + 1, speaker, message)
  }

  function ReplySize(ls: seq<string>, target: Item, message: string): nat
    requires 1 <= target.line <= |ls|
  {
    |Parts(message)| + |Gap(ls, SubtreeEndIndex(ls, target))|
  }

  /** Nothing after the insertion point still belongs to the target, in the parser's reading. A quote without
      text does not count when neither the new comment nor the one before it has a body. */
  predicate SubtreeEnds(ls: seq<string>, target: Item, body: string)
    requires 1 <= target.line <= |ls|
  {
    var at := SubtreeEndIndex(ls, target);
    Ends(NextEvent(ls, at, false, body == "" && Hollow(At(ls, at))), target.depth)
  }

  /** What `reply` promises: the parse of its output is the old parse with one more last child. */
  ghost predicate Refines(ls: seq<string>, k: nat, j: nat, speaker: string, message: string) {
    && k < |Parse(ls)| && j < |Parse(ls)[k].items| && 1 <= Parse(ls)[k].items[j].line <= |ls|
    && var target := Parse(ls)[k].items[j];
      Parse(ReplyLines(ls, target, speaker, message))
      == WithReply(Parse(ls), k, j, SubtreeEndIndex(ls, target), ReplySize(ls, target, message),
                   ReplyItem(ls, target, speaker, message))
  }

  /** The state at the insertion point: the target's thread is open and ends with its subtree. */
  lemma AtInsertion(ls: seq<string>, k: nat, j: nat)
    requires k < |Parse(ls)| && j < |Parse(ls)[k].items|
    ensures var it := Parse(ls)[k].items[j];
      && 1 <= it.line <= |ls| && it.depth >= 1
      && var s := At(ls, SubtreeEndIndex(ls, it));
        |s.done| == k && Under(s, s.done, j, it.line, it.depth) && Good(s, SubtreeEndIndex(ls, it))
  {
    hide At, Under, Good;
    TargetUnder(ls, k, j);
    var it := Parse(ls)[k].items[j];
    var done := At(ls, it.line).done;
    SubtreeScanAgrees(ls, it.line, it.line - 1, done, j, it.line, it.depth);
    UnderDone(At(ls, SubtreeEndIndex(ls, it)), done, j, it.line, it.depth);
    AtGood(ls, SubtreeEndIndex(ls, it));
  }

  lemma UnderDone(s: State, done: seq<Flat>, j: nat, line: nat, depth: nat)
    requires Under(s, done, j, line, depth)
    ensures s.done == done && !s.inFence && s.cur.Some? && j < |s.cur.value.items|
  {
  }

  /** `reply` adds exactly the written comment as the target's new last child. */
  lemma ReplyRefines(ls: seq<string>, k: nat, j: nat, speaker: string, message: string)
    requires k < |Parse(ls)| && j < |Parse(ls)[k].items|
    requires SpeakerOk(speaker) && MessageOk(message)
    requires var target := Parse(ls)[k].items[j];
      1 <= target.line <= |ls| ==> SubtreeEnds(ls, target, ReplyItem(ls, target, speaker, message).body)
    ensures Refines(ls, k, j, speaker, message)
  {
    hide At, Good, Parts, Written, Tracks, EditState, SpeakerOk, MessageOk, ReplyLines, SubtreeEndIndex, Classify;
    AtInsertion(ls, k, j);
    var it := Parse(ls)[k].items[j];
    var at, out := SubtreeEndIndex(ls, it), ReplyLines(ls, it, speaker, message);
    var s, d, x := At(ls, at), ReplySize(ls, it, message), ReplyItem(ls, it, speaker, message);
    UnderDone(s, s.done, j, it.line, it.depth);
    var items := s.cur.value.items;
    AfterBlock(ls, out, it, speaker, message, d);
    EditAtInsertion(s, at, d, k, x, it.depth);
    OnlyTarget(s, at, k, items, it.depth);
    SuffixAgrees(ls, out, at, d, |ls|, k, items, it.depth, x, x.body == "" && Hollow(s));
    EditWhole(at, d, items[0].line, |items|, x, At(ls, |ls|));
    AtGood(ls, |ls|);
    OnlyTarget(At(ls, |ls|), |ls|, k, items, it.depth);
    Placed(ls, k, j, at, d, items, x);
  }

  lemma Placed(ls: seq<string>, k: nat, j: nat, at: nat, d: nat, items: seq<Item>, x: Item)
    requires k < |Parse(ls)| && j < |Parse(ls)[k].items| && items != [] && j < |items|
    requires Tracks(At(ls, |ls|), k, items, Parse(ls)[k].items[j].depth)
    requires forall i :: j < i < |items| ==> items[i].depth > items[j].depth
    requires items[j].depth == Parse(ls)[k].items[j].depth
    requires forall i :: 0 <= i < |Parse(ls)| ==> Parse(ls)[i].items != []
    requires forall i :: 0 <= i < |Parse(ls)| && Parse(ls)[i].items[0].line == items[0].line ==> i == k
    ensures EditAll(at, d, items[0].line, |items|, x, Parse(ls)) == WithReply(Parse(ls), k, j, at, d, x)
  {
    hide At, Flush, ShiftFlat;
    var ts := Parse(ls);
    assert ts == Whole(At(ls, |ls|));
    assert forall i :: 0 <= i < |items| ==> ts[k].items[i] == items[i];
    SubtreeEndIs(ts[k].items, j, |items|);
  }
}
