/** The full scan of a document as a fold over its lines. A thread under construction is the flat
    sequence of its comments in scan order; `Publish` derives the record a query returns. */
module Scan {
  import opened Wrappers
  import opened Text
  import opened Syntax
  import opened Forest

  /** One discussion thread, before its tree is frozen. */
  datatype Flat = Flat(items: seq<Item>, status: Status, anchorLine: nat, anchorText: string)

  /** Everything the scan remembers between two lines. */
  datatype State = State(
    inFence: bool, done: seq<Flat>, anchorLine: nat, anchorText: string, cur: Option<Flat>)

  const START := State(false, [], 0, "", None)

  const SNIPPET_LEN := 80

  /** A published thread; its id is the number in `T-NNN`. */
  datatype Thread = Thread(
    id: nat, initiator: string, status: Status, lastSpeaker: string, replyCount: nat,
    snippet: string, mentioned: seq<string>, root: Comment,
    totalLines: nat, anchorLine: nat, anchorText: string, rootLine: nat, rootText: string)

  function Flush(s: State): State {
    match s.cur
    case None => s
    case Some(t) => s.(done := s.done + [t], cur := None)
  }

  function NewItem(depth: nat, n: nat, raw: string, tag: Tag): Item {
    Item(depth, tag.speaker, tag.body, n, RStrip(raw), Mentions(tag.body))
  }

  /** A continuation line extends the body and the mentions of one comment. */
  function Extend(it: Item, content: string): Item {
    it.(body := if it.body != "" then it.body + "\n" + RStrip(content) else RStrip(content),
        mentions := it.mentions + Mentions(content))
  }

  function ExtendLast(t: Flat, content: string): Flat {
    if t.items == [] then t
    else t.(items := t.items[..|t.items| - 1] + [Extend(t.items[|t.items| - 1], content)])
  }

  function OpenRoot(s: State, n: nat, raw: string, tag: Tag): State {
    var root := Flat([NewItem(1, n, raw, tag)], if tag.status.Some? then tag.status.value else Open,
                     s.anchorLine, s.anchorText);
    Flush(s).(cur := Some(root))
  }

  function AddReply(t: Flat, it: Item): Flat {
    t.(items := t.items + [it])
  }

  /** One line outside a fence. */
  function Feed(s: State, n: nat, raw: string): State {
    match Classify(raw)
    case Fence => s
    case Blank => s
    case Plain => Flush(s).(anchorLine := n, anchorText := Strip(raw))
    case Untagged(content) =>
      if s.cur.None? then s else s.(cur := Some(ExtendLast(s.cur.value, content)))
    case Tagged(depth, tag) =>
      if depth == 1 || s.cur.None? then OpenRoot(s, n, raw, tag)
      else s.(cur := Some(AddReply(s.cur.value, NewItem(depth, n, raw, tag))))
  }

  function Step(s: State, n: nat, raw: string): State {
    if Classify(raw).Fence? then s.(inFence := !s.inFence)
    else if s.inFence then s
    else Feed(s, n, raw)
  }

  /** The state after the first `i` lines. */
  function At(ls: seq<string>, i: nat): State
    requires i <= |ls|
  {
    if i == 0 then START else Step(At(ls, i - 1), i, ls[i - 1])
  }

  function Parse(ls: seq<string>): seq<Flat> {
    Flush(At(ls, |ls|)).done
  }

  // ----- the published record -----

  function AllMentions(items: seq<Item>): seq<string> {
    if items == [] then [] else AllMentions(items[..|items| - 1]) + items[|items| - 1].mentions
  }

  /** `dict.fromkeys`: first occurrences, in order. */
  function Dedup(ms: seq<string>): (r: seq<string>)
    ensures forall m :: m in r <==> m in ms
    ensures forall i, j :: 0 <= i < j < |r| ==> r[i] != r[j]
  {
    if ms == [] then []
    else
      var r := Dedup(ms[..|ms| - 1]);
      var last := ms[|ms| - 1];
      assert ms == ms[..|ms| - 1] + [last];
      if last in r then r else r + [last]
  }

  /** `normalize` without Unicode composition: strip, and each run of white space is one space. */
  function Normalize(s: string): string {
    Collapse(Strip(s))
  }

  function Collapse(s: string): string
    decreases |s|
  {
    if s == "" then ""
    else if IsSpace(s[0]) then " " + Collapse(s[1 + Span(s[1..], IsSpace)..])
    else [s[0]] + Collapse(s[1..])
  }

  function Take(s: string, n: nat): string {
    if |s| <= n then s else s[..n]
  }

  function Publish(t: Flat, id: nat, total: nat): Thread
    requires t.items != []
  {
    var root, last := t.items[0], t.items[|t.items| - 1];
    Thread(id, root.speaker, t.status, last.speaker, |t.items| - 1,
           Take(Normalize(root.body), SNIPPET_LEN), Dedup(AllMentions(t.items)), Tree(t.items),
           total, t.anchorLine, t.anchorText, root.line, root.text)
  }

  predicate Shapely(ts: seq<Flat>) {
    forall i :: 0 <= i < |ts| ==> IsThread(ts[i].items)
  }

  function PublishAll(ts: seq<Flat>, total: nat): (r: seq<Thread>)
    requires Shapely(ts)
    ensures |r| == |ts|
  {
    seq(|ts|, i requires 0 <= i < |ts| => Publish(ts[i], i + 1, total))
  }

  /** `parse_threads` as a function of the text. */
  function Threads(text: string): seq<Thread> {
    var ls := SplitLines(text);
    ParseShapely(ls);
    PublishAll(Parse(ls), |ls|)
  }

  // ----- invariants of the scan -----

  /** What every thread of a scan of `n` lines looks like. */
  ghost predicate Tidy(t: Flat, lo: nat, hi: nat) {
    && IsThread(t.items)
    && LinesIncrease(t.items)
    && t.anchorLine < t.items[0].line
    && forall i :: 0 <= i < |t.items| ==> lo < t.items[i].line <= hi
  }

  function LastLine(t: Flat): nat {
    if t.items == [] then 0 else t.items[|t.items| - 1].line
  }

  /** The last comment line before thread `i`. */
  function Floor(ts: seq<Flat>, i: nat): nat
    requires i <= |ts|
  {
    if i == 0 then 0 else LastLine(ts[i - 1])
  }

  /** Comment lines increase along the whole scan, within a thread and from thread to thread. */
  ghost predicate Good(s: State, n: nat) {
    && (forall i :: 0 <= i < |s.done| ==> Tidy(s.done[i], Floor(s.done, i), n))
    && (s.cur.Some? ==> Tidy(s.cur.value, Floor(s.done, |s.done|), n))
    && s.anchorLine <= n
  }

  lemma FlushGood(s: State, n: nat)
    requires Good(s, n)
    ensures Good(Flush(s), n)
  {
    hide Tidy, LastLine;
    var f := Flush(s).done;
    assert forall i :: 0 <= i <= |s.done| ==> Floor(f, i) == Floor(s.done, i);
  }

  lemma TidyUp(t: Flat, lo: nat, hi: nat)
    requires Tidy(t, lo, hi)
    ensures Tidy(t, lo, hi + 1) && LastLine(t) <= hi
  {
  }

  lemma GoodUp(s: State, n: nat)
    requires Good(s, n)
    ensures Good(s, n + 1) && Floor(s.done, |s.done|) <= n
  {
    hide Tidy, LastLine;
    forall i | 0 <= i < |s.done|
      ensures Tidy(s.done[i], Floor(s.done, i), n + 1) && LastLine(s.done[i]) <= n
    {
      TidyUp(s.done[i], Floor(s.done, i), n);
    }
    if s.cur.Some? {
      TidyUp(s.cur.value, Floor(s.done, |s.done|), n);
    }
  }

  lemma TidyExtend(t: Flat, lo: nat, hi: nat, content: string)
    requires Tidy(t, lo, hi)
    ensures Tidy(ExtendLast(t, content), lo, hi)
  {
    hide Mentions, RStrip;
    var e := ExtendLast(t, content);
    assert forall i :: 0 <= i < |t.items| ==>
      e.items[i].line == t.items[i].line && e.items[i].depth == t.items[i].depth;
  }

  lemma TidyAdd(t: Flat, lo: nat, hi: nat, it: Item)
    requires Tidy(t, lo, hi) && it.line == hi + 1 && it.depth > 1
    ensures Tidy(AddReply(t, it), lo, hi + 1)
  {
  }

  lemma TidyRoot(t: Flat, lo: nat)
    requires |t.items| == 1 && t.items[0].depth == 1 && lo < t.items[0].line && t.anchorLine < t.items[0].line
    ensures Tidy(t, lo, t.items[0].line)
  {
  }

  lemma TaggedDepth(raw: string)
    requires Classify(raw).Tagged?
    ensures Classify(raw).depth >= 1
  {
    hide ParseTag;
  }

  lemma StepGood(s: State, n: nat, raw: string)
    requires Good(s, n)
    ensures Good(Step(s, n + 1, raw), n + 1)
  {
    hide Classify, Mentions, Strip, RStrip, Tidy, LastLine, ExtendLast, AddReply;
    GoodUp(s, n);
    FlushGood(s, n);
    GoodUp(Flush(s), n);
    match Classify(raw) {
      case Untagged(content) =>
        if s.cur.Some? {
          TidyExtend(s.cur.value, Floor(s.done, |s.done|), n + 1, content);
        }
      case Tagged(depth, tag) =>
        TaggedDepth(raw);
        if depth == 1 || s.cur.None? {
          var r := OpenRoot(s, n + 1, raw, tag);
          TidyRoot(r.cur.value, Floor(r.done, |r.done|));
        } else {
          TidyAdd(s.cur.value, Floor(s.done, |s.done|), n, NewItem(depth, n + 1, raw, tag));
        }
      case _ =>
    }
  }

  lemma StartGood()
    ensures Good(START, 0)
  {
  }

  lemma {:induction false} AtGood(ls: seq<string>, i: nat)
    requires i <= |ls|
    ensures Good(At(ls, i), i)
  {
    hide Step, Good;
    if i == 0 {
      StartGood();
    } else {
      AtGood(ls, i - 1);
      StepGood(At(ls, i - 1), i - 1, ls[i - 1]);
    }
  }

  lemma ParseTidy(ls: seq<string>)
    ensures forall i :: 0 <= i < |Parse(ls)| ==> Tidy(Parse(ls)[i], Floor(Parse(ls), i), |ls|)
  {
    AtGood(ls, |ls|);
    FlushGood(At(ls, |ls|), |ls|);
  }

  lemma ParseShapely(ls: seq<string>)
    ensures Shapely(Parse(ls))
  {
    ParseTidy(ls);
  }

  lemma TidySpan(t: Flat, lo: nat, hi: nat)
    requires Tidy(t, lo, hi)
    ensures IsThread(t.items) && lo < t.items[0].line <= LastLine(t) <= hi
  {
  }

  /** Root lines strictly increase from thread to thread, and threads do not overlap. */
  lemma {:induction false} RootsIncrease(ts: seq<Flat>, n: nat, i: nat, j: nat)
    requires i < j < |ts|
    requires forall k :: 0 <= k < |ts| ==> Tidy(ts[k], Floor(ts, k), n)
    ensures IsThread(ts[i].items) && IsThread(ts[j].items)
    ensures ts[i].items[0].line <= LastLine(ts[i]) < ts[j].items[0].line
  {
    hide Tidy, LastLine;
    TidySpan(ts[i], Floor(ts, i), n);
    TidySpan(ts[j], Floor(ts, j), n);
    if i + 1 < j {
      RootsIncrease(ts, n, i, j - 1);
      TidySpan(ts[j - 1], Floor(ts, j - 1), n);
    }
  }

  lemma RootsOrdered(ls: seq<string>)
    ensures Shapely(Parse(ls))
    ensures forall i, j :: 0 <= i < j < |Parse(ls)| ==> Parse(ls)[i].items[0].line < Parse(ls)[j].items[0].line
  {
    hide Parse, Tidy, LastLine;
    ParseShapely(ls);
    ParseTidy(ls);
    forall i, j | 0 <= i < j < |Parse(ls)|
      ensures Parse(ls)[i].items[0].line < Parse(ls)[j].items[0].line
    {
      RootsIncrease(Parse(ls), |ls|, i, j);
    }
  }
}
