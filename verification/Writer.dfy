/** The write operations on a document's text: relocate the thread, find the place, splice the lines,
    join them again. Each method is proved equal to a function whose meaning the proof modules give. */
module Writer {
  import opened Wrappers
  import opened Text
  import opened Syntax
  import opened Forest
  import opened Scan
  import opened Frame
  import opened Splice
  import opened Blocks
  import opened Locate
  import opened StatusProof
  import Parser

  datatype Failure =
    | NotLocated(found: Found)
    | CommentNotLocated(status: FoundComment)
    | NoSuchLine
    | InvalidStatus
    | NotAllowed

  datatype Result<+T> = Ok(value: T) | Err(failure: Failure)

  // ----- texts from lines -----

  lemma SpliceRenderable(ls: seq<string>, at: nat, mid: seq<string>, nl: bool)
    requires Renderable(ls, nl) && at <= |ls| && Lines(mid) && mid != []
    requires at == |ls| ==> mid[|mid| - 1] != ""
    requires ls == [] ==> !nl
    ensures Renderable(ls[..at] + mid + ls[at..], nl)
  {
    hide OneLine;
    var out := ls[..at] + mid + ls[at..];
    assert forall i :: 0 <= i < |out| ==>
      out[i] == if i < at then ls[i] else if i < at + |mid| then mid[i - at] else ls[i - |mid|];
  }

  lemma PartsLines(body: string)
    ensures Lines(Parts(body))
  {
    RenderSplit(body);
  }

  lemma BlockLines(depth: nat, speaker: string, message: string)
    requires OneLine(speaker) && depth >= 1
    ensures var b := Block(depth, speaker, Open, message);
      Lines(b) && |b| == |Parts(message)| && forall i :: 0 <= i < |b| ==> b[i] != ""
  {
    hide OneLine, Parts, HeadLine, QuoteLine;
    PartsLines(message);
    var b, ps := Block(depth, speaker, Open, message), Parts(message);
    forall i | 0 <= i < |b|
      ensures OneLine(b[i]) && b[i] != ""
    {
      if i == 0 {
        HeadOneLine(depth, speaker, Open, ps[0]);
        HeadNotEmpty(depth, speaker, Open, ps[0]);
      } else {
        assert b[i] == QuoteLine(depth, ps[1..][i - 1]) && ps[1..][i - 1] == ps[i];
        QuoteOneLine(depth, ps[i]);
        QuoteNotEmpty(depth, ps[i]);
      }
    }
  }

  lemma HeadNotEmpty(depth: nat, speaker: string, st: Status, part: string)
    ensures HeadLine(depth, speaker, st, part) != ""
  {
  }

  lemma QuoteNotEmpty(depth: nat, part: string)
    ensures QuoteLine(depth, part) != ""
  {
  }

  lemma EmptyLines(ls: seq<string>)
    requires forall i :: 0 <= i < |ls| ==> ls[i] == ""
    ensures Lines(ls)
  {
  }

  lemma LinesAppend(a: seq<string>, b: seq<string>)
    requires Lines(a) && Lines(b)
    ensures Lines(a + b)
  {
    hide OneLine;
  }

  /** A reply's text splits into the reply's lines. */
  lemma ReplyText(text: string, target: Item, speaker: string, message: string)
    requires 1 <= target.line <= |SplitLines(text)| && OneLine(speaker)
    ensures var out := ReplyLines(SplitLines(text), target, speaker, message);
      SplitLines(Render(out, EndsNl(text))) == out && Renderable(out, EndsNl(text))
  {
    hide OneLine, Parts, HeadLine, QuoteLine, SplitLines, Classify, SubtreeEndIndex, Render, Block;
    RenderSplit(text);
    var ls := SplitLines(text);
    var at := SubtreeEndIndex(ls, target);
    var block, gap := Block(target.depth + 1, speaker, Open, message), Gap(ls, at);
    BlockLines(target.depth + 1, speaker, message);
    EmptyLines(gap);
    LinesAppend(block, gap);
    SpliceRenderable(ls, at, block + gap, EndsNl(text));
    assert ls[..at] + (block + gap) + ls[at..] == ReplyLines(ls, target, speaker, message);
    SplitRender(ReplyLines(ls, target, speaker, message), EndsNl(text));
  }

  lemma StartText(text: string, idx: nat, speaker: string, message: string)
    requires idx <= |SplitLines(text)| && OneLine(speaker)
    ensures var out := StartLines(SplitLines(text), idx, speaker, message);
      SplitLines(Render(out, EndsNl(text))) == out && Renderable(out, EndsNl(text))
  {
    hide OneLine, Parts, HeadLine, QuoteLine, SplitLines, Strip, Render, Block;
    RenderSplit(text);
    var ls := SplitLines(text);
    var block := Block(1, speaker, Open, message);
    BlockLines(1, speaker, message);
    EmptyLines(Before(ls, idx));
    EmptyLines(After(ls, idx));
    LinesAppend(Before(ls, idx), block);
    LinesAppend(Before(ls, idx) + block, After(ls, idx));
    SpliceRenderable(ls, idx, Before(ls, idx) + block + After(ls, idx), EndsNl(text));
    assert ls[..idx] + (Before(ls, idx) + block + After(ls, idx)) + ls[idx..]
      == StartLines(ls, idx, speaker, message);
    SplitRender(StartLines(ls, idx, speaker, message), EndsNl(text));
  }

  /** Rewriting lines as non-empty single lines keeps the text splittable. */
  lemma RewriteText(text: string, out: seq<string>)
    requires |out| == |SplitLines(text)| && Lines(out)
    requires forall i :: 0 <= i < |out| ==> out[i] == SplitLines(text)[i] || out[i] != ""
    ensures SplitLines(Render(out, EndsNl(text))) == out && Renderable(out, EndsNl(text))
  {
    hide OneLine, SplitLines, Render;
    RenderSplit(text);
    SplitRender(out, EndsNl(text));
  }

  // ----- locating -----

  lemma LocatedThread(text: string, tok: Token, id: nat)
    requires LocateSpec(text, tok, id) == Unique(id)
    ensures 1 <= id <= |Threads(text)| && id <= |Parse(SplitLines(text))|
    ensures InText(SplitLines(text), Parse(SplitLines(text))[id - 1])
    ensures Threads(text)[id - 1] == Publish(Parse(SplitLines(text))[id - 1], id, |SplitLines(text)|)
  {
    hide LocateSpec, SplitLines, Parse, Publish, InText;
    FailClosed(text, tok, id);
    ParseShapely(SplitLines(text));
    ParsedInText(SplitLines(text), id - 1);
  }

  /** The thread has comments and all their lines exist. */
  ghost predicate InText(ls: seq<string>, t: Flat) {
    t.items != [] && forall i :: 0 <= i < |t.items| ==> 1 <= t.items[i].line <= |ls|
  }

  lemma ParsedInText(ls: seq<string>, k: nat)
    requires k < |Parse(ls)|
    ensures InText(ls, Parse(ls)[k])
  {
    hide Parse, LinesIncrease, LastLine;
    ParseTidy(ls);
    assert Tidy(Parse(ls)[k], Floor(Parse(ls), k), |ls|);
  }

  // ----- reply -----

  /** The comment a reply goes to: the root, or the one the token finds. */
  function ReplyTarget(root: Comment, replyTo: Option<CommentToken>): FoundComment {
    match replyTo
    case None => OneComment(root)
    case Some(tok) => LocateComment(root, tok)
  }

  lemma TargetIsItem(items: seq<Item>, replyTo: Option<CommentToken>)
    requires items != [] && ReplyTarget(Tree(items), replyTo).OneComment?
    ensures ReplyTarget(Tree(items), replyTo).comment.item in items
  {
    hide LocateComment, Build;
    if replyTo.Some? {
      LocatedIsItem(items, replyTo.value);
    }
  }

  function ReplySpec(text: string, id: nat, tok: Token, speaker: string, message: string,
                     replyTo: Option<CommentToken>): Result<string>
  {
    if LocateSpec(text, tok, id) != Unique(id) then Err(NotLocated(LocateSpec(text, tok, id)))
    else
      LocatedThread(text, tok, id);
      var ls := SplitLines(text);
      var items := Parse(ls)[id - 1].items;
      var target := ReplyTarget(Tree(items), replyTo);
      if !target.OneComment? then Err(CommentNotLocated(target))
      else
        TargetIsItem(items, replyTo);
        Ok(Render(ReplyLines(ls, target.comment.item, speaker, message), EndsNl(text)))
  }

  /** `_subtree_end_index`. */
  method FindSubtreeEnd(ls: seq<string>, it: Item) returns (at: nat)
    requires 1 <= it.line <= |ls|
    ensures at == SubtreeEndIndex(ls, it)
  {
    hide Classify;
    var i := it.line;
    var last: nat := it.line - 1;
    while i < |ls|
      invariant last < i <= |ls|
      invariant SubtreeScan(ls, i, last, it.depth) == SubtreeEndIndex(ls, it)
    {
      var k := Classify(ls[i]);
      if !IsQuote(k) {
        if !k.Blank? {
          break;
        }
        i := i + 1;
        continue;
      }
      if k.Tagged? && k.depth <= it.depth {
        break;
      }
      last := i;
      i := i + 1;
    }
    at := last + 1;
  }

  /** `reply`. */
  method Reply(text: string, id: nat, tok: Token, speaker: string, message: string, replyTo: Option<CommentToken>)
    returns (r: Result<string>)
    ensures r == ReplySpec(text, id, tok, speaker, message, replyTo)
  {
    hide LocateSpec, Tree, LocateComment, Classify, SubtreeEndIndex, Block, SplitLines, Parse, Render, At;
    var found := LocateThread(text, tok, id);
    if found != Unique(id) {
      return Err(NotLocated(found));
    }
    LocatedThread(text, tok, id);
    var ts := Parser.ParseThreads(text);
    var target := ReplyTarget(ts[id - 1].root, replyTo);
    if !target.OneComment? {
      return Err(CommentNotLocated(target));
    }
    TargetIsItem(Parse(SplitLines(text))[id - 1].items, replyTo);
    var lines := SplitLines(text);
    var at := FindSubtreeEnd(lines, target.comment.item);
    var block := Block(target.comment.item.depth + 1, speaker, Open, message);
    var out := lines[..at] + block + lines[at..];
    var nxt := at + |block|;
    if nxt < |out| && IsQuote(Classify(out[nxt])) {
      out := out[..nxt] + [""] + out[nxt..];
      assert out == lines[..at] + block + [""] + lines[at..];
    } else {
      assert out == lines[..at] + block + [] + lines[at..];
    }
    r := Ok(Render(out, EndsNl(text)));
  }

  // ----- start -----

  /** `_anchor_insert_index`. */
  method FindAnchorEnd(ls: seq<string>, anchorLine: int) returns (idx: Option<int>)
    ensures idx == AnchorIndex(ls, anchorLine - 1)
  {
    hide Strip;
    var i := anchorLine - 1;
    if i < -|ls| && i < |ls| {
      return None;
    }
    while i < |ls| && Strip(ls[Slot(|ls|, i)]) != ""
      invariant -|ls| <= i || |ls| <= i
      invariant AnchorIndex(ls, i) == AnchorIndex(ls, anchorLine - 1)
      decreases |ls| - i
    {
      i := i + 1;
    }
    idx := Some(if i < |ls| then i + 1 else |ls|);
  }

  /** `_splice`. */
  method SpliceBlock(ls: seq<string>, at: int, block: seq<string>) returns (out: seq<string>)
    requires -|ls| <= at <= |ls|
    ensures out == if at >= 0 then SpliceLines(ls, at, block) else SpliceFromEnd(ls, at, block)
  {
    hide Strip;
    if at < 0 {
      out := ls[..|ls| + at] + block + ls[|ls| + at..];
      var end := Slot(|out|, at + |block|);
      if Strip(out[end]) != "" {
        out := out[..end] + [""] + out[end..];
      }
      return;
    }
    var idx := at;
    out := ls;
    if idx > 0 && Strip(out[idx - 1]) != "" {
      out := out[..idx] + [""] + out[idx..];
      idx := idx + 1;
    }
    assert out == ls[..at] + Before(ls, at) + ls[at..] && idx == at + |Before(ls, at)|;
    assert out[..idx] == ls[..at] + Before(ls, at) && out[idx..] == ls[at..];
    out := out[..idx] + block + out[idx..];
    var end := idx + |block|;
    assert out[end..] == ls[at..] && out[..end] == ls[..at] + Before(ls, at) + block;
    assert end < |out| ==> out[end] == out[end..][0] == ls[at];
    if end < |out| && Strip(out[end]) != "" {
      out := out[..end] + [""] + out[end..];
    }
    assert out == SpliceLines(ls, at, block);
  }

  /** The text with the block spliced in after the blank line found; the index error of a line too far before the
      first. */
  function StartSpec(text: string, anchorLine: int, speaker: string, message: string): Result<string> {
    var ls := SplitLines(text);
    match AnchorIndex(ls, anchorLine - 1)
    case None => Err(NoSuchLine)
    case Some(idx) =>
      if idx >= 0 then Ok(Render(StartLines(ls, idx, speaker, message), EndsNl(text)))
      else Ok(Render(SpliceFromEnd(ls, idx, Block(1, speaker, Open, message)), EndsNl(text)))
  }

  /** `start`; an anchor line of at least 1 never fails, and gives an insertion point inside the text. */
  method Start(text: string, anchorLine: int, speaker: string, message: string) returns (r: Result<string>)
    ensures r == StartSpec(text, anchorLine, speaker, message)
    ensures anchorLine >= 1 ==> r.Ok?
  {
    hide SplitLines, Block, Render, SpliceLines, AnchorIndex, SpliceFromEnd;
    var lines := SplitLines(text);
    var idx := FindAnchorEnd(lines, anchorLine);
    if idx.None? {
      return Err(NoSuchLine);
    }
    var out := SpliceBlock(lines, idx.value, Block(1, speaker, Open, message));
    r := Ok(Render(out, EndsNl(text)));
  }

  // ----- status -----

  /** `adjudication_owner`: the single party the root comment mentions, if there is exactly one. */
  function AdjudicationOwner(root: Item): Option<string> {
    var ms := Dedup(root.mentions);
    if |ms| == 1 then Some(ms[0]) else None
  }

  /** `is_human_owner`, with the effective display name of the Human given. */
  predicate IsHuman(owner: string, human: string) {
    Strip(owner) != "" && (SpeakerKey(owner) == SpeakerKey("Human") || SpeakerKey(owner) == SpeakerKey(human))
  }

  /** Who may resolve a thread: its adjudicator if its root names one, else its initiator. */
  function MayResolve(root: Item, human: string): set<string> {
    match AdjudicationOwner(root)
    case None => {SpeakerKey(root.speaker)}
    case Some(owner) =>
      if IsHuman(owner, human) then {SpeakerKey(human), SpeakerKey("Human")} else {SpeakerKey(owner)}
  }

  function SetStatusSpec(text: string, id: nat, tok: Token, st: Status, operator: string, human: string)
    : Result<string>
  {
    if st == Open then Err(InvalidStatus)
    else if LocateSpec(text, tok, id) != Unique(id) then Err(NotLocated(LocateSpec(text, tok, id)))
    else
      LocatedThread(text, tok, id);
      var ls := SplitLines(text);
      var t := Parse(ls)[id - 1];
      if st == Resolved && SpeakerKey(operator) !in MayResolve(t.items[0], human) then Err(NotAllowed)
      else Ok(Render(StatusLines(ls, t, st), EndsNl(text)))
  }

  /** `set_status`. */
  method SetStatus(text: string, id: nat, tok: Token, st: Status, operator: string, human: string)
    returns (r: Result<string>)
    ensures r == SetStatusSpec(text, id, tok, st, operator, human)
  {
    hide LocateSpec, Build, Classify, SplitLines, Parse, Render, At, MayResolve, SpeakerKey, HeadLine, Parts, Threads,
      EndsNl, Normalize;
    if st == Open {
      return Err(InvalidStatus);
    }
    var found := LocateThread(text, tok, id);
    if found != Unique(id) {
      return Err(NotLocated(found));
    }
    LocatedThread(text, tok, id);
    var ts := Parser.ParseThreads(text);
    var thread := ts[id - 1];
    if st == Resolved && SpeakerKey(operator) !in MayResolve(thread.root.item, human) {
      return Err(NotAllowed);
    }
    var lines := SplitLines(text);
    RootBorn(lines, id - 1);
    var idx := thread.rootLine - 1;
    lines := lines[idx := HeadLine(1, thread.initiator, st, Parts(Classify(lines[idx]).tag.body)[0])];
    r := Ok(Render(lines, EndsNl(text)));
  }

  lemma ThreadAt(text: string, k: nat)
    requires k < |Threads(text)|
    ensures |Threads(text)| == |Parse(SplitLines(text))| && Parse(SplitLines(text))[k].items != []
    ensures Threads(text)[k] == Publish(Parse(SplitLines(text))[k], k + 1, |SplitLines(text)|)
  {
    hide Publish, Parse, SplitLines;
    ParseShapely(SplitLines(text));
  }

  /** One turn of the closing loop: the root line of an unresolved thread is rewritten in place. */
  method CloseThread(lines: seq<string>, thread: Thread, ghost t: Flat) returns (out: seq<string>, hit: bool)
    requires t.items != [] && thread.initiator == t.items[0].speaker && thread.rootLine == t.items[0].line
    requires thread.status == t.status && 1 <= thread.rootLine <= |lines|
    requires Classify(lines[thread.rootLine - 1]).Tagged?
    ensures out == if t.status == Resolved then lines else StatusLines(lines, t, Resolved)
    ensures hit <==> t.status != Resolved
  {
    hide Classify, HeadLine, Parts;
    out, hit := lines, false;
    if thread.status == Resolved {
      return;
    }
    var idx := thread.rootLine - 1;
    match Classify(lines[idx]) {
      case Tagged(_, tag) =>
        out := lines[idx := HeadLine(1, thread.initiator, Resolved, Parts(tag.body)[0])];
        hit := true;
      case _ =>
    }
  }

  /** `resolve_all_open`. */
  method ResolveAllOpen(text: string) returns (r: string, closed: nat)
    ensures Shapely(Parse(SplitLines(text)))
    ensures r == Render(ResolveLines(SplitLines(text), Parse(SplitLines(text))), EndsNl(text))
    ensures closed == Pending(Parse(SplitLines(text)))
  {
    hide Classify, SplitLines, Parse, Render, Threads, ResolveLines, StatusLines, Pending, IsThread, Normalize, Dedup,
      Tree, RootsApart, Rooted;
    ghost var ls := SplitLines(text);
    ghost var flats := Parse(ls);
    ParseApart(ls);
    ThreadCount(text);
    var lines := SplitLines(text);
    closed := 0;
    var ts := Parser.ParseThreads(text);
    NothingResolved(ls, flats);
    for k := 0 to |ts|
      invariant |lines| == |ls| && Shapely(flats[..k])
      invariant lines == ResolveLines(ls, flats[..k]) && closed == Pending(flats[..k])
    {
      ThreadAt(text, k);
      RootBorn(ls, k);
      ResolveNext(ls, flats, k);
      var hit;
      lines, hit := CloseThread(lines, ts[k], flats[k]);
      if hit {
        closed := closed + 1;
      }
    }
    assert flats[..|flats|] == flats;
    r := Render(lines, EndsNl(text));
  }

  lemma ThreadCount(text: string)
    ensures |Threads(text)| == |Parse(SplitLines(text))|
  {
    hide Parse, SplitLines, Publish;
  }

  lemma NothingResolved(ls: seq<string>, ts: seq<Flat>)
    ensures Shapely(ts[..0]) && ResolveLines(ls, ts[..0]) == ls && Pending(ts[..0]) == 0
  {
    assert ts[..0] == [];
  }

  /** What the closing loop knows at its turn `k`; the line it rewrites is still the original one. */
  lemma ResolveNext(ls: seq<string>, ts: seq<Flat>, k: nat)
    requires Shapely(ts) && RootsApart(ts) && k < |ts| && Rooted(ls, ts[k])
    ensures Shapely(ts[..k]) && Shapely(ts[..k + 1])
    ensures ts[k].items != [] && 1 <= ts[k].items[0].line <= |ls|
    ensures Classify(ResolveLines(ls, ts[..k])[ts[k].items[0].line - 1]).Tagged?
    ensures ResolveLines(ls, ts[..k + 1])
         == if ts[k].status == Resolved then ResolveLines(ls, ts[..k])
            else StatusLines(ResolveLines(ls, ts[..k]), ts[k], Resolved)
    ensures Pending(ts[..k + 1]) == Pending(ts[..k]) + (if ts[k].status == Resolved then 0 else 1)
  {
    hide StatusLines, IsThread, Classify, ResolveLines, At;
    UntouchedYet(ls, ts, k);
    ResolveSnoc(ls, ts[..k], ts[k]);
    assert ts[..k + 1] == ts[..k] + [ts[k]];
  }

  lemma UntouchedYet(ls: seq<string>, ts: seq<Flat>, k: nat)
    requires Shapely(ts) && RootsApart(ts) && k < |ts| && ts[k].items != [] && 1 <= ts[k].items[0].line <= |ls|
    ensures Shapely(ts[..k]) && ResolveLines(ls, ts[..k])[ts[k].items[0].line - 1] == ls[ts[k].items[0].line - 1]
  {
    hide IsThread, ResolveLines;
    Untouched(ls, ts[..k], ts[k].items[0].line - 1);
  }

  lemma ResolveSnoc(ls: seq<string>, ts: seq<Flat>, t: Flat)
    requires Shapely(ts) && IsThread(t.items)
    ensures Shapely(ts + [t])
    ensures ResolveLines(ls, ts + [t])
         == if t.status == Resolved then ResolveLines(ls, ts) else StatusLines(ResolveLines(ls, ts), t, Resolved)
    ensures Pending(ts + [t]) == Pending(ts) + (if t.status == Resolved then 0 else 1)
  {
    hide StatusLines, IsThread;
    assert (ts + [t])[..|ts|] == ts;
  }

  // ----- the gate -----

  function Blockers(ts: seq<Thread>): (ids: seq<nat>)
    ensures ids == [] <==> forall t :: t in ts ==> t.status == Resolved
    ensures forall n :: n in ids ==> exists t :: t in ts && t.id == n && t.status != Resolved
  {
    if ts == [] then []
    else
      var last := ts[|ts| - 1];
      assert ts == ts[..|ts| - 1] + [last];
      Blockers(ts[..|ts| - 1]) + (if last.status == Resolved then [] else [last.id])
  }

  /** `check_ready`: no blockers exactly when every thread of the document is resolved. */
  method CheckReady(text: string) returns (ready: bool, blockers: seq<nat>)
    ensures blockers == Blockers(Threads(text)) && ready == (blockers == [])
    ensures ready <==> AllResolved(Parse(SplitLines(text)))
  {
    hide Threads, Parse, SplitLines, Blockers;
    var ts := Parser.ParseThreads(text);
    blockers := Blockers(ts);
    ready := blockers == [];
    ReadyMeans(text);
  }

  lemma ReadyMeans(text: string)
    ensures Blockers(Threads(text)) == [] <==> AllResolved(Parse(SplitLines(text)))
  {
    hide Threads, Parse, SplitLines;
    var ts, flats := Threads(text), Parse(SplitLines(text));
    ThreadCount(text);
    forall k | 0 <= k < |ts|
      ensures ts[k].status == flats[k].status
    {
      ThreadAt(text, k);
    }
    assert (forall t :: t in ts ==> t.status == Resolved) <==> forall k :: 0 <= k < |ts| ==> ts[k].status == Resolved;
  }
}
