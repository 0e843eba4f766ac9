/** Where the writer puts its lines: the line-level meaning of `reply`, `start`, `set_status` and
    `resolve_all_open`, with the scans that find the insertion points. */
module Splice {
  import opened Wrappers
  import opened Text
  import opened Syntax
  import opened Forest
  import opened Scan

  /** `_subtree_end_index`: `i` is the line under inspection, `last` the last line of the subtree. */
  function SubtreeScan(ls: seq<string>, i: nat, last: nat, depth: nat): (at: nat)
    requires last < i <= |ls|
    ensures last < at <= |ls|
    decreases |ls| - i
  {
    if i == |ls| then last + 1
    else
      match Classify(ls[i])
      case Blank => SubtreeScan(ls, i + 1, last, depth)
      case Fence => last + 1
      case Plain => last + 1
      case Tagged(d, _) => if d <= depth then last + 1 else SubtreeScan(ls, i + 1, i, depth)
      case Untagged(_) => SubtreeScan(ls, i + 1, i, depth)
  }

  function SubtreeEndIndex(ls: seq<string>, it: Item): (at: nat)
    requires 1 <= it.line <= |ls|
    ensures it.line <= at <= |ls|
  {
    SubtreeScan(ls, it.line, it.line - 1, it.depth)
  }

  /** A blank line goes between a reply and a quote that follows it. */
  function Gap(ls: seq<string>, at: nat): seq<string>
    requires at <= |ls|
  {
    if at < |ls| && IsQuote(Classify(ls[at])) then [""] else []
  }

  function ReplyLines(ls: seq<string>, target: Item, speaker: string, message: string): seq<string>
    requires 1 <= target.line <= |ls|
  {
    var at := SubtreeEndIndex(ls, target);
    ls[..at] + Block(target.depth + 1, speaker, Open, message) + Gap(ls, at) + ls[at..]
  }

  /** The line a Python index means: a negative one counts from the end. */
  function Slot(n: nat, i: int): int {
    if i < 0 then n + i else i
  }

  /** `_anchor_insert_index` from line index `i` on: after the first blank line, or the end. None stands for the
      index error of a line too far before the first. */
  function AnchorIndex(ls: seq<string>, i: int): (idx: Option<int>)
    ensures i >= 0 ==> idx.Some? && idx.value >= 0
    ensures idx.Some? ==> -|ls| <= idx.value <= |ls|
    decreases |ls| - i
  {
    if i >= |ls| then Some(|ls|)
    else if i < -|ls| then None
    else if Strip(ls[Slot(|ls|, i)]) != "" then AnchorIndex(ls, i + 1)
    else Some(i + 1)
  }

  function Before(ls: seq<string>, idx: nat): seq<string>
    requires idx <= |ls|
  {
    if idx > 0 && Strip(ls[idx - 1]) != "" then [""] else []
  }

  function After(ls: seq<string>, idx: nat): seq<string>
    requires idx <= |ls|
  {
    if idx < |ls| && Strip(ls[idx]) != "" then [""] else []
  }

  /** `_splice`: the block with blank-line separation on both sides. */
  function SpliceLines(ls: seq<string>, idx: nat, block: seq<string>): seq<string>
    requires idx <= |ls|
  {
    ls[..idx] + Before(ls, idx) + block + After(ls, idx) + ls[idx..]
  }

  /** `_splice` at an index before the first line: the block goes in counted from the end, without a blank line
      before it, and the line looked at for the blank line after it is counted in its own way again. */
  function SpliceFromEnd(ls: seq<string>, idx: int, block: seq<string>): seq<string>
    requires -|ls| <= idx < 0
  {
    var out := ls[..|ls| + idx] + block + ls[|ls| + idx..];
    var end := Slot(|out|, idx + |block|);
    if Strip(out[end]) != "" then out[..end] + [""] + out[end..] else out
  }

  function StartLines(ls: seq<string>, idx: nat, speaker: string, message: string): seq<string>
    requires idx <= |ls|
  {
    SpliceLines(ls, idx, Block(1, speaker, Open, message))
  }

  /** The root line of a thread with a new status; further body lines stay as they are. */
  function RootLine(t: Flat, raw: string, st: Status): string
    requires t.items != []
  {
    match Classify(raw)
    case Tagged(_, tag) => HeadLine(1, t.items[0].speaker, st, Parts(tag.body)[0])
    case _ => raw
  }

  /** `lines[idx] = format_root(...)` for one thread. */
  function StatusLines(ls: seq<string>, t: Flat, st: Status): (r: seq<string>)
    requires t.items != []
    ensures |r| == |ls|
  {
    var n := t.items[0].line;
    if 1 <= n <= |ls| then ls[n - 1 := RootLine(t, ls[n - 1], st)] else ls
  }

  /** The lines after the threads `ts` have been closed one after the other. */
  function ResolveLines(ls: seq<string>, ts: seq<Flat>): (r: seq<string>)
    requires Shapely(ts)
    ensures |r| == |ls|
  {
    if ts == [] then ls
    else
      var before, t := ResolveLines(ls, ts[..|ts| - 1]), ts[|ts| - 1];
      if t.status == Resolved then before else StatusLines(before, t, Resolved)
  }

  function Pending(ts: seq<Flat>): nat {
    if ts == [] then 0 else Pending(ts[..|ts| - 1]) + (if ts[|ts| - 1].status == Resolved then 0 else 1)
  }

  // ----- the condition under which a splice is read as intended -----

  /** The first thing after line index `i` that the parser reads outside fences; `Blank` at the end. With
      `hollow`, quotes without text are passed over too. */
  function NextEvent(ls: seq<string>, i: nat, fenced: bool, hollow: bool): (k: Kind)
    ensures hollow ==> k != Untagged("")
    decreases |ls| - i
  {
    if i >= |ls| then Blank
    else
      match Classify(ls[i])
      case Fence => NextEvent(ls, i + 1, !fenced, hollow)
      case Blank => NextEvent(ls, i + 1, fenced, hollow)
      case k => if fenced || (hollow && k == Untagged("")) then NextEvent(ls, i + 1, fenced, hollow) else k
  }

  /** A quote without text would change nothing now: the comment it would continue has no body. */
  predicate Hollow(s: State) {
    s.cur.Some? && s.cur.value.items != [] ==> s.cur.value.items[|s.cur.value.items| - 1].body == ""
  }

  lemma HollowQuote(t: Flat)
    requires t.items != [] ==> t.items[|t.items| - 1].body == ""
    ensures ExtendLast(t, "") == t
  {
    assert RStrip("") == "" && Mentions("") == [];
    if t.items != [] {
      var last := t.items[|t.items| - 1];
      assert last.mentions + [] == last.mentions;
      assert t.items == t.items[..|t.items| - 1] + [last];
    }
  }

  /** What follows does not belong to a comment of depth `depth` or to its replies. */
  predicate Ends(k: Kind, depth: nat) {
    match k
    case Untagged(_) => false
    case Tagged(d, _) => d <= depth
    case _ => true
  }

  /** No continuation line of the message is itself a speaker tag. */
  predicate MessageOk(message: string) {
    forall i :: 0 < i < |Parts(message)| ==> ParseTag(LStrip(Parts(message)[i])).None?
  }

  /** The comment a written block is meant to be: its head, extended by its tail lines. */
  function Extended(it: Item, parts: seq<string>): Item {
    if parts == [] then it else Extend(Extended(it, parts[..|parts| - 1]), LStrip(parts[|parts| - 1]))
  }

  function HeadItem(depth: nat, line: nat, speaker: string, message: string): Item {
    var part := Parts(message)[0];
    NewItem(depth, line, HeadLine(depth, speaker, Open, part), Tag(speaker, None, Strip(part)))
  }

  function Written(depth: nat, line: nat, speaker: string, message: string): Item {
    Extended(HeadItem(depth, line, speaker, message), Parts(message)[1..])
  }
}
