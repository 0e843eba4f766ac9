/** What a parse holds, read off the lines: where threads begin and what they are anchored to, which comment a line
    belongs to, and what each comment says. */
module Meaning {
  import opened Wrappers
  import opened Text
  import opened Syntax
  import opened Forest
  import opened Scan
  import opened Frame
  import opened ReplyProof
  import opened ReplyExact
  import opened StartProof

  /** The fence lines among the first `i`. */
  function Fences(ls: seq<string>, i: nat): nat
    requires i <= |ls|
  {
    if i == 0 then 0 else Fences(ls, i - 1) + if Classify(ls[i - 1]).Fence? then 1 else 0
  }

  /** Line `n` is read: it is no fence, and the fences above it are closed. */
  predicate Outside(ls: seq<string>, n: nat) {
    1 <= n <= |ls| && Fences(ls, n - 1) % 2 == 0 && !Classify(ls[n - 1]).Fence?
  }

  predicate TagAt(ls: seq<string>, n: nat) {
    Outside(ls, n) && Classify(ls[n - 1]).Tagged?
  }

  function TagOf(ls: seq<string>, n: nat): Tag
    requires TagAt(ls, n)
  {
    Classify(ls[n - 1]).tag
  }

  function DepthOf(ls: seq<string>, n: nat): nat
    requires TagAt(ls, n)
  {
    Classify(ls[n - 1]).depth
  }

  predicate ProseAt(ls: seq<string>, n: nat) {
    Outside(ls, n) && Classify(ls[n - 1]).Plain?
  }

  predicate QuoteAt(ls: seq<string>, n: nat) {
    Outside(ls, n) && Classify(ls[n - 1]).Untagged?
  }

  /** A tag from which nothing but blank lines, quotes and fences lead down to line `n`. */
  predicate Leads(ls: seq<string>, m: nat, n: nat) {
    TagAt(ls, m) && forall x :: m < x <= n ==> !ProseAt(ls, x)
  }

  /** A thread is open after line `i`. */
  predicate OpenAfter(ls: seq<string>, i: nat) {
    exists m :: 1 <= m <= i && Leads(ls, m, i)
  }

  /** The tag at line `n` begins a thread: it has depth 1, or no thread is open. */
  predicate Begins(ls: seq<string>, n: nat)
    requires TagAt(ls, n)
  {
    DepthOf(ls, n) == 1 || !OpenAfter(ls, n - 1)
  }

  // ----- the scan's state, read off the lines -----

  lemma {:induction false} FenceParity(ls: seq<string>, i: nat)
    requires i <= |ls|
    ensures At(ls, i).inFence <==> Fences(ls, i) % 2 == 1
  {
    hide Classify, Feed;
    if i > 0 {
      FenceParity(ls, i - 1);
      if !Classify(ls[i - 1]).Fence? { StepFence(At(ls, i - 1), i, ls[i - 1]); }
    }
  }

  lemma TagOrProse(ls: seq<string>, n: nat)
    ensures TagAt(ls, n) ==> 1 <= n <= |ls| && !ProseAt(ls, n) && !QuoteAt(ls, n)
    ensures ProseAt(ls, n) ==> 1 <= n <= |ls| && !QuoteAt(ls, n)
    ensures QuoteAt(ls, n) ==> 1 <= n <= |ls|
  {
    hide Classify;
  }

  lemma OpenNext(ls: seq<string>, i: nat)
    ensures OpenAfter(ls, i + 1) <==> TagAt(ls, i + 1) || (OpenAfter(ls, i) && !ProseAt(ls, i + 1))
  {
    hide TagAt, ProseAt;
    TagOrProse(ls, i + 1);
    if TagAt(ls, i + 1) { assert Leads(ls, i + 1, i + 1); }
    if OpenAfter(ls, i) && !ProseAt(ls, i + 1) {
      var m :| 1 <= m <= i && Leads(ls, m, i);
      assert Leads(ls, m, i + 1);
    }
    if OpenAfter(ls, i + 1) && !TagAt(ls, i + 1) {
      var m :| 1 <= m <= i + 1 && Leads(ls, m, i + 1);
      assert m != i + 1 && Leads(ls, m, i);
    }
  }

  /** What one line does to the open thread and to the anchor. */
  lemma StepOpens(ls: seq<string>, i: nat)
    requires 1 <= i <= |ls|
    ensures var s, t := At(ls, i - 1), At(ls, i);
      && (t.cur.Some? <==> TagAt(ls, i) || (s.cur.Some? && !ProseAt(ls, i)))
      && (ProseAt(ls, i) ==> t.anchorLine == i && t.anchorText == Strip(ls[i - 1]))
      && (!ProseAt(ls, i) ==> t.anchorLine == s.anchorLine && t.anchorText == s.anchorText)
  {
    hide Classify, ExtendLast, NewItem, Strip;
    FenceParity(ls, i - 1);
  }

  lemma {:induction false} ScanOpens(ls: seq<string>, i: nat)
    requires i <= |ls|
    ensures At(ls, i).cur.Some? <==> OpenAfter(ls, i)
  {
    hide At, TagAt, ProseAt, Leads, OpenAfter;
    if i == 0 {
      NoneOpen(ls);
    } else {
      ScanOpens(ls, i - 1);
      OpenNext(ls, i - 1);
      StepOpens(ls, i);
    }
  }

  lemma NoneOpen(ls: seq<string>)
    ensures At(ls, 0).cur.None? && !OpenAfter(ls, 0)
  {
  }

  /** Line `a` is the last line of prose up to line `i`; 0 stands for none. */
  ghost predicate LastProse(ls: seq<string>, a: nat, i: nat) {
    && a <= i && (a > 0 ==> ProseAt(ls, a))
    && forall x :: a < x <= i ==> !ProseAt(ls, x)
  }

  /** The stripped line `a`; nothing for line 0. */
  function ProseText(ls: seq<string>, a: nat): string {
    if 1 <= a <= |ls| then Strip(ls[a - 1]) else ""
  }

  lemma {:induction false} ScanAnchor(ls: seq<string>, i: nat)
    requires i <= |ls|
    ensures var s := At(ls, i);
      && LastProse(ls, s.anchorLine, i)
      && s.anchorText == ProseText(ls, s.anchorLine)
  {
    hide At, TagAt, ProseAt, Strip;
    if i == 0 {
      NoneAnchored(ls);
    } else {
      ScanAnchor(ls, i - 1);
      StepOpens(ls, i);
      assert ProseAt(ls, i) ==> LastProse(ls, i, i);
      assert !ProseAt(ls, i) ==> LastProse(ls, At(ls, i - 1).anchorLine, i);
    }
  }

  lemma NoneAnchored(ls: seq<string>)
    ensures At(ls, 0).anchorLine == 0 && At(ls, 0).anchorText == ""
  {
  }

  // ----- threads -----

  /** What a tag does to the scan. */
  lemma TagStep(ls: seq<string>, n: nat)
    requires TagAt(ls, n)
    ensures var s, t, tag := At(ls, n - 1), At(ls, n), TagOf(ls, n);
      t.cur.Some? &&
      if DepthOf(ls, n) == 1 || s.cur.None?
      then t.cur.value == Flat([NewItem(1, n, ls[n - 1], tag)],
                               if tag.status.Some? then tag.status.value else Open, s.anchorLine, s.anchorText)
      else t.cur.value == AddReply(s.cur.value, NewItem(DepthOf(ls, n), n, ls[n - 1], tag))
  {
    hide Classify, NewItem;
    FenceParity(ls, n - 1);
  }

  /** A comment of the parse, at its birth. */
  lemma BornAt(ls: seq<string>, k: nat, j: nat)
    requires k < |Parse(ls)| && j < |Parse(ls)[k].items|
    ensures var it := Parse(ls)[k].items[j];
      && TagAt(ls, it.line)
      && var s := At(ls, it.line);
        && s.cur.Some? && |s.done| == k && |s.cur.value.items| == j + 1
        && s.cur.value.items[j] == NewItem(it.depth, it.line, ls[it.line - 1], TagOf(ls, it.line))
        && LaterFlat(s.cur.value, Parse(ls)[k])
        && it.speaker == TagOf(ls, it.line).speaker && it.text == RStrip(ls[it.line - 1])
  {
    hide At, Classify, NewItem, RStrip, Later, LaterFlat, TagAt;
    AtBorn(ls, |ls|);
    var it := Parse(ls)[k].items[j];
    assert Born(ls, k, j, it);
    UnfencedTag(ls, it.line);
    CurInParse(ls, it.line);
  }

  lemma UnfencedTag(ls: seq<string>, n: nat)
    requires 1 <= n <= |ls| && Classify(ls[n - 1]).Tagged? && !At(ls, n).inFence
    ensures TagAt(ls, n)
  {
    hide Classify, At;
    FenceParity(ls, n);
  }

  /** Exactly what a thread of the parse is: its first comment is the tag that begins it, with that tag's status,
      and it is anchored at the last line of prose above it. */
  lemma ThreadReads(ls: seq<string>, k: nat)
    requires k < |Parse(ls)|
    ensures var t := Parse(ls)[k];
      && t.items != [] && TagAt(ls, t.items[0].line) && Begins(ls, t.items[0].line)
      && t.status == (match TagOf(ls, t.items[0].line).status case Some(st) => st case None => Open)
      && LastProse(ls, t.anchorLine, t.items[0].line - 1)
      && t.anchorText == ProseText(ls, t.anchorLine)
  {
    hide At, Parse, NewItem, RStrip, Strip, TagAt, OpenAfter, Later, LastProse, TagOf, Begins;
    HasRoot(ls, k);
    BornAt(ls, k, 0);
    TagOrProse(ls, Parse(ls)[k].items[0].line);
    RootStep(ls, Parse(ls)[k].items[0].line);
  }

  /** A tag after which the open thread has one comment. */
  lemma RootStep(ls: seq<string>, n: nat)
    requires TagAt(ls, n) && 1 <= n <= |ls| && At(ls, n).cur.Some? && |At(ls, n).cur.value.items| == 1
    ensures var t := At(ls, n).cur.value;
      && Begins(ls, n)
      && t.status == (match TagOf(ls, n).status case Some(st) => st case None => Open)
      && LastProse(ls, t.anchorLine, n - 1)
      && t.anchorText == ProseText(ls, t.anchorLine)
  {
    hide At, Classify, NewItem, Strip, TagAt, OpenAfter, LastProse, TagOf, DepthOf;
    TagStep(ls, n);
    OpenHasItems(ls, n - 1);
    ScanOpens(ls, n - 1);
    ScanAnchor(ls, n - 1);
  }

  lemma HasRoot(ls: seq<string>, k: nat)
    requires k < |Parse(ls)|
    ensures Parse(ls)[k].items != []
  {
    hide Parse;
    ParseShapely(ls);
  }

  lemma OpenHasItems(ls: seq<string>, i: nat)
    requires i <= |ls|
    ensures At(ls, i).cur.Some? ==> At(ls, i).cur.value.items != []
  {
    hide At;
    AtGood(ls, i);
  }

  // ----- comments -----

  /** The last line before the next tag or line of prose below line `i`. */
  function BodyEnd(ls: seq<string>, i: nat): (e: nat)
    ensures i <= |ls| ==> i <= e <= |ls|
    decreases |ls| - i
  {
    if i >= |ls| || TagAt(ls, i + 1) || ProseAt(ls, i + 1) then i else BodyEnd(ls, i + 1)
  }

  lemma {:induction false} BodyEndIs(ls: seq<string>, i: nat)
    requires i <= |ls|
    ensures forall x :: i < x <= BodyEnd(ls, i) ==> !TagAt(ls, x) && !ProseAt(ls, x)
    ensures BodyEnd(ls, i) < |ls| ==> TagAt(ls, BodyEnd(ls, i) + 1) || ProseAt(ls, BodyEnd(ls, i) + 1)
    decreases |ls| - i
  {
    hide TagAt, ProseAt;
    if !(i >= |ls| || TagAt(ls, i + 1) || ProseAt(ls, i + 1)) { BodyEndIs(ls, i + 1); }
  }

  function ContentOf(ls: seq<string>, n: nat): string
    requires QuoteAt(ls, n)
  {
    Classify(ls[n - 1]).content
  }

  /** The texts of the untagged quotes of the lines `(n, e]`. */
  function Said(ls: seq<string>, n: nat, e: nat): seq<string>
    requires e <= |ls|
  {
    if e <= n then []
    else Said(ls, n, e - 1) + if QuoteAt(ls, e) then [ContentOf(ls, e)] else []
  }

  function Below(parts: seq<string>): string {
    if parts == [] then "" else "\n" + RStrip(parts[0]) + Below(parts[1..])
  }

  /** A body of several lines: no empty lines at its beginning, and none stripped inside. */
  function Paragraphs(first: string, parts: seq<string>): string
    decreases |parts|
  {
    if first != "" || parts == [] then first + Below(parts) else Paragraphs(RStrip(parts[0]), parts[1..])
  }

  function Mentioned(parts: seq<string>): seq<string> {
    if parts == [] then [] else Mentions(parts[0]) + Mentioned(parts[1..])
  }

  lemma {:induction false} BelowSnoc(parts: seq<string>, p: string)
    ensures Below(parts + [p]) == Below(parts) + ("\n" + RStrip(p))
  {
    hide RStrip;
    if parts == [] {
      assert [] + [p] == [p] && [p][1..] == [];
    } else {
      BelowSnoc(parts[1..], p);
      assert (parts + [p])[1..] == parts[1..] + [p];
    }
  }

  lemma {:induction false} ParagraphsSnoc(first: string, parts: seq<string>, p: string)
    ensures Paragraphs(first, parts + [p]) ==
      if Paragraphs(first, parts) != "" then Paragraphs(first, parts) + ("\n" + RStrip(p)) else RStrip(p)
    decreases |parts|
  {
    hide RStrip, Below;
    NoneBelow();
    if first != "" {
      BelowSnoc(parts, p);
    } else if parts == [] {
      assert [] + [p] == [p] && [p][1..] == [];
    } else {
      assert (parts + [p])[1..] == parts[1..] + [p];
      ParagraphsSnoc(RStrip(parts[0]), parts[1..], p);
    }
  }

  lemma NoneBelow()
    ensures Below([]) == ""
  {
  }

  lemma {:induction false} MentionedSnoc(parts: seq<string>, p: string)
    ensures Mentioned(parts + [p]) == Mentioned(parts) + Mentions(p)
  {
    hide Mentions;
    if parts == [] {
      assert [] + [p] == [p] && [p][1..] == [];
    } else {
      MentionedSnoc(parts[1..], p);
      assert (parts + [p])[1..] == parts[1..] + [p];
    }
  }

  /** What is neither tag nor prose at most extends the last comment. */
  lemma QuietStep(ls: seq<string>, i: nat)
    requires 1 <= i <= |ls| && !TagAt(ls, i) && !ProseAt(ls, i)
    requires At(ls, i - 1).cur.Some? && At(ls, i - 1).cur.value.items != []
    ensures var s, t := At(ls, i - 1), At(ls, i);
      && t.done == s.done
      && t.cur == if QuoteAt(ls, i) then Some(ExtendLast(s.cur.value, ContentOf(ls, i))) else s.cur
  {
    hide Classify, ExtendLast;
    FenceParity(ls, i - 1);
  }

  /** A comment with what the lines after its tag add to it. */
  function Grown(it: Item, parts: seq<string>): Item {
    it.(body := Paragraphs(it.body, parts), mentions := it.mentions + Mentioned(parts))
  }

  lemma GrownSnoc(it: Item, parts: seq<string>, p: string)
    ensures Grown(it, parts + [p]) == Extend(Grown(it, parts), p)
  {
    hide Paragraphs, RStrip, Mentions, Mentioned;
    ParagraphsSnoc(it.body, parts, p);
    MentionedSnoc(parts, p);
    var body := Paragraphs(it.body, parts);
    assert body + ("\n" + RStrip(p)) == body + "\n" + RStrip(p);
    assert it.mentions + (Mentioned(parts) + Mentions(p)) == it.mentions + Mentioned(parts) + Mentions(p);
  }

  /** Down to the end of its body a comment is the last one, and has said what stands there. */
  lemma {:induction false} GrowsTo(ls: seq<string>, n: nat, i: nat)
    requires n <= i <= BodyEnd(ls, n) && n <= |ls| && At(ls, n).cur.Some? && At(ls, n).cur.value.items != []
    ensures i <= |ls|
    ensures var s, t := At(ls, n), At(ls, i);
      && t.done == s.done && t.cur.Some? && |t.cur.value.items| == |s.cur.value.items|
      && t.cur.value.items[|s.cur.value.items| - 1] == Grown(s.cur.value.items[|s.cur.value.items| - 1], Said(ls, n, i))
    decreases i - n
  {
    hide At, Classify, TagAt, ProseAt, QuoteAt, Grown, Extend, BodyEnd, Said, ContentOf;
    BodyEndIs(ls, n);
    SaidNext(ls, n, i);
    if i == n {
      GrownNone(At(ls, n).cur.value.items[|At(ls, n).cur.value.items| - 1]);
    } else {
      GrowsTo(ls, n, i - 1);
      QuietStep(ls, i);
      var it := At(ls, n).cur.value.items[|At(ls, n).cur.value.items| - 1];
      assert Said(ls, n, i - 1) + [] == Said(ls, n, i - 1);
      if QuoteAt(ls, i) {
        GrownSnoc(it, Said(ls, n, i - 1), ContentOf(ls, i));
        ExtendLastIs(At(ls, i - 1).cur.value, ContentOf(ls, i));
      }
    }
  }

  lemma ExtendLastIs(t: Flat, content: string)
    requires t.items != []
    ensures var u := ExtendLast(t, content);
      |u.items| == |t.items| && u.items[|t.items| - 1] == Extend(t.items[|t.items| - 1], content)
  {
    hide Extend;
  }

  lemma SaidNext(ls: seq<string>, n: nat, i: nat)
    requires n <= i <= |ls|
    ensures i == n ==> Said(ls, n, i) == []
    ensures i > n ==>
      Said(ls, n, i) == Said(ls, n, i - 1) + if QuoteAt(ls, i) then [ContentOf(ls, i)] else []
  {
    hide Classify, QuoteAt;
  }

  lemma GrownNone(it: Item)
    ensures Grown(it, []) == it
  {
    assert it.mentions + [] == it.mentions && it.body + "" == it.body;
  }

  /** After the end of its body a comment stays as it is. */
  lemma StaysSaid(ls: seq<string>, n: nat)
    requires TagAt(ls, n) && n <= |ls| && At(ls, n).cur.Some? && At(ls, n).cur.value.items != []
    ensures var s := At(ls, n);
      && |s.done| < |Parse(ls)| && |s.cur.value.items| <= |Parse(ls)[|s.done|].items|
      && Parse(ls)[|s.done|].items[|s.cur.value.items| - 1]
         == Grown(s.cur.value.items[|s.cur.value.items| - 1], Said(ls, n, BodyEnd(ls, n)))
  {
    hide At, Parse, Classify, TagAt, ProseAt, Grown, Said, Later;
    var e := BodyEnd(ls, n);
    BodyEndIs(ls, n);
    GrowsTo(ls, n, e);
    CurInParse(ls, e);
    if e == |ls| {
      WholeCurIs(ls);
    } else {
      NextComes(ls, e);
      if At(ls, e + 1).done == At(ls, e).done {
        CurInParse(ls, e + 1);
      } else {
        DoneStays(ls, e + 1);
      }
    }
  }

  lemma WholeCurIs(ls: seq<string>)
    requires At(ls, |ls|).cur.Some?
    ensures Parse(ls) == At(ls, |ls|).done + [At(ls, |ls|).cur.value]
  {
    hide At;
  }

  /** The line after the end of a body adds a comment to the open thread, or finishes it. */
  lemma NextComes(ls: seq<string>, e: nat)
    requires e < |ls| && (TagAt(ls, e + 1) || ProseAt(ls, e + 1)) && At(ls, e).cur.Some?
    ensures var s, t := At(ls, e), At(ls, e + 1);
      || t.done == s.done + [s.cur.value]
      || (t.done == s.done && t.cur.Some? && |t.cur.value.items| == |s.cur.value.items| + 1
          && t.cur.value.items[..|s.cur.value.items|] == s.cur.value.items)
  {
    hide Classify, NewItem, Strip;
    FenceParity(ls, e);
  }

  /** Exactly what a comment of the parse is: it begins its thread if and only if its tag begins one, and it has the
      speaker, the line and the depth of its tag, and says what the tag and the quotes after it say. */
  lemma CommentReads(ls: seq<string>, k: nat, j: nat)
    requires k < |Parse(ls)| && j < |Parse(ls)[k].items|
    ensures var it := Parse(ls)[k].items[j];
      && TagAt(ls, it.line) && it.line <= |ls| && (j == 0 <==> Begins(ls, it.line))
      && it.depth == (if j == 0 then 1 else DepthOf(ls, it.line))
      && it.speaker == TagOf(ls, it.line).speaker && it.text == RStrip(ls[it.line - 1])
      && it.body == Paragraphs(TagOf(ls, it.line).body, Said(ls, it.line, BodyEnd(ls, it.line)))
      && it.mentions == Mentions(TagOf(ls, it.line).body) + Mentioned(Said(ls, it.line, BodyEnd(ls, it.line)))
  {
    hide At, Parse, Classify, NewItem, RStrip, TagAt, OpenAfter, TagOf, DepthOf, BodyEnd, Said, LaterFlat, Begins,
      Grown;
    BornAt(ls, k, j);
    var n := Parse(ls)[k].items[j].line;
    TagOrProse(ls, n);
    StaysSaid(ls, n);
    PlaceOf(ls, n);
    NewItemIs(ls, n, Parse(ls)[k].items[j].depth, Said(ls, n, BodyEnd(ls, n)));
  }

  lemma NewItemIs(ls: seq<string>, n: nat, depth: nat, parts: seq<string>)
    requires TagAt(ls, n) && n <= |ls|
    ensures NewItem(depth, n, ls[n - 1], TagOf(ls, n)).depth == depth
    ensures var x := Grown(NewItem(depth, n, ls[n - 1], TagOf(ls, n)), parts);
      && x.depth == depth && x.body == Paragraphs(TagOf(ls, n).body, parts)
      && x.mentions == Mentions(TagOf(ls, n).body) + Mentioned(parts)
  {
    hide Classify, RStrip, Mentions, Mentioned, Paragraphs, TagAt;
  }

  /** Where the comment of a tag goes. */
  lemma PlaceOf(ls: seq<string>, n: nat)
    requires TagAt(ls, n) && 1 <= n <= |ls| && At(ls, n).cur.Some? && At(ls, n).cur.value.items != []
    ensures var items := At(ls, n).cur.value.items;
      && (|items| == 1 <==> Begins(ls, n))
      && items[|items| - 1].depth == if Begins(ls, n) then 1 else DepthOf(ls, n)
  {
    hide At, Classify, Strip, TagAt, OpenAfter, TagOf, DepthOf;
    TagStep(ls, n);
    OpenHasItems(ls, n - 1);
    ScanOpens(ls, n - 1);
  }
}
