/** Documents on which the writer's operations do not do what they are for. Each breaks the condition that
    is exact for its operation, with a proper speaker and a one-line message. */
module Counterexamples {
  import opened Wrappers
  import opened Text
  import opened Syntax
  import opened Forest
  import opened Scan
  import opened Splice
  import opened ReplyProof
  import opened ReplyExact
  import opened StartProof
  import opened StatusProof

  lemma FenceLine()
    ensures Classify("```") == Fence
  {
    hide ParseTag;
    NoSpace("```");
  }

  lemma NoSpace(s: string)
    requires s != "" && s[0] in "`*>AByx@z" && s[|s| - 1] in "`*>AByx@zo"
    ensures LStrip(s) == s && Strip(s) == s
  {
    LeanIsFixed(s);
  }

  lemma QuoteLiteral(content: string)
    ensures QuoteLine(1, content) == "> " + content
  {
    assert Quotes(1) == ">";
  }

  lemma PlainQuote()
    ensures Classify("> y") == Untagged("y")
  {
    hide Classify;
    NoSpace("y");
    QuoteLiteral("y");
    assert "> " + "y" == "> y";
    QuoteLineKind(1, "y");
    NoTag();
  }

  lemma NoTag()
    ensures ParseTag("y").None?
  {
    hide TakeWord, AfterBold, NameLen, Strip, Lower, DropAt, StatusOf, LStrip, IsSpace;
    SpanIs("y", IsIdent, 1);
    assert "y"[0..] == "y" && "y"[1..] == "";
    NothingToStrip();
  }

  lemma NothingToStrip()
    ensures LStrip("") == ""
  {
  }

  lemma AnnIsProper()
    ensures SpeakerOk("Ann") && SpeakerOk("Bob")
  {
    assert Lower("Ann")[0] == 'a' && Lower("Bob")[0] == 'b';
    assert |Lower("Ann")| == 3 && |Lower("Bob")| == 3;
  }

  lemma AnnLine()
    ensures Classify("> **Ann:** x") == Tagged(1, Tag("Ann", None, "x"))
  {
    hide Classify, SpeakerOk, TagText, Strip, QuoteLine;
    AnnIsProper();
    SpeakerRoundTrip(1, "Ann", "x");
    AnnText();
    QuoteLiteral("**Ann:** x");
    assert "> " + "**Ann:** x" == "> **Ann:** x";
    NoSpace("x");
  }

  lemma AnnText()
    ensures TagText("Ann", Open, "x") == "**Ann:** x"
  {
    assert StatusMark(Open) + (":**" + " x") == ":** x";
  }

  /** One line that opens a thread, and lines that add no comment. */
  lemma OneThread(ls: seq<string>, i: nat, tag: Tag)
    requires 0 < i <= |ls| && Classify(ls[0]) == Tagged(1, tag) && tag.status.None?
    requires forall m :: 1 <= m < i ==> Classify(ls[m]).Blank? || Classify(ls[m]).Fence? || Classify(ls[m]).Untagged?
    ensures At(ls, i).done == [] && At(ls, i).cur.Some?
    ensures var items := At(ls, i).cur.value.items;
      |items| == 1 && items[0].line == 1 && items[0].depth == 1 && items[0].speaker == tag.speaker
  {
    hide Classify, RStrip, Mentions;
    if i == 1 {
      assert At(ls, 0) == START;
    } else {
      OneThread(ls, i - 1, tag);
    }
  }

  lemma OneThreadParsed(ls: seq<string>, tag: Tag)
    requires ls != [] && Classify(ls[0]) == Tagged(1, tag) && tag.status.None?
    requires forall m :: 1 <= m < |ls| ==> Classify(ls[m]).Blank? || Classify(ls[m]).Fence? || Classify(ls[m]).Untagged?
    ensures |Parse(ls)| == 1 && |Parse(ls)[0].items| == 1
    ensures var it := Parse(ls)[0].items[0]; it.line == 1 && it.depth == 1 && it.speaker == tag.speaker
  {
    hide At, Classify;
    OneThread(ls, |ls|, tag);
  }

  lemma OneLineMessage()
    ensures MessageOk("z") && forall depth: nat, line: nat :: Written(depth, line, "Bob", "z").body == "z"
  {
    hide RStrip, Mentions, Strip;
    assert SplitLines("z") == ["z"] by { LineLenIs("z", 1); assert "z"[..1] == "z"; }
    assert Parts("z") == ["z"];
    assert ["z"][1..] == [];
    NoSpace("z");
  }

  /** A comment that goes on after a code fence: `reply` puts its line before the fence, and the rest of the
      comment becomes part of the reply. */
  lemma ReplyBeforeFence()
    ensures var ls := ["> **Ann:** x", "```", "```", "> y"];
      && |Parse(ls)| == 1 && |Parse(ls)[0].items| == 1
      && SpeakerOk("Bob") && MessageOk("z")
      && !Refines(ls, 0, 0, "Bob", "z")
  {
    hide Classify, Parse, SpeakerOk, MessageOk, Refines, Written;
    var ls := ["> **Ann:** x", "```", "```", "> y"];
    AnnLine();
    FenceLine();
    PlainQuote();
    OneThreadParsed(ls, Tag("Ann", None, "x"));
    AnnIsProper();
    OneLineMessage();
    var it := Parse(ls)[0].items[0];
    assert SubtreeEndIndex(ls, it) == 1;
    assert NextEvent(ls, 3, false, false) == Untagged("y");
    assert NextEvent(ls, 1, false, false) == Untagged("y");
    assert !SubtreeEnds(ls, it, ReplyItem(ls, it, "Bob", "z").body);
    ReplyExactly(ls, 0, 0, "Bob", "z");
  }

  /** A comment that goes on after a blank line: `start` puts the new thread in between, and the rest of the
      comment becomes part of the new thread. */
  lemma StartInsideComment()
    ensures var ls := ["> **Ann:** x", "", "> y"];
      AnchorIndex(ls, 0) == Some(2) && SpeakerOk("Bob") && MessageOk("z") && !Starts(ls, 2, "Bob", "z")
  {
    hide Classify, Parse, SpeakerOk, MessageOk, Starts, Written, At, Strip;
    var ls := ["> **Ann:** x", "", "> y"];
    PlainQuote();
    AnnIsProper();
    OneLineMessage();
    NoSpace("> **Ann:** x");
    EmptyStrip();
    assert AnchorIndex(ls, 1) == Some(2);
    assert NextEvent(ls, 2, false, false) == Untagged("y");
    StartExactly(ls, 2, "Bob", "z");
  }

  lemma EmptyStrip()
    ensures Strip("") == ""
  {
  }

  lemma SpacedReads()
    ensures ReadsIn("**@ foo:** x", "@ foo", "", None, "", " x")
  {
    assert Marker(None) + ("" + (":**" + " x")) == ":** x";
    assert "**@ foo:** x" == "**" + ("@ foo" + ("" + (Marker(None) + ("" + (":**" + " x")))));
  }

  lemma DropSpaced()
    ensures DropAt("@ foo") == " foo"
  {
    SpanIs("@ foo", ch => ch == '@', 1);
    assert "@ foo"[1..] == " foo";
  }

  lemma SpacedTag()
    ensures ParseTag("**@ foo:** x") == Some(Tag(" foo", None, "x"))
  {
    hide TagIn, TagOut, TagPlain, Strip, Lower, DropAt, ReadsIn;
    SpacedReads();
    TagInComplete("**@ foo:** x", "@ foo", "", None, "", " x");
    NoSpace("@ foo");
    DropSpaced();
    NotALabel();
    SpaceThenX();
  }

  lemma NotALabel()
    ensures Lower(" foo") !in LABELS
  {
    assert |Lower(" foo")| == 4 && Lower(" foo")[0] == ' ';
  }

  lemma SpaceThenX()
    ensures Strip(" x") == "x"
  {
    hide IsSpace, Strip;
    SpaceIsSpace();
    StripOf(" ", "x");
    NoSpace("x");
    assert " x" == " " + "x";
  }

  lemma StripOf(ws: string, s: string)
    requires AllSpace(ws)
    ensures Strip(ws + s) == Strip(s)
  {
    LStripSkips(ws, s);
  }

  /** A speaker written with a space after its `@`: its thread cannot be resolved without losing it. */
  lemma SpacedSpeaker()
    ensures var ls := ["> **@ foo:** x"];
      |Parse(ls)| == 1 && Parse(ls)[0].items != [] && Parse(ls)[0].items[0].speaker == " foo"
      && !StatusExact(ls, 0, Resolved)
  {
    hide Classify, Parse, ParseTag, StatusExact, QuoteLine, LStrip, Strip, IsSpace, AllSpace;
    var ls := ["> **@ foo:** x"];
    QuoteLiteral("**@ foo:** x");
    assert "> " + "**@ foo:** x" == "> **@ foo:** x";
    QuoteLineKind(1, "**@ foo:** x");
    NoSpace("**@ foo:** x");
    SpacedTag();
    OneThreadParsed(ls, Tag(" foo", None, "x"));
    SpaceIsSpace();
    StatusExactly(ls, 0, Resolved);
  }
}
