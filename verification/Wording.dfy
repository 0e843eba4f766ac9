/** What the parser's small scanners find, in terms of the characters: the kind of a line, the mentions of a text, and
    the words of a name. */
module Wording {
  import opened Wrappers
  import opened Text
  import opened Syntax
  import opened Forest
  import opened Scan
  import opened Frame
  import opened Locate
  import Parser

  // ----- the kind of a line -----

  /** One way to read a line through `^\s*(```|~~~)`. */
  predicate ReadsFence(raw: string, ws: string, rest: string) {
    AllSpace(ws) && (raw == ws + ("```" + rest) || raw == ws + ("~~~" + rest))
  }

  /** The way to read a line through `^\s*(>+)\s*(.*)$`: the runs of white space and of `>` are as long as can be. */
  predicate ReadsQuote(raw: string, ws: string, depth: nat, ws': string, content: string) {
    && raw == ws + (Quotes(depth) + (ws' + content))
    && AllSpace(ws) && AllSpace(ws') && depth >= 1
    && (content != "" ==> !IsSpace(content[0]))
    && (ws' == "" && content != "" ==> content[0] != '>')
  }

  lemma BlankExactly(raw: string)
    ensures Classify(raw).Blank? <==> AllSpace(raw)
  {
    hide ParseTag, IsSpace, QuoteDepth;
    if AllSpace(raw) { SpanIs(raw, IsSpace, |raw|); }
  }

  lemma FenceExactly(raw: string)
    ensures Classify(raw).Fence? <==> exists ws, rest :: ReadsFence(raw, ws, rest)
  {
    hide Classify, LStrip, IsSpace;
    FenceBegins(raw);
    if Classify(raw).Fence? {
      var ws := LStripFrom(raw);
      var t := LStrip(raw);
      assert t == t[..3] + t[3..];
      assert ReadsFence(raw, ws, t[3..]);
    }
    if ws, rest :| ReadsFence(raw, ws, rest) {
      var t := if raw == ws + ("```" + rest) then "```" + rest else "~~~" + rest;
      FenceMarks();
      LStripTo(ws, t);
    }
  }

  lemma FenceBegins(raw: string)
    ensures Classify(raw).Fence? <==> "```" <= LStrip(raw) || "~~~" <= LStrip(raw)
  {
    hide ParseTag, LStrip, QuoteDepth;
  }

  lemma FenceMarks()
    ensures !IsSpace('`') && !IsSpace('~')
  {
  }

  /** A line that reads as a quote is one: a comment if what is quoted is a tag. */
  lemma QuoteComplete(raw: string, ws: string, depth: nat, ws': string, content: string)
    requires ReadsQuote(raw, ws, depth, ws', content)
    ensures Classify(raw) == match ParseTag(content) case Some(tag) => Tagged(depth, tag) case None => Untagged(content)
  {
    hide ParseTag, LStrip;
    var t := Quotes(depth) + (ws' + content);
    QuoteMark();
    assert t != "" && t[0] == '>';
    LStripTo(ws, t);
    AfterQuotes(depth, ws', content);
    LStripLean(ws', content);
  }

  lemma QuoteMark()
    ensures !IsSpace('>')
  {
  }

  lemma LStripLean(ws: string, s: string)
    requires AllSpace(ws) && (s != "" ==> !IsSpace(s[0]))
    ensures LStrip(ws + s) == s
  {
    LStripSkips(ws, s);
    SpanIs(s, IsSpace, 0);
  }

  lemma AfterQuotes(depth: nat, ws: string, content: string)
    requires AllSpace(ws) && (ws == "" && content != "" ==> content[0] != '>')
    ensures var t := Quotes(depth) + (ws + content); QuoteDepth(t) == depth && t[depth..] == ws + content
  {
    QuoteMark();
    SpanCut(Quotes(depth), ws + content, c => c == '>');
  }

  /** And every quote the parser sees can be read so. */
  lemma QuoteSound(raw: string) returns (ws: string, depth: nat, ws': string, content: string)
    requires IsQuote(Classify(raw))
    ensures ReadsQuote(raw, ws, depth, ws', content)
  {
    hide IsSpace, Classify, LStrip, QuoteDepth;
    QuoteBegins(raw);
    ws := LStripFrom(raw);
    var t := LStrip(raw);
    depth := QuoteDepth(t);
    DepthIs(t);
    ws' := LStripFrom(t[depth..]);
    content := LStrip(t[depth..]);
    LStripFront(t[depth..]);
    assert t == Quotes(depth) + t[depth..];
    assert ws' == "" && content != "" ==> content == t[depth..] && content[0] == t[depth];
  }

  lemma QuoteBegins(raw: string)
    requires IsQuote(Classify(raw))
    ensures LStrip(raw) != "" && LStrip(raw)[0] == '>'
  {
    hide ParseTag, LStrip, QuoteDepth;
  }

  lemma DepthIs(t: string)
    requires t != "" && t[0] == '>'
    ensures var d := QuoteDepth(t); 1 <= d <= |t| && t[..d] == Quotes(d) && (d < |t| ==> t[d] != '>')
  {
  }

  lemma LStripFront(s: string)
    ensures LStrip(s) != "" ==> !IsSpace(LStrip(s)[0])
  {
    hide IsSpace;
  }

  // ----- mentions -----

  /** The length of the name after the `@` at index `i`. */
  function MentionLen(s: string, i: nat): (k: nat)
    requires i < |s|
    ensures i + 1 + k <= |s|
  {
    Span(s[i + 1..], IsIdent)
  }

  /** The mention that begins at index `i`. */
  function MentionAt(s: string, i: nat): Option<string>
    requires i < |s|
  {
    if s[i] == '@' && i + 1 < |s| && IsIdentStart(s[i + 1]) then Some(s[i + 1..i + 1 + MentionLen(s, i)])
    else None
  }

  /** The mentions that begin at `i` or later, wherever they begin. */
  function MentionsFrom(s: string, i: nat): seq<string>
    requires i <= |s|
    decreases |s| - i
  {
    if i == |s| then []
    else (match MentionAt(s, i) case Some(m) => [m] case None => []) + MentionsFrom(s, i + 1)
  }

  lemma {:induction false} NoMention(s: string, i: nat, j: nat)
    requires i <= j <= |s| && forall x :: i <= x < j ==> s[x] != '@'
    ensures MentionsFrom(s, i) == MentionsFrom(s, j)
    decreases j - i
  {
    if i < j { NoMention(s, i + 1, j); }
  }

  /** One step of the search, on what is left of `s` at index `i`. */
  lemma MentionsStep(s: string, i: nat)
    requires i < |s|
    ensures Mentions(s[i..]) ==
      match MentionAt(s, i)
      case Some(m) => [m] + Mentions(s[i + 1 + MentionLen(s, i)..])
      case None => Mentions(s[i + 1..])
  {
    hide IsIdent, IsIdentStart;
    var t := s[i..];
    assert t[1..] == s[i + 1..];
    if MentionAt(s, i).Some? {
      var k := MentionLen(s, i);
      assert t[1..1 + k] == s[i + 1..i + 1 + k] && t[1 + k..] == s[i + 1 + k..];
    }
  }

  lemma {:induction false} MentionsAt(s: string, i: nat)
    requires i <= |s|
    ensures Mentions(s[i..]) == MentionsFrom(s, i)
    decreases |s| - i
  {
    hide Mentions, MentionAt, MentionLen, IsIdent, IsIdentStart;
    if i < |s| {
      MentionsStep(s, i);
      if MentionAt(s, i).Some? {
        var k := MentionLen(s, i);
        NameHasNoAt(s, i);
        NoMention(s, i + 1, i + 1 + k);
        MentionsAt(s, i + 1 + k);
      } else {
        MentionsAt(s, i + 1);
      }
    } else {
      NoMentions(s[i..]);
    }
  }

  lemma NameHasNoAt(s: string, i: nat)
    requires i < |s|
    ensures forall x :: i + 1 <= x < i + 1 + MentionLen(s, i) ==> s[x] != '@'
  {
    forall x | i + 1 <= x < i + 1 + MentionLen(s, i) ensures s[x] != '@' {
      assert IsIdent(s[i + 1..][x - i - 1]);
    }
  }

  lemma NoMentions(s: string)
    requires s == ""
    ensures Mentions(s) == []
  {
  }

  /** The mentions found are those that begin anywhere in the text, in order. */
  lemma MentionsExactly(s: string)
    ensures Mentions(s) == MentionsFrom(s, 0)
  {
    MentionsAt(s, 0);
    assert s[0..] == s;
  }

  // ----- names -----

  /** The words of a text: its longest runs without white space. */
  function Words(s: string): seq<string>
    decreases |s|
  {
    var t := LStrip(s);
    if t == "" then [] else
      var k := Span(t, c => !IsSpace(c));
      [t[..k]] + Words(t[k..])
  }

  function Spaced(words: seq<string>): string {
    if words == [] then "" else if |words| == 1 then words[0] else words[0] + " " + Spaced(words[1..])
  }

  predicate Solid(w: string) {
    w != "" && forall i :: 0 <= i < |w| ==> !IsSpace(w[i])
  }

  lemma WordsStep(w: string, r: string)
    requires Solid(w) && (r != "" ==> IsSpace(r[0]))
    ensures Words(w + r) == [w] + Words(r)
  {
    hide IsSpace;
    SpanIs(w + r, IsSpace, 0);
    assert LStrip(w + r) == w + r;
    SpanCut(w, r, c => !IsSpace(c));
  }

  lemma WordsStrip(ws: string, r: string)
    requires AllSpace(ws)
    ensures Words(ws + r) == Words(r)
  {
    LStripSkips(ws, r);
  }

  /** A text that does not begin with white space is a word and what follows it. */
  lemma FirstWord(t: string) returns (w: string, ws: string, r: string)
    requires t != "" && !IsSpace(t[0])
    ensures Solid(w) && AllSpace(ws) && t == w + (ws + r) && (r != "" ==> ws != "" && !IsSpace(r[0]))
    ensures |r| < |t|
  {
    hide IsSpace;
    var k := Span(t, c => !IsSpace(c));
    w := t[..k];
    ws := LStripFrom(t[k..]);
    r := LStrip(t[k..]);
    LStripFront(t[k..]);
    assert t == w + t[k..];
    assert ws == "" ==> r == t[k..];
  }

  lemma {:induction false} CollapseWord(w: string, r: string)
    requires forall i :: 0 <= i < |w| ==> !IsSpace(w[i])
    ensures Collapse(w + r) == w + Collapse(r)
  {
    hide IsSpace;
    if w == "" {
      assert w + r == r;
    } else {
      assert (w + r)[1..] == w[1..] + r;
      CollapseWord(w[1..], r);
      assert [w[0]] + (w[1..] + Collapse(r)) == w + Collapse(r);
    }
  }

  lemma CollapseSpace(ws: string, r: string)
    requires ws != "" && AllSpace(ws) && (r != "" ==> !IsSpace(r[0]))
    ensures Collapse(ws + r) == " " + Collapse(r)
  {
    hide IsSpace;
    var t := ws + r;
    assert t[1..] == ws[1..] + r;
    SpanCut(ws[1..], r, IsSpace);
    assert t[1 + (|ws| - 1)..] == r;
  }

  lemma {:induction false} CollapseWords(t: string)
    requires t != "" ==> !IsSpace(t[0]) && !IsSpace(t[|t| - 1])
    ensures Collapse(t) == Spaced(Words(t))
    decreases |t|
  {
    hide Collapse, Words, IsSpace;
    if t == "" {
      NoWords();
    } else {
      var w, ws, r := FirstWord(t);
      EndsInWord(t, w, ws, r);
      CollapseWord(w, ws + r);
      WordsStep(w, ws + r);
      WordsStrip(ws, r);
      CollapseWords(r);
      if r == "" {
        NoWords();
        assert ws + r == "";
      } else {
        CollapseSpace(ws, r);
        SomeWords(r);
        assert w + (" " + Collapse(r)) == w + " " + Collapse(r);
        assert ([w] + Words(r))[1..] == Words(r);
      }
    }
  }

  lemma NoWords()
    ensures Words("") == [] && Collapse("") == ""
  {
  }

  lemma SomeWords(r: string)
    requires r != "" && !IsSpace(r[0])
    ensures Words(r) != []
  {
    hide IsSpace;
    SpanIs(r, IsSpace, 0);
  }

  lemma EndsInWord(t: string, w: string, ws: string, r: string)
    requires t == w + (ws + r) && AllSpace(ws) && Solid(w) && t != "" && !IsSpace(t[|t| - 1])
    ensures r == "" ==> ws == ""
    ensures r != "" ==> !IsSpace(r[|r| - 1])
  {
    hide IsSpace;
    assert r == "" ==> t == w + ws;
  }

  /** White space at the end adds no words. */
  lemma {:induction false} WordsEnd(t: string, ws: string)
    requires AllSpace(ws)
    ensures Words(t + ws) == Words(t)
    decreases |t|
  {
    hide Words, IsSpace;
    var a := LStripFrom(t);
    var u := LStrip(t);
    LStripFront(t);
    WordsStrip(a, u);
    assert t + ws == a + (u + ws);
    WordsStrip(a, u + ws);
    if u == "" {
      assert u + ws == ws + "";
      WordsStrip(ws, "");
    } else {
      var w, b, r := FirstWord(u);
      assert u + ws == w + (b + r + ws);
      WordsStep(w, b + r);
      SpaceFirst(b, r, ws);
      WordsStep(w, b + r + ws);
      WordsStrip(b, r);
      assert b + r + ws == b + (r + ws);
      WordsStrip(b, r + ws);
      WordsEnd(r, ws);
    }
  }

  lemma SpaceFirst(b: string, r: string, ws: string)
    requires AllSpace(b) && AllSpace(ws) && (r != "" ==> b != "")
    ensures b + r + ws != "" ==> IsSpace((b + r + ws)[0])
  {
    hide IsSpace;
  }

  /** A normalized name is its words with single spaces between them. */
  lemma NormalizeExactly(s: string)
    ensures Normalize(s) == Spaced(Words(s))
  {
    hide Collapse, Words, IsSpace, LStrip, RStrip;
    var a := LStripFrom(s);
    var t := LStrip(s);
    WordsStrip(a, t);
    var ws := RStripFrom(t);
    WordsEnd(RStrip(t), ws);
    StrippedEnds(s);
    CollapseWords(Strip(s));
  }

  lemma RStripFrom(t: string) returns (ws: string)
    ensures AllSpace(ws) && t == RStrip(t) + ws
  {
    hide IsSpace;
    ws := t[Back(t, |t|)..];
  }

  lemma StrippedEnds(s: string)
    ensures Strip(s) == RStrip(LStrip(s))
    ensures Strip(s) != "" ==> !IsSpace(Strip(s)[0]) && !IsSpace(Strip(s)[|Strip(s)| - 1])
  {
    hide IsSpace;
    StripIsLean(s);
  }

  /** Two names have one key exactly if their words agree up to the case of their letters. */
  lemma SameKey(a: string, b: string)
    ensures SpeakerKey(a) == SpeakerKey(b) <==> SameLetters(Spaced(Words(a)), Spaced(Words(b)))
  {
    hide Normalize, Words, Spaced, SameLetters, Lower;
    NormalizeExactly(a);
    NormalizeExactly(b);
    LowerExactly(Spaced(Words(a)), Spaced(Words(b)));
  }

  /** The same character, or one letter in both cases. */
  predicate SameLetter(c: char, d: char) {
    || c == d
    || ('A' <= c <= 'Z' && d as int == c as int + 32)
    || ('A' <= d <= 'Z' && c as int == d as int + 32)
  }

  predicate SameLetters(a: string, b: string) {
    |a| == |b| && forall i :: 0 <= i < |a| ==> SameLetter(a[i], b[i])
  }

  lemma LowerExactly(a: string, b: string)
    ensures Lower(a) == Lower(b) <==> SameLetters(a, b)
  {
    if Lower(a) == Lower(b) {
      assert |a| == |Lower(a)| == |b|;
      forall i | 0 <= i < |a| ensures LowerChar(a[i]) == LowerChar(b[i]) {
        assert Lower(a)[i] == Lower(b)[i];
      }
    }
  }

  // ----- speaker tags -----

  /** `c` reads through the first of the three tag expressions that it can be read through at all. */
  ghost predicate FirstReads(c: string, g: Groups) {
    || InReads(c, g)
    || (OutReads(c, g) && forall h :: !InReads(c, h))
    || (PlainReads(c, g) && forall h :: !InReads(c, h) && !OutReads(c, h))
  }

  ghost predicate InReads(c: string, g: Groups) {
    exists name, ws, ws' :: ReadsIn(c, name, ws, g.word, ws', g.rest) && g.name == Strip(name)
  }

  ghost predicate OutReads(c: string, g: Groups) {
    exists name, ws, ws' :: ReadsOut(c, name, ws, g.word, ws', g.rest) && g.name == Strip(name)
  }

  ghost predicate PlainReads(c: string, g: Groups) {
    g.word.None? && exists at, name, ws :: ReadsPlain(c, at, name, ws, g.rest) && g.name == at + name
  }

  /** `speaker` is the name without the `@`s at its front. */
  predicate Bare(name: string, speaker: string) {
    && |speaker| <= |name| && speaker == name[|name| - |speaker|..] && (speaker != "" ==> speaker[0] != '@')
    && forall i :: 0 <= i < |name| - |speaker| ==> name[i] == '@'
  }

  predicate IsLabel(speaker: string) {
    exists l :: l in LABELS && SameLetters(speaker, l)
  }

  /** The status that a word in brackets stands for. */
  predicate Stands(word: Option<string>, st: Option<Status>) {
    match st
    case Some(Open) => word.Some? && SameLetters(word.value, "open")
    case Some(Resolved) => word.Some? && SameLetters(word.value, "resolved")
    case Some(Reopen) => word.Some? && SameLetters(word.value, "reopen")
    case None => word.Some? ==> forall w :: w in {"open", "resolved", "reopen"} ==> !SameLetters(word.value, w)
  }

  /** `body` is the text without the white space around it. */
  ghost predicate Trimmed(text: string, body: string) {
    Lean(body) && exists ws, ws' :: AllSpace(ws) && AllSpace(ws') && text == ws + (body + ws')
  }

  lemma TrimmedIs(s: string)
    ensures Trimmed(s, Strip(s))
  {
    hide IsSpace, Lean;
    StripIsLean(s);
    var ws := LStripFrom(s);
    var ws' := RStripFrom(LStrip(s));
    assert s == ws + (Strip(s) + ws');
  }

  lemma BareIs(name: string)
    ensures Bare(name, DropAt(name))
  {
    assert DropAt(name) == name[Span(name, c => c == '@')..];
  }

  lemma {:induction false} LabelIs(speaker: string)
    ensures Lower(speaker) in LABELS <==> IsLabel(speaker)
  {
    hide Lower, SameLetters;
    LabelsAreLower();
    forall l | l in LABELS ensures Lower(speaker) == l <==> SameLetters(speaker, l) {
      LowerExactly(speaker, l);
    }
  }

  lemma LabelsAreLower()
    ensures forall l :: l in LABELS ==> Lower(l) == l
  {
    forall l | l in LABELS ensures Lower(l) == l {
      assert forall i :: 0 <= i < |l| ==> !('A' <= l[i] <= 'Z');
    }
  }

  lemma StandsIs(word: Option<string>)
    ensures Stands(word, StatusOf(word))
  {
    hide Lower, SameLetters;
    StatusesAreLower();
    if word.Some? {
      LowerExactly(word.value, "open");
      LowerExactly(word.value, "resolved");
      LowerExactly(word.value, "reopen");
    }
  }

  lemma StatusesAreLower()
    ensures Lower("open") == "open" && Lower("resolved") == "resolved" && Lower("reopen") == "reopen"
  {
  }

  lemma InIs(c: string, g: Groups)
    ensures InReads(c, g) <==> TagIn(c) == Some(g)
  {
    hide ReadsIn, TagIn, Strip;
    forall name, ws, ws' | ReadsIn(c, name, ws, g.word, ws', g.rest) && g.name == Strip(name)
      ensures TagIn(c) == Some(g)
    {
      TagInComplete(c, name, ws, g.word, ws', g.rest);
    }
    if TagIn(c) == Some(g) { var name, ws, ws' := TagInSound(c); }
  }

  lemma OutIs(c: string, g: Groups)
    ensures OutReads(c, g) <==> TagOut(c) == Some(g)
  {
    hide ReadsOut, TagOut, Strip;
    forall name, ws, ws' | ReadsOut(c, name, ws, g.word, ws', g.rest) && g.name == Strip(name)
      ensures TagOut(c) == Some(g)
    {
      TagOutComplete(c, name, ws, g.word, ws', g.rest);
    }
    if TagOut(c) == Some(g) { var name, ws, ws' := TagOutSound(c); }
  }

  lemma PlainIs(c: string, g: Groups)
    ensures PlainReads(c, g) <==> TagPlain(c) == Some(g)
  {
    hide ReadsPlain, Strip;
    forall at, name, ws | ReadsPlain(c, at, name, ws, g.rest) && g.name == at + name && g.word.None?
      ensures TagPlain(c) == Some(g)
    {
      TagPlainComplete(c, at, name, ws, g.rest);
    }
    if TagPlain(c) == Some(g) { var at, name, ws := TagPlainSound(c); }
  }

  lemma FirstIs(c: string, g: Groups)
    ensures FirstReads(c, g) <==> FirstMatch(c) == Some(g)
  {
    hide InReads, OutReads, PlainReads, TagIn, TagOut, TagPlain;
    forall h ensures InReads(c, h) <==> TagIn(c) == Some(h) { InIs(c, h); }
    forall h ensures OutReads(c, h) <==> TagOut(c) == Some(h) { OutIs(c, h); }
    PlainIs(c, g);
    if TagIn(c).Some? { assert InReads(c, TagIn(c).value); }
    if TagOut(c).Some? { assert OutReads(c, TagOut(c).value); }
  }

  /** What a tag says, for every content: the first expression through which it reads decides; a label is no tag, and
      any other gives its name without `@`s, the status its word stands for, and its body without the white space
      around it. Content that reads through none is no tag. */
  lemma TagExactly(c: string)
    ensures forall g :: FirstReads(c, g) ==> TagSays(g, ParseTag(c))
    ensures (forall g :: !FirstReads(c, g)) ==> ParseTag(c).None?
  {
    hide FirstReads, FirstMatch, Bare, IsLabel, Stands, Trimmed, StatusOf, DropAt, Strip, Lower;
    forall g ensures FirstReads(c, g) <==> FirstMatch(c) == Some(g) { FirstIs(c, g); }
    if FirstMatch(c).Some? {
      var g := FirstMatch(c).value;
      assert FirstReads(c, g);
      BareIs(g.name);
      LabelIs(DropAt(g.name));
      StandsIs(g.word);
      TrimmedIs(g.rest);
    }
  }

  ghost predicate TagSays(g: Groups, t: Option<Tag>) {
    match t
    case None => exists speaker :: Bare(g.name, speaker) && IsLabel(speaker)
    case Some(tag) =>
      Bare(g.name, tag.speaker) && !IsLabel(tag.speaker) && Stands(g.word, tag.status) && Trimmed(g.rest, tag.body)
  }

  // ----- the published record -----

  /** What a query returns of a thread besides its tree, in terms of its comments. */
  lemma PublishedReads(text: string, k: nat)
    requires k < |Parse(SplitLines(text))|
    ensures |Threads(text)| == |Parse(SplitLines(text))| && Parse(SplitLines(text))[k].items != []
    ensures var t, f := Threads(text)[k], Parse(SplitLines(text))[k];
      var root, last := f.items[0], f.items[|f.items| - 1];
      && t.id == k + 1 && t.initiator == root.speaker && t.lastSpeaker == last.speaker
      && t.replyCount == |f.items| - 1 && t.status == f.status && t.root == Tree(f.items)
      && t.rootLine == root.line && t.rootText == root.text && t.totalLines == |SplitLines(text)|
      && t.anchorLine == f.anchorLine && t.anchorText == f.anchorText
      && |t.snippet| <= 80 && t.snippet <= Spaced(Words(root.body))
      && (|t.snippet| < 80 ==> t.snippet == Spaced(Words(root.body)))
  {
    hide SplitLines, Parse, Tree, Dedup, AllMentions, Normalize, Words, Spaced;
    ParseShapely(SplitLines(text));
    NormalizeExactly(Parse(SplitLines(text))[k].items[0].body);
  }

  /** The agents mentioned: everyone whom some comment mentions, each once. */
  lemma {:induction false} AllMentionsOf(items: seq<Item>, m: string)
    ensures m in AllMentions(items) <==> exists j :: 0 <= j < |items| && m in items[j].mentions
  {
    if items != [] {
      AllMentionsOf(items[..|items| - 1], m);
    }
  }

  lemma MentionedExactly(text: string, k: nat)
    requires k < |Threads(text)| && k < |Parse(SplitLines(text))|
    ensures var names, items := Threads(text)[k].mentioned, Parse(SplitLines(text))[k].items;
      && (forall i, j :: 0 <= i < j < |names| ==> names[i] != names[j] && Sooner(items, names[i], names[j]))
      && forall m :: m in names <==> exists j :: 0 <= j < |items| && m in items[j].mentions
  {
    hide SplitLines, Parse, Tree, AllMentions, Normalize;
    ParseShapely(SplitLines(text));
    var items := Parse(SplitLines(text))[k].items;
    forall m ensures m in AllMentions(items) <==> exists j :: 0 <= j < |items| && m in items[j].mentions {
      AllMentionsOf(items, m);
    }
    var ms := AllMentions(items);
    forall i, j | 0 <= i < j < |Dedup(ms)| ensures Sooner(items, Dedup(ms)[i], Dedup(ms)[j]) {
      var a := DedupOrder(ms, i, j);
      AllMentionsOrder(items, a, Dedup(ms)[j]);
    }
  }

  /** Some comment mentions `x` before any mention of `y`. */
  ghost predicate Sooner(items: seq<Item>, x: string, y: string) {
    exists j, a :: 0 <= j < |items| && SoonerIn(items, j, a, x, y)
  }

  ghost predicate SoonerIn(items: seq<Item>, j: nat, a: int, x: string, y: string)
    requires j < |items|
  {
    && 0 <= a < |items[j].mentions| && items[j].mentions[a] == x && y !in items[j].mentions[..a]
    && forall i :: 0 <= i < j ==> y !in items[i].mentions
  }

  lemma {:induction false} DedupOrder(ms: seq<string>, i: nat, j: nat) returns (a: nat)
    requires i < j < |Dedup(ms)|
    ensures a < |ms| && ms[a] == Dedup(ms)[i] && Dedup(ms)[j] !in ms[..a]
  {
    var front := ms[..|ms| - 1];
    if j < |Dedup(front)| {
      a := DedupOrder(front, i, j);
      assert front[..a] == ms[..a];
    } else {
      var x := Dedup(front)[i];
      assert x in Dedup(front);
      assert x in front;
      a :| 0 <= a < |front| && front[a] == x;
      assert ms[..a] == front[..a] && forall m :: m in front[..a] ==> m in front;
    }
  }

  lemma {:induction false} AllMentionsOrder(items: seq<Item>, a: nat, y: string)
    requires a < |AllMentions(items)| && y !in AllMentions(items)[..a]
    ensures Sooner(items, AllMentions(items)[a], y)
  {
    var front, last := items[..|items| - 1], items[|items| - 1];
    var ms, x := AllMentions(front), AllMentions(items)[a];
    if a < |ms| {
      assert AllMentions(items)[..a] == ms[..a];
      AllMentionsOrder(front, a, y);
      var j, b :| 0 <= j < |front| && SoonerIn(front, j, b, x, y);
      assert SoonerIn(items, j, b, x, y);
    } else {
      assert AllMentions(items)[..a] == ms + last.mentions[..a - |ms|];
      forall i | 0 <= i < |front| ensures y !in items[i].mentions {
        AllMentionsOf(front, y);
        assert front[i] == items[i];
      }
      assert SoonerIn(items, |items| - 1, a - |ms|, x, y);
    }
  }
}
