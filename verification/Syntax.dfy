/** The line syntax of inline discussions: which lines are fences, blank, prose, speaker-tagged
    comments or untagged quotes, and how the writer formats comments. Every regular expression of
    the parser is a scanner here; `Grammar` below says in the expressions' own terms what the three
    tag scanners must find. */
module Syntax {
  import opened Wrappers
  import opened Text

  datatype Status = Open | Resolved | Reopen

  datatype Tag = Tag(speaker: string, status: Option<Status>, body: string)

  /** The groups of one tag expression: the stripped name, the status word, the raw body. */
  datatype Groups = Groups(name: string, word: Option<string>, rest: string)

  datatype Kind =
    | Fence
    | Blank
    | Plain
    | Tagged(depth: nat, tag: Tag)
    | Untagged(content: string)

  const LABELS: set<string> :=
    {"note", "warning", "tip", "important", "definition", "example", "remark", "attention", "caution"}

  predicate IsLetter(c: char) {
    'a' <= c <= 'z' || 'A' <= c <= 'Z'
  }

  predicate IsIdentStart(c: char) {
    IsLetter(c) || c == '_'
  }

  predicate IsIdent(c: char) {
    IsIdentStart(c) || '0' <= c <= '9' || c == '-'
  }

  /** The characters that end a bold name. */
  predicate IsMark(c: char) {
    c == '*' || c == '['
  }

  function LowerChar(c: char): char {
    if 'A' <= c <= 'Z' then (c as int + 32) as char else c
  }

  function Lower(s: string): string {
    seq(|s|, i requires 0 <= i < |s| => LowerChar(s[i]))
  }

  /** `name.lstrip("@")`. */
  function DropAt(s: string): string {
    s[Span(s, c => c == '@')..]
  }

  function StatusOf(word: Option<string>): Option<Status> {
    match word
    case None => None
    case Some(w) =>
      if Lower(w) == "open" then Some(Open)
      else if Lower(w) == "resolved" then Some(Resolved)
      else if Lower(w) == "reopen" then Some(Reopen)
      else None
  }

  // ----- the three spellings of a speaker tag -----

  /** A status marker after its `[`: the word, then what follows `]` and white space. */
  function TakeWord(t: string): Option<(string, string)> {
    var k := Span(t, IsLetter);
    if k == 0 || !("]" <= t[k..]) then None else Some((t[..k], LStrip(t[k + 1..])))
  }

  function NameLen(s: string): nat {
    Span(s, x => !IsMark(x))
  }

  /** Colon inside the bold: `**Name [STATUS]:** body`. */
  function TagIn(c: string): Option<Groups> {
    if !("**" <= c) then None
    else
      var s := c[2..];
      var p := NameLen(s);
      if p == |s| || p == 0 then None
      else if s[p] == '*' then
        if p >= 2 && s[p - 1] == ':' && "**" <= s[p..]
        then Some(Groups(Strip(s[..p - 1]), None, s[p + 2..]))
        else None
      else
        match TakeWord(s[p + 1..])
        case Some((w, r)) =>
          if ":**" <= r then Some(Groups(Strip(s[..p]), Some(w), r[3..])) else None
        case None => None
  }

  /** What must follow a closed bold name: white space, perhaps a marker, then a colon. */
  function AfterBold(t: string): Option<(Option<string>, string)> {
    var r := LStrip(t);
    if "[" <= r then
      match TakeWord(r[1..])
      case Some((w, q)) => if ":" <= q then Some((Some(w), q[1..])) else None
      case None => None
    else if ":" <= r then Some((None, r[1..]))
    else None
  }

  /** Colon outside the bold: `**Name** [STATUS]: body`. */
  function TagOut(c: string): Option<Groups> {
    if !("**" <= c) then None
    else
      var s := c[2..];
      var p := NameLen(s);
      if p == 0 || !("**" <= s[p..]) then None
      else
        match AfterBold(s[p + 2..])
        case Some((word, rest)) => Some(Groups(Strip(s[..p]), word, rest))
        case None => None
  }

  /** No bold: `Name: body` with an ASCII identifier. */
  function TagPlain(c: string): Option<Groups> {
    var at := if "@" <= c then 1 else 0;
    var k := Span(c[at..], IsIdent);
    if k == 0 || !IsIdentStart(c[at]) then None
    else
      var r := LStrip(c[at + k..]);
      if ":" <= r then Some(Groups(c[..at + k], None, r[1..])) else None
  }

  /** `_TAG_IN`, then `_TAG_OUT`, then `_TAG_PLAIN`: the first that matches decides. */
  function FirstMatch(c: string): Option<Groups> {
    if TagIn(c).Some? then TagIn(c)
    else if TagOut(c).Some? then TagOut(c)
    else TagPlain(c)
  }

  function ParseTag(c: string): Option<Tag> {
    match FirstMatch(c)
    case None => None
    case Some(g) =>
      if Lower(DropAt(g.name)) in LABELS then None
      else Some(Tag(DropAt(g.name), StatusOf(g.word), Strip(g.rest)))
  }

  // ----- whole lines -----

  function QuoteDepth(t: string): nat {
    Span(t, c => c == '>')
  }

  function Classify(raw: string): Kind {
    var t := LStrip(raw);
    if t == "" then Blank
    else if "```" <= t || "~~~" <= t then Fence
    else if t[0] == '>' then
      var content := LStrip(t[QuoteDepth(t)..]);
      match ParseTag(content)
      case Some(tag) => Tagged(QuoteDepth(t), tag)
      case None => Untagged(content)
    else Plain
  }

  predicate IsQuote(k: Kind) {
    k.Tagged? || k.Untagged?
  }

  /** `_MENTION.findall`. */
  function Mentions(s: string): seq<string> {
    if s == "" then []
    else if s[0] == '@' && |s| > 1 && IsIdentStart(s[1]) then
      var k := Span(s[1..], IsIdent);
      [s[1..1 + k]] + Mentions(s[1 + k..])
    else Mentions(s[1..])
  }

  // ----- what the writer emits -----

  function Quotes(depth: nat): string {
    seq(depth, _ => '>')
  }

  function StatusMark(st: Status): string {
    match st
    case Open => ""
    case Resolved => " [RESOLVED]"
    case Reopen => " [REOPEN]"
  }

  function Parts(body: string): (ps: seq<string>)
    ensures ps != []
  {
    if SplitLines(body) == [] then [""] else SplitLines(body)
  }

  function QuoteLine(depth: nat, content: string): string {
    Quotes(depth) + (" " + content)
  }

  function TagText(speaker: string, st: Status, part: string): string {
    "**" + (speaker + (StatusMark(st) + (":**" + (" " + part))))
  }

  function HeadLine(depth: nat, speaker: string, st: Status, part: string): string {
    QuoteLine(depth, TagText(speaker, st, part))
  }

  function TailLines(depth: nat, parts: seq<string>): (ls: seq<string>)
    ensures |ls| == |parts|
  {
    seq(|parts|, i requires 0 <= i < |parts| => QuoteLine(depth, parts[i]))
  }

  /** `format_root` is the block of depth 1; `_format_reply` is the block without a status. */
  function Block(depth: nat, speaker: string, st: Status, body: string): (ls: seq<string>)
    ensures ls != []
  {
    [HeadLine(depth, speaker, st, Parts(body)[0])] + TailLines(depth, Parts(body)[1..])
  }

  // ----- the scanners against the expressions -----

  predicate Word(w: string) {
    w != "" && forall i :: 0 <= i < |w| ==> IsLetter(w[i])
  }

  function Marker(word: Option<string>): string {
    match word case None => "" case Some(w) => "[" + w + "]"
  }

  predicate Name(n: string) {
    n != "" && forall i :: 0 <= i < |n| ==> !IsMark(n[i])
  }

  /** One way to read `c` through `_TAG_IN`: the text of each piece of the expression. */
  predicate ReadsIn(c: string, name: string, ws: string, word: Option<string>, ws': string, rest: string) {
    && c == "**" + (name + (ws + (Marker(word) + (ws' + (":**" + rest)))))
    && Name(name) && AllSpace(ws) && AllSpace(ws') && (word.Some? ==> Word(word.value))
  }

  predicate ReadsOut(c: string, name: string, ws: string, word: Option<string>, ws': string, rest: string) {
    && c == "**" + (name + ("**" + (ws + (Marker(word) + (ws' + (":" + rest))))))
    && Name(name) && AllSpace(ws) && AllSpace(ws') && (word.Some? ==> Word(word.value))
  }

  predicate ReadsPlain(c: string, at: string, name: string, ws: string, rest: string) {
    && c == at + (name + (ws + (":" + rest)))
    && (at == "" || at == "@") && AllSpace(ws)
    && name != "" && IsIdentStart(name[0]) && forall i :: 0 <= i < |name| ==> IsIdent(name[i])
  }

  lemma Cut(a: string, b: string)
    ensures (a + b)[..|a|] == a && (a + b)[|a|..] == b
  {
  }

  /** A span stops where `a` ends if all of `a` satisfies `p` and `b` starts with a stopper. */
  lemma SpanCut(a: string, b: string, p: char -> bool)
    requires (forall i :: 0 <= i < |a| ==> p(a[i])) && (b != "" ==> !p(b[0]))
    ensures Span(a + b, p) == |a| && (a + b)[..|a|] == a && (a + b)[|a|..] == b
  {
    SpanIs(a + b, p, |a|);
  }

  lemma LStripTo(ws: string, s: string)
    requires AllSpace(ws) && s != "" && !IsSpace(s[0])
    ensures LStrip(ws + s) == s
  {
    LStripSkips(ws, s);
  }

  lemma LStripFrom(t: string) returns (ws: string)
    ensures AllSpace(ws) && t == ws + LStrip(t)
  {
    ws := t[..Span(t, IsSpace)];
  }

  lemma TakeWordComplete(w: string, ws: string, r: string)
    requires Word(w) && AllSpace(ws) && r != "" && !IsSpace(r[0])
    ensures TakeWord(w + ("]" + (ws + r))) == Some((w, r))
  {
    hide LStrip;
    SpanCut(w, "]" + (ws + r), IsLetter);
    Cut("]", ws + r);
    var t := w + ("]" + (ws + r));
    assert t[|w| + 1..] == t[|w|..][1..];
    LStripTo(ws, r);
  }

  lemma TakeWordSound(t: string) returns (ws: string)
    requires TakeWord(t).Some?
    ensures AllSpace(ws) && Word(TakeWord(t).value.0)
    ensures t == TakeWord(t).value.0 + ("]" + (ws + TakeWord(t).value.1))
  {
    hide LStrip, IsLetter;
    var k := Span(t, IsLetter);
    ws := LStripFrom(t[k + 1..]);
    assert t == t[..k] + t[k..];
    assert t[k..] == "]" + t[k + 1..];
    assert forall i :: 0 <= i < k ==> t[..k][i] == t[i];
  }

  /** Whichever way the backtracking matcher reads a colon-inside tag, the scanner agrees on the
      stripped name, the status word and the body. */
  lemma TagInComplete(c: string, name: string, ws: string, word: Option<string>, ws': string, rest: string)
    requires ReadsIn(c, name, ws, word, ws', rest)
    ensures TagIn(c) == Some(Groups(Strip(name), word, rest))
  {
    var tail := Marker(word) + (ws' + (":**" + rest));
    var s := name + (ws + tail);
    Cut("**", s);
    match word {
      case None =>
        TagInPlain(name, ws, ws', rest);
        assert Marker(word) + (ws' + (":**" + rest)) == ws' + (":**" + rest);
      case Some(w) =>
        TagInMarked(name, ws, w, ws', rest);
    }
  }

  /** A name that runs up to the closing stars, with the colon as its last character. */
  lemma TagInAt(s: string, p: nat)
    requires 2 <= p < |s| && NameLen(s) == p && s[p] == '*' && s[p - 1] == ':' && "**" <= s[p..]
    ensures TagIn("**" + s) == Some(Groups(Strip(s[..p - 1]), None, s[p + 2..]))
  {
    hide Strip, NameLen, TakeWord;
    Cut("**", s);
  }

  lemma TagInPlain(name: string, ws: string, ws': string, rest: string)
    requires Name(name) && AllSpace(ws) && AllSpace(ws')
    ensures TagIn("**" + (name + (ws + (ws' + (":**" + rest))))) == Some(Groups(Strip(name), None, rest))
  {
    hide LStrip, Strip, TakeWord, TagIn;
    var s := name + (ws + (ws' + (":**" + rest)));
    var front := name + (ws + ws');
    assert s == (front + ":") + ("**" + rest);
    SpanCut(front + ":", "**" + rest, x => !IsMark(x));
    StripSkips(name, ws + ws');
    AfterFront(front, rest);
    TagInAt(s, |front| + 1);
  }

  lemma AfterFront(front: string, rest: string)
    ensures var s, p := (front + ":") + ("**" + rest), |front| + 1;
      p < |s| && s[p] == '*' && s[p - 1] == ':' && "**" <= s[p..] && s[..p - 1] == front && s[p + 2..] == rest
  {
    var s := (front + ":") + ("**" + rest);
    assert s[|front| + 1..] == "**" + rest;
  }

  lemma TagInMarked(name: string, ws: string, w: string, ws': string, rest: string)
    requires Name(name) && AllSpace(ws) && Word(w) && AllSpace(ws')
    ensures TagIn("**" + (name + (ws + (("[" + w + "]") + (ws' + (":**" + rest))))))
         == Some(Groups(Strip(name), Some(w), rest))
  {
    hide LStrip, Strip, TakeWord;
    var r := ":**" + rest;
    var t := w + ("]" + (ws' + r));
    var s := name + (ws + (("[" + w + "]") + (ws' + r)));
    var front := name + ws;
    Cut("**", s);
    assert s == front + ("[" + t);
    SpanCut(front, "[" + t, x => !IsMark(x));
    assert s[|front| + 1..] == s[|front|..][1..];
    Cut("[", t);
    TakeWordComplete(w, ws', r);
    Cut(":**", rest);
    StripSkips(name, ws);
  }

  /** What the scanner finds, the expression matches. */
  lemma TagInSound(c: string) returns (name: string, ws: string, ws': string)
    requires TagIn(c).Some?
    ensures ReadsIn(c, name, ws, TagIn(c).value.word, ws', TagIn(c).value.rest)
    ensures TagIn(c).value.name == Strip(name)
  {
    hide LStrip, Strip, TakeWord, IsSpace;
    var s := c[2..];
    var p := NameLen(s);
    ws := "";
    if s[p] == '*' {
      name, ws' := s[..p - 1], "";
      PlainPiecesIn(c, p);
    } else {
      name := s[..p];
      ws' := TakeWordSound(s[p + 1..]);
      var (w, r) := TakeWord(s[p + 1..]).value;
      MarkedPiecesIn(c, p, w, ws', r);
    }
  }

  lemma PlainPiecesIn(c: string, p: nat)
    requires "**" <= c && 1 <= p < |c[2..]| && c[2..][p - 1] == ':' && "**" <= c[2..][p..]
    ensures var s := c[2..]; c == "**" + (s[..p - 1] + ("" + (Marker(None) + ("" + (":**" + s[p + 2..])))))
  {
    var s := c[2..];
    assert s[p..] == "**" + s[p + 2..];
    assert s == s[..p - 1] + (":" + s[p..]);
    assert ":" + s[p..] == "" + (Marker(None) + ("" + (":**" + s[p + 2..])));
  }

  lemma MarkedPiecesIn(c: string, p: nat, w: string, ws: string, r: string)
    requires "**" <= c && p < |c[2..]| && c[2..][p] == '[' && c[2..][p + 1..] == w + ("]" + (ws + r)) && ":**" <= r
    ensures c == "**" + (c[2..][..p] + ("" + (Marker(Some(w)) + (ws + (":**" + r[3..])))))
  {
    var s := c[2..];
    assert r == ":**" + r[3..];
    assert s == s[..p] + ("[" + s[p + 1..]);
    assert "[" + (w + ("]" + (ws + r))) == "" + (Marker(Some(w)) + (ws + r));
  }

  lemma AfterBoldComplete(ws: string, word: Option<string>, ws': string, rest: string)
    requires AllSpace(ws) && AllSpace(ws') && (word.Some? ==> Word(word.value))
    ensures AfterBold(ws + (Marker(word) + (ws' + (":" + rest)))) == Some((word, rest))
  {
    hide LStrip, TakeWord;
    var t := ws + (Marker(word) + (ws' + (":" + rest)));
    Cut(":", rest);
    match word {
      case None =>
        assert t == (ws + ws') + (":" + rest);
        LStripTo(ws + ws', ":" + rest);
      case Some(w) =>
        var r := w + ("]" + (ws' + (":" + rest)));
        assert t == ws + ("[" + r);
        LStripTo(ws, "[" + r);
        Cut("[", r);
        TakeWordComplete(w, ws', ":" + rest);
    }
  }

  lemma AfterBoldSound(t: string) returns (ws: string, ws': string)
    requires AfterBold(t).Some?
    ensures var (word, rest) := AfterBold(t).value;
      && t == ws + (Marker(word) + (ws' + (":" + rest)))
      && AllSpace(ws) && AllSpace(ws') && (word.Some? ==> Word(word.value))
  {
    hide LStrip, TakeWord;
    ws := LStripFrom(t);
    var r := LStrip(t);
    if "[" <= r {
      ws' := TakeWordSound(r[1..]);
      var (w, q) := TakeWord(r[1..]).value;
      assert r == "[" + r[1..];
      assert q == ":" + q[1..];
      assert "[" + (w + ("]" + (ws' + q))) == ("[" + w + "]") + (ws' + q);
    } else {
      ws' := "";
      assert r == "" + (ws' + (":" + r[1..]));
    }
  }

  lemma TagOutComplete(c: string, name: string, ws: string, word: Option<string>, ws': string, rest: string)
    requires ReadsOut(c, name, ws, word, ws', rest)
    ensures TagOut(c) == Some(Groups(Strip(name), word, rest))
  {
    hide AfterBold, Strip;
    var t := ws + (Marker(word) + (ws' + (":" + rest)));
    var s := name + ("**" + t);
    Cut("**", s);
    SpanCut(name, "**" + t, x => !IsMark(x));
    assert s[|name| + 2..] == s[|name|..][2..];
    Cut("**", t);
    AfterBoldComplete(ws, word, ws', rest);
  }

  lemma TagOutSound(c: string) returns (name: string, ws: string, ws': string)
    requires TagOut(c).Some?
    ensures ReadsOut(c, name, ws, TagOut(c).value.word, ws', TagOut(c).value.rest)
    ensures TagOut(c).value.name == Strip(name)
  {
    hide AfterBold, Strip;
    var s := c[2..];
    var p := NameLen(s);
    name := s[..p];
    var t := s[p + 2..];
    OutPieces(c, p);
    ws, ws' := AfterBoldSound(t);
  }

  lemma OutPieces(c: string, p: nat)
    requires "**" <= c && p <= |c| - 2 && "**" <= c[2..][p..]
    ensures c == "**" + (c[2..][..p] + ("**" + c[2..][p + 2..]))
  {
    var s := c[2..];
    assert c == "**" + s && s == s[..p] + s[p..] && s[p..] == "**" + s[p + 2..];
  }

  lemma SpaceIsNoIdent(c: char)
    requires IsSpace(c)
    ensures !IsIdent(c)
  {
  }

  lemma NameStops(ws: string, rest: string)
    requires AllSpace(ws)
    ensures !IsIdent((ws + (":" + rest))[0])
  {
    hide IsSpace, IsIdent;
    if ws == "" {
      assert ws + (":" + rest) == ":" + rest;
      ColonIsNoIdent();
    } else {
      SpaceIsNoIdent(ws[0]);
    }
  }

  lemma ColonIsNoIdent()
    ensures !IsIdent(':')
  {
  }

  lemma AtPiece(c: string, at: string, rest: string)
    requires c == at + rest && (at == "" || at == "@") && rest != "" && rest[0] != '@'
    ensures |at| == (if "@" <= c then 1 else 0) && c[|at|..] == rest && c[|at|] == rest[0]
  {
    Cut(at, rest);
  }

  /** The plain form, given where the name ends. */
  lemma TagPlainIs(c: string, n: nat, k: nat, rest: string)
    requires n == (if "@" <= c then 1 else 0) && n + k <= |c| && k > 0
    requires Span(c[n..], IsIdent) == k && IsIdentStart(c[n]) && LStrip(c[n + k..]) == ":" + rest
    ensures TagPlain(c) == Some(Groups(c[..n + k], None, rest))
  {
    hide Span, LStrip, IsIdent, IsIdentStart;
    Cut(":", rest);
  }

  lemma TagPlainComplete(c: string, at: string, name: string, ws: string, rest: string)
    requires ReadsPlain(c, at, name, ws, rest)
    ensures TagPlain(c) == Some(Groups(at + name, None, rest))
  {
    hide LStrip, IsSpace, AllSpace, IsIdent, IsIdentStart, Span, TagPlain;
    var tail := ws + (":" + rest);
    NameStops(ws, rest);
    IdentIsNoAt(name[0]);
    AtPiece(c, at, name + tail);
    SpanCut(name, tail, IsIdent);
    Joined(at, name, tail);
    Cut(at + name, tail);
    ColonIsNoSpace();
    LStripTo(ws, ":" + rest);
    TagPlainIs(c, |at|, |name|, rest);
  }

  lemma Joined(a: string, b: string, c: string)
    ensures a + (b + c) == (a + b) + c
  {
  }

  lemma IdentIsNoAt(c: char)
    requires IsIdentStart(c)
    ensures c != '@'
  {
  }

  lemma TagPlainSound(c: string) returns (at: string, name: string, ws: string)
    requires TagPlain(c).Some?
    ensures ReadsPlain(c, at, name, ws, TagPlain(c).value.rest) && TagPlain(c).value.name == at + name
  {
    hide LStrip, IsSpace;
    var n := if "@" <= c then 1 else 0;
    var d := c[n..];
    var k := Span(d, IsIdent);
    at, name := c[..n], d[..k];
    ws := LStripFrom(c[n + k..]);
    PlainPieces(c, n, k, ws, LStrip(c[n + k..]));
  }

  lemma PlainPieces(c: string, n: nat, k: nat, ws: string, r: string)
    requires n + k <= |c| && c[n + k..] == ws + r && ":" <= r
    ensures c == c[..n] + (c[n..][..k] + (ws + (":" + r[1..])))
    ensures c[..n + k] == c[..n] + c[n..][..k]
  {
    assert r == ":" + r[1..];
    assert c == c[..n + k] + c[n + k..];
  }

  // ----- what the writer emits is what the parser reads -----

  predicate NoMarks(s: string) {
    forall i :: 0 <= i < |s| ==> !IsMark(s[i])
  }

  /** The names that survive as a speaker: not empty, stripped, no `@` in front, no `*` or `[`,
      not one of the label words. */
  predicate SpeakerOk(s: string) {
    s != "" && Lean(s) && s[0] != '@' && NoMarks(s) && Lower(s) !in LABELS
  }

  lemma DropAtIs(s: string)
    ensures |DropAt(s)| <= |s| && (DropAt(s) != "" ==> DropAt(s)[0] != '@')
    ensures s == "" || s[0] != '@' ==> DropAt(s) == s
    ensures NoMarks(s) ==> NoMarks(DropAt(s))
  {
  }

  lemma StripKeeps(s: string)
    requires NoMarks(s)
    ensures NoMarks(Strip(s))
  {
  }

  /** What every parsed speaker looks like; it need not be stripped (`**@ name:**` gives ` name`). */
  lemma ParsedSpeaker(c: string)
    requires ParseTag(c).Some?
    ensures var s := ParseTag(c).value.speaker;
      NoMarks(s) && (s != "" ==> s[0] != '@') && Lower(s) !in LABELS
    ensures Lean(ParseTag(c).value.body)
  {
    hide TagIn, TagOut, TagPlain, Strip, DropAt, IsMark, LStrip;
    var g := FirstMatch(c).value;
    assert NoMarks(g.name) by {
      if TagIn(c).Some? {
        var name, _, _ := TagInSound(c);
        StripKeeps(name);
      } else if TagOut(c).Some? {
        var name, _, _ := TagOutSound(c);
        StripKeeps(name);
      } else {
        PlainNoMarks(c);
      }
    }
    DropAtIs(g.name);
    StripIsLean(g.rest);
  }

  lemma PlainNoMarks(c: string)
    requires TagPlain(c).Some?
    ensures NoMarks(TagPlain(c).value.name)
  {
    hide LStrip;
    var at, name, ws := TagPlainSound(c);
  }

  /** A quote line is read back at its own depth, whatever it holds. */
  lemma QuoteLineKind(depth: nat, content: string)
    requires depth >= 1
    ensures Classify(QuoteLine(depth, content)) ==
      match ParseTag(LStrip(content))
      case Some(tag) => Tagged(depth, tag)
      case None => Untagged(LStrip(content))
  {
    hide ParseTag;
    var raw := QuoteLine(depth, content);
    SpanIs(raw, IsSpace, 0);
    assert LStrip(raw) == raw;
    SpanIs(raw, c => c == '>', depth);
    assert raw[depth..] == " " + content;
    assert LStrip(" " + content) == LStrip(content) by { LStripSkips(" ", content); }
  }

  /** The writer's tag text in the terms of the expression. */
  lemma TagTextReads(speaker: string, st: Status, part: string)
    requires NoMarks(speaker) && (st == Open ==> speaker != "")
    ensures var g := TagIn(TagText(speaker, st, part));
      && g.Some? && g.value.name == Strip(speaker) && g.value.rest == " " + part
      && StatusOf(g.value.word) == if st == Open then None else Some(st)
  {
    hide TagIn, Strip, StatusOf, IsSpace;
    if st == Open {
      OpenTagReads(speaker, part);
      NoStatus();
    } else {
      WordStatus(st);
      MarkedTagReads(speaker, st, part);
    }
  }

  lemma OpenTagReads(speaker: string, part: string)
    requires Name(speaker)
    ensures TagIn(TagText(speaker, Open, part)) == Some(Groups(Strip(speaker), None, " " + part))
  {
    hide TagIn, AllSpace, IsLetter, Strip;
    SpaceIsSpace();
    assert ":**" + (" " + part) == "" + (":**" + (" " + part));
    assert TagText(speaker, Open, part) == "**" + (speaker + ("" + (Marker(None) + ("" + (":**" + (" " + part))))));
    TagInComplete(TagText(speaker, Open, part), speaker, "", None, "", " " + part);
  }

  function StatusWord(st: Status): string {
    if st == Resolved then "RESOLVED" else "REOPEN"
  }

  lemma MarkText(st: Status, tail: string)
    requires st != Open
    ensures StatusMark(st) + tail == " " + (Marker(Some(StatusWord(st))) + ("" + tail))
  {
    var marker := Marker(Some(StatusWord(st)));
    assert StatusMark(st) == " " + marker;
    assert "" + tail == tail;
    assert (" " + marker) + tail == " " + (marker + tail);
  }

  lemma MarkedTagReads(speaker: string, st: Status, part: string)
    requires NoMarks(speaker) && st != Open && Word(StatusWord(st))
    ensures TagIn(TagText(speaker, st, part)) == Some(Groups(Strip(speaker), Some(StatusWord(st)), " " + part))
  {
    hide TagIn, AllSpace, Word, Strip, Marker, StatusMark, StatusWord;
    SpaceIsSpace();
    var tail := ":**" + (" " + part);
    MarkText(st, tail);
    if speaker == "" {
      var after := Marker(Some(StatusWord(st))) + ("" + tail);
      assert "" + (" " + after) == " " + ("" + after);
      TagInComplete(TagText(speaker, st, part), " ", "", Some(StatusWord(st)), "", " " + part);
      assert "" + " " == " ";
      StripSkips("", " ");
    } else {
      TagInComplete(TagText(speaker, st, part), speaker, " ", Some(StatusWord(st)), "", " " + part);
    }
  }

  lemma NoStatus()
    ensures StatusOf(None) == None
  {
  }

  lemma TagTextParses(speaker: string, st: Status, part: string)
    requires NoMarks(speaker) && (st == Open ==> speaker != "")
    ensures ParseTag(TagText(speaker, st, part)) ==
      var s := DropAt(Strip(speaker));
      if Lower(s) in LABELS then None
      else Some(Tag(s, if st == Open then None else Some(st), Strip(part)))
    ensures LStrip(TagText(speaker, st, part)) == TagText(speaker, st, part)
  {
    hide TagIn, TagOut, TagPlain, DropAt, IsSpace, AllSpace, Lower;
    LStripStar(TagText(speaker, st, part));
    TagTextReads(speaker, st, part);
    assert Strip(" " + part) == Strip(part) by {
      SpaceIsSpace();
      LStripSkips(" ", part);
    }
  }

  lemma SpaceIsSpace()
    ensures IsSpace(' ') && !IsSpace('*') && AllSpace("") && AllSpace(" ")
  {
  }

  lemma WordStatus(st: Status)
    requires st != Open
    ensures Word(StatusWord(st)) && StatusOf(Some(StatusWord(st))) == Some(st)
  {
    if st == Resolved {
      assert Lower("RESOLVED") == "resolved";
    } else {
      assert Lower("REOPEN") == "reopen";
      assert |Lower("REOPEN")| == 6;
    }
  }

  /** The writer's comment line reads back as that speaker and body exactly for proper speakers. */
  lemma SpeakerRoundTrip(depth: nat, speaker: string, part: string)
    requires depth >= 1
    ensures Classify(HeadLine(depth, speaker, Open, part)) == Tagged(depth, Tag(speaker, None, Strip(part)))
       <==> SpeakerOk(speaker)
    ensures var k := Classify(HeadLine(depth, speaker, Open, part));
      k.Tagged? && k.tag.speaker == speaker ==> SpeakerOk(speaker)
  {
    hide ParseTag, Strip, LStrip, DropAt, Classify;
    var c := TagText(speaker, Open, part);
    QuoteLineKind(depth, c);
    if speaker == "" {
      EmptySpeaker(part);
      assert LStrip(c) == c by { SpaceIsSpace(); LStripStar(c); }
    } else if NoMarks(speaker) {
      TagTextParses(speaker, Open, part);
      DropAtIs(Strip(speaker));
      StripIsLean(speaker);
      StripFixed(speaker);
    } else if ParseTag(LStrip(c)).Some? {
      ParsedSpeaker(LStrip(c));
    }
    if ParseTag(LStrip(c)).Some? {
      ParsedSpeaker(LStrip(c));
    }
  }

  lemma LStripStar(c: string)
    requires c != "" && c[0] == '*'
    ensures LStrip(c) == c
  {
    SpaceIsSpace();
    SpanIs(c, IsSpace, 0);
  }

  lemma EmptyTagText(part: string) returns (s: string)
    ensures TagText("", Open, part) == "**" + s && s == ":**" + (" " + part)
    ensures TagText("", Open, part)[2..] == s && s[0] == ':' && s[1] == '*'
  {
    s := ":**" + (" " + part);
    Cut("**", s);
    assert TagText("", Open, part) == "**" + s;
  }

  lemma EmptyNameLen(s: string)
    requires |s| >= 2 && s[0] == ':' && s[1] == '*'
    ensures NameLen(s) == 1 && s[..1] == ":"
  {
    SpanIs(s, x => !IsMark(x), 1);
  }

  lemma EmptyNoMatch(part: string)
    ensures TagIn(TagText("", Open, part)).None? && TagPlain(TagText("", Open, part)).None?
  {
    hide NameLen, LStrip, Strip, TagText, TakeWord;
    var s := EmptyTagText(part);
    EmptyNameLen(s);
    var c := TagText("", Open, part);
    assert c[0] == '*';
    assert c[0..] == c;
    SpanIs(c, IsIdent, 0);
  }

  lemma EmptyMatch(part: string)
    ensures TagOut(TagText("", Open, part)).Some? ==> TagOut(TagText("", Open, part)).value.name == Strip(":")
  {
    hide NameLen, LStrip, Strip, TagText, AfterBold;
    var s := EmptyTagText(part);
    EmptyNameLen(s);
  }

  /** Without a speaker the line is never read as one without a speaker: the colon becomes the name. */
  lemma EmptySpeaker(part: string)
    ensures ParseTag(TagText("", Open, part)).Some? ==> ParseTag(TagText("", Open, part)).value.speaker != ""
  {
    hide TagIn, TagOut, TagPlain, TagText, Strip, Lower, StatusOf;
    EmptyNoMatch(part);
    EmptyMatch(part);
    assert Strip(":") == ":" by {
      ColonIsNoSpace();
      LeanIsFixed(":");
    }
    DropAtIs(":");
  }

  lemma ColonIsNoSpace()
    ensures !IsSpace(':')
  {
  }

  /** The rewritten root line of `set_status` reads back as the same speaker and body with the new
      status exactly when the speaker carries no outer white space. */
  lemma StatusRoundTrip(speaker: string, st: Status, part: string)
    requires st != Open && NoMarks(speaker) && (speaker != "" ==> speaker[0] != '@') && Lower(speaker) !in LABELS
    ensures Classify(HeadLine(1, speaker, st, part)) == Tagged(1, Tag(speaker, Some(st), Strip(part)))
       <==> Lean(speaker)
    ensures var k := Classify(HeadLine(1, speaker, st, part));
      k.Tagged? && k.tag.speaker == speaker ==> Lean(speaker)
  {
    hide ParseTag, Strip, LStrip, DropAt, Classify;
    QuoteLineKind(1, TagText(speaker, st, part));
    TagTextParses(speaker, st, part);
    DropAtIs(Strip(speaker));
    StripIsLean(speaker);
    StripFixed(speaker);
  }

  /** A continuation line of a block: it stays one exactly when its text is not itself a tag. */
  lemma TailRoundTrip(depth: nat, part: string)
    requires depth >= 1
    ensures Classify(QuoteLine(depth, part)) == Untagged(LStrip(part)) <==> ParseTag(LStrip(part)).None?
  {
    hide ParseTag, LStrip, Classify;
    QuoteLineKind(depth, part);
  }

  /** A tag in one line has its speaker and body in one line. */
  lemma ParsedOneLine(raw: string)
    requires OneLine(raw) && Classify(raw).Tagged?
    ensures OneLine(Classify(raw).tag.body) && OneLine(Classify(raw).tag.speaker)
  {
    hide ParseTag;
    var t := LStrip(raw);
    var c := LStrip(t[QuoteDepth(t)..]);
    assert OneLine(c) && ParseTag(c).Some?;
    TagOneLine(c);
  }

  lemma TagOneLine(c: string)
    requires OneLine(c) && ParseTag(c).Some?
    ensures OneLine(ParseTag(c).value.body) && OneLine(ParseTag(c).value.speaker)
  {
    hide TagIn, TagOut, TagPlain, LStrip, IsSpace, IsMark, IsLetter, IsIdent, IsIdentStart;
    var g := FirstMatch(c).value;
    assert OneLine(g.name) && OneLine(g.rest) by {
      if TagIn(c).Some? {
        var name, ws, ws' := TagInSound(c);
        PartsOneLine(c, "**", name + (ws + (Marker(g.word) + (ws' + (":**" + g.rest)))));
        PartsOneLine(name + (ws + (Marker(g.word) + (ws' + (":**" + g.rest)))), name,
                     ws + (Marker(g.word) + (ws' + (":**" + g.rest))));
        PartsOneLine(ws + (Marker(g.word) + (ws' + (":**" + g.rest))), ws, Marker(g.word) + (ws' + (":**" + g.rest)));
        PartsOneLine(Marker(g.word) + (ws' + (":**" + g.rest)), Marker(g.word), ws' + (":**" + g.rest));
        PartsOneLine(ws' + (":**" + g.rest), ws', ":**" + g.rest);
        PartsOneLine(":**" + g.rest, ":**", g.rest);
        StripOneLine(name);
      } else if TagOut(c).Some? {
        OutOneLine(c);
      } else {
        PlainOneLine(c);
      }
    }
    StripOneLine(g.rest);
  }

  lemma PartsOneLine(c: string, a: string, b: string)
    requires OneLine(c) && c == a + b
    ensures OneLine(a) && OneLine(b)
  {
    assert forall i :: 0 <= i < |a| ==> a[i] == c[i];
    assert forall i :: 0 <= i < |b| ==> b[i] == c[|a| + i];
  }

  lemma StripOneLine(s: string)
    requires OneLine(s)
    ensures OneLine(Strip(s))
  {
  }

  lemma OutOneLine(c: string)
    requires OneLine(c) && TagOut(c).Some?
    ensures OneLine(TagOut(c).value.name) && OneLine(TagOut(c).value.rest)
  {
    hide TagOut, LStrip, IsSpace, IsMark, IsLetter, Strip;
    var g := TagOut(c).value;
    var name, ws, ws' := TagOutSound(c);
    var tail := ws' + (":" + g.rest);
    PartsOneLine(c, "**", name + ("**" + (ws + (Marker(g.word) + tail))));
    PartsOneLine(name + ("**" + (ws + (Marker(g.word) + tail))), name, "**" + (ws + (Marker(g.word) + tail)));
    PartsOneLine("**" + (ws + (Marker(g.word) + tail)), "**", ws + (Marker(g.word) + tail));
    PartsOneLine(ws + (Marker(g.word) + tail), ws, Marker(g.word) + tail);
    PartsOneLine(Marker(g.word) + tail, Marker(g.word), tail);
    PartsOneLine(tail, ws', ":" + g.rest);
    PartsOneLine(":" + g.rest, ":", g.rest);
    StripOneLine(name);
  }

  lemma PlainOneLine(c: string)
    requires OneLine(c) && TagPlain(c).Some?
    ensures OneLine(TagPlain(c).value.name) && OneLine(TagPlain(c).value.rest)
  {
    hide TagPlain, LStrip, IsSpace, IsIdent, IsIdentStart;
    var g := TagPlain(c).value;
    var at, name, ws := TagPlainSound(c);
    assert c == (at + name) + (ws + (":" + g.rest));
    PartsOneLine(c, at + name, ws + (":" + g.rest));
    PartsOneLine(ws + (":" + g.rest), ws, ":" + g.rest);
    PartsOneLine(":" + g.rest, ":", g.rest);
  }

  lemma TaggedSpeaker(raw: string)
    requires Classify(raw).Tagged?
    ensures var tag := Classify(raw).tag;
      && NoMarks(tag.speaker) && (tag.speaker != "" ==> tag.speaker[0] != '@')
      && Lower(tag.speaker) !in LABELS && Strip(tag.body) == tag.body
  {
    hide ParseTag, Lower, NoMarks, IsSpace;
    var t := LStrip(raw);
    ParsedSpeaker(LStrip(t[QuoteDepth(t)..]));
    LeanIsFixed(Classify(raw).tag.body);
  }

  lemma OneLineParts(body: string)
    requires OneLine(body)
    ensures Parts(body)[0] == body && Parts(body) == [body]
  {
    if body != "" {
      assert body[..|body|] == body;
      LineLenIs(body, |body|);
    }
  }

  lemma HeadOneLine(depth: nat, speaker: string, st: Status, part: string)
    requires OneLine(speaker) && OneLine(part)
    ensures OneLine(HeadLine(depth, speaker, st, part))
  {
    hide Quotes, TagText;
    TagTextOneLine(speaker, st, part);
    QuoteOneLine(depth, TagText(speaker, st, part));
  }

  lemma TagTextOneLine(speaker: string, st: Status, part: string)
    requires OneLine(speaker) && OneLine(part)
    ensures OneLine(TagText(speaker, st, part))
  {
  }

  lemma QuoteOneLine(depth: nat, content: string)
    requires OneLine(content)
    ensures OneLine(QuoteLine(depth, content))
  {
  }
}
