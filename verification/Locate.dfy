/** Relocating a thread by its content token, from exact match down to the root's speaker; writes go
    ahead only on a unique match that still has the requested id. */
module Locate {
  import opened Wrappers
  import opened Text
  import opened Syntax
  import opened Forest
  import opened Scan
  import opened Frame
  import opened Distance
  import Parser

  datatype Token = Token(totalLines: int, anchorLine: int, anchorText: string, rootLine: int, rootText: string)

  datatype Found = Unique(id: nat) | Ambiguous(lines: seq<nat>) | NotFound | Stale

  datatype CommentToken = CommentToken(text: string, depth: nat, speaker: string, parent: string)

  datatype FoundComment = OneComment(comment: Comment) | SeveralComments(lines: seq<nat>) | NoComment

  /** `speaker_key`, up to Unicode composition and non-ASCII case. */
  function SpeakerKey(name: string): string {
    Lower(Normalize(name))
  }

  function TokenFor(t: Thread): Token {
    Token(t.totalLines, t.anchorLine, t.anchorText, t.rootLine, t.rootText)
  }

  function Abs(n: int): nat {
    if n < 0 then -n else n
  }

  function Threshold(s: string): nat {
    Max(5, |s| / 5)
  }

  function RootSpeaker(rootText: string): Option<string> {
    match Classify(rootText)
    case Tagged(_, tag) => Some(SpeakerKey(tag.speaker))
    case _ => None
  }

  /** The threads of a list that satisfy `p`, in order. */
  function Pick(ts: seq<Thread>, p: Thread -> bool): (r: seq<Thread>)
    ensures forall t :: t in r <==> t in ts && p(t)
  {
    if ts == [] then []
    else
      var r, last := Pick(ts[..|ts| - 1], p), ts[|ts| - 1];
      assert ts == ts[..|ts| - 1] + [last];
      if p(last) then r + [last] else r
  }

  predicate Exact(tok: Token, delta: int, t: Thread) {
    t.rootLine == tok.rootLine + delta && t.rootText == tok.rootText && t.anchorText == tok.anchorText
  }

  function L0(ts: seq<Thread>, tok: Token, delta: int): seq<Thread> {
    Pick(ts, (t: Thread) => Exact(tok, delta, t))
  }

  predicate Near(tok: Token, delta: int, t: Thread) {
    && Abs(t.rootLine - (tok.rootLine + delta)) <= Max(Abs(delta) + 5, 10)
    && Lev(t.rootText, tok.rootText) <= Threshold(tok.rootText)
    && Lev(t.anchorText, tok.anchorText) <= Threshold(tok.anchorText)
  }

  function L1(ts: seq<Thread>, tok: Token, delta: int): seq<Thread> {
    Pick(ts, (t: Thread) => Near(tok, delta, t))
  }

  predicate SameSpeaker(tok: Token, t: Thread) {
    && RootSpeaker(tok.rootText) == Some(SpeakerKey(t.initiator))
    && Lev(t.rootText, tok.rootText) <= Threshold(tok.rootText)
  }

  /** The least distance to the token's root among `ts`. */
  function Best(ts: seq<Thread>, tok: Token): (d: nat)
    requires ts != []
    ensures forall t :: t in ts ==> d <= Lev(t.rootText, tok.rootText)
    ensures exists t :: t in ts && d == Lev(t.rootText, tok.rootText)
  {
    var last := ts[|ts| - 1];
    assert ts == ts[..|ts| - 1] + [last];
    if |ts| == 1 then Lev(last.rootText, tok.rootText)
    else Min(Best(ts[..|ts| - 1], tok), Lev(last.rootText, tok.rootText))
  }

  function L2(ts: seq<Thread>, tok: Token): seq<Thread> {
    var within := Pick(ts, (t: Thread) => SameSpeaker(tok, t));
    if within == [] then []
    else
      var best := Best(within, tok);
      Pick(within, (t: Thread) => Lev(t.rootText, tok.rootText) == best)
  }

  function RootLines(ts: seq<Thread>): seq<nat> {
    seq(|ts|, i requires 0 <= i < |ts| => ts[i].rootLine)
  }

  /** The verdict on the first level that has any hit. */
  function Verdict(hits: seq<Thread>, id: nat): Found {
    if hits == [] then NotFound
    else if |hits| > 1 then Ambiguous(RootLines(hits))
    else if hits[0].id == id then Unique(id)
    else Stale
  }

  function LocateSpec(text: string, tok: Token, id: nat): Found {
    var ts := Threads(text);
    var delta := |SplitLines(text)| - tok.totalLines;
    if L0(ts, tok, delta) != [] then Verdict(L0(ts, tok, delta), id)
    else if L1(ts, tok, delta) != [] then Verdict(L1(ts, tok, delta), id)
    else Verdict(L2(ts, tok), id)
  }

  // ----- the loops -----

  lemma PickNext(ts: seq<Thread>, i: nat, p: Thread -> bool)
    requires i < |ts|
    ensures Pick(ts[..i + 1], p) == if p(ts[i]) then Pick(ts[..i], p) + [ts[i]] else Pick(ts[..i], p)
  {
    assert ts[..i + 1][..i] == ts[..i];
  }

  /** `_l1`. */
  method NearHits(ts: seq<Thread>, tok: Token, delta: int) returns (hits: seq<Thread>)
    ensures hits == L1(ts, tok, delta)
  {
    var target := tok.rootLine + delta;
    var window := Max(Abs(delta) + 5, 10);
    ghost var p := (t: Thread) => Near(tok, delta, t);
    hits := [];
    for i := 0 to |ts|
      invariant hits == Pick(ts[..i], p)
    {
      var t := ts[i];
      PickNext(ts, i, p);
      if Abs(t.rootLine - target) <= window {
        var root := Levenshtein(t.rootText, tok.rootText);
        if root <= Threshold(tok.rootText) {
          var anchor := Levenshtein(t.anchorText, tok.anchorText);
          if anchor <= Threshold(tok.anchorText) {
            hits := hits + [t];
          }
        }
      }
    }
    assert ts[..|ts|] == ts;
  }

  /** `locate`: the degrade through the levels returns at the first that hits. */
  method LocateThread(text: string, tok: Token, id: nat) returns (r: Found)
    ensures r == LocateSpec(text, tok, id)
  {
    hide L2, Pick, Threads, SplitLines;
    var ts := Parser.ParseThreads(text);
    var delta := |SplitLines(text)| - tok.totalLines;
    var near := NearHits(ts, tok, delta);
    var levels := [L0(ts, tok, delta), near, L2(ts, tok)];
    for i := 0 to 3
      invariant forall m :: 0 <= m < i ==> levels[m] == []
    {
      if levels[i] != [] {
        assert (i >= 1 ==> levels[0] == []) && (i >= 2 ==> levels[1] == []);
        return Verdict(levels[i], id);
      }
    }
    assert levels[0] == [] && levels[1] == [] && levels[2] == [];
    r := NotFound;
  }

  // ----- properties -----

  /** `_l2` returns exactly the same-speaker threads within the threshold at the least distance. */
  lemma L2Nearest(ts: seq<Thread>, tok: Token, t: Thread)
    ensures t in L2(ts, tok) <==>
      && t in ts && SameSpeaker(tok, t)
      && forall u :: u in ts && SameSpeaker(tok, u) ==> Lev(t.rootText, tok.rootText) <= Lev(u.rootText, tok.rootText)
  {
    hide Lev, SameSpeaker;
    var within := Pick(ts, (u: Thread) => SameSpeaker(tok, u));
    if within != [] {
      var best := Best(within, tok);
      var w :| w in within && best == Lev(w.rootText, tok.rootText);
    }
  }

  /** Threads with distinct roots: at most one is picked by a predicate that fixes the root line. */
  lemma {:induction false} PickOne(ts: seq<Thread>, p: Thread -> bool, m: nat)
    requires m < |ts| && p(ts[m]) && forall i :: 0 <= i < |ts| && i != m ==> !p(ts[i])
    ensures Pick(ts, p) == [ts[m]]
  {
    var pre := ts[..|ts| - 1];
    if m == |ts| - 1 {
      PickNone(pre, p);
    } else {
      PickOne(pre, p, m);
    }
  }

  lemma {:induction false} PickNone(ts: seq<Thread>, p: Thread -> bool)
    requires forall i :: 0 <= i < |ts| ==> !p(ts[i])
    ensures Pick(ts, p) == []
  {
    if ts != [] {
      PickNone(ts[..|ts| - 1], p);
    }
  }

  /** The ids count the threads and the root lines increase. */
  ghost predicate Listed(ts: seq<Thread>) {
    && (forall i :: 0 <= i < |ts| ==> ts[i].id == i + 1)
    && forall i, j :: 0 <= i < j < |ts| ==> ts[i].rootLine < ts[j].rootLine
  }

  lemma ThreadsListed(text: string)
    ensures Listed(Threads(text))
    ensures forall i :: 0 <= i < |Threads(text)| ==> Threads(text)[i].totalLines == |SplitLines(text)|
  {
    hide Parse, Tree, Dedup, AllMentions, Normalize, SplitLines, IsThread;
    var ls := SplitLines(text);
    ParseShapely(ls);
    RootsOrdered(ls);
  }

  /** An exact hit is the only one: level 0 is never ambiguous, and it decides. */
  lemma ExactDecides(text: string, tok: Token, id: nat, m: nat)
    requires m < |Threads(text)| && Exact(tok, |SplitLines(text)| - tok.totalLines, Threads(text)[m])
    ensures L0(Threads(text), tok, |SplitLines(text)| - tok.totalLines) == [Threads(text)[m]]
    ensures LocateSpec(text, tok, id) == if id == m + 1 then Unique(id) else Stale
  {
    hide Threads, SplitLines, Pick, L1, L2;
    ThreadsListed(text);
    var ts := Threads(text);
    PickOne(ts, (t: Thread) => Exact(tok, |SplitLines(text)| - tok.totalLines, t), m);
  }

  lemma ExactNeverAmbiguous(text: string, tok: Token, delta: int)
    ensures |L0(Threads(text), tok, delta)| <= 1
  {
    hide Threads, Pick;
    ThreadsListed(text);
    var ts, p := Threads(text), (t: Thread) => Exact(tok, delta, t);
    if m: nat :| m < |ts| && p(ts[m]) {
      PickOne(ts, p, m);
    } else {
      PickNone(ts, p);
    }
  }

  /** A token just taken finds its own thread. */
  lemma Fresh(text: string, m: nat)
    requires m < |Threads(text)|
    ensures LocateSpec(text, TokenFor(Threads(text)[m]), m + 1) == Unique(m + 1)
  {
    hide Threads, LocateSpec, SplitLines;
    ThreadsListed(text);
    ExactDecides(text, TokenFor(Threads(text)[m]), m + 1, m);
  }

  /** A write can only ever go to the requested id, and only to a thread that is the single hit of
      the first level with hits. */
  lemma FailClosed(text: string, tok: Token, id: nat)
    requires LocateSpec(text, tok, id).Unique?
    ensures 1 <= id <= |Threads(text)|
    ensures var t, delta := Threads(text)[id - 1], |SplitLines(text)| - tok.totalLines;
      Exact(tok, delta, t) || Near(tok, delta, t) || SameSpeaker(tok, t)
  {
    hide Threads, SplitLines, Exact, Near, SameSpeaker, Best;
    ThreadsListed(text);
    var ts, delta := Threads(text), |SplitLines(text)| - tok.totalLines;
    var hits := if L0(ts, tok, delta) != [] then L0(ts, tok, delta)
      else if L1(ts, tok, delta) != [] then L1(ts, tok, delta) else L2(ts, tok);
    assert hits[0] in hits && hits[0].id == id;
    assert hits[0] in ts;
  }

  // ----- comments within a thread -----

  predicate SameComment(c: Comment, parent: string, tok: CommentToken) {
    && c.item.text == tok.text && c.item.depth == tok.depth
    && SpeakerKey(c.item.speaker) == SpeakerKey(tok.speaker) && parent == tok.parent
  }

  /** The walk of `locate_comment`: all comments that match the token, in scan order. */
  function Matches(c: Comment, parent: string, tok: CommentToken): seq<Comment>
    decreases c, 1
  {
    (if SameComment(c, parent, tok) then [c] else []) + MatchesAll(c.children, c.item.text, tok)
  }

  function MatchesAll(cs: seq<Comment>, parent: string, tok: CommentToken): seq<Comment>
    decreases cs, 0
  {
    if cs == [] then [] else Matches(cs[0], parent, tok) + MatchesAll(cs[1..], parent, tok)
  }

  function LocateComment(root: Comment, tok: CommentToken): FoundComment {
    var hits := Matches(root, "", tok);
    if |hits| == 1 then OneComment(hits[0])
    else if hits != [] then SeveralComments(seq(|hits|, i requires 0 <= i < |hits| => hits[i].item.line))
    else NoComment
  }

  /** What is found is a comment of the tree. */
  lemma {:induction false} MatchesInTree(c: Comment, parent: string, tok: CommentToken)
    ensures forall m :: m in Matches(c, parent, tok) ==> m.item in IterComments(c)
    decreases c, 1
  {
    MatchesAllInTree(c.children, c.item.text, tok);
  }

  lemma {:induction false} MatchesAllInTree(cs: seq<Comment>, parent: string, tok: CommentToken)
    ensures forall m :: m in MatchesAll(cs, parent, tok) ==> m.item in IterAll(cs)
    decreases cs, 0
  {
    if cs != [] {
      MatchesInTree(cs[0], parent, tok);
      MatchesAllInTree(cs[1..], parent, tok);
    }
  }

  /** A reply target located in a thread's tree is one of the thread's comments. */
  lemma LocatedIsItem(items: seq<Item>, tok: CommentToken)
    requires items != [] && LocateComment(Tree(items), tok).OneComment?
    ensures LocateComment(Tree(items), tok).comment.item in items
  {
    MatchesInTree(Tree(items), "", tok);
    IterTree(items);
    var hits := Matches(Tree(items), "", tok);
    assert hits[0] in hits;
  }
}
