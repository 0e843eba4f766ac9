/** Which thread a thread token finds, and which comment a comment token finds, in terms of the parse alone. */
module Relocation {
  import opened Wrappers
  import opened Text
  import opened Syntax
  import opened Forest
  import opened Scan
  import opened Frame
  import opened Distance
  import opened Locate

  // ----- threads -----

  /** At most a fifth of `b`, or five, edits apart. */
  predicate Close(a: string, b: string) {
    Lev(a, b) <= 5 || 5 * Lev(a, b) <= |b|
  }

  /** Thread `u` has the token's root and anchor, and its root line moved as far as the text has grown. */
  predicate Moved(ts: seq<Thread>, tok: Token, delta: int, u: nat)
    requires u < |ts|
  {
    ts[u].rootLine == tok.rootLine + delta && ts[u].rootText == tok.rootText && ts[u].anchorText == tok.anchorText
  }

  /** Its root and anchor are close to the token's, and its root line is at most ten lines from there, or five more
      than the text has grown or shrunk. */
  predicate Nearby(ts: seq<Thread>, tok: Token, delta: int, u: nat)
    requires u < |ts|
  {
    var off := ts[u].rootLine - (tok.rootLine + delta);
    && (off <= 10 || off <= delta + 5 || off <= -delta + 5)
    && (-off <= 10 || -off <= delta + 5 || -off <= -delta + 5)
    && Close(ts[u].rootText, tok.rootText) && Close(ts[u].anchorText, tok.anchorText)
  }

  /** It was begun by the speaker of the token's root, and its root is close to it. */
  predicate Akin(ts: seq<Thread>, tok: Token, u: nat)
    requires u < |ts|
  {
    && Classify(tok.rootText).Tagged?
    && SpeakerKey(Classify(tok.rootText).tag.speaker) == SpeakerKey(ts[u].initiator)
    && Close(ts[u].rootText, tok.rootText)
  }

  /** And none like it is closer. */
  predicate Closest(ts: seq<Thread>, tok: Token, u: nat)
    requires u < |ts|
  {
    && Akin(ts, tok, u)
    && forall v :: 0 <= v < |ts| && Akin(ts, tok, v) ==>
         Lev(ts[u].rootText, tok.rootText) <= Lev(ts[v].rootText, tok.rootText)
  }

  /** The degrees of a match, from the best on. */
  predicate Matching(ts: seq<Thread>, tok: Token, delta: int, level: nat, u: nat)
    requires u < |ts|
  {
    match level
    case 0 => Moved(ts, tok, delta, u)
    case 1 => Nearby(ts, tok, delta, u)
    case _ => Closest(ts, tok, u)
  }

  predicate AnyMatching(ts: seq<Thread>, tok: Token, delta: int, level: nat) {
    exists u :: 0 <= u < |ts| && Matching(ts, tok, delta, level, u)
  }

  /** `level` is the best at which any thread matches. */
  predicate Deciding(ts: seq<Thread>, tok: Token, delta: int, level: nat) {
    level <= 2 && AnyMatching(ts, tok, delta, level) && forall l :: 0 <= l < level ==> !AnyMatching(ts, tok, delta, l)
  }

  /** Thread `m` is the only match of a level. */
  predicate Alone(ts: seq<Thread>, tok: Token, delta: int, level: nat, m: nat) {
    && m < |ts| && Matching(ts, tok, delta, level, m)
    && forall u :: 0 <= u < |ts| && Matching(ts, tok, delta, level, u) ==> u == m
  }

  /** It is so at the deciding level. */
  predicate Singled(ts: seq<Thread>, tok: Token, delta: int, m: nat) {
    exists level :: 0 <= level <= 2 && Deciding(ts, tok, delta, level) && Alone(ts, tok, delta, level, m)
  }

  lemma ClosenessIs(a: string, b: string)
    ensures Lev(a, b) <= Threshold(b) <==> Close(a, b)
  {
    hide Lev;
  }

  lemma NearIs(ts: seq<Thread>, tok: Token, delta: int, u: nat)
    requires u < |ts|
    ensures Near(tok, delta, ts[u]) <==> Nearby(ts, tok, delta, u)
  {
    hide Lev, Close, Threshold;
    ClosenessIs(ts[u].rootText, tok.rootText);
    ClosenessIs(ts[u].anchorText, tok.anchorText);
  }

  lemma AkinIs(ts: seq<Thread>, tok: Token, u: nat)
    requires u < |ts|
    ensures SameSpeaker(tok, ts[u]) <==> Akin(ts, tok, u)
  {
    hide Lev, Close, Threshold, Classify, SpeakerKey;
    ClosenessIs(ts[u].rootText, tok.rootText);
  }

  ghost predicate Rising(ts: seq<Thread>) {
    forall i, j :: 0 <= i < j < |ts| ==> ts[i].rootLine < ts[j].rootLine
  }

  lemma {:induction false} PickRises(ts: seq<Thread>, p: Thread -> bool)
    requires Rising(ts)
    ensures Rising(Pick(ts, p))
  {
    if ts != [] {
      var front := ts[..|ts| - 1];
      PickRises(front, p);
      forall t | t in Pick(front, p) ensures t.rootLine < ts[|ts| - 1].rootLine {
        assert t in front;
      }
    }
  }

  /** In a list of threads, `hits` are those at the indices that satisfy `at`. */
  lemma OneHit(ts: seq<Thread>, hits: seq<Thread>, m: nat)
    requires Rising(ts) && Rising(hits) && m < |ts| && forall t :: t in hits ==> t in ts
    ensures hits == [ts[m]] <==> ts[m] in hits && forall u :: 0 <= u < |ts| && ts[u] in hits ==> u == m
  {
    if ts[m] in hits && forall u :: 0 <= u < |ts| && ts[u] in hits ==> u == m {
      forall t | t in hits ensures t == ts[m] {
        var u :| 0 <= u < |ts| && ts[u] == t;
      }
      assert hits[0] in hits && hits[|hits| - 1] in hits;
    }
    if hits == [ts[m]] {
      assert hits[0] in hits;
    }
  }

  /** The hits of a level. */
  function Hits(ts: seq<Thread>, tok: Token, delta: int, level: nat): seq<Thread> {
    match level
    case 0 => L0(ts, tok, delta)
    case 1 => L1(ts, tok, delta)
    case _ => L2(ts, tok)
  }

  lemma HitsRise(ts: seq<Thread>, tok: Token, delta: int, level: nat)
    requires Rising(ts)
    ensures Rising(Hits(ts, tok, delta, level)) && forall t :: t in Hits(ts, tok, delta, level) ==> t in ts
  {
    hide Pick, Best, Near, Exact, SameSpeaker, Rising;
    PickRises(ts, (t: Thread) => Exact(tok, delta, t));
    PickRises(ts, (t: Thread) => Near(tok, delta, t));
    var within := Pick(ts, (t: Thread) => SameSpeaker(tok, t));
    PickRises(ts, (t: Thread) => SameSpeaker(tok, t));
    if within != [] {
      var best := Best(within, tok);
      PickRises(within, (t: Thread) => Lev(t.rootText, tok.rootText) == best);
    } else {
      assert L2(ts, tok) == [] && Rising([]) by { NothingRises(); }
    }
  }

  lemma NothingRises()
    ensures Rising([])
  {
  }

  /** A thread is a hit of a level exactly if it matches there. */
  lemma HitsMatch(ts: seq<Thread>, tok: Token, delta: int, level: nat, u: nat)
    requires u < |ts|
    ensures ts[u] in Hits(ts, tok, delta, level) <==> Matching(ts, tok, delta, level, u)
  {
    hide Near, SameSpeaker, Lev, Nearby, Akin, L2, Pick;
    NearIs(ts, tok, delta, u);
    L2Nearest(ts, tok, ts[u]);
    forall v | 0 <= v < |ts| ensures SameSpeaker(tok, ts[v]) <==> Akin(ts, tok, v) {
      AkinIs(ts, tok, v);
    }
    if Closest(ts, tok, u) {
      forall t | t in ts && SameSpeaker(tok, t)
        ensures Lev(ts[u].rootText, tok.rootText) <= Lev(t.rootText, tok.rootText)
      {
        var v :| 0 <= v < |ts| && ts[v] == t;
      }
    }
  }

  lemma LevelHits(ts: seq<Thread>, tok: Token, delta: int, level: nat)
    requires Rising(ts)
    ensures Hits(ts, tok, delta, level) != [] <==> AnyMatching(ts, tok, delta, level)
    ensures forall m: nat :: m < |ts| ==>
      (Hits(ts, tok, delta, level) == [ts[m]] <==> Alone(ts, tok, delta, level, m))
    ensures forall m: nat :: Alone(ts, tok, delta, level, m) ==> m < |ts|
  {
    hide Hits, Matching;
    var hits := Hits(ts, tok, delta, level);
    HitsRise(ts, tok, delta, level);
    forall u | 0 <= u < |ts| ensures ts[u] in hits <==> Matching(ts, tok, delta, level, u) {
      HitsMatch(ts, tok, delta, level, u);
    }
    if hits != [] {
      assert hits[0] in hits;
      var u :| 0 <= u < |ts| && ts[u] == hits[0];
      assert Matching(ts, tok, delta, level, u);
    }
    forall m: nat | m < |ts| ensures hits == [ts[m]] <==> Alone(ts, tok, delta, level, m) {
      OneHit(ts, hits, m);
    }
  }

  /** By how many lines the text has grown since the token was taken. */
  function Growth(text: string, tok: Token): int {
    |SplitLines(text)| - tok.totalLines
  }

  lemma LevelDecides(text: string, tok: Token, id: nat, level: nat)
    requires Deciding(Threads(text), tok, Growth(text, tok), level)
    ensures LocateSpec(text, tok, id)
      == Verdict(Hits(Threads(text), tok, Growth(text, tok), level), id)
  {
    hide Threads, SplitLines, AnyMatching, L0, L1, L2, Verdict, Rising;
    ThreadsListed(text);
    var ts, delta := Threads(text), Growth(text, tok);
    ListedRises(ts);
    LevelHits(ts, tok, delta, 0);
    LevelHits(ts, tok, delta, 1);
    LevelHits(ts, tok, delta, 2);
    assert level == 0 || level == 1 || level == 2;
  }

  lemma ListedRises(ts: seq<Thread>)
    requires Listed(ts)
    ensures Rising(ts)
  {
  }

  lemma BestLevel(ts: seq<Thread>, tok: Token, delta: int, level: nat) returns (best: nat)
    requires level <= 2 && AnyMatching(ts, tok, delta, level)
    ensures Deciding(ts, tok, delta, best) && AnyMatching(ts, tok, delta, best)
  {
    hide AnyMatching;
    best := if AnyMatching(ts, tok, delta, 0) then 0 else if AnyMatching(ts, tok, delta, 1) then 1 else 2;
  }

  lemma OnlyLevel(ts: seq<Thread>, tok: Token, delta: int, best: nat)
    requires Deciding(ts, tok, delta, best)
    ensures forall m: nat :: Singled(ts, tok, delta, m) <==> Alone(ts, tok, delta, best, m)
  {
    hide Alone, AnyMatching;
  }

  /** What a level finds are threads by their numbers. */
  lemma HitsListed(ts: seq<Thread>, tok: Token, delta: int, level: nat)
    requires Listed(ts) && Rising(ts) && Hits(ts, tok, delta, level) != []
    ensures var hit := Hits(ts, tok, delta, level)[0];
      1 <= hit.id <= |ts| && ts[hit.id - 1] == hit
  {
    hide Hits;
    HitsRise(ts, tok, delta, level);
    assert Hits(ts, tok, delta, level)[0] in Hits(ts, tok, delta, level);
  }

  lemma VerdictSays(ts: seq<Thread>, hits: seq<Thread>, id: nat)
    requires hits != [] && Listed(ts) && 1 <= hits[0].id <= |ts| && ts[hits[0].id - 1] == hits[0]
    ensures Verdict(hits, id) == Unique(id) <==> id >= 1 && id <= |ts| && hits == [ts[id - 1]]
    ensures Verdict(hits, id) == Stale ==> hits == [ts[hits[0].id - 1]] && hits[0].id != id
    ensures Verdict(hits, id) != NotFound
    ensures forall m: nat :: m < |ts| && m != id - 1 && hits == [ts[m]] ==> Verdict(hits, id) == Stale
  {
  }

  lemma NothingMatches(text: string, tok: Token, id: nat)
    requires forall level :: 0 <= level <= 2 ==> !AnyMatching(Threads(text), tok, Growth(text, tok), level)
    ensures LocateSpec(text, tok, id) == NotFound
    ensures forall m: nat :: !Singled(Threads(text), tok, Growth(text, tok), m)
  {
    hide Threads, SplitLines, AnyMatching, L0, L1, L2;
    ThreadsListed(text);
    var ts, delta := Threads(text), Growth(text, tok);
    ListedRises(ts);
    LevelHits(ts, tok, delta, 0);
    LevelHits(ts, tok, delta, 1);
    LevelHits(ts, tok, delta, 2);
  }

  /** Exactly when a token finds a thread: when at the best level with any match that thread is the only match, and
      it has the requested number. When no thread matches at any level, nothing is found. */
  lemma LocateExactly(text: string, tok: Token, id: nat)
    ensures var ts, delta := Threads(text), Growth(text, tok);
      && (LocateSpec(text, tok, id) == Unique(id) <==> id >= 1 && Singled(ts, tok, delta, id - 1))
      && (LocateSpec(text, tok, id) == Stale <==> exists m: nat :: m != id - 1 && Singled(ts, tok, delta, m))
      && (LocateSpec(text, tok, id) == NotFound <==> forall level :: 0 <= level <= 2 ==>
            !AnyMatching(ts, tok, delta, level))
  {
    hide Threads, SplitLines, Matching, Hits, LocateSpec, Alone, Deciding;
    ThreadsListed(text);
    var ts, delta := Threads(text), Growth(text, tok);
    ListedRises(ts);
    if level :| 0 <= level <= 2 && AnyMatching(ts, tok, delta, level) {
      var best := BestLevel(ts, tok, delta, level);
      LevelDecides(text, tok, id, best);
      LevelHits(ts, tok, delta, best);
      OnlyLevel(ts, tok, delta, best);
      HitsListed(ts, tok, delta, best);
      VerdictSays(ts, Hits(ts, tok, delta, best), id);
      if LocateSpec(text, tok, id) == Unique(id) { assert Alone(ts, tok, delta, best, id - 1); }
      if LocateSpec(text, tok, id) == Stale {
        var m := Hits(ts, tok, delta, best)[0].id - 1;
        assert Alone(ts, tok, delta, best, m);
      }
    } else {
      NothingMatches(text, tok, id);
    }
  }

  /** Otherwise the candidates are the root lines of all matches of that level, in order. */
  lemma Candidates(text: string, tok: Token, id: nat, level: nat)
    requires Deciding(Threads(text), tok, Growth(text, tok), level)
    requires forall m: nat :: !Alone(Threads(text), tok, Growth(text, tok), level, m)
    ensures LocateSpec(text, tok, id).Ambiguous?
    ensures var ts, lines := Threads(text), LocateSpec(text, tok, id).lines;
      && (forall i, j :: 0 <= i < j < |lines| ==> lines[i] < lines[j])
      && forall n :: n in lines <==> CandidateAt(ts, tok, Growth(text, tok), level, n)
  {
    hide Threads, SplitLines, Hits, Deciding, Alone, Matching;
    ThreadsListed(text);
    var ts, delta := Threads(text), Growth(text, tok);
    ListedRises(ts);
    LevelDecides(text, tok, id, level);
    LevelHits(ts, tok, delta, level);
    HitsRise(ts, tok, delta, level);
    var hits := Hits(ts, tok, delta, level);
    DecidingHits(ts, tok, delta, level);
    if |Hits(ts, tok, delta, level)| == 1 { OneIsAlone(ts, tok, delta, level); }
    CandidateLines(ts, tok, delta, level);
  }

  predicate CandidateAt(ts: seq<Thread>, tok: Token, delta: int, level: nat, n: nat) {
    exists u :: 0 <= u < |ts| && Matching(ts, tok, delta, level, u) && ts[u].rootLine == n
  }

  lemma DecidingHits(ts: seq<Thread>, tok: Token, delta: int, level: nat)
    requires Rising(ts) && Deciding(ts, tok, delta, level)
    ensures Hits(ts, tok, delta, level) != []
  {
    hide Hits, AnyMatching, Alone, Rising;
    LevelHits(ts, tok, delta, level);
  }

  lemma OneIsAlone(ts: seq<Thread>, tok: Token, delta: int, level: nat)
    requires Rising(ts) && |Hits(ts, tok, delta, level)| == 1
    ensures exists m: nat :: Alone(ts, tok, delta, level, m)
  {
    hide Hits, Alone, Matching, AnyMatching, Rising;
    LevelHits(ts, tok, delta, level);
    HitsRise(ts, tok, delta, level);
    var hits := Hits(ts, tok, delta, level);
    assert hits[0] in hits;
    var u: nat :| u < |ts| && ts[u] == hits[0];
    assert hits == [ts[u]];
  }

  lemma CandidateLines(ts: seq<Thread>, tok: Token, delta: int, level: nat)
    requires Rising(ts)
    ensures forall n :: n in RootLines(Hits(ts, tok, delta, level)) <==> CandidateAt(ts, tok, delta, level, n)
  {
    hide Hits, Matching, Rising;
    var hits := Hits(ts, tok, delta, level);
    var lines := RootLines(hits);
    HitsRise(ts, tok, delta, level);
    forall u | 0 <= u < |ts| ensures ts[u] in hits <==> Matching(ts, tok, delta, level, u) {
      HitsMatch(ts, tok, delta, level, u);
    }
    forall n | n in lines ensures CandidateAt(ts, tok, delta, level, n) {
      var i :| 0 <= i < |lines| && lines[i] == n;
      assert hits[i] in hits;
      var u :| 0 <= u < |ts| && ts[u] == hits[i];
    }
    forall n | CandidateAt(ts, tok, delta, level, n) ensures n in lines {
      var u :| 0 <= u < |ts| && Matching(ts, tok, delta, level, u) && ts[u].rootLine == n;
      var i :| 0 <= i < |hits| && hits[i] == ts[u];
      assert lines[i] == n;
    }
  }

  // ----- comments -----

  /** The text of the comment that comment `j` answers; a root answers none. */
  function ParentText(items: seq<Item>, j: nat): string
    requires j < |items|
  {
    if j == 0 then "" else items[Parent(items, j)].text
  }

  /** Comment `j` has the text, the depth, the speaker and the parent's text that the token names. */
  predicate Means(items: seq<Item>, tok: CommentToken, j: nat)
    requires j < |items|
  {
    && items[j].text == tok.text && items[j].depth == tok.depth
    && SpeakerKey(items[j].speaker) == SpeakerKey(tok.speaker) && ParentText(items, j) == tok.parent
  }

  /** The comments of `[lo, hi)` that the token means. */
  function Meant(items: seq<Item>, tok: CommentToken, lo: nat, hi: nat): seq<nat>
    requires lo <= hi <= |items|
    decreases hi - lo
  {
    if lo == hi then []
    else (if Means(items, tok, lo) then [lo] else []) + Meant(items, tok, lo + 1, hi)
  }

  lemma {:induction false} MeantIs(items: seq<Item>, tok: CommentToken, lo: nat, hi: nat)
    requires lo <= hi <= |items|
    ensures var js := Meant(items, tok, lo, hi);
      && (forall j :: j in js ==> lo <= j < hi && Means(items, tok, j))
      && (forall j: nat :: lo <= j < hi && Means(items, tok, j) ==> j in js)
      && (forall i, k :: 0 <= i < k < |js| ==> js[i] < js[k])
    decreases hi - lo
  {
    hide Means;
    if lo < hi {
      MeantIs(items, tok, lo + 1, hi);
      var js, rest := Meant(items, tok, lo, hi), Meant(items, tok, lo + 1, hi);
      assert js == (if Means(items, tok, lo) then [lo] else []) + rest;
      forall i | 0 <= i < |rest| ensures rest[i] > lo {
        assert rest[i] in rest;
      }
    }
  }

  lemma {:induction false} MeantSplit(items: seq<Item>, tok: CommentToken, lo: nat, m: nat, hi: nat)
    requires lo <= m <= hi <= |items|
    ensures Meant(items, tok, lo, hi) == Meant(items, tok, lo, m) + Meant(items, tok, m, hi)
    decreases m - lo
  {
    hide Means;
    if lo < m { MeantSplit(items, tok, lo + 1, m, hi); }
  }

  /** The comments found are those at the indices `js`. */
  ghost predicate Found(items: seq<Item>, cs: seq<Comment>, js: seq<nat>) {
    |cs| == |js| && forall i :: 0 <= i < |cs| ==> js[i] < |items| && cs[i].item == items[js[i]]
  }

  lemma FoundAppend(items: seq<Item>, a: seq<Comment>, b: seq<Comment>, i: seq<nat>, j: seq<nat>)
    requires Found(items, a, i) && Found(items, b, j)
    ensures Found(items, a + b, i + j)
  {
  }

  lemma MatchesCons(c: Comment, cs: seq<Comment>, parent: string, tok: CommentToken)
    ensures MatchesAll([c] + cs, parent, tok)
      == (if SameComment(c, parent, tok) then [c] else []) + MatchesAll(c.children, c.item.text, tok)
         + MatchesAll(cs, parent, tok)
  {
    hide SameComment;
    assert ([c] + cs)[1..] == cs;
  }

  lemma FoundNode(items: seq<Item>, tok: CommentToken, p: nat, lo: nat, e: nat, hi: nat, c: Comment,
                  rest: seq<Comment>)
    requires p < lo < e <= hi <= |items| && Parent(items, lo) == p && c.item == items[lo]
    requires Found(items, MatchesAll(c.children, items[lo].text, tok), Meant(items, tok, lo + 1, e))
    requires Found(items, MatchesAll(rest, items[p].text, tok), Meant(items, tok, e, hi))
    ensures Found(items, MatchesAll([c] + rest, items[p].text, tok), Meant(items, tok, lo, hi))
  {
    hide MatchesAll, Found, Meant, SameComment, Parent;
    var own := if SameComment(c, items[p].text, tok) then [c] else [];
    var below := MatchesAll(c.children, items[lo].text, tok);
    MatchesCons(c, rest, items[p].text, tok);
    MeantSplit(items, tok, lo, lo + 1, hi);
    MeantSplit(items, tok, lo + 1, e, hi);
    MeantOne(items, tok, lo, p, c);
    FoundAppend(items, below, MatchesAll(rest, items[p].text, tok), Meant(items, tok, lo + 1, e),
                Meant(items, tok, e, hi));
    FoundAppend(items, own, below + MatchesAll(rest, items[p].text, tok), Meant(items, tok, lo, lo + 1),
                Meant(items, tok, lo + 1, hi));
    assert own + (below + MatchesAll(rest, items[p].text, tok)) == own + below + MatchesAll(rest, items[p].text, tok);
  }

  /** The walk over a run of children's intervals finds the comments meant there. */
  lemma {:induction false} MatchesRun(items: seq<Item>, tok: CommentToken, p: nat, lo: nat, hi: nat)
    requires Run(items, p, lo, hi) && p < lo <= hi <= |items|
    ensures Found(items, MatchesAll(Build(items[lo..hi]), items[p].text, tok), Meant(items, tok, lo, hi))
    decreases hi - lo
  {
    hide Build, MatchesAll, Run, Deeper, Found, Meant, Above;
    if lo < hi {
      var e := ParentInRun(items, p, lo, hi);
      MatchesRun(items, tok, lo, lo + 1, e);
      MatchesRun(items, tok, p, e, hi);
      BuildSlice(items, lo, e, hi);
      FoundNode(items, tok, p, lo, e, hi, Comment(items[lo], Build(items[lo + 1..e])), Build(items[e..hi]));
    } else {
      MatchesNone(items, tok, items[p].text, lo);
    }
  }

  lemma MatchesNone(items: seq<Item>, tok: CommentToken, parent: string, lo: nat)
    requires lo <= |items|
    ensures Found(items, MatchesAll(Build(items[lo..lo]), parent, tok), Meant(items, tok, lo, lo))
  {
  }

  /** One comment, whose parent is `p`. */
  lemma MeantOne(items: seq<Item>, tok: CommentToken, j: nat, p: nat, c: Comment)
    requires p < j < |items| && Parent(items, j) == p && c.item == items[j]
    ensures Found(items, if SameComment(c, items[p].text, tok) then [c] else [], Meant(items, tok, j, j + 1))
  {
    hide SpeakerKey, Parent;
    assert Meant(items, tok, j + 1, j + 1) == [];
  }

  lemma MatchesTree(items: seq<Item>, tok: CommentToken)
    requires IsThread(items)
    ensures Found(items, Matches(Tree(items), "", tok), Meant(items, tok, 0, |items|))
  {
    hide Build, MatchesAll, Found, Meant, SameComment;
    var rest := MatchesAll(Build(items[1..]), items[0].text, tok);
    assert items[1..] == items[1..|items|];
    MatchesRun(items, tok, 0, 1, |items|);
    MeantSplit(items, tok, 0, 1, |items|);
    MeantRoot(items, tok);
    FoundAppend(items, if SameComment(Tree(items), "", tok) then [Tree(items)] else [], rest,
                Meant(items, tok, 0, 1), Meant(items, tok, 1, |items|));
  }

  lemma MeantRoot(items: seq<Item>, tok: CommentToken)
    requires IsThread(items)
    ensures Found(items, if SameComment(Tree(items), "", tok) then [Tree(items)] else [], Meant(items, tok, 0, 1))
  {
    hide SpeakerKey, Build;
    assert Meant(items, tok, 1, 1) == [];
  }

  /** The token means comment `j` and no other one. */
  ghost predicate MeansOnly(items: seq<Item>, tok: CommentToken, j: nat) {
    j < |items| && Means(items, tok, j) && forall i :: 0 <= i < |items| && Means(items, tok, i) ==> i == j
  }

  /** Exactly what a comment token finds in a thread: the one comment that has its text, depth and speaker and
      answers its parent's text; several with their lines; or none. */
  lemma CommentExactly(items: seq<Item>, tok: CommentToken)
    requires IsThread(items)
    ensures LocateComment(Tree(items), tok).OneComment? <==> exists j: nat :: MeansOnly(items, tok, j)
    ensures forall j: nat :: MeansOnly(items, tok, j) ==>
      LocateComment(Tree(items), tok).OneComment? && LocateComment(Tree(items), tok).comment.item == items[j]
    ensures LocateComment(Tree(items), tok).NoComment? <==> forall j :: 0 <= j < |items| ==> !Means(items, tok, j)
  {
    hide Means, Build, Matches, Meant, MeansOnly;
    MatchesTree(items, tok);
    MeantOnly(items, tok);
    var js := Meant(items, tok, 0, |items|);
    if |js| == 1 { assert js == [js[0]] && MeansOnly(items, tok, js[0]); }
    MeantNone(items, tok);
  }

  /** When a token means several comments, their lines are listed. */
  lemma CommentCandidates(items: seq<Item>, tok: CommentToken)
    requires IsThread(items) && LinesIncrease(items) && LocateComment(Tree(items), tok).SeveralComments?
    ensures var lines := LocateComment(Tree(items), tok).lines;
      && (forall i, j :: 0 <= i < j < |lines| ==> lines[i] < lines[j])
      && forall n :: n in lines <==> MeantAt(items, tok, n)
  {
    hide Means, Build, Matches, Meant;
    MatchesTree(items, tok);
    var js, lines := Meant(items, tok, 0, |items|), LocateComment(Tree(items), tok).lines;
    MeantIs(items, tok, 0, |items|);
    assert |lines| == |js| && forall i :: 0 <= i < |js| ==> lines[i] == items[js[i]].line;
    forall n | n in lines ensures MeantAt(items, tok, n) {
      var i :| 0 <= i < |lines| && lines[i] == n;
      assert js[i] in js;
    }
    forall n | MeantAt(items, tok, n) ensures n in lines {
      var j :| 0 <= j < |items| && Means(items, tok, j) && items[j].line == n;
      var i :| 0 <= i < |js| && js[i] == j;
      assert lines[i] == n;
    }
  }

  predicate MeantAt(items: seq<Item>, tok: CommentToken, n: nat) {
    exists j :: 0 <= j < |items| && Means(items, tok, j) && items[j].line == n
  }

  /** One comment is meant exactly if the list of those meant has one entry. */
  lemma MeantOnly(items: seq<Item>, tok: CommentToken)
    ensures forall j: nat :: MeansOnly(items, tok, j) <==> Meant(items, tok, 0, |items|) == [j]
  {
    hide Means, Meant;
    var js := Meant(items, tok, 0, |items|);
    MeantIs(items, tok, 0, |items|);
    forall j: nat | MeansOnly(items, tok, j) ensures js == [j] {
      assert j in js;
      assert js[0] in js && js[|js| - 1] in js;
    }
  }

  lemma MeantNone(items: seq<Item>, tok: CommentToken)
    ensures Meant(items, tok, 0, |items|) == [] <==> forall j :: 0 <= j < |items| ==> !Means(items, tok, j)
  {
    hide Means, Meant;
    MeantIs(items, tok, 0, |items|);
    var js := Meant(items, tok, 0, |items|);
    if js != [] { assert js[0] in js; }
  }

  /** `comment_token`, taken of comment `j`. */
  function CommentTokenFor(items: seq<Item>, j: nat): CommentToken
    requires j < |items|
  {
    CommentToken(items[j].text, items[j].depth, items[j].speaker, ParentText(items, j))
  }

  /** A comment token just taken finds its own comment if and only if no other comment of the thread has the same
      text, depth and speaker under a parent of the same text. */
  lemma FreshComment(items: seq<Item>, j: nat)
    requires IsThread(items) && j < |items|
    ensures (LocateComment(Tree(items), CommentTokenFor(items, j)).OneComment?
             && LocateComment(Tree(items), CommentTokenFor(items, j)).comment.item == items[j])
      <==> forall i :: 0 <= i < |items| && i != j ==>
             !(items[i].text == items[j].text && items[i].depth == items[j].depth
               && SpeakerKey(items[i].speaker) == SpeakerKey(items[j].speaker)
               && ParentText(items, i) == ParentText(items, j))
  {
    hide SpeakerKey, LocateComment, Build, ParentText;
    var tok := CommentTokenFor(items, j);
    CommentExactly(items, tok);
    assert Means(items, tok, j);
    if forall i :: 0 <= i < |items| && i != j ==> !Means(items, tok, i) {
      assert MeansOnly(items, tok, j);
    }
    if LocateComment(Tree(items), tok).OneComment? {
      var k: nat :| MeansOnly(items, tok, k);
      assert k == j;
    }
  }
}
