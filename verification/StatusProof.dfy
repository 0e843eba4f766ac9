/** `set_status` and `resolve_all_open` are exact: they change the status and the root line of the
    threads they are for and nothing else, if and only if those threads' speakers are stripped. */
module StatusProof {
  import opened Wrappers
  import opened Text
  import opened Syntax
  import opened Forest
  import opened Scan
  import opened Frame
  import opened Splice
  import opened Blocks
  import opened ReplyProof
  import opened ReplyExact

  /** Line index `i` opens a thread: an unfenced tag of depth 1, or an orphan reply. */
  ghost predicate Opens(ls: seq<string>, i: nat)
    requires i < |ls|
  {
    Classify(ls[i]).Tagged? && !At(ls, i).inFence && (Classify(ls[i]).depth == 1 || At(ls, i).cur.None?)
  }

  /** Line `i` of `ls` opens a root, and in `ls2` it has the status `st` and is otherwise the same. */
  ghost predicate RewritesRoot(ls: seq<string>, ls2: seq<string>, i: nat, st: Status)
    requires i < |ls| == |ls2|
  {
    && Opens(ls, i)
    && var tag := Classify(ls[i]).tag;
      Classify(ls2[i]) == Tagged(1, Tag(tag.speaker, Some(st), tag.body))
  }

  /** `ls2` is `ls` with the root lines `R` rewritten. */
  ghost predicate Rewritten(ls: seq<string>, ls2: seq<string>, R: set<nat>, st: Status) {
    && |ls| == |ls2|
    && forall i :: 0 <= i < |ls| ==> if i + 1 in R then RewritesRoot(ls, ls2, i, st) else ls2[i] == ls[i]
  }

  function Restat(ls2: seq<string>, R: set<nat>, st: Status, t: Flat): Flat {
    if t.items != [] && t.items[0].line in R && 1 <= t.items[0].line <= |ls2|
    then t.(status := st, items := t.items[0 := t.items[0].(text := RStrip(ls2[t.items[0].line - 1]))])
    else t
  }

  function RestatAll(ls2: seq<string>, R: set<nat>, st: Status, ts: seq<Flat>): (us: seq<Flat>)
    ensures |us| == |ts| && forall i :: 0 <= i < |ts| ==> us[i] == Restat(ls2, R, st, ts[i])
  {
    seq(|ts|, i requires 0 <= i < |ts| => Restat(ls2, R, st, ts[i]))
  }

  function RestatState(ls2: seq<string>, R: set<nat>, st: Status, s: State): State {
    s.(done := RestatAll(ls2, R, st, s.done),
       cur := match s.cur case None => None case Some(t) => Some(Restat(ls2, R, st, t)))
  }

  lemma RestatExtend(ls2: seq<string>, R: set<nat>, st: Status, t: Flat, content: string)
    requires t.items != []
    ensures Restat(ls2, R, st, ExtendLast(t, content)) == ExtendLast(Restat(ls2, R, st, t), content)
  {
    hide RStrip, Mentions;
    var a, b := Restat(ls2, R, st, ExtendLast(t, content)), ExtendLast(Restat(ls2, R, st, t), content);
    assert |a.items| == |b.items| == |t.items|;
    assert a.items[|t.items| - 1] == b.items[|t.items| - 1];
    assert forall i :: 0 <= i < |t.items| ==> a.items[i] == b.items[i];
  }

  lemma RestatAdd(ls2: seq<string>, R: set<nat>, st: Status, t: Flat, it: Item)
    requires t.items != []
    ensures Restat(ls2, R, st, AddReply(t, it)) == AddReply(Restat(ls2, R, st, t), it)
  {
    hide RStrip;
    var a, b := Restat(ls2, R, st, AddReply(t, it)), AddReply(Restat(ls2, R, st, t), it);
    assert forall i :: 0 <= i < |t.items| + 1 ==> a.items[i] == b.items[i];
  }

  lemma RestatFlush(ls2: seq<string>, R: set<nat>, st: Status, s: State)
    ensures RestatState(ls2, R, st, Flush(s)) == Flush(RestatState(ls2, R, st, s))
  {
    hide Restat;
    if s.cur.Some? {
      assert RestatAll(ls2, R, st, s.done + [s.cur.value])
        == RestatAll(ls2, R, st, s.done) + [Restat(ls2, R, st, s.cur.value)];
    }
  }

  /** Opening a thread on a line that is not rewritten. */
  lemma RestatRoot(ls2: seq<string>, R: set<nat>, st: Status, s: State, n: nat, raw: string, tag: Tag)
    requires n !in R
    ensures RestatState(ls2, R, st, OpenRoot(s, n, raw, tag)) == OpenRoot(RestatState(ls2, R, st, s), n, raw, tag)
  {
    hide RStrip, Mentions, RestatAll;
    RestatFlush(ls2, R, st, s);
  }

  /** Opening a thread on a rewritten line. */
  lemma RestatRewritten(ls: seq<string>, ls2: seq<string>, R: set<nat>, st: Status, s: State, i: nat)
    requires i < |ls| == |ls2| && s == At(ls, i) && i + 1 in R && RewritesRoot(ls, ls2, i, st)
    ensures RestatState(ls2, R, st, Step(s, i + 1, ls[i])) == Step(RestatState(ls2, R, st, s), i + 1, ls2[i])
  {
    hide Classify, RStrip, Mentions, At, RestatAll;
    RestatFlush(ls2, R, st, s);
    var tag := Classify(ls[i]).tag;
    var before, after := NewItem(1, i + 1, ls[i], tag), NewItem(1, i + 1, ls2[i], Classify(ls2[i]).tag);
    assert before.(text := RStrip(ls2[i])) == after;
    assert [before][0 := after] == [after];
  }

  lemma RestatStep(ls: seq<string>, ls2: seq<string>, R: set<nat>, st: Status, s: State, i: nat)
    requires i < |ls| == |ls2| && s == At(ls, i) && Good(s, i) && Rewritten(ls, ls2, R, st)
    ensures RestatState(ls2, R, st, Step(s, i + 1, ls[i])) == Step(RestatState(ls2, R, st, s), i + 1, ls2[i])
  {
    hide Classify, RStrip, Mentions, At, RestatAll, Restat, ExtendLast, AddReply, OpenRoot, NewItem, Strip,
      RewritesRoot, Good, Flush;
    GoodCur(s, i);
    RestatFlush(ls2, R, st, s);
    if i + 1 in R {
      RestatRewritten(ls, ls2, R, st, s, i);
    } else {
      match Classify(ls[i]) {
        case Untagged(content) =>
          if s.cur.Some? {
            RestatExtend(ls2, R, st, s.cur.value, content);
          }
        case Tagged(depth, tag) =>
          RestatRoot(ls2, R, st, s, i + 1, ls[i], tag);
          if s.cur.Some? {
            RestatAdd(ls2, R, st, s.cur.value, NewItem(depth, i + 1, ls[i], tag));
          }
        case _ =>
      }
    }
  }

  lemma {:induction false} RestatAt(ls: seq<string>, ls2: seq<string>, R: set<nat>, st: Status, i: nat)
    requires Rewritten(ls, ls2, R, st) && i <= |ls| == |ls2|
    ensures At(ls2, i) == RestatState(ls2, R, st, At(ls, i))
  {
    hide Rewritten, Step, Restat, Good;
    if i > 0 {
      RestatAt(ls, ls2, R, st, i - 1);
      AtGood(ls, i - 1);
      RestatStep(ls, ls2, R, st, At(ls, i - 1), i - 1);
    }
  }

  /** Rewriting root lines rewrites the parse. */
  lemma RestatParse(ls: seq<string>, ls2: seq<string>, R: set<nat>, st: Status)
    requires Rewritten(ls, ls2, R, st) && |ls| == |ls2|
    ensures Parse(ls2) == RestatAll(ls2, R, st, Parse(ls))
  {
    hide Restat, At, Rewritten, RestatAll;
    RestatAt(ls, ls2, R, st, |ls|);
    RestatFlush(ls2, R, st, At(ls, |ls|));
  }

  // ----- the writer's root line -----

  /** The thread starts on a line that opens it, with the speaker read there. */
  ghost predicate Rooted(ls: seq<string>, t: Flat) {
    && t.items != [] && 1 <= t.items[0].line <= |ls|
    && Opens(ls, t.items[0].line - 1)
    && Classify(ls[t.items[0].line - 1]).tag.speaker == t.items[0].speaker
  }

  lemma RootBorn(ls: seq<string>, k: nat)
    requires k < |Parse(ls)|
    ensures Rooted(ls, Parse(ls)[k])
  {
    hide Classify, At, Step, Parse, Good, Born, Rooted;
    ParseShapely(ls);
    FirstBorn(ls, k);
    BornOpens(ls, k, Parse(ls)[k]);
  }

  lemma BornOpens(ls: seq<string>, k: nat, t: Flat)
    requires t.items != [] && Born(ls, k, 0, t.items[0])
    ensures Rooted(ls, t)
  {
    hide Classify, At, Step, NewItem, RStrip, Good;
    var n := t.items[0].line;
    AtGood(ls, n - 1);
    GoodCur(At(ls, n - 1), n - 1);
    AtNext(ls, n - 1);
    OpensRoot(At(ls, n - 1), n, ls[n - 1]);
  }

  lemma FirstBorn(ls: seq<string>, k: nat)
    requires k < |Parse(ls)| && Parse(ls)[k].items != []
    ensures Born(ls, k, 0, Parse(ls)[k].items[0])
  {
    hide Born, At;
    AtBorn(ls, |ls|);
  }

  lemma GoodCur(s: State, n: nat)
    requires Good(s, n)
    ensures s.cur.Some? ==> s.cur.value.items != []
  {
  }

  /** A line after which the open thread has one comment is one that opened it. */
  lemma OpensRoot(s: State, n: nat, raw: string)
    requires Classify(raw).Tagged? && (s.cur.Some? ==> s.cur.value.items != [])
    requires var u := Step(s, n, raw); !u.inFence && u.cur.Some? && |u.cur.value.items| == 1
    ensures !s.inFence && (Classify(raw).depth == 1 || s.cur.None?)
  {
    hide Classify, NewItem;
  }

  lemma RootLineReads(ls: seq<string>, k: nat, st: Status)
    requires k < |Parse(ls)| && st != Open && Lines(ls)
    ensures Parse(ls)[k].items != [] && 1 <= Parse(ls)[k].items[0].line <= |ls|
    ensures RewriteReads(Parse(ls)[k], ls[Parse(ls)[k].items[0].line - 1], st)
  {
    hide At, Parse, Classify, RewriteReads;
    RootBorn(ls, k);
    RewrittenLine(Parse(ls)[k], ls[Parse(ls)[k].items[0].line - 1], st);
  }

  /** The rewritten root line reads back with the new status if the speaker is stripped; if it reads
      back with the same speaker at all, the speaker is stripped. */
  ghost predicate RewriteReads(t: Flat, raw: string, st: Status)
    requires t.items != []
  {
    && Classify(raw).Tagged?
    && var line, speaker, tag := RootLine(t, raw, st), t.items[0].speaker, Classify(raw).tag;
      && OneLine(line)
      && (Lean(speaker) ==> Classify(line) == Tagged(1, Tag(tag.speaker, Some(st), tag.body)))
      && (Classify(line).Tagged? && Classify(line).tag.speaker == speaker ==> Lean(speaker))
  }

  lemma RewrittenLine(t: Flat, raw: string, st: Status)
    requires t.items != [] && Classify(raw).Tagged? && Classify(raw).tag.speaker == t.items[0].speaker
    requires OneLine(raw) && st != Open
    ensures RewriteReads(t, raw, st)
  {
    hide HeadLine, Lean, NoMarks, Lower, Strip, Classify, Parts, OneLine;
    var tag := Classify(raw).tag;
    TaggedSpeaker(raw);
    ParsedOneLine(raw);
    OneLineParts(tag.body);
    StatusRoundTrip(tag.speaker, st, tag.body);
    HeadOneLine(1, tag.speaker, st, tag.body);
  }

  ghost predicate RootOn(ls: seq<string>, k: nat, n: nat) {
    k < |Parse(ls)| && Parse(ls)[k].items != [] && Parse(ls)[k].items[0].line == n && 1 <= n <= |ls|
  }

  /** Line `n` is thread `k`'s root line, its speaker is stripped, and `ls2` has it rewritten. */
  ghost predicate Rewrites(ls: seq<string>, ls2: seq<string>, k: nat, n: nat, st: Status)
    requires |ls| == |ls2|
  {
    && RootOn(ls, k, n) && Lean(Parse(ls)[k].items[0].speaker)
    && ls2[n - 1] == RootLine(Parse(ls)[k], ls[n - 1], st)
  }

  /** The lines `R` are root lines whose threads have stripped speakers, and `ls2` rewrites them. */
  lemma RewriteRoots(ls: seq<string>, ls2: seq<string>, R: set<nat>, st: Status)
    requires |ls| == |ls2| && Lines(ls) && st != Open
    requires forall n :: n in R ==> exists k: nat :: Rewrites(ls, ls2, k, n, st)
    requires forall i :: 0 <= i < |ls| && i + 1 !in R ==> ls2[i] == ls[i]
    ensures Rewritten(ls, ls2, R, st)
  {
    hide At, Parse, Classify, Lean, RootLine, OneLine;
    forall i | 0 <= i < |ls| && i + 1 in R
      ensures RewritesRoot(ls, ls2, i, st)
    {
      var k: nat :| Rewrites(ls, ls2, k, i + 1, st);
      RootBorn(ls, k);
      RootLineReads(ls, k, st);
    }
  }

  /** What a status change promises for the threads on the lines `R`. */
  function WithStatus(ls: seq<string>, ls2: seq<string>, R: set<nat>, st: Status): seq<Flat> {
    RestatAll(ls2, R, st, Parse(ls))
  }

  /** If the parse is the promised one, every rewritten root has a stripped speaker. */
  lemma RewriteNeeds(ls: seq<string>, ls2: seq<string>, R: set<nat>, st: Status, k: nat, n: nat)
    requires |ls| == |ls2| && Lines(ls) && st != Open && n in R && RootOn(ls, k, n)
    requires ls2[n - 1] == RootLine(Parse(ls)[k], ls[n - 1], st)
    requires Parse(ls2) == WithStatus(ls, ls2, R, st)
    ensures Lean(Parse(ls)[k].items[0].speaker)
  {
    hide At, Parse, Classify, Lean, RootLine, RestatAll;
    RootLineReads(ls, k, st);
    RootBorn(ls2, k);
    assert Parse(ls2)[k] == Restat(ls2, R, st, Parse(ls)[k]);
  }

  // ----- set_status -----

  /** Setting one thread's status changes that status and its root line, and nothing else. */
  ghost predicate StatusExact(ls: seq<string>, k: nat, st: Status) {
    && k < |Parse(ls)| && Parse(ls)[k].items != []
    && var t := Parse(ls)[k];
      var ls2 := StatusLines(ls, t, st);
      && 1 <= t.items[0].line <= |ls|
      && Parse(ls2) == Parse(ls)[k := t.(status := st,
        items := t.items[0 := t.items[0].(text := RStrip(ls2[t.items[0].line - 1]))])]
  }

  lemma RestatMiss(ls2: seq<string>, n: nat, st: Status, t: Flat)
    requires t.items != [] && t.items[0].line != n
    ensures Restat(ls2, {n}, st, t) == t
  {
  }

  lemma RestatHit(ls2: seq<string>, st: Status, t: Flat)
    requires t.items != [] && 1 <= t.items[0].line <= |ls2|
    ensures Restat(ls2, {t.items[0].line}, st, t)
      == t.(status := st, items := t.items[0 := t.items[0].(text := RStrip(ls2[t.items[0].line - 1]))])
  {
    hide RStrip;
  }

  lemma RootsDiffer(ls: seq<string>, i: nat, k: nat)
    requires i < |Parse(ls)| && k < |Parse(ls)| && i != k
    ensures Parse(ls)[i].items != [] && Parse(ls)[k].items != []
    ensures Parse(ls)[i].items[0].line != Parse(ls)[k].items[0].line
  {
    hide Parse, Tidy;
    ParseTidy(ls);
    if i < k {
      RootsIncrease(Parse(ls), |ls|, i, k);
    } else {
      RootsIncrease(Parse(ls), |ls|, k, i);
    }
  }

  lemma OthersKept(ls: seq<string>, ls2: seq<string>, k: nat, n: nat, st: Status)
    requires k < |Parse(ls)| && Parse(ls)[k].items != [] && Parse(ls)[k].items[0].line == n
    ensures RestatAll(ls2, {n}, st, Parse(ls)) == Parse(ls)[k := Restat(ls2, {n}, st, Parse(ls)[k])]
  {
    hide Parse, RStrip, Restat;
    var ts := Parse(ls);
    forall i | 0 <= i < |ts| && i != k
      ensures Restat(ls2, {n}, st, ts[i]) == ts[i]
    {
      RootsDiffer(ls, i, k);
      RestatMiss(ls2, n, st, ts[i]);
    }
  }

  lemma RootInText(ls: seq<string>, k: nat)
    requires k < |Parse(ls)|
    ensures Parse(ls)[k].items != [] && 1 <= Parse(ls)[k].items[0].line <= |ls|
  {
    hide Parse, At, Classify;
    RootBorn(ls, k);
  }

  lemma OneRestat(ls: seq<string>, ls2: seq<string>, k: nat, st: Status)
    requires k < |Parse(ls)| && |ls| == |ls2|
    ensures Parse(ls)[k].items != [] && 1 <= Parse(ls)[k].items[0].line <= |ls|
    ensures var t := Parse(ls)[k];
      RestatAll(ls2, {t.items[0].line}, st, Parse(ls))
        == Parse(ls)[k := t.(status := st,
             items := t.items[0 := t.items[0].(text := RStrip(ls2[t.items[0].line - 1]))])]
  {
    hide Parse, RStrip, Restat, RestatAll;
    RootInText(ls, k);
    RestatHit(ls2, st, Parse(ls)[k]);
    OthersKept(ls, ls2, k, Parse(ls)[k].items[0].line, st);
  }

  /** `set_status` is exact if and only if the initiator is a stripped name. */
  lemma StatusExactly(ls: seq<string>, k: nat, st: Status)
    requires k < |Parse(ls)| && st != Open && Lines(ls)
    ensures Parse(ls)[k].items != []
    ensures StatusExact(ls, k, st) <==> Lean(Parse(ls)[k].items[0].speaker)
  {
    hide Parse, Lean, RootLine, RestatAll, Rewritten, At, Classify, RStrip, Lines;
    RootBorn(ls, k);
    var t := Parse(ls)[k];
    var n, ls2 := t.items[0].line, StatusLines(ls, t, st);
    OneRestat(ls, ls2, k, st);
    assert RootOn(ls, k, n);
    if Lean(t.items[0].speaker) {
      assert Rewrites(ls, ls2, k, n, st);
      RewriteRoots(ls, ls2, {n}, st);
      RestatParse(ls, ls2, {n}, st);
    } else if StatusExact(ls, k, st) {
      RewriteNeeds(ls, ls2, {n}, st, k, n);
    }
  }

  // ----- resolve_all_open -----

  predicate RootsApart(ts: seq<Flat>)
    requires Shapely(ts)
  {
    forall i, j :: 0 <= i < j < |ts| ==> ts[i].items[0].line < ts[j].items[0].line
  }

  lemma ParseApart(ls: seq<string>)
    ensures Shapely(Parse(ls)) && RootsApart(Parse(ls))
  {
    hide Parse;
    RootsOrdered(ls);
  }

  /** A line that is no pending thread's root line is left alone. */
  lemma {:induction false} Untouched(ls: seq<string>, ts: seq<Flat>, i: nat)
    requires Shapely(ts) && i < |ls|
    requires forall k :: 0 <= k < |ts| && ts[k].status != Resolved ==> ts[k].items[0].line != i + 1
    ensures ResolveLines(ls, ts)[i] == ls[i]
  {
    hide RootLine;
    if ts != [] {
      Untouched(ls, ts[..|ts| - 1], i);
    }
  }

  /** A pending thread's root line is rewritten once. */
  lemma {:induction false} Touched(ls: seq<string>, ts: seq<Flat>, k: nat)
    requires Shapely(ts) && RootsApart(ts) && k < |ts| && ts[k].status != Resolved
    requires 1 <= ts[k].items[0].line <= |ls|
    ensures ResolveLines(ls, ts)[ts[k].items[0].line - 1] == RootLine(ts[k], ls[ts[k].items[0].line - 1], Resolved)
  {
    hide RootLine;
    var pre := ts[..|ts| - 1];
    if k == |ts| - 1 {
      Untouched(ls, pre, ts[k].items[0].line - 1);
    } else {
      assert RootsApart(pre) && pre[k] == ts[k];
      Touched(ls, pre, k);
    }
  }

  function PendingLines(ts: seq<Flat>): set<nat> {
    set k | 0 <= k < |ts| && ts[k].items != [] && ts[k].status != Resolved :: ts[k].items[0].line
  }

  /** Every pending thread becomes resolved, with a new root line; resolved ones stay as they are. */
  ghost predicate ResolveExact(ls: seq<string>) {
    && Shapely(Parse(ls))
    && var ts, ls2 := Parse(ls), ResolveLines(ls, Parse(ls));
      && |Parse(ls2)| == |ts|
      && (forall k :: 0 <= k < |ts| ==> 1 <= ts[k].items[0].line <= |ls|)
      && (forall k :: 0 <= k < |ts| ==> Parse(ls2)[k] == Closed(ts[k], ls2))
  }

  /** A thread after the closure, given the new lines. */
  function Closed(t: Flat, ls2: seq<string>): Flat
    requires t.items != [] && 1 <= t.items[0].line <= |ls2|
  {
    if t.status == Resolved then t
    else t.(status := Resolved, items := t.items[0 := t.items[0].(text := RStrip(ls2[t.items[0].line - 1]))])
  }

  ghost predicate PendingLean(ts: seq<Flat>)
    requires Shapely(ts)
  {
    forall k :: 0 <= k < |ts| && ts[k].status != Resolved ==> Lean(ts[k].items[0].speaker)
  }

  /** The rewritten set is exactly the set of pending roots, so the promise is a rewriting. */
  lemma ResolveIsRestat(ls: seq<string>)
    requires Shapely(Parse(ls))
    ensures var ls2 := ResolveLines(ls, Parse(ls));
      ResolveExact(ls) <==> Parse(ls2) == RestatAll(ls2, PendingLines(Parse(ls)), Resolved, Parse(ls))
  {
    hide Parse, RStrip, ResolveLines, Opens, Classify;
    var ts, ls2, R := Parse(ls), ResolveLines(ls, Parse(ls)), PendingLines(Parse(ls));
    ParseApart(ls);
    forall k | 0 <= k < |ts|
      ensures 1 <= ts[k].items[0].line <= |ls|
      ensures ts[k].items[0].line in R <==> ts[k].status != Resolved
    {
      RootBorn(ls, k);
    }
  }

  /** Closing rewrites exactly the pending roots. */
  lemma ResolveRewritten(ls: seq<string>)
    requires Lines(ls) && Shapely(Parse(ls)) && PendingLean(Parse(ls))
    ensures Rewritten(ls, ResolveLines(ls, Parse(ls)), PendingLines(Parse(ls)), Resolved)
  {
    hide Parse, RootLine, ResolveLines, At, Classify, Lean, Lines, Rewritten, Opens;
    ParseApart(ls);
    var ts, ls2, R := Parse(ls), ResolveLines(ls, Parse(ls)), PendingLines(Parse(ls));
    forall n | n in R
      ensures exists k: nat :: Rewrites(ls, ls2, k, n, Resolved)
    {
      var k :| 0 <= k < |ts| && ts[k].items != [] && ts[k].status != Resolved && ts[k].items[0].line == n;
      RootBorn(ls, k);
      Touched(ls, ts, k);
      assert Rewrites(ls, ls2, k, n, Resolved);
    }
    forall i | 0 <= i < |ls| && i + 1 !in R
      ensures ls2[i] == ls[i]
    {
      Untouched(ls, ts, i);
    }
    RewriteRoots(ls, ls2, R, Resolved);
  }

  /** `resolve_all_open` is exact if and only if every thread it closes has a stripped initiator. */
  lemma ResolveExactly(ls: seq<string>)
    requires Lines(ls)
    ensures Shapely(Parse(ls)) && (ResolveExact(ls) <==> PendingLean(Parse(ls)))
  {
    hide Parse, RootLine, RestatAll, ResolveLines, At, Classify, Lean, Lines, ResolveExact, Rewritten, Opens;
    ParseApart(ls);
    ResolveIsRestat(ls);
    var ts, ls2, R := Parse(ls), ResolveLines(ls, Parse(ls)), PendingLines(Parse(ls));
    if PendingLean(ts) {
      ResolveRewritten(ls);
      RestatParse(ls, ls2, R, Resolved);
    }
    if ResolveExact(ls) {
      forall k | 0 <= k < |ts| && ts[k].status != Resolved
        ensures Lean(ts[k].items[0].speaker)
      {
        RootBorn(ls, k);
        Touched(ls, ts, k);
        RewriteNeeds(ls, ls2, R, Resolved, k, ts[k].items[0].line);
      }
    }
  }

  predicate AllResolved(ts: seq<Flat>) {
    forall k :: 0 <= k < |ts| ==> ts[k].status == Resolved
  }

  lemma {:induction false} NonePending(ls: seq<string>, ts: seq<Flat>)
    requires Shapely(ts) && AllResolved(ts)
    ensures Pending(ts) == 0 && ResolveLines(ls, ts) == ls
  {
    if ts != [] {
      NonePending(ls, ts[..|ts| - 1]);
    }
  }

  lemma {:induction false} PendingZero(ts: seq<Flat>)
    ensures Pending(ts) == 0 <==> AllResolved(ts)
  {
    if ts != [] {
      PendingZero(ts[..|ts| - 1]);
      assert forall k :: 0 <= k < |ts| - 1 ==> ts[k] == ts[..|ts| - 1][k];
    }
  }

  /** After closing, the document is ready, and closing again changes nothing. */
  lemma ResolveSettles(ls: seq<string>)
    requires Lines(ls) && Shapely(Parse(ls)) && PendingLean(Parse(ls))
    ensures var ls2 := ResolveLines(ls, Parse(ls));
      && AllResolved(Parse(ls2)) && Shapely(Parse(ls2))
      && ResolveLines(ls2, Parse(ls2)) == ls2 && Pending(Parse(ls2)) == 0
  {
    hide Parse, ResolveLines, PendingLean, RStrip, Lines;
    ResolveExactly(ls);
    var ls2 := ResolveLines(ls, Parse(ls));
    ParseShapely(ls2);
    assert AllResolved(Parse(ls2));
    NonePending(ls2, Parse(ls2));
  }
}
