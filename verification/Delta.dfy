/** The delta checker: is the change between two versions of a document nothing but discussion lines
    and the empty lines that frame them? The line matcher is a parameter; all that is used of it is
    that its opcodes tile both bodies. */
module Delta {
  import opened Text
  import opened Syntax
  import opened Forest
  import opened Scan
  import opened Frame
  import opened ReplyExact
  import Parser

  // ----- lines with their ends -----

  function Ended(ls: seq<string>, nl: bool): (ks: seq<string>)
    ensures |ks| == |ls|
  {
    seq(|ls|, i requires 0 <= i < |ls| => if i < |ls| - 1 || nl then ls[i] + "\n" else ls[i])
  }

  /** `splitlines(keepends=True)`. */
  function KeepLines(text: string): seq<string> {
    Ended(SplitLines(text), EndsNl(text))
  }

  // ----- discussion lines -----

  datatype Mark = Mark(inFence: bool, inThread: bool)

  /** One line of the delta checker's own scan, which resets at every fence. */
  function MarkStep(m: Mark, k: Kind): Mark {
    match k
    case Fence => Mark(!m.inFence, false)
    case _ =>
      if m.inFence then m
      else
        match k
        case Tagged(_, _) => Mark(false, true)
        case Plain => Mark(false, false)
        case _ => m
  }

  function MarkAt(ls: seq<string>, i: nat): Mark
    requires i <= |ls|
  {
    if i == 0 then Mark(false, false) else MarkStep(MarkAt(ls, i - 1), Classify(ls[i - 1]))
  }

  /** Line `n` belongs to a discussion: a tag outside a fence, or a quote after one in its run. */
  predicate IsDiscussion(ls: seq<string>, n: nat)
    requires 1 <= n <= |ls|
  {
    var m, k := MarkAt(ls, n - 1), Classify(ls[n - 1]);
    !m.inFence && (k.Tagged? || (k.Untagged? && m.inThread))
  }

  /** Line `n` is a tag outside a fence. */
  predicate IsComment(ls: seq<string>, n: nat) {
    1 <= n <= |ls| && !MarkAt(ls, n - 1).inFence && Classify(ls[n - 1]).Tagged?
  }

  function Discussion(ls: seq<string>): set<nat> {
    set n: nat | 1 <= n <= |ls| && IsDiscussion(ls, n)
  }

  lemma {:induction false} MarkFence(ls: seq<string>, i: nat)
    requires i <= |ls|
    ensures MarkAt(ls, i).inFence == At(ls, i).inFence
  {
    hide Classify, Feed;
    if i > 0 {
      MarkFence(ls, i - 1);
      if !Classify(ls[i - 1]).Fence? {
        StepFence(At(ls, i - 1), i, ls[i - 1]);
      }
    }
  }

  /** The lines of a thread list's comments, as the walk over their trees yields them. */
  function CommentLines(ts: seq<Thread>): set<nat> {
    set k, j | 0 <= k < |ts| && 0 <= j < |IterComments(ts[k].root)| :: IterComments(ts[k].root)[j].line
  }

  lemma ParsedIsTag(text: string, n: nat)
    requires n in CommentLines(Threads(text))
    ensures IsComment(SplitLines(text), n)
  {
    hide Classify, At, Parse, SplitLines, MarkAt, NewItem, RStrip, Later, Build, Dedup, Normalize;
    var ls := SplitLines(text);
    ParseShapely(ls);
    var k, j :| 0 <= k < |Threads(text)| && 0 <= j < |IterComments(Threads(text)[k].root)|
      && IterComments(Threads(text)[k].root)[j].line == n;
    IterTree(Parse(ls)[k].items);
    CommentIsTag(ls, k, j);
    MarkFence(ls, n - 1);
  }

  lemma TagIsParsed(text: string, n: nat)
    requires IsComment(SplitLines(text), n)
    ensures n in CommentLines(Threads(text))
  {
    hide Classify, At, Parse, SplitLines, MarkAt, NewItem, RStrip, Later, Build, Dedup, Normalize;
    var ls := SplitLines(text);
    ParseShapely(ls);
    MarkFence(ls, n - 1);
    var k, j := TaggedIsComment(ls, n);
    IterTree(Parse(ls)[k].items);
    assert IterComments(Threads(text)[k].root)[j].line == n;
  }

  /** The parser's comments are exactly the tagged lines outside fences. */
  lemma CommentsAreTags(text: string, n: nat)
    ensures n in CommentLines(Threads(text)) <==> IsComment(SplitLines(text), n)
  {
    hide CommentLines, IsComment, Threads, SplitLines;
    if n in CommentLines(Threads(text)) {
      ParsedIsTag(text, n);
    }
    if IsComment(SplitLines(text), n) {
      TagIsParsed(text, n);
    }
  }

  lemma CommentIsTag(ls: seq<string>, k: nat, j: nat)
    requires k < |Parse(ls)| && j < |Parse(ls)[k].items|
    ensures var n := Parse(ls)[k].items[j].line;
      1 <= n <= |ls| && !At(ls, n - 1).inFence && Classify(ls[n - 1]).Tagged?
  {
    hide Classify, At, NewItem, RStrip, Step;
    AtBorn(ls, |ls|);
    assert Born(ls, k, j, Parse(ls)[k].items[j]);
    var n := Parse(ls)[k].items[j].line;
    AtNext(ls, n - 1);
    TagKeepsFence(At(ls, n - 1), n, ls[n - 1]);
  }

  lemma TagKeepsFence(s: State, n: nat, raw: string)
    requires Classify(raw).Tagged?
    ensures Step(s, n, raw).inFence == s.inFence
  {
    StepFence(s, n, raw);
  }

  /** `_discussion_line_numbers`: the parser's comments first, then a scan for continuation lines. */
  method DiscussionLines(text: string) returns (found: set<nat>)
    ensures found == Discussion(SplitLines(text))
  {
    hide Classify, MarkAt, SplitLines, CommentLines, Threads, IsDiscussion;
    var ls := SplitLines(text);
    var ts := Parser.ParseThreads(text);
    var tagged := CommentLines(ts);
    forall n: nat
      ensures n in tagged <==> IsComment(ls, n)
    {
      CommentsAreTags(text, n);
    }
    if tagged == {} {
      NoTags(ls, |ls|);
      return {};
    }
    found := {};
    var inThread, inFence := false, false;
    MarkZero(ls);
    for idx := 0 to |ls|
      invariant Mark(inFence, inThread) == MarkAt(ls, idx)
      invariant found == set n: nat | 1 <= n <= idx && IsDiscussion(ls, n)
    {
      var k := Classify(ls[idx]);
      MarkNext(ls, idx);
      DiscussionNext(ls, idx);
      if k.Fence? {
        inFence := !inFence;
        inThread := false;
      } else if !inFence {
        if IsQuote(k) {
          if idx + 1 in tagged {
            found := found + {idx + 1};
            inThread := true;
          } else if inThread {
            found := found + {idx + 1};
          }
        } else if !k.Blank? {
          inThread := false;
        }
      }
    }
  }

  lemma MarkZero(ls: seq<string>)
    ensures MarkAt(ls, 0) == Mark(false, false)
  {
  }

  lemma MarkNext(ls: seq<string>, i: nat)
    requires i < |ls|
    ensures MarkAt(ls, i + 1) == MarkStep(MarkAt(ls, i), Classify(ls[i]))
  {
    hide Classify;
  }

  lemma DiscussionNext(ls: seq<string>, i: nat)
    requires i < |ls|
    ensures var m, k := MarkAt(ls, i), Classify(ls[i]);
      IsDiscussion(ls, i + 1) <==> !m.inFence && (k.Tagged? || (k.Untagged? && m.inThread))
  {
    hide Classify, MarkAt;
  }

  /** Without tags nothing is a discussion line. */
  lemma {:induction false} NoTags(ls: seq<string>, i: nat)
    requires i <= |ls|
    requires forall n: nat :: 1 <= n <= i ==> !IsComment(ls, n)
    ensures !MarkAt(ls, i).inThread && forall n: nat :: 1 <= n <= i ==> !IsDiscussion(ls, n)
  {
    hide Classify;
    if i > 0 {
      NoTags(ls, i - 1);
      assert !IsComment(ls, i);
    }
  }

  // ----- framing -----

  /** An empty line: nothing but its line end. */
  predicate IsFraming(line: string) {
    forall i :: 0 <= i < |line| ==> line[i] == '\r' || line[i] == '\n'
  }

  predicate EmptyLine(ks: seq<string>, n: nat) {
    1 <= n <= |ks| && IsFraming(ks[n - 1])
  }

  /** Nothing but empty lines from line `n` up to, or down to, the discussion line `dl`. */
  predicate Frames(ks: seq<string>, n: nat, dl: nat) {
    || (n < dl && forall m: nat :: n <= m < dl ==> EmptyLine(ks, m))
    || (dl < n && forall m: nat :: dl < m <= n ==> EmptyLine(ks, m))
  }

  predicate IsFramed(ks: seq<string>, D: set<nat>, n: nat) {
    exists dl :: dl in D && Frames(ks, n, dl)
  }

  function Framing(ks: seq<string>, D: set<nat>): set<nat> {
    set n: nat | 1 <= n <= |ks| && IsFramed(ks, D, n)
  }

  /** The numbers strictly between two bounds. */
  function Between(lo: int, hi: int): (r: set<nat>)
    requires lo >= 0
    ensures forall n: nat :: n in r <==> lo < n < hi
    decreases hi - lo
  {
    if hi <= lo + 1 then {} else Between(lo, hi - 1) + {hi - 1}
  }

  /** The two walks from one discussion line. */
  method WalkFraming(ks: seq<string>, dl: nat) returns (framing: set<nat>)
    requires 1 <= dl <= |ks|
    ensures forall n: nat :: n in framing <==> Frames(ks, n, dl)
  {
    hide IsFraming;
    framing := {};
    var up := dl - 1;
    while up >= 1 && IsFraming(ks[up - 1])
      invariant 0 <= up < dl && forall m: nat :: up < m < dl ==> EmptyLine(ks, m)
      invariant framing == Between(up, dl)
    {
      framing := framing + {up};
      up := up - 1;
    }
    assert !EmptyLine(ks, up);
    var down := dl + 1;
    while down <= |ks| && IsFraming(ks[down - 1])
      invariant dl < down <= |ks| + 1 && forall m: nat :: dl < m < down ==> EmptyLine(ks, m)
      invariant framing == Between(up, dl) + Between(dl, down)
    {
      framing := framing + {down};
      down := down + 1;
    }
    assert !EmptyLine(ks, down);
    forall n: nat
      ensures n in framing <==> Frames(ks, n, dl)
    {
      if n <= up {
        assert !EmptyLine(ks, up);
      }
    }
  }

  /** `_framing_blank_numbers`. */
  method FramingBlanks(ks: seq<string>, D: set<nat>) returns (framing: set<nat>)
    requires forall dl :: dl in D ==> 1 <= dl <= |ks|
    ensures framing == Framing(ks, D)
  {
    hide Frames;
    framing := {};
    var rest := D;
    while rest != {}
      invariant rest <= D
      invariant forall n: nat :: n in framing <==> IsFramed(ks, D - rest, n)
      decreases |rest|
    {
      var dl :| dl in rest;
      var walked := WalkFraming(ks, dl);
      framing := framing + walked;
      assert D - (rest - {dl}) == (D - rest) + {dl};
      rest := rest - {dl};
    }
    assert D - rest == D;
    forall n: nat | IsFramed(ks, D, n)
      ensures 1 <= n <= |ks|
    {
      var dl :| dl in D && Frames(ks, n, dl);
      FramesInside(ks, n, dl);
    }
  }

  lemma FramesInside(ks: seq<string>, n: nat, dl: nat)
    requires Frames(ks, n, dl)
    ensures EmptyLine(ks, n)
  {
  }

  // ----- bodies -----

  /** The lines `[i, j)` that are no discussion lines. */
  function Body(ks: seq<string>, D: set<nat>, i: nat, j: nat): seq<string>
    requires i <= j <= |ks|
    decreases j - i
  {
    if i == j then [] else Body(ks, D, i, j - 1) + (if j in D then [] else [ks[j - 1]])
  }

  function Numbers(ks: seq<string>, D: set<nat>, i: nat, j: nat): (ns: seq<nat>)
    requires i <= j <= |ks|
    ensures |ns| == |Body(ks, D, i, j)|
    ensures forall p :: 0 <= p < |ns| ==> i < ns[p] <= j && Body(ks, D, i, j)[p] == ks[ns[p] - 1]
    decreases j - i
  {
    if i == j then []
    else
      var ns := Numbers(ks, D, i, j - 1);
      assert Body(ks, D, i, j) == Body(ks, D, i, j - 1) + (if j in D then [] else [ks[j - 1]]);
      ns + (if j in D then [] else [j])
  }

  /** `_body_lines`. */
  method BodyLines(ks: seq<string>, D: set<nat>) returns (body: seq<string>, orig: seq<nat>)
    ensures body == Body(ks, D, 0, |ks|) && orig == Numbers(ks, D, 0, |ks|)
  {
    body, orig := [], [];
    for i := 0 to |ks|
      invariant body == Body(ks, D, 0, i) && orig == Numbers(ks, D, 0, i)
    {
      if i + 1 in D {
        continue;
      }
      body, orig := body + [ks[i]], orig + [i + 1];
    }
  }

  /** A prepared version: its body and, for each body line, whether it is a framing blank. */
  datatype Prepared = Prepared(body: seq<string>, framing: seq<bool>)

  function Flags(ns: seq<nat>, F: set<nat>): (fs: seq<bool>)
    ensures |fs| == |ns| && forall p :: 0 <= p < |ns| ==> fs[p] == (ns[p] in F)
  {
    seq(|ns|, p requires 0 <= p < |ns| => ns[p] in F)
  }

  function Prepare(text: string): (p: Prepared)
    ensures |p.body| == |p.framing|
  {
    var ks, D := KeepLines(text), Discussion(SplitLines(text));
    Prepared(Body(ks, D, 0, |ks|), Flags(Numbers(ks, D, 0, |ks|), Framing(ks, D)))
  }

  /** Only empty lines are framing. */
  lemma FramingIsEmpty(text: string, p: nat)
    requires p < |Prepare(text).body| && Prepare(text).framing[p]
    ensures IsFraming(Prepare(text).body[p])
  {
    hide SplitLines, IsFraming, Discussion, Ended, EndsNl;
    var ks, D := KeepLines(text), Discussion(SplitLines(text));
    var n := Numbers(ks, D, 0, |ks|)[p];
    var dl :| dl in D && Frames(ks, n, dl);
    FramesInside(ks, n, dl);
  }

  // ----- the matcher's opcodes -----

  datatype OpTag = Equal | Replace | Delete | Insert

  datatype Op = Op(tag: OpTag, i1: nat, i2: nat, j1: nat, j2: nat)

  /** The opcodes tile `a[i..]` and `b[j..]`; equal regions are equal. */
  predicate Tiles(a: seq<string>, b: seq<string>, ops: seq<Op>, i: nat, j: nat) {
    if ops == [] then i == |a| && j == |b|
    else
      var o := ops[0];
      && o.i1 == i <= o.i2 <= |a| && o.j1 == j <= o.j2 <= |b|
      && (o.tag == Equal ==> a[o.i1..o.i2] == b[o.j1..o.j2])
      && (o.tag == Delete ==> o.j1 == o.j2) && (o.tag == Insert ==> o.i1 == o.i2)
      && Tiles(a, b, ops[1..], o.i2, o.j2)
  }

  predicate RegionFraming(flags: seq<bool>, lo: nat, hi: nat) {
    forall k :: lo <= k < hi && k < |flags| ==> flags[k]
  }

  predicate OpAllowed(o: Op, base: seq<bool>, current: seq<bool>) {
    && (o.tag == Delete || o.tag == Replace ==> RegionFraming(base, o.i1, o.i2))
    && (o.tag == Insert || o.tag == Replace ==> RegionFraming(current, o.j1, o.j2))
  }

  predicate FramingOnly(ops: seq<Op>, base: seq<bool>, current: seq<bool>) {
    forall o :: o in ops ==> OpAllowed(o, base, current)
  }

  /** `_body_diff_is_framing_only`, for the opcodes the matcher returned. */
  method DiffIsFramingOnly(ops: seq<Op>, base: seq<bool>, current: seq<bool>) returns (ok: bool)
    ensures ok == FramingOnly(ops, base, current)
  {
    for i := 0 to |ops|
      invariant forall m :: 0 <= m < i ==> OpAllowed(ops[m], base, current)
    {
      var o := ops[i];
      assert o in ops;
      if o.tag == Equal {
        continue;
      }
      if (o.tag == Delete || o.tag == Replace) && !RegionFraming(base, o.i1, o.i2) {
        return false;
      }
      if (o.tag == Insert || o.tag == Replace) && !RegionFraming(current, o.j1, o.j2) {
        return false;
      }
    }
    ok := true;
  }

  /** `is_discussion_delta` under the alignment `ops`. */
  predicate DeltaUnder(base: string, current: string, ops: seq<Op>) {
    && base != current && Threads(current) != []
    && FramingOnly(ops, Prepare(base).framing, Prepare(current).framing)
  }

  /** There are threads exactly if some line outside fences is a tag. */
  lemma ThreadsHaveTags(text: string)
    ensures Threads(text) != [] <==> exists n :: IsComment(SplitLines(text), n)
  {
    hide Threads, SplitLines, IsComment, Parse, Build, Classify, At;
    var ls := SplitLines(text);
    if n :| IsComment(ls, n) {
      CommentsAreTags(text, n);
    }
    if Threads(text) != [] {
      FirstThread(text);
      var n := Parse(ls)[0].items[0].line;
      CommentIsTag(ls, 0, 0);
      TagIsComment(ls, n);
    }
  }

  lemma FirstThread(text: string)
    requires Threads(text) != []
    ensures |Parse(SplitLines(text))| > 0 && Parse(SplitLines(text))[0].items != []
  {
    hide SplitLines, Parse, Publish;
    ParseShapely(SplitLines(text));
  }

  lemma TagIsComment(ls: seq<string>, n: nat)
    requires 1 <= n <= |ls| && !At(ls, n - 1).inFence && Classify(ls[n - 1]).Tagged?
    ensures IsComment(ls, n)
  {
    hide Classify, At, MarkAt;
    MarkFence(ls, n - 1);
  }

  /** What is accepted has changed, and still has a comment. */
  method IsDiscussionDelta(base: string, current: string, ops: seq<Op>) returns (ok: bool)
    ensures ok == DeltaUnder(base, current, ops)
    ensures ok ==> base != current && exists n :: IsComment(SplitLines(current), n)
  {
    hide Threads, SplitLines, Body, Numbers, Discussion, Framing, FramingOnly, IsComment;
    ThreadsHaveTags(current);
    if base == current {
      return false;
    }
    var ts := Parser.ParseThreads(current);
    if ts == [] {
      return false;
    }
    var baseFraming := PrepareFlags(base);
    var currentFraming := PrepareFlags(current);
    ok := DiffIsFramingOnly(ops, baseFraming, currentFraming);
  }

  /** `_prepare`, as far as the verdict on given opcodes depends on it. */
  method PrepareFlags(text: string) returns (flags: seq<bool>)
    ensures flags == Prepare(text).framing
  {
    hide SplitLines, Body, Numbers, Framing, IsDiscussion, Ended, EndsNl;
    var ks := KeepLines(text);
    var D := DiscussionLines(text);
    var framing := FramingBlanks(ks, D);
    var _, orig := BodyLines(ks, D);
    flags := Flags(orig, framing);
  }

  // ----- soundness -----

  /** `c` is `x` without some of the lines that are flagged. */
  ghost predicate Thins(x: seq<string>, flags: seq<bool>, c: seq<string>)
    requires |x| == |flags|
  {
    if x == [] then c == []
    else
      || (c != [] && c[0] == x[0] && Thins(x[1..], flags[1..], c[1..]))
      || (flags[0] && Thins(x[1..], flags[1..], c))
  }

  /** Keeping a whole run. */
  lemma {:induction false} ThinsKeep(x: seq<string>, flags: seq<bool>, n: nat, c: seq<string>)
    requires n <= |x| == |flags| && Thins(x[n..], flags[n..], c)
    ensures Thins(x, flags, x[..n] + c)
  {
    if n > 0 {
      assert x[1..][n - 1..] == x[n..] && flags[1..][n - 1..] == flags[n..];
      ThinsKeep(x[1..], flags[1..], n - 1, c);
      assert (x[..n] + c)[1..] == x[1..][..n - 1] + c;
    } else {
      assert x[0..] == x && flags[0..] == flags && x[..0] + c == c;
    }
  }

  /** Dropping a whole flagged run. */
  lemma {:induction false} ThinsDrop(x: seq<string>, flags: seq<bool>, n: nat, c: seq<string>)
    requires n <= |x| == |flags| && Thins(x[n..], flags[n..], c)
    requires forall k :: 0 <= k < n ==> flags[k]
    ensures Thins(x, flags, c)
  {
    if n > 0 {
      assert x[1..][n - 1..] == x[n..] && flags[1..][n - 1..] == flags[n..];
      ThinsDrop(x[1..], flags[1..], n - 1, c);
    } else {
      assert x[0..] == x && flags[0..] == flags;
    }
  }

  /** The lines both versions keep: the equal regions, in order. */
  function Kept(a: seq<string>, ops: seq<Op>): seq<string>
    requires forall o :: o in ops ==> o.i1 <= o.i2 <= |a|
  {
    if ops == [] then []
    else (if ops[0].tag == Equal then a[ops[0].i1..ops[0].i2] else []) + Kept(a, ops[1..])
  }

  lemma {:induction false} TilesBounds(a: seq<string>, b: seq<string>, ops: seq<Op>, i: nat, j: nat)
    requires Tiles(a, b, ops, i, j)
    ensures i <= |a| && j <= |b| && forall o :: o in ops ==> o.i1 <= o.i2 <= |a|
  {
    if ops != [] {
      TilesBounds(a, b, ops[1..], ops[0].i2, ops[0].j2);
      assert forall o :: o in ops ==> o == ops[0] || o in ops[1..];
    }
  }

  /** One common sequence results from deleting only framing blanks from either version. */
  lemma {:induction false} KeptThins(a: seq<string>, b: seq<string>, fa: seq<bool>, fb: seq<bool>, ops: seq<Op>,
                                     i: nat, j: nat)
    requires |a| == |fa| && |b| == |fb| && Tiles(a, b, ops, i, j) && FramingOnly(ops, fa, fb)
    ensures i <= |a| && j <= |b| && forall o :: o in ops ==> o.i1 <= o.i2 <= |a|
    ensures Thins(a[i..], fa[i..], Kept(a, ops)) && Thins(b[j..], fb[j..], Kept(a, ops))
  {
    TilesBounds(a, b, ops, i, j);
    if ops == [] {
      assert a[i..] == [] && b[j..] == [];
    } else {
      var o := ops[0];
      assert OpAllowed(o, fa, fb) && FramingOnly(ops[1..], fa, fb);
      KeptThins(a, b, fa, fb, ops[1..], o.i2, o.j2);
      OneRegion(a, fa, i, o.i2, Kept(a, ops[1..]), o.tag == Equal);
      OneRegion(b, fb, j, o.j2, Kept(a, ops[1..]), o.tag == Equal);
    }
  }

  lemma OneRegion(x: seq<string>, flags: seq<bool>, lo: nat, hi: nat, c: seq<string>, keep: bool)
    requires lo <= hi <= |x| == |flags| && Thins(x[hi..], flags[hi..], c)
    requires keep || forall k :: lo <= k < hi ==> flags[k]
    ensures Thins(x[lo..], flags[lo..], (if keep then x[lo..hi] else []) + c)
  {
    assert x[lo..][hi - lo..] == x[hi..] && flags[lo..][hi - lo..] == flags[hi..];
    if keep {
      ThinsKeep(x[lo..], flags[lo..], hi - lo, c);
      assert x[lo..][..hi - lo] == x[lo..hi];
    } else {
      ThinsDrop(x[lo..], flags[lo..], hi - lo, c);
      assert [] + c == c;
    }
  }

  /** The lines of a body that are not empty. */
  function Solid(x: seq<string>): seq<string> {
    if x == [] then [] else (if IsFraming(x[0]) then [] else [x[0]]) + Solid(x[1..])
  }

  lemma {:induction false} ThinsSolid(x: seq<string>, flags: seq<bool>, c: seq<string>)
    requires |x| == |flags| && Thins(x, flags, c)
    requires forall p :: 0 <= p < |x| && flags[p] ==> IsFraming(x[p])
    ensures Solid(x) == Solid(c)
  {
    hide IsFraming;
    if x != [] {
      if c != [] && c[0] == x[0] && Thins(x[1..], flags[1..], c[1..]) {
        ThinsSolid(x[1..], flags[1..], c[1..]);
      } else {
        ThinsSolid(x[1..], flags[1..], c);
      }
    }
  }

  /** Soundness: an accepted delta deletes and inserts nothing in the body but framing blanks, so the
      non-empty body lines of both versions are the same, in order and byte for byte. */
  lemma DeltaSound(base: string, current: string, ops: seq<Op>)
    requires Tiles(Prepare(base).body, Prepare(current).body, ops, 0, 0) && DeltaUnder(base, current, ops)
    ensures exists c :: Thins(Prepare(base).body, Prepare(base).framing, c)
                     && Thins(Prepare(current).body, Prepare(current).framing, c)
    ensures Solid(Prepare(base).body) == Solid(Prepare(current).body)
  {
    hide Prepare, Threads, Thins, Solid, Tiles, FramingOnly, IsFraming, Kept;
    var p, q := Prepare(base), Prepare(current);
    KeptThins(p.body, q.body, p.framing, q.framing, ops, 0, 0);
    var c := Kept(p.body, ops);
    assert p.body[0..] == p.body && p.framing[0..] == p.framing && q.body[0..] == q.body && q.framing[0..] == q.framing;
    forall i | 0 <= i < |p.body| && p.framing[i]
      ensures IsFraming(p.body[i])
    {
      FramingIsEmpty(base, i);
    }
    forall i | 0 <= i < |q.body| && q.framing[i]
      ensures IsFraming(q.body[i])
    {
      FramingIsEmpty(current, i);
    }
    ThinsSolid(p.body, p.framing, c);
    ThinsSolid(q.body, q.framing, c);
  }
}
