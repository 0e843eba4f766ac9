/** The delta checker's verdict in terms of the two texts and the matcher's opcodes alone. */
module Verdict {
  import opened Text
  import opened Syntax
  import opened Scan
  import opened Frame
  import opened Delta
  import opened Meaning

  // ----- discussion lines -----

  lemma MarkParity(ls: seq<string>, i: nat)
    requires i <= |ls|
    ensures MarkAt(ls, i).inFence <==> Fences(ls, i) % 2 == 1
  {
    hide MarkAt, At, Classify;
    MarkFence(ls, i);
    FenceParity(ls, i);
  }

  /** The checker's comments are the tags. */
  lemma CommentIsTagAt(ls: seq<string>, n: nat)
    ensures IsComment(ls, n) <==> TagAt(ls, n)
  {
    hide MarkAt, Classify;
    if 1 <= n <= |ls| { MarkParity(ls, n - 1); }
  }

  /** A tag from which nothing but blank lines and quotes lead down to line `n`: no fence, no prose. */
  predicate Reaches(ls: seq<string>, m: nat, n: nat) {
    TagAt(ls, m) && n <= |ls| && forall x :: m < x <= n ==> BlankOrQuote(ls, x)
  }

  predicate BlankOrQuote(ls: seq<string>, n: nat) {
    1 <= n <= |ls| && (Classify(ls[n - 1]).Blank? || IsQuote(Classify(ls[n - 1])))
  }

  predicate Reached(ls: seq<string>, n: nat) {
    exists m :: 1 <= m <= n && Reaches(ls, m, n)
  }

  lemma ReachedNext(ls: seq<string>, i: nat)
    requires i < |ls|
    ensures Reached(ls, i + 1) <==> TagAt(ls, i + 1) || (Reached(ls, i) && BlankOrQuote(ls, i + 1))
  {
    hide TagAt, BlankOrQuote;
    var next := i + 1;
    if TagAt(ls, next) { assert Reaches(ls, next, next); }
    if Reached(ls, i) && BlankOrQuote(ls, next) {
      var m :| 1 <= m <= i && Reaches(ls, m, i);
      assert Reaches(ls, m, next);
    }
    if Reached(ls, next) && !TagAt(ls, next) {
      var m :| 1 <= m <= next && Reaches(ls, m, next);
      assert m != next && Reaches(ls, m, i);
    }
  }

  lemma {:induction false} ReachedOutside(ls: seq<string>, i: nat)
    requires i <= |ls| && Reached(ls, i)
    ensures Fences(ls, i) % 2 == 0
  {
    hide Classify, Reached;
    if i == 0 {
      assert false by { NothingReached(ls); }
    } else {
      ReachedNext(ls, i - 1);
      if !TagAt(ls, i) { ReachedOutside(ls, i - 1); }
    }
  }

  lemma NothingReached(ls: seq<string>)
    ensures !Reached(ls, 0)
  {
  }

  lemma {:induction false} MarkIsReached(ls: seq<string>, i: nat)
    requires i <= |ls|
    ensures MarkAt(ls, i).inThread <==> Reached(ls, i)
  {
    hide Classify, Reached, MarkAt;
    if i == 0 {
      NothingReached(ls);
      MarkZero(ls);
    } else {
      MarkIsReached(ls, i - 1);
      ReachedNext(ls, i - 1);
      MarkNext(ls, i - 1);
      MarkParity(ls, i - 1);
      if Reached(ls, i - 1) { ReachedOutside(ls, i - 1); }
    }
  }

  /** Exactly which lines are discussion: outside fences, the tags, and the quotes to which nothing but blank lines
      and quotes lead down from a tag. */
  lemma DiscussionExactly(ls: seq<string>, n: nat)
    ensures n in Discussion(ls) <==> TagAt(ls, n) || (QuoteAt(ls, n) && Reached(ls, n - 1))
  {
    hide MarkAt, Classify, Reached;
    if 1 <= n <= |ls| {
      MarkParity(ls, n - 1);
      MarkIsReached(ls, n - 1);
    }
  }

  // ----- the verdict -----

  /** Line `n` is nothing but its line end. */
  predicate BareAt(ks: seq<string>, n: nat) {
    1 <= n <= |ks| && Bare(ks[n - 1])
  }

  predicate Bare(line: string) {
    forall c :: c in line ==> c == '\r' || c == '\n'
  }

  /** Line `n` is bare, and so is every line from it up to, or down to, the line `dl`. */
  ghost predicate Joins(ks: seq<string>, n: nat, dl: nat) {
    n != dl && forall m: nat :: (n <= m < dl || dl < m <= n) ==> BareAt(ks, m)
  }

  /** Body line `p` of the text is an empty line joined to a discussion line by empty lines. */
  ghost predicate Framed(text: string, p: nat) {
    var ks, D := KeepLines(text), Discussion(SplitLines(text));
    p < |Numbers(ks, D, 0, |ks|)| ==> exists dl :: dl in D && Joins(ks, Numbers(ks, D, 0, |ks|)[p], dl)
  }

  lemma BareIs(ks: seq<string>, n: nat)
    ensures BareAt(ks, n) <==> EmptyLine(ks, n)
  {
    if BareAt(ks, n) {
      var line := ks[n - 1];
      assert forall i :: 0 <= i < |line| ==> line[i] in line;
    }
  }

  lemma JoinsIs(ks: seq<string>, n: nat, dl: nat)
    ensures Joins(ks, n, dl) <==> Frames(ks, n, dl)
  {
    hide BareAt, EmptyLine;
    forall m: nat ensures BareAt(ks, m) <==> EmptyLine(ks, m) {
      BareIs(ks, m);
    }
  }

  /** Every line that an opcode takes away or puts in is framing. */
  ghost predicate FramedOnly(base: string, current: string, o: Op) {
    o.tag == Equal
    || ((forall p: nat :: o.i1 <= p < o.i2 ==> Framed(base, p))
        && forall p: nat :: o.j1 <= p < o.j2 ==> Framed(current, p))
  }

  lemma FlagIs(text: string, p: nat)
    requires p < |Prepare(text).framing|
    ensures Prepare(text).framing[p] <==> Framed(text, p)
  {
    hide SplitLines, Ended, EndsNl, Discussion, Body, Numbers, Joins, Frames;
    var ks, D := KeepLines(text), Discussion(SplitLines(text));
    var n := Numbers(ks, D, 0, |ks|)[p];
    forall dl: nat ensures Joins(ks, n, dl) <==> Frames(ks, n, dl) {
      JoinsIs(ks, n, dl);
    }
    assert n in Framing(ks, D) <==> IsFramed(ks, D, n);
  }

  lemma {:induction false} TilesOps(a: seq<string>, b: seq<string>, ops: seq<Op>, i: nat, j: nat)
    requires Tiles(a, b, ops, i, j)
    ensures forall o :: o in ops ==> OpFits(a, b, o)
  {
    hide OpFits;
    if ops != [] {
      TilesOps(a, b, ops[1..], ops[0].i2, ops[0].j2);
      FirstFits(a, b, ops, i, j);
      assert forall o :: o in ops ==> o == ops[0] || o in ops[1..];
    }
  }

  /** A region lies inside both bodies, and a deletion puts nothing in, an insertion takes nothing away. */
  predicate OpFits(a: seq<string>, b: seq<string>, o: Op) {
    && o.i1 <= o.i2 <= |a| && o.j1 <= o.j2 <= |b|
    && (o.tag == Delete ==> o.j1 == o.j2) && (o.tag == Insert ==> o.i1 == o.i2)
  }

  lemma FirstFits(a: seq<string>, b: seq<string>, ops: seq<Op>, i: nat, j: nat)
    requires Tiles(a, b, ops, i, j) && ops != []
    ensures OpFits(a, b, ops[0])
  {
  }

  lemma OpIs(base: string, current: string, o: Op)
    requires OpFits(Prepare(base).body, Prepare(current).body, o)
    ensures OpAllowed(o, Prepare(base).framing, Prepare(current).framing) <==> FramedOnly(base, current, o)
  {
    hide Prepare, Framed;
    forall p: nat | p < |Prepare(base).framing| ensures Prepare(base).framing[p] <==> Framed(base, p) {
      FlagIs(base, p);
    }
    forall p: nat | p < |Prepare(current).framing| ensures Prepare(current).framing[p] <==> Framed(current, p) {
      FlagIs(current, p);
    }
  }

  /** Exactly when the checker accepts, whatever tiling the matcher returns: the text has changed, it still has a
      comment, and every line taken away or put in is framing on its side. */
  lemma VerdictExactly(base: string, current: string, ops: seq<Op>)
    requires Tiles(Prepare(base).body, Prepare(current).body, ops, 0, 0)
    ensures DeltaUnder(base, current, ops) <==>
      && base != current && (exists n :: TagAt(SplitLines(current), n))
      && forall o :: o in ops ==> FramedOnly(base, current, o)
  {
    hide SplitLines, Threads, Prepare, IsComment, TagAt, FramedOnly, OpAllowed, OpFits, Tiles;
    ThreadsHaveTags(current);
    forall n ensures IsComment(SplitLines(current), n) <==> TagAt(SplitLines(current), n) {
      CommentIsTagAt(SplitLines(current), n);
    }
    TilesOps(Prepare(base).body, Prepare(current).body, ops, 0, 0);
    forall o | o in ops
      ensures OpAllowed(o, Prepare(base).framing, Prepare(current).framing) <==> FramedOnly(base, current, o)
    {
      OpIs(base, current, o);
    }
  }
}
