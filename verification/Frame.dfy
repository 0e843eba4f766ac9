/** How edits of a document act on its scan: shifting line numbers, and what a scan keeps of a
    comment from the line on which it reads it to the end. */
module Frame {
  import opened Wrappers
  import opened Text
  import opened Syntax
  import opened Forest
  import opened Scan

  /** All threads of a state, the open one last. */
  function Whole(s: State): seq<Flat> {
    Flush(s).done
  }

  /** Two states agree after two scans with the same beginning. */
  lemma {:induction false} AtPrefix(a: seq<string>, b: seq<string>, i: nat)
    requires i <= |a| && i <= |b| && a[..i] == b[..i]
    ensures At(a, i) == At(b, i)
  {
    hide Step;
    if i > 0 {
      assert a[..i][i - 1] == b[..i][i - 1];
      assert a[..i - 1] == a[..i][..i - 1] && b[..i - 1] == b[..i][..i - 1];
      AtPrefix(a, b, i - 1);
    }
  }

  // ----- line numbers after an insertion -----

  function Shift(at: nat, d: nat, n: nat): nat {
    if n > at then n + d else n
  }

  function ShiftItem(at: nat, d: nat): Item -> Item {
    (it: Item) => it.(line := Shift(at, d, it.line))
  }

  function ShiftFlat(at: nat, d: nat, t: Flat): Flat {
    t.(items := MapItems(t.items, ShiftItem(at, d)), anchorLine := Shift(at, d, t.anchorLine))
  }

  function ShiftAll(at: nat, d: nat, ts: seq<Flat>): (r: seq<Flat>)
    ensures |r| == |ts| && forall i :: 0 <= i < |ts| ==> r[i] == ShiftFlat(at, d, ts[i])
  {
    seq(|ts|, i requires 0 <= i < |ts| => ShiftFlat(at, d, ts[i]))
  }

  lemma ShiftNothing(at: nat, d: nat, t: Flat, lo: nat)
    requires Tidy(t, lo, at)
    ensures ShiftFlat(at, d, t) == t
  {
    assert MapItems(t.items, ShiftItem(at, d)) == t.items;
  }

  lemma ShiftDone(at: nat, d: nat, s: State)
    requires Good(s, at)
    ensures ShiftAll(at, d, s.done) == s.done
    ensures s.cur.Some? ==> ShiftFlat(at, d, s.cur.value) == s.cur.value
  {
    hide Tidy, ShiftFlat;
    forall i | 0 <= i < |s.done|
      ensures ShiftFlat(at, d, s.done[i]) == s.done[i]
    {
      ShiftNothing(at, d, s.done[i], Floor(s.done, i));
    }
    assert ShiftAll(at, d, s.done) == s.done;
    if s.cur.Some? {
      ShiftNothing(at, d, s.cur.value, Floor(s.done, |s.done|));
    }
  }

  lemma ShiftExtend(at: nat, d: nat, t: Flat, content: string)
    ensures ShiftFlat(at, d, ExtendLast(t, content)) == ExtendLast(ShiftFlat(at, d, t), content)
  {
    hide Extend;
    ShiftExtendItem(at, d, content);
    if t.items != [] {
      assert ShiftFlat(at, d, ExtendLast(t, content)).items == ExtendLast(ShiftFlat(at, d, t), content).items;
    }
  }

  lemma ShiftExtendItem(at: nat, d: nat, content: string)
    ensures forall it: Item :: Extend(ShiftItem(at, d)(it), content) == ShiftItem(at, d)(Extend(it, content))
  {
  }

  lemma ShiftAdd(at: nat, d: nat, t: Flat, n: nat, depth: nat, raw: string, tag: Tag)
    requires n > at
    ensures ShiftFlat(at, d, AddReply(t, NewItem(depth, n, raw, tag)))
         == AddReply(ShiftFlat(at, d, t), NewItem(depth, n + d, raw, tag))
  {
    hide RStrip, Mentions;
    assert ShiftFlat(at, d, AddReply(t, NewItem(depth, n, raw, tag))).items
        == AddReply(ShiftFlat(at, d, t), NewItem(depth, n + d, raw, tag)).items;
  }

  // ----- what a scan keeps -----

  /** A later reading of the same comment: only its body and mentions may have grown. */
  predicate Later(a: Item, b: Item) {
    && a.depth == b.depth && a.speaker == b.speaker && a.line == b.line && a.text == b.text
    && |a.body| <= |b.body|
  }

  predicate LaterFlat(a: Flat, b: Flat) {
    && a.status == b.status && a.anchorLine == b.anchorLine && a.anchorText == b.anchorText
    && |a.items| <= |b.items|
    && (forall j :: 0 <= j < |a.items| ==> Later(a.items[j], b.items[j]))
    && (forall j :: 0 <= j < |a.items| - 1 ==> a.items[j] == b.items[j])
  }

  predicate LaterAll(a: seq<Flat>, b: seq<Flat>) {
    |a| <= |b| && forall i :: 0 <= i < |a| ==> LaterFlat(a[i], b[i])
  }

  lemma ExtendLater(t: Flat, content: string)
    ensures LaterFlat(t, ExtendLast(t, content))
  {
    hide RStrip, Mentions;
  }

  lemma StepLater(s: State, n: nat, raw: string)
    ensures LaterAll(Whole(s), Whole(Step(s, n, raw)))
  {
    hide Classify, ExtendLast, OpenRoot, NewItem, Strip;
    OpenRootWhole(s, n, raw);
    if Classify(raw).Untagged? && s.cur.Some? {
      ExtendLater(s.cur.value, Classify(raw).content);
    }
  }

  lemma OpenRootWhole(s: State, n: nat, raw: string)
    ensures Classify(raw).Tagged? ==>
      var r := OpenRoot(s, n, raw, Classify(raw).tag);
      Whole(r) == Whole(s) + [r.cur.value] && |r.cur.value.items| == 1
  {
    hide Classify, NewItem;
  }

  lemma {:induction false} AtLater(ls: seq<string>, i: nat, j: nat)
    requires i <= j <= |ls|
    ensures LaterAll(Whole(At(ls, i)), Whole(At(ls, j)))
    decreases j - i
  {
    hide Step, Flush, LaterFlat;
    if i < j {
      AtLater(ls, i, j - 1);
      StepLater(At(ls, j - 1), j, ls[j - 1]);
      LaterTrans(Whole(At(ls, i)), Whole(At(ls, j - 1)), Whole(At(ls, j)));
    } else {
      LaterSelf(Whole(At(ls, i)));
    }
  }

  lemma LaterSelf(a: seq<Flat>)
    ensures LaterAll(a, a)
  {
  }

  lemma LaterTrans(a: seq<Flat>, b: seq<Flat>, c: seq<Flat>)
    requires LaterAll(a, b) && LaterAll(b, c)
    ensures LaterAll(a, c)
  {
    forall i | 0 <= i < |a|
      ensures LaterFlat(a[i], c[i])
    {
      assert LaterFlat(a[i], b[i]) && LaterFlat(b[i], c[i]);
      forall j | 0 <= j < |a[i].items|
        ensures Later(a[i].items[j], c[i].items[j])
      {
        assert Later(a[i].items[j], b[i].items[j]) && Later(b[i].items[j], c[i].items[j]);
      }
    }
  }

  /** Where a comment of the parse comes from: the line that is read as a tag by its speaker, after
      which it is the last comment of the open thread. */
  ghost predicate Born(ls: seq<string>, k: nat, j: nat, it: Item) {
    && 1 <= it.line <= |ls|
    && Classify(ls[it.line - 1]).Tagged?
    && var tag, s := Classify(ls[it.line - 1]).tag, At(ls, it.line);
      && !s.inFence && s.cur.Some? && |s.done| == k && |s.cur.value.items| == j + 1
      && Later(s.cur.value.items[j], it)
      && it.speaker == tag.speaker && it.text == RStrip(ls[it.line - 1])
      && s.cur.value.items[j] == NewItem(it.depth, it.line, ls[it.line - 1], tag)
  }

  ghost predicate AllBorn(ls: seq<string>, ts: seq<Flat>) {
    forall k, j :: 0 <= k < |ts| && 0 <= j < |ts[k].items| ==> Born(ls, k, j, ts[k].items[j])
  }

  /** Every comment of every scan prefix has a line it comes from. */
  lemma {:induction false} AtBorn(ls: seq<string>, i: nat)
    requires i <= |ls|
    ensures AllBorn(ls, Whole(At(ls, i)))
  {
    hide Step, Born, Flush;
    if i == 0 {
      WholeStart();
    } else {
      AtBorn(ls, i - 1);
      StepBorn(ls, i);
    }
  }

  lemma WholeStart()
    ensures Whole(START) == []
  {
  }

  lemma BornLater(ls: seq<string>, k: nat, j: nat, a: Item, b: Item)
    requires Born(ls, k, j, a) && Later(a, b)
    ensures Born(ls, k, j, b)
  {
    hide NewItem, RStrip, Classify, At;
  }

  lemma BornNow(ls: seq<string>, i: nat)
    requires 1 <= i <= |ls| && Classify(ls[i - 1]).Tagged? && !At(ls, i - 1).inFence
    ensures var s := At(ls, i);
      s.cur.Some? && s.cur.value.items != [] &&
      Born(ls, |s.done|, |s.cur.value.items| - 1, s.cur.value.items[|s.cur.value.items| - 1])
  {
    hide Classify, RStrip, Mentions;
  }

  lemma StepBorn(ls: seq<string>, i: nat)
    requires 1 <= i <= |ls| && AllBorn(ls, Whole(At(ls, i - 1)))
    ensures AllBorn(ls, Whole(At(ls, i)))
  {
    hide Born, Classify, Later, ExtendLast, NewItem, Strip;
    var s, t := At(ls, i - 1), At(ls, i);
    var a, b := Whole(s), Whole(t);
    StepLater(s, i, ls[i - 1]);
    if !s.inFence && Classify(ls[i - 1]).Tagged? {
      BornNow(ls, i);
      OpenRootWhole(s, i, ls[i - 1]);
    } else if !s.inFence && Classify(ls[i - 1]).Untagged? && s.cur.Some? {
      ExtendSize(s.cur.value, Classify(ls[i - 1]).content);
    }
    forall k, j | 0 <= k < |b| && 0 <= j < |b[k].items|
      ensures Born(ls, k, j, b[k].items[j])
    {
      if k < |a| && j < |a[k].items| {
        StillBorn(ls, a, b, k, j);
      }
    }
  }

  lemma StillBorn(ls: seq<string>, a: seq<Flat>, b: seq<Flat>, k: nat, j: nat)
    requires AllBorn(ls, a) && LaterAll(a, b) && k < |a| && j < |a[k].items|
    ensures k < |b| && j < |b[k].items| && Born(ls, k, j, b[k].items[j])
  {
    hide Born, Later;
    assert LaterFlat(a[k], b[k]);
    BornLater(ls, k, j, a[k].items[j], b[k].items[j]);
  }

  lemma ExtendSize(t: Flat, content: string)
    ensures |ExtendLast(t, content).items| == |t.items|
  {
    hide Extend;
  }
}
