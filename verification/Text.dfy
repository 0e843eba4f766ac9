/** Strings as Python's `str` methods see them: white space, stripping, and the split of a
    document into lines with its inverse. The only line separator modelled is `\n`. */
module Text {

  /** The code points of `str.isspace` and of the class `\s` of Python's `re`, as ranges. */
  const SPACES: seq<(int, int)> :=
    [(9, 13), (28, 32), (0x85, 0x85), (0xA0, 0xA0), (0x1680, 0x1680), (0x2000, 0x200A),
     (0x2028, 0x2029), (0x202F, 0x202F), (0x205F, 0x205F), (0x3000, 0x3000)]

  predicate InRange(n: int, i: nat)
    decreases |SPACES| - i
  {
    i < |SPACES| && (SPACES[i].0 <= n <= SPACES[i].1 || InRange(n, i + 1))
  }

  predicate IsSpace(c: char) {
    InRange(c as int, 0)
  }

  predicate AllSpace(s: string) {
    forall i :: 0 <= i < |s| ==> IsSpace(s[i])
  }

  function SpanFrom(s: string, p: char -> bool, i: nat): (k: nat)
    requires i <= |s|
    ensures i <= k <= |s| && (forall j :: i <= j < k ==> p(s[j])) && (k < |s| ==> !p(s[k]))
    decreases |s| - i
  {
    if i < |s| && p(s[i]) then SpanFrom(s, p, i + 1) else i
  }

  /** The length of the longest prefix whose characters all satisfy `p`. */
  function Span(s: string, p: char -> bool): (k: nat)
    ensures k <= |s| && (forall i :: 0 <= i < k ==> p(s[i])) && (k < |s| ==> !p(s[k]))
  {
    SpanFrom(s, p, 0)
  }

  function Back(s: string, i: nat): (k: nat)
    requires i <= |s|
    ensures k <= i && (forall j :: k <= j < i ==> IsSpace(s[j])) && (k > 0 ==> !IsSpace(s[k - 1]))
  {
    if i > 0 && IsSpace(s[i - 1]) then Back(s, i - 1) else i
  }

  function LStrip(s: string): string {
    s[Span(s, IsSpace)..]
  }

  function RStrip(s: string): string {
    s[..Back(s, |s|)]
  }

  function Strip(s: string): string {
    RStrip(LStrip(s))
  }

  predicate Lean(s: string) {
    s != "" ==> !IsSpace(s[0]) && !IsSpace(s[|s| - 1])
  }

  lemma SpanIs(s: string, p: char -> bool, k: nat)
    requires k <= |s| && (forall i :: 0 <= i < k ==> p(s[i])) && (k < |s| ==> !p(s[k]))
    ensures Span(s, p) == k
  {
    var j := Span(s, p);
    assert j < |s| ==> !p(s[j]);
  }

  lemma LStripSkips(ws: string, s: string)
    requires AllSpace(ws)
    ensures LStrip(ws + s) == LStrip(s)
  {
    var k := Span(s, IsSpace);
    SpanIs(ws + s, IsSpace, |ws| + k);
  }

  lemma RStripIs(s: string, k: nat)
    requires k <= |s| && AllSpace(s[k..]) && (k > 0 ==> !IsSpace(s[k - 1]))
    ensures RStrip(s) == s[..k]
  {
    assert forall i :: k <= i < |s| ==> s[i] == s[k..][i - k];
  }

  /** Trailing white space does not survive `strip`. */
  lemma StripSkips(s: string, ws: string)
    requires AllSpace(ws)
    ensures Strip(s + ws) == Strip(s)
  {
    hide IsSpace;
    var k := Span(s, IsSpace);
    if k == |s| {
      SpanIs(s + ws, IsSpace, |s| + |ws|);
    } else {
      SpanIs(s + ws, IsSpace, k);
      assert (s + ws)[k..] == s[k..] + ws;
      RStripSkips(s[k..], ws);
    }
  }

  lemma RStripSkips(t: string, ws: string)
    requires AllSpace(ws)
    ensures RStrip(t + ws) == RStrip(t)
  {
    hide IsSpace;
    var b := Back(t, |t|);
    RStripIs(t + ws, b);
    assert (t + ws)[..b] == t[..b];
  }

  lemma StripIsLean(s: string)
    ensures Lean(Strip(s))
    ensures |Strip(s)| <= |s|
    ensures |Strip(s)| == |s| ==> Strip(s) == s
  {
  }

  lemma LeanIsFixed(s: string)
    requires Lean(s)
    ensures LStrip(s) == s && RStrip(s) == s && Strip(s) == s
  {
  }

  /** A string is fixed by `strip` exactly when neither end is white space. */
  lemma StripFixed(s: string)
    ensures Strip(s) == s <==> Lean(s)
  {
    StripIsLean(s);
    if Lean(s) {
      LeanIsFixed(s);
    }
  }

  // ----- lines -----

  predicate OneLine(s: string) {
    '\n' !in s
  }

  predicate Lines(ls: seq<string>) {
    forall i :: 0 <= i < |ls| ==> OneLine(ls[i])
  }

  function LineLen(s: string): (k: nat)
    ensures k <= |s| && OneLine(s[..k]) && (k < |s| ==> s[k] == '\n')
  {
    if s == "" || s[0] == '\n' then 0
    else
      var k := 1 + LineLen(s[1..]);
      assert s[..k] == [s[0]] + s[1..][..k - 1];
      k
  }

  /** `str.splitlines`. */
  function SplitLines(t: string): seq<string> {
    if t == "" then []
    else
      var k := LineLen(t);
      if k == |t| then [t] else [t[..k]] + SplitLines(t[k + 1..])
  }

  predicate EndsNl(t: string) {
    t != "" && t[|t| - 1] == '\n'
  }

  /** `"\n".join`. */
  function Join(ls: seq<string>): string {
    if ls == [] then ""
    else if |ls| == 1 then ls[0]
    else ls[0] + "\n" + Join(ls[1..])
  }

  /** The text every writer operation returns: the joined lines and the final newline, if any. */
  function Render(ls: seq<string>, nl: bool): string {
    Join(ls) + (if nl then "\n" else "")
  }

  /** What a list of lines must look like to be read back from the text it renders to. */
  predicate Renderable(ls: seq<string>, nl: bool) {
    && Lines(ls)
    && (ls == [] ==> !nl)
    && (ls != [] && !nl ==> ls[|ls| - 1] != "")
  }

  lemma LineLenIs(s: string, k: nat)
    requires k <= |s| && OneLine(s[..k]) && (k < |s| ==> s[k] == '\n')
    ensures LineLen(s) == k
  {
    assert forall i :: 0 <= i < k ==> s[..k][i] == s[i];
    assert forall i :: 0 <= i < LineLen(s) ==> s[..LineLen(s)][i] == s[i];
  }

  /** Splitting undoes rendering. */
  lemma {:induction false} SplitRender(ls: seq<string>, nl: bool)
    requires Renderable(ls, nl)
    ensures SplitLines(Render(ls, nl)) == ls
  {
    if ls == [] {
    } else {
      var t := Render(ls, nl);
      var k := |ls[0]|;
      if |ls| == 1 {
        assert t[..k] == ls[0];
        LineLenIs(t, k);
        if nl {
          assert t[k + 1..] == "";
        } else {
          assert t == ls[0];
        }
      } else {
        var rest := Render(ls[1..], nl);
        assert t == ls[0] + "\n" + rest;
        assert t[..k] == ls[0] && t[k + 1..] == rest;
        LineLenIs(t, k);
        SplitRender(ls[1..], nl);
      }
    }
  }

  /** Rendering undoes splitting, and the lines of a text can be read back. */
  lemma {:induction false} RenderSplit(t: string)
    ensures Renderable(SplitLines(t), EndsNl(t))
    ensures Render(SplitLines(t), EndsNl(t)) == t
  {
    if t != "" {
      var k := LineLen(t);
      if k == |t| {
        assert t[..k] == t;
        assert !EndsNl(t) by { assert t[..k][|t| - 1] == t[|t| - 1]; }
        assert SplitLines(t) == [t];
      } else {
        var rest := t[k + 1..];
        RenderSplit(rest);
        assert t == t[..k] + "\n" + rest;
        RenderCons(t[..k], rest);
      }
    }
  }

  lemma SplitCons(line: string, rest: string)
    requires OneLine(line)
    ensures SplitLines(line + "\n" + rest) == [line] + SplitLines(rest)
    ensures SplitLines(rest) == [] <==> rest == ""
  {
    var t := line + "\n" + rest;
    assert t[..|line|] == line && t[|line| + 1..] == rest;
    LineLenIs(t, |line|);
  }

  lemma JoinCons(line: string, ls: seq<string>)
    requires ls != []
    ensures Join([line] + ls) == line + "\n" + Join(ls)
  {
    assert ([line] + ls)[1..] == ls;
  }

  lemma EndsNlCons(line: string, rest: string)
    ensures EndsNl(line + "\n" + rest) == (rest == "" || EndsNl(rest))
  {
    var t := line + "\n" + rest;
    assert rest != "" ==> t[|t| - 1] == rest[|rest| - 1];
  }

  /** One step of `RenderSplit`: a first line put in front of a text that reads back. */
  lemma RenderCons(line: string, rest: string)
    requires OneLine(line)
    requires Renderable(SplitLines(rest), EndsNl(rest)) && Render(SplitLines(rest), EndsNl(rest)) == rest
    ensures SplitLines(line + "\n" + rest) == [line] + SplitLines(rest)
    ensures Renderable([line] + SplitLines(rest), EndsNl(line + "\n" + rest))
    ensures Render([line] + SplitLines(rest), EndsNl(line + "\n" + rest)) == line + "\n" + rest
  {
    hide SplitLines, EndsNl;
    var ls := SplitLines(rest);
    SplitCons(line, rest);
    EndsNlCons(line, rest);
    if rest == "" {
      assert [line] + ls == [line];
    } else {
      RenderAdds(line, ls, EndsNl(rest));
    }
  }

  lemma RenderAdds(line: string, ls: seq<string>, nl: bool)
    requires ls != [] && OneLine(line) && Renderable(ls, nl)
    ensures Renderable([line] + ls, nl)
    ensures Render([line] + ls, nl) == line + "\n" + Render(ls, nl)
  {
    hide OneLine;
    JoinCons(line, ls);
    assert ([line] + ls)[|ls|] == ls[|ls| - 1];
  }

  /** The rendered text ends with a newline exactly when it was asked to. */
  lemma {:induction false} RenderEnds(ls: seq<string>, nl: bool)
    requires Renderable(ls, nl)
    ensures EndsNl(Render(ls, nl)) == nl
  {
    if |ls| > 1 {
      RenderEnds(ls[1..], nl);
      JoinCons(ls[0], ls[1..]);
      assert [ls[0]] + ls[1..] == ls;
      assert Render(ls, nl) == ls[0] + "\n" + Render(ls[1..], nl);
    }
  }
}
