/** Edit distance: the two-row loop computes the recursive Levenshtein distance, which is a metric. */
module Distance {

  function Min(a: nat, b: nat): nat {
    if a < b then a else b
  }

  function Max(a: nat, b: nat): nat {
    if a < b then b else a
  }

  function Init(s: string): string
    requires s != ""
  {
    s[..|s| - 1]
  }

  function Differ(a: string, b: string): nat
    requires a != "" && b != ""
  {
    if a[|a| - 1] == b[|b| - 1] then 0 else 1
  }

  /** The fewest deletions, insertions and substitutions of a character that turn `a` into `b`. */
  function Lev(a: string, b: string): nat
    decreases |a| + |b|
  {
    if a == "" then |b|
    else if b == "" then |a|
    else Min(Min(Lev(Init(a), b) + 1, Lev(a, Init(b)) + 1), Lev(Init(a), Init(b)) + Differ(a, b))
  }

  lemma {:induction false} LevSame(a: string)
    ensures Lev(a, a) == 0
  {
    if a != "" {
      LevSame(Init(a));
    }
  }

  lemma LevNext(a: string, b: string, i: nat, j: nat)
    requires i < |a| && j < |b|
    ensures Lev(a[..i + 1], b[..j + 1])
         == Min(Min(Lev(a[..i], b[..j + 1]) + 1, Lev(a[..i + 1], b[..j]) + 1),
                Lev(a[..i], b[..j]) + (if a[i] != b[j] then 1 else 0))
  {
    hide Min;
    assert Init(a[..i + 1]) == a[..i] && Init(b[..j + 1]) == b[..j];
  }

  lemma LevEdge(s: string, i: nat)
    requires i <= |s|
    ensures Lev("", s[..i]) == i && Lev(s[..i], "") == i
  {
  }

  /** One row of the table from the one before. */
  method NextRow(a: string, b: string, i: nat, prev: seq<nat>) returns (cur: seq<nat>)
    requires i < |a| && |prev| == |b| + 1
    requires forall j :: 0 <= j <= |b| ==> prev[j] == Lev(a[..i], b[..j])
    ensures |cur| == |b| + 1
    ensures forall j :: 0 <= j <= |b| ==> cur[j] == Lev(a[..i + 1], b[..j])
  {
    hide Lev;
    LevEdge(a, i + 1);
    assert b[..0] == "";
    cur := [i + 1];
    for j := 0 to |b|
      invariant |cur| == j + 1
      invariant forall m :: 0 <= m <= j ==> cur[m] == Lev(a[..i + 1], b[..m])
    {
      LevNext(a, b, i, j);
      cur := cur + [Min(Min(prev[j + 1] + 1, cur[j] + 1), prev[j] + (if a[i] != b[j] then 1 else 0))];
    }
  }

  /** `_levenshtein`. */
  method Levenshtein(a: string, b: string) returns (d: nat)
    ensures d == Lev(a, b)
  {
    hide Lev;
    if a == b {
      LevSame(a);
      return 0;
    }
    var prev := seq(|b| + 1, j requires 0 <= j < |b| + 1 => j);
    forall j | 0 <= j <= |b|
      ensures prev[j] == Lev(a[..0], b[..j])
    {
      assert a[..0] == "";
      LevEdge(b, j);
    }
    for i := 0 to |a|
      invariant |prev| == |b| + 1
      invariant forall j :: 0 <= j <= |b| ==> prev[j] == Lev(a[..i], b[..j])
    {
      prev := NextRow(a, b, i, prev);
    }
    assert a[..|a|] == a && b[..|b|] == b;
    d := prev[|b|];
  }

  lemma {:induction false} LevSymmetric(a: string, b: string)
    ensures Lev(a, b) == Lev(b, a)
    decreases |a| + |b|
  {
    if a != "" && b != "" {
      LevSymmetric(Init(a), b);
      LevSymmetric(a, Init(b));
      LevSymmetric(Init(a), Init(b));
    }
  }

  /** At least the difference of the lengths, at most the longer length. */
  lemma {:induction false} LevBounds(a: string, b: string)
    ensures |a| <= |b| + Lev(a, b) && |b| <= |a| + Lev(a, b)
    ensures Lev(a, b) <= Max(|a|, |b|)
    decreases |a| + |b|
  {
    if a != "" && b != "" {
      LevBounds(Init(a), b);
      LevBounds(a, Init(b));
      LevBounds(Init(a), Init(b));
    }
  }

  lemma {:induction false} LevZero(a: string, b: string)
    ensures Lev(a, b) == 0 <==> a == b
    decreases |a| + |b|
  {
    if a == b {
      LevSame(a);
    } else if a != "" && b != "" {
      LevZero(Init(a), Init(b));
      assert a == Init(a) + [a[|a| - 1]] && b == Init(b) + [b[|b| - 1]];
    }
  }

  lemma {:induction false} LevTriangle(a: string, b: string, c: string)
    ensures Lev(a, c) <= Lev(a, b) + Lev(b, c)
    decreases |a| + |b| + |c|
  {
    if a == "" || b == "" || c == "" {
      LevBounds(a, b);
      LevBounds(b, c);
      LevBounds(a, c);
    } else {
      LevTriangle(Init(a), b, c);
      LevTriangle(a, b, Init(c));
      LevTriangle(a, Init(b), c);
      LevTriangle(a, Init(b), Init(c));
      LevTriangle(Init(a), Init(b), c);
      LevTriangle(Init(a), Init(b), Init(c));
    }
  }

  // ----- single edits -----

  /** Between `x` and `y`, `b` has `v` where `a` has `u`: a character put in, taken out, or replaced. */
  predicate EditAt(a: string, b: string, x: string, u: string, v: string, y: string) {
    a == x + u + y && b == x + v + y && |u| <= 1 && |v| <= 1 && |u| + |v| >= 1
  }

  ghost predicate OneEdit(a: string, b: string) {
    exists x, u, v, y :: EditAt(a, b, x, u, v, y)
  }

  /** `n` single edits lead from `a` to `b`. */
  ghost predicate Edits(a: string, b: string, n: nat)
    decreases n
  {
    if n == 0 then a == b else exists c :: OneEdit(a, c) && Edits(c, b, n - 1)
  }

  /** A common last character costs nothing. */
  lemma LevLast(a: string, b: string, ch: char)
    ensures Lev(a + [ch], b + [ch]) <= Lev(a, b)
    ensures Lev(a + [ch], b) <= Lev(a, b) + 1 && Lev(a, b + [ch]) <= Lev(a, b) + 1
  {
    assert Init(a + [ch]) == a && Init(b + [ch]) == b;
    LevBounds(a, b);
  }

  /** What stands the same behind both costs nothing. */
  lemma {:induction false} LevBehind(a: string, b: string, y: string)
    ensures Lev(a + y, b + y) <= Lev(a, b)
  {
    hide Lev;
    if y == "" {
      assert a + y == a && b + y == b;
    } else {
      LevBehind(a, b, Init(y));
      LevLast(a + Init(y), b + Init(y), y[|y| - 1]);
      assert a + y == a + Init(y) + [y[|y| - 1]] && b + y == b + Init(y) + [y[|y| - 1]];
    }
  }

  lemma EditIsClose(a: string, b: string)
    requires OneEdit(a, b)
    ensures Lev(a, b) <= 1
  {
    hide Lev;
    var x, u, v, y :| EditAt(a, b, x, u, v, y);
    LevChanged(x, u, v);
    LevBehind(x + u, x + v, y);
  }

  lemma LevChanged(x: string, u: string, v: string)
    requires |u| <= 1 && |v| <= 1
    ensures Lev(x + u, x + v) <= 1
  {
    LevSame(x);
    if u == "" {
      assert x + u == x;
      if v == "" { assert x + v == x; } else { LevLast(x, x, v[0]); assert v == [v[0]]; }
    } else {
      assert u == [u[0]];
      if v == "" {
        assert x + v == x;
        LevLast(x, x, u[0]);
      } else {
        assert v == [v[0]] && Init(x + u) == x && Init(x + v) == x;
      }
    }
  }

  lemma EditBehind(a: string, b: string, ch: char)
    requires OneEdit(a, b)
    ensures OneEdit(a + [ch], b + [ch])
  {
    var x, u, v, y :| EditAt(a, b, x, u, v, y);
    assert a + [ch] == x + u + (y + [ch]) && b + [ch] == x + v + (y + [ch]);
    assert EditAt(a + [ch], b + [ch], x, u, v, y + [ch]);
  }

  lemma LevCases(a: string, b: string)
    requires b != ""
    ensures || a == ""
            || Lev(a, b) == Lev(a, Init(b)) + 1
            || Lev(a, b) == Lev(Init(a), b) + 1
            || Lev(a, b) == Lev(Init(a), Init(b)) + Differ(a, b)
    ensures a == "" ==> Lev(a, Init(b)) + 1 == Lev(a, b)
  {
  }

  lemma LevNone(a: string)
    requires a != ""
    ensures Lev(a, "") == Lev(Init(a), "") + 1
  {
  }

  lemma LastEdits(a: string, ch: char)
    ensures OneEdit(a, a + [ch])
    ensures a != "" ==> OneEdit(a, Init(a)) && OneEdit(a, Init(a) + [ch])
  {
    assert EditAt(a, a + [ch], a, "", [ch], "") by { assert a + "" + "" == a && a + [ch] + "" == a + [ch]; }
    if a != "" {
      var x, u := Init(a), [a[|a| - 1]];
      assert a == x + u + "" && Init(a) == x + "" + "" && Init(a) + [ch] == x + [ch] + "";
      assert EditAt(a, Init(a), x, u, "", "") && EditAt(a, Init(a) + [ch], x, u, [ch], "");
    }
  }

  /** Some edit brings two different texts closer. */
  lemma {:induction false} CloserEdit(a: string, b: string) returns (c: string)
    requires a != b
    ensures OneEdit(a, c) && Lev(c, b) + 1 <= Lev(a, b)
    decreases |a| + |b|
  {
    hide Lev, OneEdit;
    if b == "" {
      c := Init(a);
      LastEdits(a, a[0]);
      LevNone(a);
    } else {
      var ch := b[|b| - 1];
      assert b == Init(b) + [ch];
      LastEdits(a, ch);
      LevCases(a, b);
      if a == "" || Lev(a, b) == Lev(a, Init(b)) + 1 {
        c := a + [ch];
        LevLast(a, Init(b), ch);
      } else if Lev(a, b) == Lev(Init(a), b) + 1 {
        c := Init(a);
      } else if Differ(a, b) == 1 {
        c := Init(a) + [ch];
        LevLast(Init(a), Init(b), ch);
      } else {
        assert a == Init(a) + [ch];
        var d := CloserEdit(Init(a), Init(b));
        c := d + [ch];
        EditBehind(Init(a), d, ch);
        LevLast(d, Init(b), ch);
      }
    }
  }

  /** The distance is the least number of single edits: no fewer lead from one text to the other. */
  lemma {:induction false} NoFewerEdits(a: string, b: string, n: nat)
    requires Edits(a, b, n)
    ensures Lev(a, b) <= n
    decreases n
  {
    hide Lev, OneEdit;
    if n == 0 {
      LevSame(a);
    } else {
      var c :| OneEdit(a, c) && Edits(c, b, n - 1);
      EditIsClose(a, c);
      NoFewerEdits(c, b, n - 1);
      LevTriangle(a, c, b);
    }
  }

  /** And as many do. */
  lemma {:induction false} EnoughEdits(a: string, b: string)
    ensures Edits(a, b, Lev(a, b))
    decreases Lev(a, b)
  {
    hide Lev, OneEdit;
    LevZero(a, b);
    if a != b {
      var c := CloserEdit(a, b);
      EditIsClose(a, c);
      LevTriangle(a, c, b);
      assert Lev(c, b) == Lev(a, b) - 1;
      EnoughEdits(c, b);
    }
  }
}
