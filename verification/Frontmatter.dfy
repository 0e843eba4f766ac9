/** The `---` block at the head of a document: finding it, setting one of its fields, and what sealing a
    document leaves unchanged. */
module Frontmatter {
  import opened Wrappers
  import opened Text

  const DELIMITER := "---"
  const CLOSE := "\n---\n"

  /** `str.find` on the text from the place where the search begins. */
  function Find(s: string, pat: string): (r: Option<nat>)
    ensures r.Some? ==> r.value + |pat| <= |s| && s[r.value..r.value + |pat|] == pat
  {
    if pat <= s then Some(0)
    else if s == "" then None
    else
      var r := Find(s[1..], pat);
      if r.Some? then Some(r.value + 1) else None
  }

  datatype Parts = Parts(head: string, body: string)

  /** The frontmatter with both its delimiters, and the rest; a text without frontmatter is all body. */
  function SplitFrontmatter(text: string): (r: Parts)
    ensures r.head + r.body == text
  {
    if |text| >= 4 && text[..4] == "---\n" then
      var end := Find(text[4..], CLOSE);
      if end.Some? then Parts(text[..end.value + 9], text[end.value + 9..]) else Parts("", text)
    else Parts("", text)
  }

  // ----- the lines of the frontmatter -----

  predicate Names(line: string, field: string) {
    field + ":" <= line
  }

  function Entry(field: string, value: string): string {
    field + ": " + value
  }

  /** The first line that names the field; the number of lines when none does. */
  function FieldAt(ls: seq<string>, field: string): (k: nat)
    ensures k <= |ls| && (forall i :: 0 <= i < k ==> !Names(ls[i], field))
    ensures k < |ls| ==> Names(ls[k], field)
  {
    if ls == [] || Names(ls[0], field) then 0 else 1 + FieldAt(ls[1..], field)
  }

  /** The lines with the field set: its first line replaced, or a new line above the last one. */
  function SetLines(ls: seq<string>, field: string, value: string): seq<string>
    requires ls != []
  {
    var k := FieldAt(ls, field);
    if k < |ls| then ls[k := Entry(field, value)]
    else ls[..|ls| - 1] + [Entry(field, value)] + ls[|ls| - 1..]
  }

  function SetField(text: string, field: string, value: string): Option<string> {
    var parts := SplitFrontmatter(text);
    if parts.head == "" then None
    else
      var ls := SplitLines(parts.head);
      if ls == [] then None else Some(Join(SetLines(ls, field, value)) + "\n" + parts.body)
  }

  /** The file operation; `None` is its `ValueError`. */
  method SetFrontmatterField(text: string, field: string, value: string) returns (r: Option<string>)
    ensures r == SetField(text, field, value)
    ensures r.None? <==> SplitFrontmatter(text).head == ""
  {
    hide SplitFrontmatter, SplitLines, Join, Names, Entry, FieldAt;
    var parts := SplitFrontmatter(text);
    if parts.head == "" {
      return None;
    }
    HasLines(parts.head);
    var lines := SplitLines(parts.head);
    ghost var was := lines;
    var i := 0;
    while i < |lines|
      invariant i <= |lines| && lines == was
      invariant forall j :: 0 <= j < i ==> !Names(lines[j], field)
    {
      if Names(lines[i], field) {
        lines := lines[i := Entry(field, value)];
        break;
      }
      i := i + 1;
    }
    if i == |lines| {
      lines := lines[..|lines| - 1] + [Entry(field, value)] + lines[|lines| - 1..];
    }
    r := Some(Join(lines) + "\n" + parts.body);
  }

  lemma HasLines(head: string)
    ensures SplitLines(head) == [] ==> head == ""
  {
  }

  // ----- which lines a frontmatter has -----

  /** Delimiters at both ends and none in between, except that the line right under the opening one is not
      looked at as a closing one. */
  predicate Fenced(ls: seq<string>) {
    && |ls| >= 3 && Lines(ls) && ls[0] == DELIMITER && ls[|ls| - 1] == DELIMITER
    && forall k :: 2 <= k < |ls| - 1 ==> ls[k] != DELIMITER
  }

  lemma CloseBegins(rest: string)
    ensures CLOSE <= "\n" + rest <==> "---\n" <= rest
  {
    assert CLOSE == "\n" + "---\n";
    if CLOSE <= "\n" + rest { assert rest[..4] == ("\n" + rest)[1..5]; }
  }

  lemma FindStep(c: char, t: string)
    ensures !(CLOSE <= [c] + t) ==>
      Find([c] + t, CLOSE) == if Find(t, CLOSE).Some? then Some(Find(t, CLOSE).value + 1) else None
    ensures CLOSE <= [c] + t ==> Find([c] + t, CLOSE) == Some(0)
  {
    assert ([c] + t)[1..] == t;
  }

  lemma {:induction false} FindSkip(line: string, rest: string)
    requires OneLine(line)
    ensures Find(line + "\n" + rest, CLOSE) ==
      if "---\n" <= rest then Some(|line|)
      else if Find(rest, CLOSE).Some? then Some(Find(rest, CLOSE).value + |line| + 1) else None
    decreases |line|
  {
    hide Find;
    if line == "" {
      CloseBegins(rest);
      FindStep('\n', rest);
      assert "" + "\n" + rest == ['\n'] + rest;
    } else {
      FindSkip(line[1..], rest);
      FindStep(line[0], line[1..] + "\n" + rest);
      assert line + "\n" + rest == [line[0]] + (line[1..] + "\n" + rest);
      assert CLOSE[0] == '\n' != line[0];
    }
  }

  /** Where the first line of `t` ends tells whether `t` begins with a delimiter line. */
  lemma StartsWithDelimiter(line: string, t: string)
    requires OneLine(line)
    ensures "---\n" <= line + "\n" + t <==> line == DELIMITER
  {
    var s := line + "\n" + t;
    assert s[|line|] == '\n' && forall i :: 0 <= i < |line| ==> s[i] == line[i];
    assert forall i :: 0 <= i < |line| ==> s[i] != '\n';
    if "---\n" <= s {
      assert s[..4] == "---\n";
      assert s[0] == '-' && s[1] == '-' && s[2] == '-' && s[3] == '\n';
      assert |line| == 3;
    }
  }

  lemma RenderHead(ls: seq<string>)
    requires |ls| > 1
    ensures Render(ls, true) == ls[0] + "\n" + Render(ls[1..], true)
  {
  }

  /** The text of lines begins with the first of them. */
  lemma RenderStarts(ls: seq<string>) returns (t: string)
    requires ls != []
    ensures Render(ls, true) == ls[0] + "\n" + t
  {
    if |ls| == 1 {
      t := "";
    } else {
      t := Render(ls[1..], true);
      RenderHead(ls);
    }
  }

  /** A delimiter line above the rest closes; any other line is passed over. */
  lemma FindPasses(line: string, q: string, next: string, t: string)
    requires OneLine(line) && OneLine(next) && q == next + "\n" + t
    ensures Find(line + "\n" + q, CLOSE) ==
      if next == DELIMITER then Some(|line|)
      else if Find(q, CLOSE).Some? then Some(Find(q, CLOSE).value + |line| + 1) else None
  {
    hide Find;
    FindSkip(line, q);
    StartsWithDelimiter(next, t);
  }

  /** Text below lines `ls` is found to close them exactly when none but the first of them is a delimiter. */
  lemma {:induction false} FindRender(ls: seq<string>, rest: string)
    requires ls != [] && Lines(ls)
    ensures |Render(ls, true)| > 0
    ensures Find(Render(ls, true) + ("---\n" + rest), CLOSE) == Some(|Render(ls, true)| - 1)
      <==> forall k :: 1 <= k < |ls| ==> ls[k] != DELIMITER
    decreases |ls|
  {
    hide Find, Render;
    var below := "---\n" + rest;
    if |ls| == 1 {
      RenderOne(ls[0]);
      assert ls == [ls[0]];
      FindSkip(ls[0], below);
    } else {
      var r := Render(ls[1..], true);
      RenderHead(ls);
      var t := RenderStarts(ls[1..]);
      assert r + below == ls[1] + "\n" + (t + below);
      FindPasses(ls[0], r + below, ls[1], t + below);
      assert Render(ls, true) + below == ls[0] + "\n" + (r + below);
      FindRender(ls[1..], rest);
      assert forall k :: 2 <= k < |ls| ==> ls[k] == ls[1..][k - 1];
      assert forall k :: 1 <= k < |ls[1..]| ==> ls[1..][k] == ls[k + 1];
    }
  }

  lemma RenderOne(line: string)
    ensures Render([line], true) == line + "\n"
  {
  }

  lemma {:induction false} RenderConcat(a: seq<string>, b: seq<string>)
    requires a != [] && b != []
    ensures Render(a + b, true) == Render(a, true) + Render(b, true)
    decreases |a|
  {
    hide Render;
    RenderHead(a + b);
    if |a| == 1 {
      assert (a + b)[1..] == b;
      RenderOne(a[0]);
      assert a == [a[0]];
    } else {
      assert (a + b)[1..] == a[1..] + b;
      RenderConcat(a[1..], b);
      RenderHead(a);
    }
  }

  lemma RenderFenced(inner: seq<string>)
    requires inner != []
    ensures Render([DELIMITER] + inner + [DELIMITER], true) == "---\n" + Render(inner, true) + "---\n"
  {
    hide Render;
    RenderConcat([DELIMITER] + inner, [DELIMITER]);
    RenderConcat([DELIMITER], inner);
    RenderOne(DELIMITER);
  }

  lemma Pieces(a: string, b: string, c: string, d: string)
    ensures var t := a + b + c + d;
      t[..|a|] == a && t[|a|..] == b + (c + d) && t[..|a| + |b| + |c|] == a + b + c && t[|a| + |b| + |c|..] == d
  {
  }

  /** Reading the frontmatter of a text whose closing delimiter is known. */
  lemma SplitAt(mid: string, body: string)
    requires mid != ""
    requires Find(mid + ("---\n" + body), CLOSE) == Some(|mid| - 1)
    ensures SplitFrontmatter("---\n" + mid + "---\n" + body) == Parts("---\n" + mid + "---\n", body)
  {
    hide Find, SplitFrontmatter;
    Pieces("---\n", mid, "---\n", body);
    SplitIs("---\n" + mid + "---\n" + body, |mid| - 1);
  }

  lemma SplitIs(text: string, end: nat)
    requires |text| >= 4 && text[..4] == "---\n" && Find(text[4..], CLOSE) == Some(end)
    ensures end + 9 <= |text| && SplitFrontmatter(text) == Parts(text[..end + 9], text[end + 9..])
  {
  }

  /** The other way: a frontmatter is an opening line, some text that ends a line, and a closing line. */
  lemma HeadParts(text: string) returns (mid: string, body: string)
    requires SplitFrontmatter(text).head != ""
    ensures mid != "" && mid[|mid| - 1] == '\n'
    ensures SplitFrontmatter(text) == Parts("---\n" + mid + "---\n", body)
    ensures Find(mid + ("---\n" + body), CLOSE) == Some(|mid| - 1)
  {
    hide Find, SplitFrontmatter;
    var end := Closing(text);
    var tail := text[4..];
    mid, body := tail[..end + 1], tail[end + 5..];
    assert tail[end..end + 5][0] == '\n' && tail[end..end + 5][1..] == "---\n";
    assert tail[end + 1..end + 5] == tail[end..end + 5][1..];
    assert tail == mid + ("---\n" + body);
    assert text == "---\n" + mid + "---\n" + body;
    SplitAt(mid, body);
  }

  lemma Closing(text: string) returns (end: nat)
    requires SplitFrontmatter(text).head != ""
    ensures |text| >= end + 9 && text[..4] == "---\n" && Find(text[4..], CLOSE) == Some(end)
    ensures text[4..][end..end + 5] == CLOSE
  {
    hide Find;
    end := Find(text[4..], CLOSE).value;
  }

  /** Lines fenced by delimiters are read back as frontmatter, whatever follows them. */
  lemma FencedReads(ls: seq<string>, body: string)
    requires Fenced(ls)
    ensures SplitFrontmatter(Render(ls, true) + body) == Parts(Render(ls, true), body)
    ensures SplitLines(Render(ls, true)) == ls
  {
    hide Find, Render, SplitFrontmatter, SplitLines;
    var inner := ls[1..|ls| - 1];
    assert ls == [DELIMITER] + inner + [DELIMITER];
    RenderFenced(inner);
    FindRender(inner, body);
    SplitAt(Render(inner, true), body);
    SplitRender(ls, true);
  }

  /** Every frontmatter consists of fenced lines. */
  lemma HeadIsFenced(text: string)
    requires SplitFrontmatter(text).head != ""
    ensures Fenced(SplitLines(SplitFrontmatter(text).head))
    ensures SplitFrontmatter(text).head == Render(SplitLines(SplitFrontmatter(text).head), true)
  {
    hide Find, Render, SplitFrontmatter, SplitLines;
    var mid, body := HeadParts(text);
    var inner := SplitLines(mid);
    RenderSplit(mid);
    NotEmpty(mid);
    FindRender(inner, body);
    RenderFenced(inner);
    var ls := [DELIMITER] + inner + [DELIMITER];
    assert forall k :: 2 <= k < |ls| - 1 ==> ls[k] == inner[k - 1];
    SplitRender(ls, true);
  }

  lemma NotEmpty(t: string)
    requires t != ""
    ensures SplitLines(t) != []
  {
  }

  // ----- setting a field -----

  /** The entry of a one-line field is neither a delimiter nor more than a line. */
  lemma EntryIsLine(field: string, value: string)
    requires OneLine(field) && OneLine(value)
    ensures OneLine(Entry(field, value)) && Entry(field, value) != DELIMITER
    ensures Names(Entry(field, value), field)
  {
    assert Entry(field, value)[|field|] == ':';
    assert Entry(field, value)[..|field| + 1] == field + ":";
  }

  lemma DelimiterNamesNothing(field: string)
    ensures !Names(DELIMITER, field)
  {
    assert forall i :: 0 <= i < |DELIMITER| ==> DELIMITER[i] != ':';
    assert (field + ":")[|field|] == ':';
  }

  lemma SetKeepsFence(ls: seq<string>, field: string, value: string)
    requires Fenced(ls) && OneLine(field) && OneLine(value)
    ensures Fenced(SetLines(ls, field, value))
  {
    EntryIsLine(field, value);
    DelimiterNamesNothing(field);
  }

  /** What setting a field does to a document: it is refused exactly when there is no frontmatter; otherwise
      the body stays character for character, and the frontmatter's lines are the old ones with the field
      set. */
  lemma SetFieldExactly(text: string, field: string, value: string)
    requires OneLine(field) && OneLine(value)
    ensures SetField(text, field, value).None? <==> SplitFrontmatter(text).head == ""
    ensures SetField(text, field, value).Some? ==>
      var parts, after := SplitFrontmatter(text), SplitFrontmatter(SetField(text, field, value).value);
      && after.body == parts.body
      && after.head != ""
      && SplitLines(after.head) == SetLines(SplitLines(parts.head), field, value)
      && SetField(text, field, value).value == after.head + parts.body
  {
    hide Find;
    if SplitFrontmatter(text).head != "" {
      HeadIsFenced(text);
      var parts := SplitFrontmatter(text);
      var ls := SetLines(SplitLines(parts.head), field, value);
      SetKeepsFence(SplitLines(parts.head), field, value);
      FencedReads(ls, parts.body);
      assert SetField(text, field, value).value == Render(ls, true) + parts.body;
    }
  }

  /** The value of the first line that names the field. */
  function FieldValue(text: string, field: string): Option<string> {
    var ls := SplitLines(SplitFrontmatter(text).head);
    var k := FieldAt(ls, field);
    if k < |ls| && Entry(field, "") <= ls[k] then Some(ls[k][|field| + 2..]) else None
  }

  /** After a set, the field's line is where it was, or new above the closing delimiter. */
  lemma SetLinesAt(ls: seq<string>, field: string, value: string)
    requires ls != [] && OneLine(field) && OneLine(value)
    requires !Names(ls[|ls| - 1], field)
    ensures var k := FieldAt(ls, field);
      var now := SetLines(ls, field, value);
      && FieldAt(now, field) == (if k < |ls| then k else |ls| - 1) && FieldAt(now, field) < |now|
      && now[FieldAt(now, field)] == Entry(field, value)
  {
  }

  lemma LastEntryWins(ls: seq<string>, field: string, v: string, w: string)
    requires Fenced(ls) && OneLine(field) && OneLine(v)
    ensures SetLines(SetLines(ls, field, v), field, w) == SetLines(ls, field, w)
  {
    DelimiterNamesNothing(field);
    SetLinesAt(ls, field, v);
  }

  /** Setting a field twice is setting it to the second value: in particular setting it again changes
      nothing. */
  lemma LastWins(text: string, field: string, v: string, w: string)
    requires OneLine(field) && OneLine(v) && OneLine(w) && SetField(text, field, v).Some?
    ensures SetField(SetField(text, field, v).value, field, w) == SetField(text, field, w)
    ensures SetField(SetField(text, field, v).value, field, v) == SetField(text, field, v)
  {
    hide SplitFrontmatter, SplitLines, SetLines, Find;
    SetFieldExactly(text, field, v);
    HeadIsFenced(text);
    var ls := SplitLines(SplitFrontmatter(text).head);
    LastEntryWins(ls, field, v, w);
    LastEntryWins(ls, field, v, v);
    NotEmpty(SplitFrontmatter(SetField(text, field, v).value).head);
  }

  lemma EntrySplits(field: string, value: string)
    ensures Entry(field, "") <= Entry(field, value) && Entry(field, value)[|field| + 2..] == value
  {
    assert Entry(field, value) == Entry(field, "") + value;
  }

  /** The field reads back. */
  lemma FieldReads(text: string, field: string, value: string)
    requires OneLine(field) && OneLine(value) && SetField(text, field, value).Some?
    ensures FieldValue(SetField(text, field, value).value, field) == Some(value)
  {
    hide SplitFrontmatter, SplitLines, SetLines, Find;
    SetFieldExactly(text, field, value);
    HeadIsFenced(text);
    DelimiterNamesNothing(field);
    SetLinesAt(SplitLines(SplitFrontmatter(text).head), field, value);
    EntrySplits(field, value);
  }

  /** A line names at most one field. */
  lemma NamesOne(line: string, f: string, g: string)
    requires ':' !in f && ':' !in g && Names(line, f) && Names(line, g)
    ensures f == g
  {
    assert (f + ":")[|f|] == ':' && (g + ":")[|g|] == ':';
    assert line[..|f|] == f && line[..|g|] == g && line[|f|] == ':' && line[|g|] == ':';
    assert forall i :: 0 <= i < |f| ==> line[i] == f[i];
    assert forall i :: 0 <= i < |g| ==> line[i] == g[i];
  }

  lemma EntryNamesOne(f: string, g: string, value: string)
    requires ':' !in f && ':' !in g && f != g
    ensures !Names(Entry(f, value), g)
  {
    var e := Entry(f, value);
    assert e[..|f| + 1] == f + ":";
    if Names(e, g) {
      NamesOne(e, f, g);
    }
  }

  lemma {:induction false} FieldAtSame(ls: seq<string>, now: seq<string>, field: string)
    requires |now| == |ls|
    requires forall i :: 0 <= i < |ls| ==> now[i] == ls[i] || (!Names(ls[i], field) && !Names(now[i], field))
    ensures FieldAt(now, field) == FieldAt(ls, field)
  {
    if ls != [] {
      assert now[0] == ls[0] || (!Names(ls[0], field) && !Names(now[0], field));
      FieldAtSame(ls[1..], now[1..], field);
    }
  }

  lemma {:induction false} FieldAtInserted(ls: seq<string>, line: string, last: string, field: string)
    requires !Names(line, field) && !Names(last, field)
    ensures FieldAt(ls + [last], field) < |ls| ==> FieldAt(ls + [line, last], field) == FieldAt(ls + [last], field)
    ensures FieldAt(ls + [last], field) >= |ls| ==> FieldAt(ls + [line, last], field) == |ls| + 2
    ensures FieldAt(ls + [last], field) != |ls|
  {
    if ls == [] {
      assert [last][1..] == [] && ([] + [line, last])[1..] == [last];
    } else {
      assert (ls + [last])[1..] == ls[1..] + [last];
      assert (ls + [line, last])[1..] == ls[1..] + [line, last];
      FieldAtInserted(ls[1..], line, last, field);
    }
  }

  /** Setting one field leaves every other field as it was. */
  lemma OtherFields(text: string, f: string, g: string, value: string)
    requires OneLine(f) && OneLine(value) && ':' !in f && ':' !in g && f != g
    requires SetField(text, f, value).Some?
    ensures FieldValue(SetField(text, f, value).value, g) == FieldValue(text, g)
  {
    hide SplitFrontmatter, SplitLines, SetLines, Find, FieldAt, Names;
    SetFieldExactly(text, f, value);
    HeadIsFenced(text);
    var ls := SplitLines(SplitFrontmatter(text).head);
    OtherLines(ls, f, g, value);
  }

  lemma OtherLines(ls: seq<string>, f: string, g: string, value: string)
    requires Fenced(ls) && ':' !in f && ':' !in g && f != g
    ensures var k, now := FieldAt(ls, g), SetLines(ls, f, value);
      && (k < |ls| <==> FieldAt(now, g) < |now|)
      && (k < |ls| ==> FieldAt(now, g) == k && now[k] == ls[k])
  {
    hide FieldAt, Names;
    EntryNamesOne(f, g, value);
    DelimiterNamesNothing(g);
    var at := FieldAt(ls, f);
    var now := SetLines(ls, f, value);
    if at < |ls| {
      if Names(ls[at], g) { NamesOne(ls[at], f, g); }
      FieldAtSame(ls, now, g);
    } else {
      var front := ls[..|ls| - 1];
      assert ls == front + [DELIMITER];
      assert now == front + [Entry(f, value), DELIMITER];
      FieldAtInserted(front, Entry(f, value), DELIMITER, g);
    }
  }

  // ----- sealing -----

  function BodySha(sha: string -> string, text: string): string {
    sha(SplitFrontmatter(text).body)
  }

  /** The three requirement documents by label, in order. */
  datatype Trio = Trio(story: string, spec: string, acceptance: string)

  /** The text whose digest is the revision's. */
  function Revision(sha: string -> string, docs: Trio): string {
    "story:" + BodySha(sha, docs.story) + "\nspec:" + BodySha(sha, docs.spec) + "\nacc:" + BodySha(sha, docs.acceptance)
  }

  /** The hash function is a parameter. */
  function RevisionDigest(sha: string -> string, docs: Trio): string {
    sha(Revision(sha, docs))
  }

  /** Writing a document's own digest into its frontmatter. */
  function Seal(sha: string -> string, text: string): Option<string> {
    SetField(text, "sha", BodySha(sha, text))
  }

  /** A sealed document carries the digest of the body it has after sealing, so sealing it again changes
      nothing. */
  lemma SealHolds(sha: string -> string, text: string)
    requires OneLine(BodySha(sha, text)) && Seal(sha, text).Some?
    ensures var after := Seal(sha, text).value;
      FieldValue(after, "sha") == Some(BodySha(sha, after)) && Seal(sha, after) == Some(after)
  {
    hide SetField, FieldValue;
    SetFieldExactly(text, "sha", BodySha(sha, text));
    FieldReads(text, "sha", BodySha(sha, text));
    LastWins(text, "sha", BodySha(sha, text), BodySha(sha, text));
  }

  /** Setting fields in any of the documents leaves the revision digest as it was. */
  lemma DigestStable(sha: string -> string, docs: Trio, after: Trio, field: string, value: string)
    requires OneLine(field) && OneLine(value)
    requires after.story == docs.story || SetField(docs.story, field, value) == Some(after.story)
    requires after.spec == docs.spec || SetField(docs.spec, field, value) == Some(after.spec)
    requires after.acceptance == docs.acceptance || SetField(docs.acceptance, field, value) == Some(after.acceptance)
    ensures RevisionDigest(sha, after) == RevisionDigest(sha, docs)
  {
    hide SetField;
    SetFieldExactly(docs.story, field, value);
    SetFieldExactly(docs.spec, field, value);
    SetFieldExactly(docs.acceptance, field, value);
  }

  /** Two different texts among the bodies and the revision texts of `docs` and `after` have one digest. */
  predicate Collides(sha: string -> string, docs: Trio, after: Trio) {
    || Collide(sha, SplitFrontmatter(docs.story).body, SplitFrontmatter(after.story).body)
    || Collide(sha, SplitFrontmatter(docs.spec).body, SplitFrontmatter(after.spec).body)
    || Collide(sha, SplitFrontmatter(docs.acceptance).body, SplitFrontmatter(after.acceptance).body)
    || Collide(sha, Revision(sha, docs), Revision(sha, after))
  }

  predicate Collide(sha: string -> string, a: string, b: string) {
    a != b && sha(a) == sha(b)
  }

  lemma SplitSame(a: string, b: string, c: string, d: string)
    requires |a| == |c| && a + b == c + d
    ensures a == c && b == d
  {
    assert a == (a + b)[..|a|] && c == (c + d)[..|c|];
    assert b == (a + b)[|a|..] && d == (c + d)[|c|..];
  }

  lemma SameRevision(a: string, b: string, c: string, a': string, b': string, c': string)
    requires |a| == |a'| && |b| == |b'|
    requires "story:" + a + "\nspec:" + b + "\nacc:" + c == "story:" + a' + "\nspec:" + b' + "\nacc:" + c'
    ensures a == a' && b == b' && c == c'
  {
    var r, r' := "\nacc:" + c, "\nacc:" + c';
    var q, q' := "\nspec:" + (b + r), "\nspec:" + (b' + r');
    assert "story:" + a + "\nspec:" + b + "\nacc:" + c == "story:" + (a + q);
    assert "story:" + a' + "\nspec:" + b' + "\nacc:" + c' == "story:" + (a' + q');
    SplitSame("story:", a + q, "story:", a' + q');
    SplitSame(a, q, a', q');
    SplitSame("\nspec:", b + r, "\nspec:", b' + r');
    SplitSame(b, r, b', r');
    SplitSame("\nacc:", c, "\nacc:", c');
  }

  /** With digests of one length, as SHA-256 has, the revision digest tells any change of a body: without a collision
      it is the same if and only if all three bodies are. */
  lemma DigestExactly(sha: string -> string, docs: Trio, after: Trio)
    requires forall a, b :: |sha(a)| == |sha(b)|
    ensures !Collides(sha, docs, after) ==>
      (RevisionDigest(sha, docs) == RevisionDigest(sha, after) <==> SameBodies(docs, after))
  {
    hide SplitFrontmatter;
    if Revision(sha, docs) == Revision(sha, after) {
      SameRevision(BodySha(sha, docs.story), BodySha(sha, docs.spec), BodySha(sha, docs.acceptance),
                   BodySha(sha, after.story), BodySha(sha, after.spec), BodySha(sha, after.acceptance));
    }
  }

  predicate SameBodies(docs: Trio, after: Trio) {
    && SplitFrontmatter(docs.story).body == SplitFrontmatter(after.story).body
    && SplitFrontmatter(docs.spec).body == SplitFrontmatter(after.spec).body
    && SplitFrontmatter(docs.acceptance).body == SplitFrontmatter(after.acceptance).body
  }
}
