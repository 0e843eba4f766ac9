/** How git spells a path in the listings the rollback reads: names with special characters are quoted. */
module Listing {
  import opened FileTree
  import opened Turns

  /** The bytes of a character in UTF-8. */
  function Octets(c: char): seq<nat> {
    var n := c as int;
    if n < 0x80 then [n]
    else if n < 0x800 then [0xC0 + n / 64, 0x80 + n % 64]
    else if n < 0x1_0000 then [0xE0 + n / 4096, 0x80 + n / 64 % 64, 0x80 + n % 64]
    else [0xF0 + n / 262144 % 8, 0x80 + n / 4096 % 64, 0x80 + n / 64 % 64, 0x80 + n % 64]
  }

  function Digit(n: nat): char {
    "01234567"[n % 8]
  }

  function Octal(bytes: seq<nat>): string {
    if bytes == [] then ""
    else ['\\', Digit(bytes[0] / 64), Digit(bytes[0] / 8), Digit(bytes[0])] + Octal(bytes[1..])
  }

  predicate Special(c: char) {
    c < ' ' || c > '~' || c == '"' || c == '\\'
  }

  /** One character of a quoted name. */
  function Escape(c: char): string {
    match c as int
    case 7 => "\\a"
    case 8 => "\\b"
    case 9 => "\\t"
    case 10 => "\\n"
    case 11 => "\\v"
    case 12 => "\\f"
    case 13 => "\\r"
    case 34 => "\\\""
    case 92 => "\\\\"
    case _ => if Special(c) then Octal(Octets(c)) else [c]
  }

  function EscapeAll(s: string): string {
    if s == "" then "" else Escape(s[0]) + EscapeAll(s[1..])
  }

  /** The name is listed as it is. */
  predicate Plain(p: Path) {
    forall i :: 0 <= i < |PathText(p)| ==> !Special(PathText(p)[i])
  }

  /** The line of a path in `git ls-files` and in `git ls-tree --name-only`, both without `-z`. */
  function Line(p: Path): string {
    if Plain(p) then PathText(p) else "\"" + EscapeAll(PathText(p)) + "\""
  }

  function NamesOf(head: Leaves, index: Leaves): Names {
    var h := set p | p in head :: Line(p);
    Names(h, h + set p | p in index :: Line(p))
  }

  /** The character that a sequence of bytes encodes: the low bits of its leading byte, and six of each other one. */
  function Decoded(bytes: seq<nat>): int {
    match |bytes|
    case 1 => bytes[0]
    case 2 => bytes[0] % 32 * 64 + bytes[1] % 64
    case 3 => bytes[0] % 16 * 4096 + bytes[1] % 64 * 64 + bytes[2] % 64
    case 4 => bytes[0] % 8 * 262144 + bytes[1] % 64 * 4096 + bytes[2] % 64 * 64 + bytes[3] % 64
    case _ => -1
  }

  lemma LowBits(x: nat)
    ensures x < 32 ==> (0xC0 + x) % 32 == x
    ensures x < 16 ==> (0xE0 + x) % 16 == x
    ensures x < 8 ==> (0xF0 + x) % 8 == x
    ensures x < 64 ==> (0x80 + x) % 64 == x
  {
  }

  lemma Split(n: nat)
    ensures n == n / 64 * 64 + n % 64
  {
  }

  lemma Quotients(n: nat)
    ensures n / 4096 == n / 64 / 64 && n / 262144 == n / 4096 / 64
  {
  }

  lemma DecodeTwo(a: nat, b: nat)
    requires a < 32 && b < 64
    ensures Decoded([0xC0 + a, 0x80 + b]) == a * 64 + b
  {
    LowBits(a);
    LowBits(b);
  }

  lemma DecodeThree(a: nat, b: nat, c: nat)
    requires a < 16 && b < 64 && c < 64
    ensures Decoded([0xE0 + a, 0x80 + b, 0x80 + c]) == a * 4096 + b * 64 + c
  {
    LowBits(a);
    LowBits(b);
    LowBits(c);
  }

  lemma DecodeFour(a: nat, b: nat, c: nat, d: nat)
    requires a < 8 && b < 64 && c < 64 && d < 64
    ensures Decoded([0xF0 + a, 0x80 + b, 0x80 + c, 0x80 + d]) == a * 262144 + b * 4096 + c * 64 + d
  {
    LowBits(a);
    LowBits(b);
    LowBits(c);
    LowBits(d);
  }

  /** The bytes decode to the character. */
  lemma OctetsDecode(c: char)
    ensures Decoded(Octets(c)) == c as int
  {
    hide Decoded;
    var n := c as int;
    Quotients(n);
    Split(n);
    Split(n / 64);
    Split(n / 4096);
    if n < 0x80 {
      DecodeOne(n);
    } else if n < 0x800 {
      DecodeTwo(n / 64, n % 64);
    } else if n < 0x1_0000 {
      DecodeThree(n / 4096, n / 64 % 64, n % 64);
    } else {
      DecodeFour(n / 262144, n / 4096 % 64, n / 64 % 64, n % 64);
    }
  }

  lemma DecodeOne(n: nat)
    ensures Decoded([n]) == n
  {
  }

  predicate IsOctal(c: char) {
    '0' <= c <= '7'
  }

  /** Each byte is written as a backslash and its three octal digits, one byte after the other. */
  lemma OctalReads(n: nat)
    requires n < 256
    ensures |Octal([n])| == 4 && Octal([n])[0] == '\\' && forall i :: 1 <= i < 4 ==> IsOctal(Octal([n])[i])
    ensures var a, b, c := Octal([n])[1], Octal([n])[2], Octal([n])[3];
      a as int * 64 + b as int * 8 + c as int - 73 * '0' as int == n
  {
    hide Digit;
    DigitIs(n / 64);
    DigitIs(n / 8);
    DigitIs(n);
    ThreeDigits(n);
    assert Octal([n]) == ['\\', Digit(n / 64), Digit(n / 8), Digit(n)] + Octal([]);
  }

  lemma ThreeDigits(n: nat)
    requires n < 256
    ensures n / 64 % 8 * 64 + n / 8 % 8 * 8 + n % 8 == n
  {
  }

  lemma DigitIs(n: nat)
    ensures IsOctal(Digit(n)) && Digit(n) as int - '0' as int == n % 8
  {
  }

  lemma {:induction false} OctalJoins(a: seq<nat>, b: seq<nat>)
    ensures Octal(a + b) == Octal(a) + Octal(b)
  {
    if a == [] {
      assert a + b == b;
    } else {
      assert (a + b)[1..] == a[1..] + b;
      OctalJoins(a[1..], b);
    }
  }

  /** A plain name is in the listing of what holds it. */
  lemma PlainIsListed(p: Path, head: Leaves, index: Leaves)
    requires Plain(p)
    ensures p in head ==> PathText(p) in NamesOf(head, index).head
    ensures p in head || p in index ==> PathText(p) in NamesOf(head, index).all
  {
    assert Line(p) == PathText(p);
  }

  /** A name that is not plain is in no listing, whatever holds it, unless it is spelled like the quoted form of
      another. */
  lemma QuotedIsUnlisted(p: Path, head: Leaves, index: Leaves)
    requires !Plain(p) && !("\"" <= PathText(p))
    ensures PathText(p) !in NamesOf(head, index).all && PathText(p) !in NamesOf(head, index).head
  {
    forall q ensures Line(q) != PathText(p) {
      if Plain(q) {
        SamePlain(p, q);
      } else {
        assert "\"" <= Line(q);
      }
    }
  }

  lemma SamePlain(p: Path, q: Path)
    ensures PathText(p) == PathText(q) ==> (Plain(p) <==> Plain(q))
  {
  }

  // ----- names tell paths apart -----

  /** Every component is a name. */
  predicate Named(p: Path) {
    p != [] && forall i :: 0 <= i < |p| ==> p[i] != "" && '/' !in p[i]
  }

  ghost predicate AllNamed(l: Leaves) {
    forall p :: p in l ==> Named(p)
  }

  lemma {:induction false} OneComponent(text: string)
    requires '/' !in text
    ensures Components(text) == [text]
  {
    if text != "" {
      OneComponent(text[1..]);
      assert [text[0]] + text[1..] == text;
    }
  }

  lemma {:induction false} ComponentsCons(name: string, rest: string)
    requires '/' !in name
    ensures Components(name + "/" + rest) == [name] + Components(rest)
  {
    var text := name + "/" + rest;
    if name == "" {
      assert text[1..] == rest;
    } else {
      ComponentsCons(name[1..], rest);
      assert text[1..] == name[1..] + "/" + rest;
      assert [name[0]] + name[1..] == name;
    }
  }

  /** Splitting the text of a path at its slashes gives the path back. */
  lemma {:induction false} TextSplits(p: Path)
    requires Named(p)
    ensures Components(PathText(p)) == p
  {
    if |p| == 1 {
      OneComponent(p[0]);
    } else {
      TextSplits(p[1..]);
      ComponentsCons(p[0], PathText(p[1..]));
    }
  }

  /** A plain name that HEAD lists is in HEAD. */
  lemma ListedIsThere(p: Path, head: Leaves, index: Leaves)
    requires Plain(p) && Named(p) && AllNamed(head) && PathText(p) in NamesOf(head, index).head
    ensures p in head
  {
    var q :| q in head && Line(q) == PathText(p);
    if Plain(q) {
      TextSplits(p);
      TextSplits(q);
    } else {
      assert Line(q)[0] == '"' && PathText(p)[0] == '"';
      assert Special(PathText(p)[0]);
    }
  }

  /** The path with more components below it. */
  lemma TextCons(a: Path)
    requires a != []
    ensures PathText(a) == if |a| == 1 then a[0] else a[0] + "/" + PathText(a[1..])
  {
  }

  lemma {:induction false} ComponentsJoin(a: Path, rest: string)
    requires Named(a)
    ensures Components(PathText(a) + "/" + rest) == a + Components(rest)
  {
    hide Components, PathText;
    TextCons(a);
    if |a| == 1 {
      ComponentsCons(a[0], rest);
      assert a == [a[0]];
    } else {
      ComponentsJoin(a[1..], rest);
      ComponentsCons(a[0], PathText(a[1..]) + "/" + rest);
      assert PathText(a) + "/" + rest == a[0] + "/" + (PathText(a[1..]) + "/" + rest);
      assert [a[0]] + (a[1..] + Components(rest)) == a + Components(rest);
    }
  }

  lemma {:induction false} TextJoin(a: Path, b: Path)
    requires a != [] && b != []
    ensures PathText(a + b) == PathText(a) + "/" + PathText(b)
  {
    if |a| == 1 {
      assert (a + b)[1..] == b;
    } else {
      TextJoin(a[1..], b);
      assert (a + b)[1..] == a[1..] + b;
      assert a[0] + "/" + (PathText(a[1..]) + "/" + PathText(b)) == a[0] + "/" + PathText(a[1..]) + "/" + PathText(b);
    }
  }

  /** One path is at or below another exactly if its text is the other's, or goes on with a slash after it. */
  lemma BelowExactly(a: Path, p: Path)
    requires Named(a) && Named(p)
    ensures a <= p <==> PathText(p) == PathText(a) || PathText(a) + "/" <= PathText(p)
  {
    hide PathText, Components;
    if a <= p && a != p {
      TextJoin(a, p[|a|..]);
      assert p == a + p[|a|..];
    }
    if PathText(p) == PathText(a) {
      TextSplits(a);
      TextSplits(p);
    }
    if PathText(a) + "/" <= PathText(p) {
      var rest := PathText(p)[|PathText(a)| + 1..];
      assert PathText(p) == PathText(a) + "/" + rest;
      ComponentsJoin(a, rest);
      TextSplits(p);
    }
  }
}
