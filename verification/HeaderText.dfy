/** The text of a header list: every line followed by two end bytes, and an empty line after the last. In
    edit mode a line ends in NUL LF, packed it ends in CR LF. */
module HeaderText {
  import opened Text

  const NUL: char := '\0'
  const CR: char := '\r'

  // ------------------------------------------------------------------ layout

  function Body(lines: seq<string>, c: char): string
  {
    if lines == [] then [] else lines[0] + [c, '\n'] + Body(lines[1..], c)
  }

  /** The whole buffer; a list without lines has an empty one. */
  function Whole(lines: seq<string>, c: char): string
  {
    if lines == [] then [] else Body(lines, c) + CRLF
  }

  /** Two lines, packed and as a list keeps them. */
  lemma WholeTexts(a: string, b: string)
    ensures Whole([a, b], CR) == a + "\r\n" + (b + "\r\n") + "\r\n" && Whole([a, b], NUL) == a + "\0\n" + (b + "\0\n") + "\r\n"
  {
    BodyOfTwo(a, b, CR);
    BodyOfTwo(a, b, NUL);
  }

  lemma BodyOfTwo(a: string, b: string, c: char)
    ensures Body([a, b], c) == a + [c, '\n'] + (b + [c, '\n'])
  {
    assert [a, b][1..] == [b] && [b][1..] == [];
    assert Body([b], c) == b + [c, '\n'] + Body([], c);
    assert b + [c, '\n'] + [] == b + [c, '\n'];
  }

  /** Where line i starts; i == |lines| is where the next one would. */
  function Offset(lines: seq<string>, i: nat): nat
    requires i <= |lines|
  {
    if i == 0 then 0 else Offset(lines, i - 1) + |lines[i - 1]| + 2
  }

  /** The buffer holds the lines and the index leads to each of them. */
  predicate Layout(buf: string, heads: seq<nat>, lines: seq<string>, c: char)
  {
    buf == Whole(lines, c) && |heads| == |lines| && Indexed(heads, lines)
  }

  predicate Indexed(heads: seq<nat>, lines: seq<string>)
    requires |heads| == |lines|
  {
    forall i :: 0 <= i < |lines| ==> heads[i] == Offset(lines, i)
  }

  lemma {:induction false} BodyAppend(a: seq<string>, b: seq<string>, c: char)
    ensures Body(a + b, c) == Body(a, c) + Body(b, c)
  {
    if a == [] {
      assert a + b == b;
    } else {
      assert (a + b)[1..] == a[1..] + b;
      BodyAppend(a[1..], b, c);
      Move(a[0] + [c, '\n'], Body(a[1..], c), Body(b, c));
    }
  }

  lemma Move(a: string, b: string, c: string)
    ensures a + (b + c) == a + b + c
  {
  }

  lemma {:induction false} BodyLength(lines: seq<string>, i: nat, c: char)
    requires i <= |lines|
    ensures |Body(lines[..i], c)| == Offset(lines, i)
  {
    if i == 0 {
    } else {
      BodyLength(lines, i - 1, c);
      assert lines[..i] == lines[..i - 1] + [lines[i - 1]];
      BodyAppend(lines[..i - 1], [lines[i - 1]], c);
      BodyOne(lines[i - 1], c);
    }
  }

  lemma BodyOne(line: string, c: char)
    ensures Body([line], c) == line + [c, '\n']
  {
    assert [line][1..] == [];
    assert Body([], c) == [];
  }

  lemma {:induction false} BodyEnds(lines: seq<string>, c: char)
    ensures Body(lines, c) == [] || Body(lines, c)[|Body(lines, c)| - 1] == '\n'
  {
    if lines != [] {
      BodyEnds(lines[1..], c);
    }
  }

  /** The buffer around line i. */
  lemma BodyAt(lines: seq<string>, i: nat, c: char)
    requires i < |lines|
    ensures Body(lines, c) == Body(lines[..i], c) + (lines[i] + [c, '\n'] + Body(lines[i + 1..], c))
    ensures |Body(lines[..i], c)| == Offset(lines, i) && |Body(lines, c)| == Offset(lines, |lines|)
  {
    assert lines == lines[..i] + lines[i..];
    assert lines[i..][1..] == lines[i + 1..];
    BodyAppend(lines[..i], lines[i..], c);
    BodyLength(lines, i, c);
    BodyLength(lines, |lines|, c);
    assert lines[..|lines|] == lines;
  }

  /** The bytes s[p..] at the start of a line are the line and its end. */
  predicate Starts(s: string, p: nat, line: string, c: char)
  {
    p + |line| + 4 <= |s| && s[p..p + |line|] == line && s[p + |line|] == c && s[p + |line| + 1] == '\n'
  }

  lemma LineAt(lines: seq<string>, i: nat, c: char)
    requires i < |lines|
    ensures Starts(Whole(lines, c), Offset(lines, i), lines[i], c)
    ensures |Whole(lines, c)| == Offset(lines, |lines|) + 2
  {
    BodyAt(lines, i, c);
    Middle(Body(lines[..i], c), lines[i], c, Body(lines[i + 1..], c));
    hide Body, Offset, Starts;
  }

  lemma Middle(a: string, line: string, c: char, b: string)
    ensures Starts(a + (line + [c, '\n'] + b) + CRLF, |a|, line, c)
  {
  }

  /** Later lines start later, and by at least the length of the line between. */
  lemma {:induction false} OffsetOrder(lines: seq<string>, i: nat, j: nat)
    requires i < j <= |lines|
    ensures Offset(lines, i) + |lines[i]| + 2 <= Offset(lines, j)
    decreases j
  {
    if j > i + 1 {
      OffsetOrder(lines, i, j - 1);
    }
  }

  lemma {:induction false} OffsetPrefix(lines: seq<string>, more: seq<string>, i: nat)
    requires i <= |lines|
    ensures Offset(lines + more, i) == Offset(lines, i)
  {
    if i > 0 {
      OffsetPrefix(lines, more, i - 1);
    }
  }

  lemma {:induction false} OffsetAppend(lines: seq<string>, more: seq<string>, i: nat)
    requires i <= |more|
    ensures Offset(lines + more, |lines| + i) == Offset(lines, |lines|) + Offset(more, i)
  {
    if i == 0 {
      OffsetPrefix(lines, more, |lines|);
    } else {
      OffsetAppend(lines, more, i - 1);
    }
  }

  /** A list ends as headers_terminate wants it. */
  lemma WholeEnds(lines: seq<string>, c: char)
    requires lines != []
    ensures var s := Whole(lines, c);
            && |s| >= 4 && s[|s| - 1] == '\n' && s[|s| - 2] == CR && s[|s| - 3] == '\n' && s[|s| - 4] == c
            && s[..|s| - 2] == Body(lines, c)
  {
    LineAt(lines, |lines| - 1, c);
  }

  // ------------------------------------------------------------------ headers_terminate

  predicate Ended(buf: string)
  {
    var n := |buf|;
    n >= 4 && buf[n - 1] == '\n' && buf[n - 2] == CR && buf[n - 3] == '\n' && (buf[n - 4] == CR || buf[n - 4] == NUL)
  }

  predicate IsEnd(c: char) { c == CR || c == '\n' || c == NUL }

  function Strip(buf: string): (s: string)
    ensures s <= buf && (s == [] || !IsEnd(s[|s| - 1]))
    ensures forall i :: |s| <= i < |buf| ==> IsEnd(buf[i])
  {
    if buf != [] && IsEnd(buf[|buf| - 1]) then Strip(buf[..|buf| - 1]) else buf
  }

  function Terminated(buf: string, used: nat, c: char): string
  {
    if used == 0 then [] else if Ended(buf) then buf else Strip(buf) + [c, '\n', CR, '\n']
  }

  // ------------------------------------------------------------------ names

  function Lower(c: char): char
  {
    if 'A' <= c <= 'Z' then ((c as int) + 32) as char else c
  }

  /** strncasecmp == 0 on |b| bytes, where b holds no NUL byte. */
  predicate SameName(a: string, b: string)
  {
    |a| == |b| && forall i :: 0 <= i < |a| ==> Lower(a[i]) == Lower(b[i])
  }

  /** The line is a header with this name. */
  predicate Named(line: string, name: string)
  {
    |name| < |line| && line[|name|] == ':' && SameName(line[..|name|], name)
  }

  /** The first line with this name, or -1. */
  function FirstNamed(lines: seq<string>, name: string): (r: int)
    ensures -1 <= r < |lines|
    ensures r >= 0 ==> Named(lines[r], name) && forall i :: 0 <= i < r ==> !Named(lines[i], name)
    ensures r < 0 ==> forall i :: 0 <= i < |lines| ==> !Named(lines[i], name)
  {
    if lines == [] then -1
    else if Named(lines[0], name) then 0
    else
      var k := FirstNamed(lines[1..], name);
      assert forall i :: 1 <= i < |lines| ==> lines[i] == lines[1..][i - 1];
      if k < 0 then -1 else k + 1
  }

  /** The byte at i; past is the one behind the used part, which the code may read. */
  function At(buf: string, i: nat, past: char): char
    requires i <= |buf|
  {
    if i < |buf| then buf[i] else past
  }

  /** The test of the search loop at position p. */
  predicate Test(buf: string, p: nat, name: string, past: char)
  {
    p + |name| <= |buf| && At(buf, p + |name|, past) == ':' && SameName(buf[p..p + |name|], name)
  }

  lemma LowerEnd(x: char, c: char)
    requires c == NUL || c == CR
    ensures Lower(x) == Lower(c) <==> x == c
  {
  }

  /** The test says whether the line has the name, although it may look beyond the line, and beyond the
      last one. */
  lemma TestIsName(buf: string, p: nat, line: string, c: char, name: string, past: char)
    requires Starts(buf, p, line, c) && (c == NUL || c == CR) && c !in name
    ensures Test(buf, p, name, past) <==> Named(line, name)
  {
    var n, m := |line|, |name|;
    if p + m <= |buf| {
      var part := buf[p..p + m];
      if n < m {
        LowerEnd(name[n], c);
        assert part[n] == c;
      } else if m < n {
        assert part == line[..m] && buf[p + m] == line[m];
      }
    }
  }

  const CAPITALS: string := "ABCDEFGHIJKLMNOPQRSTUVWXYZ"
  const SMALL: string := "abcdefghijklmnopqrstuvwxyz"

  /** The same character, or the same letter in the other case. */
  predicate SameLetter(a: char, b: char)
  {
    a == b || exists i :: 0 <= i < 26 && ((a == CAPITALS[i] && b == SMALL[i]) || (a == SMALL[i] && b == CAPITALS[i]))
  }

  lemma Letter(i: nat)
    requires i < 26
    ensures CAPITALS[i] as int == 'A' as int + i && SMALL[i] as int == 'a' as int + i
  {
  }

  /** strncasecmp tells letters apart but not their case. */
  lemma LowerIsCase(a: char, b: char)
    ensures Lower(a) == Lower(b) <==> SameLetter(a, b)
  {
    forall i | 0 <= i < 26 ensures CAPITALS[i] as int == 'A' as int + i && SMALL[i] as int == 'a' as int + i {
      Letter(i);
    }
    if a != b && Lower(a) == Lower(b) {
      var i := if 'A' <= a <= 'Z' then a as int - 'A' as int else b as int - 'A' as int;
      assert 0 <= i < 26;
      assert (a == CAPITALS[i] && b == SMALL[i]) || (a == SMALL[i] && b == CAPITALS[i]);
    }
  }

  /** A line has the name if and only if it starts with its letters, in any case, and a colon. */
  lemma NamedInAnyCase(line: string, name: string)
    ensures Named(line, name) <==>
            |name| < |line| && line[|name|] == ':' && forall i :: 0 <= i < |name| ==> SameLetter(line[i], name[i])
  {
    if |name| < |line| {
      forall i | 0 <= i < |name| ensures Lower(line[i]) == Lower(name[i]) <==> SameLetter(line[i], name[i]) {
        LowerIsCase(line[i], name[i]);
      }
      hide SameLetter, Lower;
      assert forall i :: 0 <= i < |name| ==> line[..|name|][i] == line[i];
    }
  }

  /** A name with its letters in another case finds the same line. */
  lemma {:induction false} CaseDoesNotMatter(lines: seq<string>, name: string, other: string)
    requires |name| == |other| && forall i :: 0 <= i < |name| ==> SameLetter(name[i], other[i])
    ensures FirstNamed(lines, name) == FirstNamed(lines, other)
  {
    forall i | 0 <= i < |name| ensures Lower(name[i]) == Lower(other[i]) {
      LowerIsCase(name[i], other[i]);
    }
    hide Lower, SameLetter;
    if lines != [] {
      CaseDoesNotMatter(lines[1..], name, other);
    }
  }
}
