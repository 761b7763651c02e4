/** What ci_headers_pack and ci_headers_unpack do to the text of a header list. */
module HeaderPacking {
  import opened Text
  import opened HeaderText

  // ------------------------------------------------------------------ packing

  /** The buffer when the ends of the first n lines have been packed. */
  function PackState(lines: seq<string>, n: nat): string
    requires n <= |lines|
  {
    Body(lines[..n], CR) + Body(lines[n..], NUL) + CRLF
  }

  lemma PackEnds(lines: seq<string>)
    requires lines != []
    ensures PackState(lines, 0) == Whole(lines, NUL) && PackState(lines, |lines|) == Whole(lines, CR)
  {
    assert lines[0..] == lines && lines[..0] == [] && lines[..|lines|] == lines && lines[|lines|..] == [];
    assert Body([], CR) == [] && Body([], NUL) == [];
  }

  /** The last byte but one of line n becomes CR, and nothing else is NUL or changes there. */
  lemma PackStep(lines: seq<string>, n: nat, p: nat)
    requires n < |lines| && p == Offset(lines, n) + |lines[n]|
    ensures p + 1 < |PackState(lines, n)| && PackState(lines, n)[p] == NUL && PackState(lines, n)[p + 1] == '\n'
    ensures PackState(lines, n)[p := CR] == PackState(lines, n + 1)
  {
    BodyLength(lines, n, CR);
    assert lines[n..][1..] == lines[n + 1..];
    assert lines[..n + 1] == lines[..n] + [lines[n]];
    BodyAppend(lines[..n], [lines[n]], CR);
    BodyOne(lines[n], CR);
    SetEnd(Body(lines[..n], CR), lines[n], Body(lines[n + 1..], NUL) + CRLF, NUL, CR);
    Move(Body(lines[..n + 1], CR), Body(lines[n + 1..], NUL), CRLF);
    Move(Body(lines[..n], CR), lines[n] + [NUL, '\n'] + Body(lines[n + 1..], NUL), CRLF);
    Move(lines[n] + [NUL, '\n'], Body(lines[n + 1..], NUL), CRLF);
  }

  lemma SetEnd(a: string, line: string, b: string, c: char, d: char)
    ensures (a + (line + [c, '\n'] + b))[|a| + |line|] == c && (a + (line + [c, '\n'] + b))[|a| + |line| + 1] == '\n'
    ensures (a + (line + [c, '\n'] + b))[|a| + |line| := d] == a + (line + [d, '\n']) + b
  {
  }

  // ------------------------------------------------------------------ unpacking

  predicate IsBlank(c: char) { c == ' ' || c == '\t' }

  /** Where the last line ends: ebuf after its loop. */
  function Back(buf: string, e: nat): (r: nat)
    requires e <= |buf|
    ensures r <= e
  {
    if e > 1 && (buf[e - 1] == CR || buf[e - 1] == '\n') then Back(buf, e - 1) else e
  }

  /** A line ends at s: CR LF or a lone LF that no blank follows. */
  predicate LineEnds(buf: string, s: nat, e: nat)
    requires s + 2 < |buf|
  {
    if buf[s] == CR && buf[s + 1] == '\n' then s + 2 >= e || !IsBlank(buf[s + 2])
    else buf[s] == '\n' && !IsBlank(buf[s + 1])
  }

  /** The start of the line behind an end at s. */
  function NextLine(buf: string, s: nat): nat
    requires s + 1 < |buf|
  {
    if buf[s + 1] == '\n' then s + 2 else s + 1
  }

  datatype Indexing = Indexing(buf: string, heads: seq<nat>)

  /** The loop of ci_headers_unpack from s on. It does not look at the first byte of a line it has found. */
  function Scan(buf: string, s: nat, e: nat, heads: seq<nat>): Indexing
    requires e + 2 <= |buf|
    decreases if s < e then e - s else 0
  {
    if s >= e then Indexing(buf, heads)
    else if LineEnds(buf, s, e) then
      Scan(buf[s := NUL], NextLine(buf, s) + 1, e, heads + [NextLine(buf, s)])
    else
      Scan(if buf[s] == NUL then buf[s := ' '] else buf, s + 1, e, heads)
  }

  /** A header line as it may come over the wire: not empty, no NUL, and CR LF only together and only
      where the line is folded. */
  predicate GoodLine(line: string)
  {
    line != [] && line[0] != CR && forall k :: 0 <= k < |line| ==> GoodByte(line, k)
  }

  predicate GoodByte(line: string, k: nat)
    requires k < |line|
  {
    && line[k] != NUL
    && (line[k] == '\n' ==> k > 0 && line[k - 1] == CR)
    && (line[k] == CR ==> k + 2 < |line| && line[k + 1] == '\n' && IsBlank(line[k + 2]))
  }

  predicate GoodLines(lines: seq<string>)
  {
    && lines != [] && (forall i :: 0 <= i < |lines| ==> GoodLine(lines[i]))
    && (forall i :: 1 <= i < |lines| ==> !IsBlank(lines[i][0]))
  }

  /** The buffer when the ends of the first n lines have been found; the end of the last line is set first. */
  function ScanState(lines: seq<string>, n: nat): string
    requires n < |lines|
  {
    Body(lines[..n], NUL) + ScanRest(lines, n)
  }

  function ScanRest(lines: seq<string>, n: nat): string
    requires n < |lines|
    decreases |lines| - n
  {
    if n == |lines| - 1 then lines[n] + [NUL, '\n'] + CRLF else lines[n] + [CR, '\n'] + ScanRest(lines, n + 1)
  }

  /** The place of line n in that buffer. */
  lemma ScanLine(lines: seq<string>, n: nat, p: nat)
    requires n < |lines| && p == Offset(lines, n)
    ensures Starts(ScanState(lines, n), p, lines[n], if n == |lines| - 1 then NUL else CR)
    ensures n + 1 < |lines| ==> ScanState(lines, n)[p + |lines[n]| := NUL] == ScanState(lines, n + 1)
  {
    var a := Body(lines[..n], NUL);
    BodyLength(lines, n, NUL);
    if n + 1 < |lines| {
      assert lines[..n + 1] == lines[..n] + [lines[n]];
      BodyAppend(lines[..n], [lines[n]], NUL);
      BodyOne(lines[n], NUL);
      hide Body, Offset;
      RestLength(lines, n + 1);
      SetEnd(a, lines[n], ScanRest(lines, n + 1), CR, NUL);
      Place(a, lines[n], CR, ScanRest(lines, n + 1));
    } else {
      hide Body, Offset;
      Place(a, lines[n], NUL, CRLF);
    }
  }

  lemma RestLength(lines: seq<string>, n: nat)
    requires n < |lines|
    ensures |ScanRest(lines, n)| >= 2
  {
  }

  lemma Place(a: string, line: string, c: char, b: string)
    requires |b| >= 2
    ensures Starts(a + (line + [c, '\n'] + b), |a|, line, c)
  {
  }

  /** Once all ends are found the buffer is the unpacked text. */
  lemma ScanDone(lines: seq<string>)
    requires lines != []
    ensures ScanState(lines, |lines| - 1) == Whole(lines, NUL)
  {
    var n := |lines| - 1;
    BodyAt(lines, n, NUL);
    assert Body(lines[n + 1..], NUL) == [];
    hide Body, Offset;
    Move(Body(lines[..n], NUL), lines[n] + [NUL, '\n'], CRLF);
    assert lines[n] + [NUL, '\n'] + [] == lines[n] + [NUL, '\n'];
  }

  lemma {:induction false} RestIs(lines: seq<string>, n: nat)
    requires n < |lines|
    ensures ScanRest(lines, n) == Body(lines[n..|lines| - 1], CR) + (lines[|lines| - 1] + [NUL, '\n'] + CRLF)
    decreases |lines| - n
  {
    var last := |lines| - 1;
    if n == last {
      assert lines[n..last] == [];
    } else {
      RestIs(lines, n + 1);
      assert lines[n..last][1..] == lines[n + 1..last];
      Move(lines[n] + [CR, '\n'], Body(lines[n + 1..last], CR), lines[last] + [NUL, '\n'] + CRLF);
    }
  }

  /** The loop over ebuf finds the end of the last line, and its NUL is the first end set. */
  lemma ScanFirst(lines: seq<string>, e: nat)
    requires GoodLines(lines) && e == Offset(lines, |lines| - 1) + |lines[|lines| - 1]|
    ensures e + 4 == |Whole(lines, CR)| && Back(Whole(lines, CR), e + 2) == e
    ensures Whole(lines, CR)[e := NUL] == ScanState(lines, 0)
  {
    var last := |lines| - 1;
    LineAt(lines, last, CR);
    BodyAt(lines, last, CR);
    assert Body(lines[last + 1..], CR) == [];
    assert lines[0..last] == lines[..last] && Body(lines[..0], NUL) == [];
    RestIs(lines, 0);
    var a, line, b := Body(lines[..last], CR), lines[last], Whole(lines, CR);
    hide Body, ScanRest, Offset;
    Move(a, line + [CR, '\n'], CRLF);
    assert line + [CR, '\n'] + [] == line + [CR, '\n'];
    SetEnd(a, line, CRLF, CR, NUL);
    Move(a, line + [NUL, '\n'], CRLF);
    assert b == a + (line + [CR, '\n'] + CRLF);
    BackAt(a, line, b, e);
  }

  lemma BackAt(a: string, line: string, b: string, e: nat)
    requires b == a + (line + [CR, '\n'] + CRLF) && GoodLine(line) && e == |a| + |line|
    ensures Back(b, e + 2) == e
  {
    var k := |line| - 1;
    assert GoodByte(line, k) && (k > 0 ==> GoodByte(line, k - 1));
    assert b[e - 1] == line[k] && b[e] == CR && b[e + 1] == '\n';
    assert Back(b, e) == e;
    assert Back(b, e + 1) == Back(b, e);
  }

  /** Inside a good line no line ends. */
  lemma InLine(buf: string, p: nat, line: string, c: char, s: nat, e: nat)
    requires Starts(buf, p, line, c) && GoodLine(line) && p <= s < p + |line| <= e
    ensures s + 2 < |buf| && !LineEnds(buf, s, e) && buf[s] != NUL
  {
    assert forall k :: p <= k < p + |line| ==> buf[k] == line[k - p];
    var k := s - p;
    assert GoodByte(line, k) && (k > 0 ==> GoodByte(line, k - 1));
  }

  predicate Unpacks(x: Indexing, lines: seq<string>) { Layout(x.buf, x.heads, lines, NUL) }

  /** From any place in line n the loop finds all the line starts that are left, and sets all the ends. */
  lemma {:induction false} ScanGood(lines: seq<string>, n: nat, s: nat, e: nat, heads: seq<nat>)
    requires GoodLines(lines) && n < |lines| && e == Offset(lines, |lines| - 1) + |lines[|lines| - 1]|
    requires Offset(lines, n) <= s <= Offset(lines, n) + |lines[n]|
    requires |heads| == n + 1 && forall i :: 0 <= i <= n ==> heads[i] == Offset(lines, i)
    ensures e + 2 <= |ScanState(lines, n)|
    ensures Unpacks(Scan(ScanState(lines, n), s, e, heads), lines)
    decreases |lines| - n, e - s
  {
    ScanLength(lines, n);
    EndBelow(lines, n);
    hide ScanState, Whole, LineEnds, NextLine;
    if s < Offset(lines, n) + |lines[n]| {
      InsideLine(lines, n, s, e);
      hide GoodLines, Unpacks;
      ScanGood(lines, n, s + 1, e, heads);
    } else if n == |lines| - 1 {
      ScanDone(lines);
    } else {
      NextStarts(lines, n, Offset(lines, n), e);
      assert GoodLine(lines[n + 1]);
      hide GoodLines, Unpacks;
      ScanGood(lines, n + 1, s + 3, e, heads + [s + 2]);
    }
  }

  lemma InsideLine(lines: seq<string>, n: nat, s: nat, e: nat)
    requires GoodLines(lines) && n < |lines| && Offset(lines, n) <= s < Offset(lines, n) + |lines[n]| <= e
    ensures s + 2 < |ScanState(lines, n)| && !LineEnds(ScanState(lines, n), s, e) && ScanState(lines, n)[s] != NUL
  {
    ScanLine(lines, n, Offset(lines, n));
    hide ScanState, Offset;
    InLine(ScanState(lines, n), Offset(lines, n), lines[n], if n == |lines| - 1 then NUL else CR, s, e);
  }

  lemma EndBelow(lines: seq<string>, n: nat)
    requires n < |lines|
    ensures n < |lines| - 1 ==> Offset(lines, n) + |lines[n]| + 2 <= Offset(lines, |lines| - 1)
  {
    if n < |lines| - 1 {
      OffsetOrder(lines, n, |lines| - 1);
    }
  }

  lemma {:induction false} ScanLength(lines: seq<string>, n: nat)
    requires n < |lines|
    ensures |ScanState(lines, n)| == Offset(lines, |lines| - 1) + |lines[|lines| - 1]| + 4
    decreases |lines| - n
  {
    BodyLength(lines, n, NUL);
    if n < |lines| - 1 {
      ScanLine(lines, n, Offset(lines, n));
      ScanLength(lines, n + 1);
    }
  }

  /** The end of line n is seen, and the line behind it starts two bytes on. */
  lemma NextStarts(lines: seq<string>, n: nat, p: nat, e: nat)
    requires GoodLines(lines) && n + 1 < |lines| && p == Offset(lines, n)
    ensures p + |lines[n]| + 3 < |ScanState(lines, n)| && LineEnds(ScanState(lines, n), p + |lines[n]|, e)
    ensures NextLine(ScanState(lines, n), p + |lines[n]|) == p + |lines[n]| + 2
    ensures ScanState(lines, n)[p + |lines[n]| := NUL] == ScanState(lines, n + 1)
  {
    ScanLine(lines, n, p);
    ScanLine(lines, n + 1, p + |lines[n]| + 2);
    var next := lines[n + 1];
    assert GoodLine(next) && !IsBlank(next[0]);
    hide ScanState, Offset, LineEnds, NextLine, Starts, GoodLines;
    NextAt(ScanState(lines, n), ScanState(lines, n + 1), p, lines[n], next, if n + 1 == |lines| - 1 then NUL else CR, e);
  }

  lemma NextAt(buf: string, then': string, p: nat, line: string, next: string, c: char, e: nat)
    requires Starts(buf, p, line, CR) && then' == buf[p + |line| := NUL] && Starts(then', p + |line| + 2, next, c)
    requires next != [] && !IsBlank(next[0])
    ensures p + |line| + 3 < |buf| && LineEnds(buf, p + |line|, e) && NextLine(buf, p + |line|) == p + |line| + 2
  {
    var s := p + |line|;
    assert then'[s + 2..s + 2 + |next|][0] == next[0];
    assert buf[s + 2] == next[0];
  }
}
