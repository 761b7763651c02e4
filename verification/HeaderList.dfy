/** ci_headers_list_t: a buffer of lines and an index into it, edited in place. */
module HeaderList {
  import opened Text
  import opened HeaderText
  import opened HeaderPacking

  const NULL: int := -1
  const START_SIZE: nat := 64         // HEADERSTARTSIZE
  const BUFFER_STEP: nat := 4096      // HEADSBUFSIZE
  const INDEX_LIMIT: nat := 2048

  /** The first of size, size + step, ... that is at least need. */
  function Grown(size: nat, step: nat, need: nat): (r: nat)
    requires step > 0
    ensures r >= need && r >= size && (r > size ==> r < need + step)
    decreases need - size
  {
    if need <= size then size else Grown(size + step, step, need)
  }

  // ------------------------------------------------------------------ what the operations do to the text

  /** A line is appended in front of the empty line. */
  lemma Added(buf: string, heads: seq<nat>, lines: seq<string>, line: string)
    requires Layout(buf, heads, lines, NUL)
    ensures lines != [] ==> |buf| >= 4
    ensures Layout((if lines == [] then [] else buf[..|buf| - 2]) + line + [NUL, '\n', CR, '\n'],
                   heads + [Offset(lines, |lines|)], lines + [line], NUL)
    ensures |if lines == [] then [] else buf[..|buf| - 2]| == Offset(lines, |lines|)
  {
    var front := if lines == [] then [] else buf[..|buf| - 2];
    Joined(buf, heads, lines, [line]);
    assert Offset([line], 0) == 0;
    BodyOne(line, NUL);
    assert front + (line + [NUL, '\n'] + CRLF) == front + line + [NUL, '\n', CR, '\n'];
    OffsetAppend(lines, [line], 0);
    assert [line] != [];
    forall i | 0 <= i < |lines| + 1
      ensures (heads + [Offset(lines, |lines|)])[i] == Offset(lines + [line], i)
    {
      if i < |lines| {
        OffsetPrefix(lines, [line], i);
      }
    }
  }

  /** The text of two lists, the empty line of the first dropped. */
  lemma Joined(buf: string, heads: seq<nat>, lines: seq<string>, more: seq<string>)
    requires Layout(buf, heads, lines, NUL) && more != []
    ensures lines != [] ==> |buf| >= 4
    ensures (if lines == [] then [] else buf[..|buf| - 2]) + Whole(more, NUL) == Whole(lines + more, NUL)
    ensures |if lines == [] then [] else buf[..|buf| - 2]| == Offset(lines, |lines|)
  {
    BodyAppend(lines, more, NUL);
    if lines == [] {
      assert lines + more == more;
    } else {
      WholeEnds(lines, NUL);
      LineAt(lines, 0, NUL);
      Move(Body(lines, NUL), Body(more, NUL), CRLF);
    }
  }

  /** The index of two lists. */
  lemma JoinedIndex(heads: seq<nat>, lines: seq<string>, more: seq<string>, i: nat)
    requires |heads| == |lines| && (forall j :: 0 <= j < |lines| ==> heads[j] == Offset(lines, j)) && i < |lines| + |more|
    ensures Offset(lines + more, i) == if i < |lines| then heads[i] else Offset(lines, |lines|) + Offset(more, i - |lines|)
  {
    if i < |lines| {
      OffsetPrefix(lines, more, i);
    } else {
      OffsetAppend(lines, more, i - |lines|);
    }
  }

  function Without<T>(s: seq<T>, i: nat): (r: seq<T>)
    requires i < |s|
    ensures |r| == |s| - 1
  {
    s[..i] + s[i + 1..]
  }

  /** Taking out line i moves the rest of the text forward, and the later lines with it. */
  lemma Removed(lines: seq<string>, i: nat)
    requires i < |lines|
    ensures Offset(lines, i) + |lines[i]| + 2 <= |Whole(lines, NUL)|
    ensures i + 1 < |lines| ==>
              Whole(Without(lines, i), NUL) == Whole(lines, NUL)[..Offset(lines, i)] + Whole(lines, NUL)[Offset(lines, i + 1)..]
    ensures 0 < i == |lines| - 1 ==> Whole(Without(lines, i), NUL) == Whole(lines, NUL)[..Offset(lines, i)] + CRLF
    ensures i == 0 == |lines| - 1 ==> Without(lines, i) == []
  {
    var a, b := lines[..i], lines[i + 1..];
    LineAt(lines, i, NUL);
    BodyAt(lines, i, NUL);
    BodyAppend(a, b, NUL);
    Cut(Body(a, NUL), lines[i] + [NUL, '\n'], Body(b, NUL), CRLF);
    assert Body([], NUL) == [];
    hide Body;
    assert Offset(lines, i + 1) == Offset(lines, i) + |lines[i] + [NUL, '\n']|;
    if i + 1 == |lines| {
      assert b == [] && a + b == a;
    }
  }

  lemma Cut(a: string, x: string, b: string, e: string)
    ensures (a + (x + b) + e)[..|a|] == a && (a + (x + b) + e)[|a| + |x|..] == b + e
  {
  }

  lemma {:induction false} RemovedIndex(lines: seq<string>, i: nat, j: nat)
    requires i < |lines| && j < |lines|
    ensures Offset(Without(lines, i), j) == if j <= i then Offset(lines, j) else Offset(lines, j + 1) - |lines[i]| - 2
  {
    var w := Without(lines, i);
    if j > 0 {
      RemovedIndex(lines, i, j - 1);
      assert w[j - 1] == if j - 1 < i then lines[j - 1] else lines[j];
    }
  }

  /** The index without entry k: the entries behind it come forward, gap bytes lower. */
  function Moved(heads: seq<nat>, k: nat, gap: nat): (r: seq<nat>)
    requires k < |heads| && forall j :: k < j < |heads| ==> heads[j] >= gap
    ensures |r| == |heads| - 1
  {
    heads[..k] + seq(|heads| - 1 - k, j requires 0 <= j < |heads| - 1 - k => heads[k + 1 + j] - gap)
  }

  /** The rebuilt index leads to the lines that stay. */
  lemma MovedIndex(heads: seq<nat>, lines: seq<string>, k: nat)
    requires k < |heads| == |lines| && Indexed(heads, lines)
    ensures forall j :: k < j < |heads| ==> heads[j] >= |lines[k]| + 2
    ensures Indexed(Moved(heads, k, |lines[k]| + 2), Without(lines, k))
    ensures heads[k] == Offset(lines, k) && (k + 1 < |heads| ==> heads[k + 1] == Offset(lines, k + 1) == heads[k] + (|lines[k]| + 2))
    ensures k + 1 == |heads| ==> Moved(heads, k, |lines[k]| + 2) == heads[..k]
  {
    forall j | k < j < |heads| ensures heads[j] >= |lines[k]| + 2 {
      OffsetOrder(lines, k, j);
    }
    forall j | 0 <= j < |lines| - 1
      ensures Offset(Without(lines, k), j) == Moved(heads, k, |lines[k]| + 2)[j]
    {
      RemovedIndex(lines, k, j);
    }
  }

  lemma RemovedFits(lines: seq<string>, k: nat)
    requires k < |lines|
    ensures Offset(lines, k) + 2 <= |Whole(lines, NUL)|
    ensures k + 1 < |lines| ==> Offset(lines, k) <= Offset(lines, k + 1) <= |Whole(lines, NUL)|
  {
    LineAt(lines, k, NUL);
  }

  /** What ci_headers_remove leaves in the buffer is the text of the lines that stay, but for the empty line of
      a list with no line left, which headers_terminate drops. */
  lemma AfterRemoval(buf: string, lines: seq<string>, k: nat, t: string)
    requires k < |lines| && buf == Whole(lines, NUL) && Offset(lines, k) <= |buf|
    requires k + 1 < |lines| ==> Offset(lines, k + 1) <= |buf|
    requires t == buf[..Offset(lines, k)] + if k + 1 == |lines| then CRLF else buf[Offset(lines, k + 1)..]
    ensures |lines| > 1 ==> Ended(t)
    ensures Terminated(t, |lines| - 1, NUL) == Whole(Without(lines, k), NUL)
  {
    Removed(lines, k);
    var w := Without(lines, k);
    if |lines| > 1 {
      WholeEnds(w, NUL);
      hide Whole, Offset;
      assert t == Whole(w, NUL);
    }
  }

  /** A line that headers_terminate does not eat into. */
  predicate Firm(line: string) { line != [] && !IsEnd(line[|line| - 1]) }

  /** Terminating works and gives text t. */
  predicate TerminatesAs(s: string, t: string)
  {
    Strip(s) != [] && Terminated(s, 1, NUL) == t
  }

  /** Dropping the empty line and terminating again gives the same text exactly when the last line is firm. */
  lemma Reterminated(lines: seq<string>)
    requires lines != []
    ensures TerminatesAs(Body(lines, NUL), Whole(lines, NUL)) <==> Firm(lines[|lines| - 1])
  {
    var n := |lines| - 1;
    BodyAt(lines, n, NUL);
    var a := Body(lines[..n], NUL);
    assert Body(lines[n + 1..], NUL) == [];
    BodyEnds(lines[..n], NUL);
    hide TerminatesAs, Body, Firm, Offset;
    StripEnds(a, lines[n]);
    Move(a, lines[n], [NUL, '\n']);
    assert lines[n] + [NUL, '\n'] + [] == lines[n] + [NUL, '\n'];
  }

  lemma StripEnds(a: string, last: string)
    requires a == [] || IsEnd(a[|a| - 1])
    ensures TerminatesAs(a + last + [NUL, '\n'], a + last + [NUL, '\n'] + CRLF) <==> Firm(last)
  {
    var s := a + last + [NUL, '\n'];
    assert s[|s| - 2] == NUL;
    assert !Ended(s);
    var t := Strip(s);
    if Firm(last) {
      assert s[|a| + |last| - 1] == last[|last| - 1];
      assert t == a + last;
      assert t + [NUL, '\n', CR, '\n'] == s + CRLF;
    } else if |a| + |last| > 0 {
      assert s[|a| + |last| - 1] == if last == [] then a[|a| - 1] else last[|last| - 1];
      assert |t| != |a| + |last|;
    }
  }

  /** The index of the added lines: their old positions, moved by the text in front of them. */
  function Extended(heads: seq<nat>, more: seq<nat>, shift: nat): seq<nat>
  {
    heads + seq(|more|, i requires 0 <= i < |more| => shift + more[i])
  }

  /** The text without its empty line. */
  function Front(buf: string, used: nat): string
    requires used > 0 ==> |buf| >= 2
  {
    if used > 0 then buf[..|buf| - 2] else buf
  }

  predicate CanTerminate(t: string, used: nat) { used == 0 || Ended(t) || Strip(t) != [] }

  lemma HasFront(buf: string, heads: seq<nat>, lines: seq<string>, c: char)
    requires Layout(buf, heads, lines, c)
    ensures |heads| > 0 ==> |buf| >= 4
    ensures Front(buf, |heads|) == Body(lines, c) && |Body(lines, c)| == Offset(lines, |lines|)
  {
    assert lines[..|lines|] == lines;
    BodyLength(lines, |lines|, c);
    if lines != [] {
      WholeEnds(lines, c);
    }
  }

  /** What ci_headers_addheaders leaves in the buffer terminates as the text of both lists, unless there is
      nothing to add behind a last line that is not firm. */
  lemma JoinedText(buf: string, heads: seq<nat>, lines: seq<string>, buf2: string, heads2: seq<nat>, more: seq<string>,
                   t: string, h: seq<nat>)
    requires Layout(buf, heads, lines, NUL) && Layout(buf2, heads2, more, NUL)
    requires (|heads| > 0 ==> |buf| >= 2) && t == Front(buf, |heads|) + buf2 && h == Extended(heads, heads2, |Front(buf, |heads|)|)
    ensures CanTerminate(t, |h|) && Layout(Terminated(t, |h|, NUL), h, lines + more, NUL) <==>
            more != [] || lines == [] || Firm(lines[|lines| - 1])
  {
    HasFront(buf, heads, lines, NUL);
    JoinedHeads(heads, lines, heads2, more, h);
    assert lines == [] ==> |heads| == 0;
    if more != [] {
      JoinedSome(lines, more, t);
      hide Body, Offset, Whole, Firm, Ended;
    } else if lines != [] {
      assert lines + more == lines && t == Body(lines, NUL);
      NotEnded(lines);
      Reterminated(lines);
      hide Body, Offset, Whole, Firm, Ended;
    } else {
      assert t == [];
    }
  }

  lemma JoinedHeads(heads: seq<nat>, lines: seq<string>, heads2: seq<nat>, more: seq<string>, h: seq<nat>)
    requires |heads| == |lines| && (forall j :: 0 <= j < |lines| ==> heads[j] == Offset(lines, j))
    requires |heads2| == |more| && (forall j :: 0 <= j < |more| ==> heads2[j] == Offset(more, j))
    requires h == Extended(heads, heads2, Offset(lines, |lines|))
    ensures |h| == |lines + more| && forall i :: 0 <= i < |h| ==> h[i] == Offset(lines + more, i)
  {
    hide Offset;
    forall i | 0 <= i < |h| ensures h[i] == Offset(lines + more, i) {
      JoinedIndex(heads, lines, more, i);
    }
  }

  lemma JoinedSome(lines: seq<string>, more: seq<string>, t: string)
    requires more != [] && t == Body(lines, NUL) + Whole(more, NUL)
    ensures Ended(t) && t == Whole(lines + more, NUL)
  {
    Move(Body(lines, NUL), Body(more, NUL), CRLF);
    BodyAppend(lines, more, NUL);
    WholeEnds(lines + more, NUL);
  }

  lemma NotEnded(lines: seq<string>)
    requires lines != []
    ensures !Ended(Body(lines, NUL))
  {
    WholeEnds(lines, NUL);
    var s := Whole(lines, NUL);
    assert s[..|s| - 2][|s| - 4] == NUL;
  }

  // ------------------------------------------------------------------ the list

  /** headers_check_space finds or makes room for n more headers of space bytes together. */
  predicate HasSpace(size: nat, used: nat, n: nat, bufsize: nat, bufused: nat, space: nat, okIndex: bool, okBuffer: bool)
  {
    && (used + n <= size || (Grown(size, START_SIZE, used + n) <= INDEX_LIMIT && okIndex))
    && (bufused + space + 4 <= bufsize || okBuffer)
  }

  lemma {:induction false} GrownInSteps(size: nat, need: nat)
    ensures Grown(size, START_SIZE, need) % START_SIZE == size % START_SIZE
    decreases need - size
  {
    if need > size {
      GrownInSteps(size + START_SIZE, need);
    }
  }

  /** With memory, a list whose index has grown in its steps has room exactly up to 2048 headers. */
  lemma RoomFor2048(size: nat, used: nat, n: nat, bufsize: nat, bufused: nat, space: nat)
    requires size % START_SIZE == 0 && size <= 2048
    ensures HasSpace(size, used, n, bufsize, bufused, space, true, true) <==> used + n <= 2048
  {
    GrownInSteps(size, used + n);
    hide Grown;
    if used + n > size && Grown(size, START_SIZE, used + n) < used + n + START_SIZE {
      Multiple(Grown(size, START_SIZE, used + n), used + n);
    }
  }

  lemma Multiple(r: nat, need: nat)
    requires r % START_SIZE == 0 && need <= r < need + START_SIZE
    ensures r <= 2048 <==> need <= 2048
  {
  }

  /** EC_100, EC_400, EC_500, or an assert that fails. */
  datatype Answer = Unpacked | BadRequest | ServerError | Abort

  datatype Outcome = Joining | Refused | Aborted

  class Headers {
    var buf: string             // the used part of buf: |buf| is bufused
    var heads: seq<nat>         // headers[..used], as positions in buf
    var size: nat
    var bufsize: nat
    var packed: bool

    ghost var lines: seq<string>

    constructor (size: nat, bufsize: nat)
      ensures Valid() && lines == [] && !packed && this.size == size && this.bufsize == bufsize
    {
      buf, heads, packed, lines := [], [], false, [];
      this.size, this.bufsize := size, bufsize;
    }

    function End(): char
      reads `packed
    {
      if packed then CR else NUL
    }

    ghost predicate Valid()
      reads this
    {
      Layout(buf, heads, lines, End()) && |buf| <= bufsize && |heads| <= size && (packed ==> lines != [])
    }

    /** headers_check_space. okIndex and okBuffer: realloc succeeds. */
    method CheckSpace(n: nat, space: nat, okIndex: bool, okBuffer: bool) returns (ok: bool)
      requires |buf| <= bufsize && |heads| <= size
      modifies `size, `bufsize
      ensures |buf| <= bufsize && |heads| <= size
      ensures ok <==> HasSpace(old(size), |heads|, n, old(bufsize), |buf|, space, okIndex, okBuffer)
      ensures ok ==> |heads| + n <= size && |buf| + space + 4 <= bufsize
    {
      var index := size;
      while n > index - |heads|
        invariant index >= size && Grown(index, START_SIZE, |heads| + n) == Grown(size, START_SIZE, |heads| + n)
        invariant index > size ==> |heads| + n > size && index <= INDEX_LIMIT
      {
        index := index + START_SIZE;
        if index > INDEX_LIMIT {
          return false;
        }
      }
      if index > size {
        if !okIndex {
          return false;
        }
        size := index;
      }
      var mem := bufsize;
      while mem - |buf| < space + 4
        invariant mem >= bufsize && (mem > bufsize ==> |buf| + space + 4 > bufsize)
      {
        mem := mem + BUFFER_STEP;
      }
      if mem > bufsize {
        if !okBuffer {
          return false;
        }
        bufsize := mem;
      }
      ok := true;
    }

    /** How many bytes at the end are end bytes. */
    method CountEnds() returns (i: nat)
      ensures i <= |buf| && Strip(buf) == buf[..|buf| - i]
    {
      i := 0;
      assert buf[..|buf|] == buf;
      while i < |buf| && IsEnd(buf[|buf| - i - 1])
        invariant i <= |buf| && Strip(buf[..|buf| - i]) == Strip(buf)
      {
        assert buf[..|buf| - i][..|buf| - i - 1] == buf[..|buf| - i - 1];
        i := i + 1;
      }
    }

    /** headers_terminate. A list of nothing but end bytes makes the code look in front of its buffer, which
        counts as a failure here. */
    method Terminate() returns (ok: bool)
      requires |buf| <= bufsize
      modifies `buf
      ensures ok ==> buf == Terminated(old(buf), |heads|, End()) && |buf| <= bufsize
      ensures ok <==> |heads| == 0 || Ended(old(buf)) || (Strip(old(buf)) != [] && |Strip(old(buf))| + 4 <= bufsize)
    {
      if |heads| == 0 {
        buf := [];
        return true;
      }
      if Ended(buf) {
        return true;
      }
      hide Strip, Ended;
      var i := CountEnds();
      if i == |buf| || |buf| - i + 4 > bufsize {
        return false;
      }
      buf := buf[..|buf| - i] + [End(), '\n', CR, '\n'];
      ok := true;
    }

    /** On a good list headers_terminate does nothing. */
    lemma IsTerminated()
      requires Valid()
      ensures |heads| == 0 || (Ended(buf) && buf[|buf| - 4] == End())
      ensures Terminated(buf, |heads|, End()) == buf
    {
      if lines != [] {
        WholeEnds(lines, End());
      }
    }

    /** ci_headers_add: the position of the new line. */
    method Add(line: string, okIndex: bool, okBuffer: bool) returns (r: int)
      requires Valid()
      modifies `buf, `heads, `size, `bufsize, `lines
      ensures Valid()
      ensures r == NULL <==> packed || !HasSpace(old(size), |old(heads)|, 1, old(bufsize), |old(buf)|, |line| + 2, okIndex, okBuffer)
      ensures r == NULL ==> lines == old(lines)
      ensures r != NULL ==> lines == old(lines) + [line] && r == heads[|heads| - 1]
    {
      if packed {
        return NULL;
      }
      var ok := CheckSpace(1, |line| + 2, okIndex, okBuffer);
      if !ok {
        return NULL;
      }
      IsTerminated();
      Added(buf, heads, lines, line);
      hide Layout, Ended;
      ok := Terminate();
      var front := if |heads| > 0 then buf[..|buf| - 2] else buf;
      r := |front|;
      buf := front + line + [NUL, '\n', CR, '\n'];
      heads, lines := heads + [r], lines + [line];
    }

    /** ci_headers_addheaders: the lines of src behind the lines of this. An empty src makes the code drop
        the empty line and then put it back, which goes wrong exactly when the last line is not firm. */
    method AddHeaders(src: Headers, okIndex: bool, okBuffer: bool) returns (r: Outcome)
      requires Valid() && src.Valid() && src != this
      modifies `buf, `heads, `size, `bufsize, `lines
      ensures r == Refused <==>
              packed || src.packed ||
              !HasSpace(old(size), |old(heads)|, |src.heads|, old(bufsize), |old(buf)|, |src.buf|, okIndex, okBuffer)
      ensures r == Refused ==> Valid() && lines == old(lines)
      ensures r != Refused ==> lines == old(lines) + src.lines
      ensures r != Refused ==>
                (r == Joining && Valid() <==> src.lines != [] || old(lines) == [] || Firm(old(lines)[|old(lines)| - 1]))
    {
      if packed || src.packed {
        return Refused;
      }
      var ok := CheckSpace(|src.heads|, |src.buf|, okIndex, okBuffer);
      if !ok {
        return Refused;
      }
      IsTerminated();
      hide Ended;
      ok := Terminate();
      HasFront(buf, heads, lines, NUL);
      hide Layout, Firm, Terminated;
      var front := Front(buf, |heads|);
      var index := Extended(heads, src.heads, |front|);
      JoinedText(buf, heads, lines, src.buf, src.heads, src.lines, front + src.buf, index);
      buf, heads, lines := front + src.buf, index, lines + src.lines;
      ok := Terminate();
      r := if ok then Joining else Aborted;
    }

    /** The loop of do_header_search and ci_headers_remove: the number of the first line with the name. past is
        the byte behind the used part of the buffer. */
    method Find(name: string, past: char) returns (k: int)
      requires Valid() && End() !in name
      ensures k == FirstNamed(lines, name)
    {
      var i := 0;
      ValidLine(0);
      hide Layout, Test, Named;
      while i < |heads|
        invariant i <= |heads| == |lines| && forall j :: 0 <= j < i ==> !Named(lines[j], name)
      {
        ValidLine(i);
        TestIsName(buf, heads[i], lines[i], End(), name, past);
        if |buf| < heads[i] + |name| {
          NoneLater(name, i);
          return -1;
        }
        if Test(buf, heads[i], name, past) {
          return i;
        }
        i := i + 1;
      }
      return -1;
    }

    lemma ValidLine(i: nat)
      requires Valid()
      ensures |heads| == |lines|
      ensures i < |heads| ==> heads[i] == Offset(lines, i) && Starts(buf, heads[i], lines[i], End())
    {
      if i < |heads| {
        LineAt(lines, i, End());
      }
    }

    /** A name that does not fit behind the start of line i is not the name of line i or a later one. */
    lemma NoneLater(name: string, i: nat)
      requires Valid() && i < |heads| && |buf| < heads[i] + |name|
      ensures |heads| == |lines| && forall j :: i <= j < |lines| ==> !Named(lines[j], name)
    {
      forall j | i <= j < |lines| ensures !Named(lines[j], name) {
        ValidLine(j);
        if i < j {
          OffsetOrder(lines, i, j);
        }
      }
    }

    /** ci_headers_search: the position of the first line with the name; the empty name finds nothing. */
    method Search(name: string, past: char) returns (r: int)
      requires Valid() && End() !in name
      ensures |heads| == |lines|
      ensures r == if name == [] || FirstNamed(lines, name) < 0 then NULL else heads[FirstNamed(lines, name)]
    {
      if name == [] {
        return NULL;
      }
      var k := Find(name, past);
      r := if k < 0 then NULL else heads[k];
    }

    /** ci_headers_remove: takes out the first line with the name and keeps the others in order. */
    method Remove(name: string, past: char, okBuffer: bool) returns (removed: bool)
      requires Valid() && NUL !in name
      modifies `buf, `heads, `size, `bufsize, `lines
      ensures Valid()
      ensures removed <==> !packed && FirstNamed(old(lines), name) >= 0
      ensures lines == if removed then Without(old(lines), FirstNamed(old(lines), name)) else old(lines)
    {
      if packed {
        return false;
      }
      var ok := CheckSpace(0, 0, true, okBuffer);
      var k := Find(name, past);
      if k < 0 {
        return false;
      }
      TakeOut(k);
      removed := true;
    }

    method MoveIndex(k: nat, gap: nat)
      requires k < |heads| && forall j :: k < j < |heads| ==> heads[j] >= gap
      modifies `heads
      ensures heads == Moved(old(heads), k, gap)
    {
      var n, j := |heads| - 1, k;
      while j < n
        invariant k <= j <= n && |heads| == n + 1
        invariant forall i :: 0 <= i < j ==> heads[i] == Moved(old(heads), k, gap)[i]
        invariant forall i :: j <= i <= n ==> heads[i] == old(heads)[i]
      {
        heads := heads[j := heads[j + 1] - gap];
        j := j + 1;
      }
      heads := heads[..n];
    }

    method TakeOut(k: nat)
      requires Valid() && !packed && k < |heads|
      modifies `buf, `heads, `lines
      ensures Valid() && lines == Without(old(lines), k)
    {
      MovedIndex(heads, lines, k);
      RemovedFits(lines, k);
      assert buf == Whole(lines, NUL);
      hide Whole, Offset, Ended, Terminated, Indexed, Moved, Without;
      var p := heads[k];
      if k == |heads| - 1 {
        buf := buf[..p] + CRLF;
        heads := heads[..k];
      } else {
        buf := buf[..p] + buf[heads[k + 1]..];
        MoveIndex(k, heads[k + 1] - p);
      }
      AfterRemoval(old(buf), lines, k, buf);
      lines := Without(lines, k);
      var ok := Terminate();
    }

    /** The loop that ci_headers_pack and ci_headers_pack_to_buffer share, on a copy of the text. */
    method PackText() returns (text: string)
      requires Valid() && !packed && lines != []
      ensures text == Whole(lines, CR)
    {
      PackEnds(lines);
      hide Whole, Body;
      text := buf;
      var i := 1;
      while i < |heads|
        invariant 1 <= i <= |heads| && text == PackState(lines, i - 1)
      {
        var p := heads[i];
        PackStep(lines, i - 1, p - 2);
        hide PackState;
        text := text[p - 1 := if text[p - 1] == NUL then '\n' else text[p - 1]];
        if p >= 2 && text[p - 2] == NUL {
          text := text[p - 2 := CR];
        }
        i := i + 1;
      }
      LastEnd(lines);
      text := text[|text| - 4 := CR];
    }

    /** ci_headers_pack: same length, same index, and every line now ends in CR LF. */
    method Pack()
      requires Valid()
      modifies this
      ensures Valid() && lines == old(lines) && heads == old(heads) && |buf| == |old(buf)|
      ensures packed <==> lines != []
    {
      if packed || |buf| == 0 || |heads| == 0 {
        NoText(lines, End());
        return;
      }
      var ok := CheckSpace(0, 0, true, true);
      var text := PackText();
      SameLength(lines);
      hide Whole, Indexed;
      buf, packed := text, true;
    }

    /** ci_headers_pack_to_buffer: the packed text, without touching the list. */
    method PackToBuffer(room: nat) returns (text: string)
      requires Valid()
      ensures text == if room < |buf| then [] else Whole(lines, CR)
    {
      NoText(lines, End());
      if |heads| == 0 || |buf| == 0 {
        return [];
      }
      IsTerminated();
      if !(Ended(buf) && buf[|buf| - 4] == End()) || room < |buf| {
        return [];
      }
      if packed {
        return buf;
      }
      text := PackText();
    }

    /** The loop of ci_headers_unpack that builds the index. Growing the index may fail. */
    method BuildIndex(e: nat, okIndex: bool) returns (ok: bool)
      requires e + 2 <= |buf| && size >= 1
      modifies `buf, `heads, `size
      ensures ok ==> Indexing(buf, heads) == Scan(old(buf), 0, e, [0]) && |heads| <= size
      ensures okIndex ==> ok
      ensures |buf| == |old(buf)|
    {
      heads := [0];
      var s := 0;
      while s < e
        invariant |buf| == |old(buf)| && |heads| <= size
        invariant Scan(buf, s, e, heads) == Scan(old(buf), 0, e, [0])
        decreases if s < e then e - s else 0
      {
        if LineEnds(buf, s, e) {
          var next := NextLine(buf, s);
          buf := buf[s := NUL];
          if size <= |heads| {
            if !okIndex {
              return false;
            }
            size := size + START_SIZE;
          }
          heads := heads + [next];
          s := next;
        } else if buf[s] == NUL {
          buf := buf[s := ' '];
        }
        s := s + 1;
      }
      ok := true;
    }

    /** ci_headers_unpack: the inverse of ci_headers_pack on good lines, for a packed list and for a text
        just received. */
    method Unpack(okIndex: bool, okBuffer: bool, ghost text: seq<string>) returns (r: Answer)
      requires |buf| <= bufsize && size >= 1 && |heads| <= size
      modifies this
      ensures !old(packed) && (old(buf) == [] || old(heads) != []) ==> r == Unpacked && unchanged(this)
      ensures r == BadRequest <==>
              (old(packed) || (old(buf) != [] && old(heads) == [])) &&
              (|old(buf)| < 2 || (old(buf)[|old(buf)| - 2] != CR && old(buf)[|old(buf)| - 2] != '\n'))
      ensures r == ServerError ==> !okIndex
      ensures (old(packed) || old(heads) == []) && GoodLines(text) && old(buf) == Whole(text, CR) && okIndex ==>
                r == Unpacked && Valid() && lines == text && !packed
    {
      if !packed && (buf == [] || heads != []) {
        return Unpacked;
      }
      if GoodLines(text) && buf == Whole(text, CR) {
        WholeEnds(text, CR);
      }
      if |buf| < 2 || (buf[|buf| - 2] != CR && buf[|buf| - 2] != '\n') {
        return BadRequest;
      }
      var e := FindEnd();
      if GoodLines(text) && buf == Whole(text, CR) {
        GoodText(text, buf, e);
      }
      hide GoodLines, Whole, Scan;
      r := UnpackText(e, okIndex, okBuffer, text);
    }

    /** The loop over ebuf. */
    method FindEnd() returns (e: nat)
      requires |buf| >= 2
      ensures e + 2 <= |buf| && e == Back(buf, |buf| - 2)
    {
      e := |buf| - 2;
      while e > 1 && (buf[e - 1] == CR || buf[e - 1] == '\n')
        invariant e + 2 <= |buf| && Back(buf, e) == Back(buf, |buf| - 2)
      {
        e := e - 1;
      }
    }

    method UnpackText(e: nat, okIndex: bool, okBuffer: bool, ghost text: seq<string>) returns (r: Answer)
      requires |buf| <= bufsize && size >= 1 && e + 2 <= |buf|
      modifies this
      ensures r != BadRequest && (r == ServerError ==> !okIndex)
      ensures Unpacks(Scan(old(buf)[e := NUL], 0, e, [0]), text) && okIndex ==>
                r == Unpacked && Valid() && lines == text && !packed
    {
      hide Scan, Layout, Ended, Terminated;
      buf := buf[e := NUL];
      var ok := BuildIndex(e, okIndex);
      if !ok {
        return ServerError;
      }
      packed, lines := false, text;
      if Unpacks(Indexing(buf, heads), text) {
        IsTerminated();
      }
      ok := CheckSpace(0, 0, true, okBuffer);
      ok := Terminate();
      r := if ok then Unpacked else Abort;
    }
  }

  lemma SameIndex(a: seq<nat>, b: seq<nat>, lines: seq<string>)
    requires |a| == |b| == |lines| && Indexed(a, lines) && Indexed(b, lines)
    ensures a == b
  {
    hide Offset;
  }

  /** Packing and unpacking good lines restores text and index. */
  method PackAndUnpack(h: Headers) returns (r: Answer)
    requires h.Valid() && !h.packed && GoodLines(h.lines)
    modifies h
    ensures r == Unpacked && h.Valid() && !h.packed && h.lines == old(h.lines)
    ensures h.buf == old(h.buf) && h.heads == old(h.heads)
  {
    assert h.lines != [];
    hide GoodLines, Whole, Indexed;
    h.Pack();
    r := h.Unpack(true, true, h.lines);
    SameIndex(h.heads, old(h.heads), h.lines);
  }

  /** Unpacking a received text of good lines and packing it again gives the same bytes. */
  method UnpackAndPack(h: Headers, ghost text: seq<string>) returns (r: Answer)
    requires h.heads == [] && h.size >= 1 && GoodLines(text) && h.buf == Whole(text, CR) && |h.buf| <= h.bufsize
    modifies h
    ensures r == Unpacked && h.Valid() && h.packed && h.lines == text && h.buf == old(h.buf)
  {
    assert text != [];
    hide GoodLines, Whole, Indexed;
    r := h.Unpack(true, true, text);
    h.Pack();
  }

  /** On the text of good lines the code does what Scan does from the start. */
  lemma GoodText(lines: seq<string>, buf: string, e: nat)
    requires GoodLines(lines) && buf == Whole(lines, CR) && |buf| >= 2 && e == Back(buf, |buf| - 2) && e + 2 <= |buf|
    ensures Unpacks(Scan(buf[e := NUL], 0, e, [0]), lines)
  {
    var end := Offset(lines, |lines| - 1) + |lines[|lines| - 1]|;
    ScanFirst(lines, end);
    assert e == end;
    assert Offset(lines, 0) == 0;
    hide Whole, Unpacks, Scan, ScanState, GoodLines, Back;
    ScanGood(lines, 0, 0, e, [0]);
  }

  lemma NoText(lines: seq<string>, c: char)
    ensures Whole(lines, c) == [] <==> lines == []
  {
  }

  lemma SameLength(lines: seq<string>)
    ensures |Whole(lines, CR)| == |Whole(lines, NUL)|
  {
    if lines != [] {
      LineAt(lines, 0, CR);
      LineAt(lines, 0, NUL);
    }
  }

  lemma LastEnd(lines: seq<string>)
    requires lines != []
    ensures |PackState(lines, |lines| - 1)| >= 4
    ensures PackState(lines, |lines| - 1)[|PackState(lines, |lines| - 1)| - 4 := CR] == PackState(lines, |lines|)
  {
    var n := |lines| - 1;
    var p := Offset(lines, n) + |lines[n]|;
    PackStep(lines, n, p);
    BodyLength(lines, n, CR);
    assert lines[n..] == [lines[n]];
    BodyOne(lines[n], NUL);
    assert |PackState(lines, n)| == p + 4;
  }
}
