/** Finding the end of an ICAP header in data that arrives in pieces: the server's reader searches again
    from three bytes before the new data, the client's holds the last three bytes back. */
module HeaderEnd {
  import opened Text

  const END: string := "\r\n\r\n"
  const READ_SIZE: nat := 512     // ICAP_HEADER_READSIZE

  /** No end of header starts before position n. */
  predicate Clean(s: string, n: int) { forall j: nat :: j < n ==> !MatchesAt(s, END, j) }

  /** The header ends at position k + 4. */
  predicate FirstEnd(s: string, k: nat) { MatchesAt(s, END, k) && Clean(s, k) }

  predicate NoEnd(s: string) { Clean(s, |s|) }

  /** What it is: the end of a line and an empty line. */
  lemma EndAt(s: string, j: nat)
    ensures MatchesAt(s, END, j) <==> j + 4 <= |s| && s[j] == '\r' && s[j + 1] == '\n' && s[j + 2] == '\r' && s[j + 3] == '\n'
  {
  }

  /** The data after the first n pieces. */
  function Arrived(pre: string, pieces: seq<string>, n: nat): string
    requires n <= |pieces|
  {
    if n == 0 then pre else Arrived(pre, pieces, n - 1) + pieces[n - 1]
  }

  lemma MatchStays(s: string, more: string, j: nat)
    requires j + 4 <= |s|
    ensures MatchesAt(s, END, j) <==> MatchesAt(s + more, END, j)
  {
    assert (s + more)[j..j + 4] == s[j..j + 4];
  }

  /** More data adds ends only where the last three bytes were. */
  lemma CleanStays(s: string, more: string, n: int)
    requires Clean(s, n) && n <= |s| - 3
    ensures Clean(s + more, n)
  {
    forall j: nat | j < n ensures !MatchesAt(s + more, END, j) {
      MatchStays(s, more, j);
    }
  }

  /** An end, once there, stays the first one. */
  lemma EndStays(s: string, more: string, k: nat)
    requires FirstEnd(s, k)
    ensures FirstEnd(s + more, k)
  {
    MatchStays(s, more, k);
    CleanStays(s, more, k);
  }

  lemma {:induction false} ArrivedMore(pre: string, pieces: seq<string>, m: nat, n: nat)
    requires m <= n <= |pieces|
    ensures Arrived(pre, pieces, m) <= Arrived(pre, pieces, n)
    decreases n
  {
    if m < n {
      ArrivedMore(pre, pieces, m, n - 1);
    }
  }

  // ------------------------------------------------------------------ the server

  datatype Status = EC_100 | EC_408 | EC_500

  /** One search: the first match at a position from lo on that lies within the data. */
  method FindEnd(read: string, lo: nat) returns (k: int)
    requires lo <= |read| && Clean(read, lo)
    ensures k >= 0 ==> FirstEnd(read, k)
    ensures k < 0 ==> NoEnd(read)
  {
    hide MatchesAt;
    var j := lo;
    while j < |read| - 3
      invariant lo <= j && Clean(read, j)
    {
      if MatchesAt(read, END, j) {
        return j;
      }
      j := j + 1;
    }
    TooShort(read, j);
    return -1;
  }

  lemma TooShort(read: string, j: nat)
    requires Clean(read, j) && j >= |read| - 3
    ensures NoEnd(read)
  {
  }

  /** icap_header_check_realloc: one step more room for the next read. */
  function Room(size: nat, used: nat): (r: nat)
    ensures used <= size ==> used + READ_SIZE <= r
  {
    if size < used + READ_SIZE then size + READ_SIZE else size
  }

  /** A search that starts three bytes before the new data misses nothing. */
  lemma Resume(read: string, piece: string, lo: nat)
    requires NoEnd(read) && lo == (if |read| > 3 then |read| - 3 else 0)
    ensures lo <= |read + piece| && Clean(read + piece, lo)
  {
    CleanStays(read, piece, |read| - 3);
  }

  /** ci_read_icap_header. pre is what the previous request left unread; each piece is what one read returns,
      and the buffer can grow up to memory bytes. The header ends at the first CRLF CRLF of the data however
      they are cut, and the bytes read behind it are kept. */
  method ReadHeader(pre: string, pieces: seq<string>, size: nat, memory: nat)
    returns (status: Status, head: string, rest: string, n: nat)
    requires |pre| <= size && READ_SIZE <= size && forall i :: 0 <= i < |pieces| ==> |pieces[i]| <= READ_SIZE
    ensures n <= |pieces|
    ensures status == EC_100 ==> |head| >= 4 && FirstEnd(Arrived(pre, pieces, n), |head| - 4)
    ensures status == EC_100 ==> head + rest == Arrived(pre, pieces, n) && (n == 0 || NoEnd(Arrived(pre, pieces, n - 1)))
    ensures status == EC_408 ==> n == |pieces| && NoEnd(Arrived(pre, pieces, n))
    ensures status == EC_500 ==> memory < size + READ_SIZE * (n + 2)
  {
    hide MatchesAt, FirstEnd, NoEnd, Clean;
    head, rest, n := [], [], 0;
    var bufsize := size;
    if pre != [] {
      bufsize := Room(size, |pre|);
      if bufsize > size && bufsize > memory {
        return EC_500, [], [], 0;
      }
    }
    var read, base, start, prefetch := pre, 0, 0, pre != [];
    NothingRead(read);
    while true
      invariant n <= |pieces| && |read| + READ_SIZE <= bufsize <= size + READ_SIZE * (n + 1)
      invariant read == Arrived(pre, pieces, n)
      invariant prefetch ==> n == 0 && base == 0 == start
      invariant !prefetch ==> NoEnd(read) && base == |read| && -start == if |read| > 3 then 3 else |read|
      decreases |pieces| - n, prefetch
    {
      if !prefetch {
        if n == |pieces| {
          return EC_408, [], [], n;
        }
        var piece := pieces[n];
        assert |read| + |piece| <= bufsize;
        Resume(read, piece, base + start);
        n := n + 1;
        if |piece| == 0 {
          assert read + piece == read;
          continue;
        }
        read := read + piece;
      } else {
        prefetch := false;
        NothingRead(read);
      }
      var k := FindEnd(read, base + start);
      if k >= 0 {
        EndWithin(read, k);
        return EC_100, read[..k + 4], read[k + 4..], n;
      }
      var grown := Room(bufsize, |read|);
      if grown > bufsize && grown > memory {
        return EC_500, [], [], n;
      }
      bufsize, base := grown, |read|;
      if start > -3 {
        start := if |read| > 3 then -3 else -|read|;
      }
    }
  }

  lemma NothingRead(read: string)
    ensures Clean(read, 0) && (read == [] ==> NoEnd(read))
  {
  }

  lemma EndWithin(s: string, k: nat)
    requires FirstEnd(s, k)
    ensures k + 4 <= |s|
  {
  }

  // ------------------------------------------------------------------ the client

  datatype Progress = OK | NEEDS_MORE | ERROR

  class ClientReader {
    var head: string        // h->buf, up to bufused
    var window: string      // pstrblock_read
    var size: nat           // h->bufsize

    constructor (window: string, size: nat)
      ensures Waiting() && head == [] && this.window == window && this.size == size
    {
      head, this.window, this.size := [], window, size;
    }

    /** No end of header starts in what has been moved to head. */
    ghost predicate Waiting()
      reads this
    {
      Clean(head + window, |head|) && |head| <= size && (head == [] || |window| >= 3)
    }

    /** net_data_read puts more data behind the window. */
    method Receive(piece: string)
      requires Waiting()
      modifies `window
      ensures Waiting() && window == old(window) + piece
    {
      if head != [] {
        CleanStays(head + window, piece, |head|);
      }
      assert head + (window + piece) == head + window + piece;
      window := window + piece;
    }

    /** client_parse_icap_header: OK keeps the header with its first CRLF, drops the second, and leaves the
        bytes behind it in the window. */
    method ParseHeader(memory: nat) returns (r: Progress)
      requires Waiting()
      modifies this
      ensures r == NEEDS_MORE ==> Waiting() && NoEnd(head + window) && head + window == old(head + window)
      ensures r == OK ==> |head| >= 2 && FirstEnd(old(head + window), |head| - 2)
      ensures r == OK ==> head + CRLF + window == old(head + window)
      ensures r == ERROR ==> memory < |old(head + window)| + 4096
    {
      hide MatchesAt, FirstEnd, NoEnd, Clean, IndexOf;
      if |window| < 4 {
        ShortWindow(head, window);
        return NEEDS_MORE;
      }
      var end := StrnStr(window, END, |window|);
      WindowEnd(head, window, end);
      var taken := if end >= 0 then end + 4 else |window| - 3;
      var grown := size;
      while grown - |head| < taken
        invariant grown >= size && (grown > size ==> grown < |head| + taken + 4096)
      {
        grown := grown + 4096;
      }
      if grown > size && grown > memory {
        return ERROR;
      }
      size := grown;
      Regroup(head, window, taken);
      head, window := head + window[..taken], window[taken..];
      if end < 0 {
        CleanBelow(head + window, |head|);
        return NEEDS_MORE;
      }
      DropSecond(old(head), old(window), end);
      head := head[..|head| - 2];
      r := OK;
    }
  }

  lemma Regroup(head: string, window: string, n: nat)
    requires n <= |window|
    ensures (head + window[..n]) + window[n..] == head + window
  {
    assert window[..n] + window[n..] == window;
  }

  lemma CleanBelow(s: string, n: nat)
    requires NoEnd(s) && n <= |s|
    ensures Clean(s, n)
  {
  }

  lemma ShortWindow(head: string, window: string)
    requires Clean(head + window, |head|) && |window| < 4
    ensures NoEnd(head + window)
  {
  }

  /** Searching the window is searching all the data. */
  lemma WindowEnd(head: string, window: string, end: int)
    requires Clean(head + window, |head|) && end == IndexOf(window, END, |window|, 0)
    ensures end >= 0 ==> FirstEnd(head + window, |head| + end) && end + 4 <= |window| && MatchesAt(window, END, end)
    ensures end < 0 ==> NoEnd(head + window)
  {
    hide MatchesAt;
    var s := head + window;
    forall j: nat | |head| <= j < (if end < 0 then |s| else |head| + end) ensures !MatchesAt(s, END, j) {
      MatchShift(head, window, j - |head|);
      if j + 4 <= |s| {
        assert !MatchesAt(window, END, j - |head|);
      }
    }
    if end >= 0 {
      MatchShift(head, window, end);
    }
  }

  lemma MatchShift(head: string, window: string, j: nat)
    ensures MatchesAt(head + window, END, |head| + j) <==> MatchesAt(window, END, j)
    ensures MatchesAt(window, END, j) ==> j + 4 <= |window|
  {
    if j + 4 <= |window| {
      assert (head + window)[|head| + j..|head| + j + 4] == window[j..j + 4];
    }
  }

  lemma DropSecond(head: string, window: string, end: nat)
    requires MatchesAt(window, END, end)
    ensures |head + window[..end + 4]| >= 2
    ensures (head + window[..end + 4])[..|head| + end + 2] + CRLF + window[end + 4..] == head + window
  {
    var a := window[end..end + 4];
    assert a[2] == window[end + 2] && a[3] == window[end + 3];
  }

  /** The client reads header data until the header is there. */
  method ReadByClient(pre: string, pieces: seq<string>, size: nat, memory: nat)
    returns (r: Progress, head: string, rest: string, n: nat)
    ensures n <= |pieces|
    ensures r == OK ==> |head| >= 2 && FirstEnd(Arrived(pre, pieces, n), |head| - 2)
    ensures r == OK ==> head + CRLF + rest == Arrived(pre, pieces, n) && (n == 0 || NoEnd(Arrived(pre, pieces, n - 1)))
    ensures r == NEEDS_MORE ==> n == |pieces| && NoEnd(Arrived(pre, pieces, n))
    ensures r == ERROR ==> memory < |Arrived(pre, pieces, n)| + 4096
  {
    hide MatchesAt, FirstEnd, NoEnd, Clean;
    var c := new ClientReader(pre, size);
    n := 0;
    assert c.head + c.window == pre;
    while true
      invariant fresh(c) && n <= |pieces| && c.Waiting() && c.head + c.window == Arrived(pre, pieces, n)
      invariant n == 0 || NoEnd(Arrived(pre, pieces, n - 1))
      decreases |pieces| - n
    {
      r := c.ParseHeader(memory);
      if r != NEEDS_MORE || n == |pieces| {
        return r, c.head, c.window, n;
      }
      ghost var was := c.head + c.window;
      assert c.head + (c.window + pieces[n]) == was + pieces[n];
      c.Receive(pieces[n]);
      n := n + 1;
    }
  }

  /** The first end that arrives is at one place, behind one piece. */
  lemma OneEnd(pre: string, pieces: seq<string>, m: nat, k: nat, n: nat, l: nat)
    requires m <= n <= |pieces| && FirstEnd(Arrived(pre, pieces, m), k) && FirstEnd(Arrived(pre, pieces, n), l)
    requires n == 0 || NoEnd(Arrived(pre, pieces, n - 1))
    ensures m == n && k == l
  {
    if m < n {
      ArrivedMore(pre, pieces, m, n - 1);
      var a, b := Arrived(pre, pieces, m), Arrived(pre, pieces, n - 1);
      assert a + b[|a|..] == b;
      EndStays(a, b[|a|..], k);
      assert false;
    }
  }

  /** AGREEMENT: on the same data, cut in the same way, server and client find the same header and keep the
      same bytes behind it; only the client drops the empty line. */
  method BothReaders(pre: string, pieces: seq<string>, size: nat, memory: nat)
    returns (status: Status, r: Progress, head: string, rest: string, clientHead: string, clientRest: string)
    requires |pre| <= size && READ_SIZE <= size && forall i :: 0 <= i < |pieces| ==> |pieces[i]| <= READ_SIZE
    ensures status == EC_100 && r == OK ==> head == clientHead + CRLF && rest == clientRest
    ensures !(status == EC_100 && r == NEEDS_MORE) && !(status == EC_408 && r == OK)
  {
    hide MatchesAt, FirstEnd, NoEnd, Clean;
    var m, n;
    status, head, rest, n := ReadHeader(pre, pieces, size, memory);
    r, clientHead, clientRest, m := ReadByClient(pre, pieces, size, memory);
    if status == EC_100 && r == OK {
      if m <= n {
        OneEnd(pre, pieces, m, |clientHead| - 2, n, |head| - 4);
      } else {
        OneEnd(pre, pieces, n, |head| - 4, m, |clientHead| - 2);
      }
      SplitSame(clientHead + CRLF, clientRest, head, rest);
    } else if status == EC_100 {
      NotBoth(pre, pieces, n, |head| - 4);
    } else if r == OK {
      NotBoth(pre, pieces, m, |clientHead| - 2);
    }
  }

  lemma SplitSame(a: string, b: string, c: string, d: string)
    requires a + b == c + d && |a| == |c|
    ensures a == c && b == d
  {
    assert a == (a + b)[..|a|] && c == (c + d)[..|c|];
    assert b == (a + b)[|a|..] && d == (c + d)[|c|..];
  }

  lemma NotBoth(pre: string, pieces: seq<string>, m: nat, k: nat)
    requires m <= |pieces| && FirstEnd(Arrived(pre, pieces, m), k)
    ensures !NoEnd(Arrived(pre, pieces, |pieces|))
  {
    ArrivedMore(pre, pieces, m, |pieces|);
    var a, b := Arrived(pre, pieces, m), Arrived(pre, pieces, |pieces|);
    assert a + b[|a|..] == b;
    EndStays(a, b[|a|..], k);
  }
}
