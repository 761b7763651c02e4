/** The chunked transfer coding of section 4.1 of RFC 7230 as c-icap writes it, and
    parse_chunk_data (request_common.c) as a function of the decoder's state. */
module ChunkCodec {
  import opened Bytes
  import opened Text

  const BUFSIZE: nat := 4096
  const INT_MAX: nat := 0x7fff_ffff

  // ------------------------------------------------------------------ wire format

  /** How a body ends: a bare zero chunk, "ieof" (all of the body was in the preview, RFC 3507
      section 4.5), or the 206 extension that asks for the original body from an offset on. */
  datatype Last = Plain | Ieof | UseOriginal(offset: nat)

  function Chunk(data: string): string
  {
    Hex(|data|) + CRLF + data + CRLF
  }

  function Encode(blocks: seq<string>): string
  {
    if blocks == [] then [] else Chunk(blocks[0]) + Encode(blocks[1..])
  }

  function Concat(blocks: seq<string>): string
  {
    if blocks == [] then [] else blocks[0] + Concat(blocks[1..])
  }

  const USE_ORIGINAL: string := "use-original-body="

  /** The zero chunk up to its first CRLF. */
  function LastLine(last: Last): string
  {
    match last
    case Plain => "0"
    case Ieof => "0; ieof"
    case UseOriginal(n) => "0; " + USE_ORIGINAL + Dec(n)
  }

  function LastChunk(last: Last): string
  {
    LastLine(last) + CRLF + CRLF
  }

  /** On the wire: chunks of three and of ten bytes, and the three ends of a body. */
  lemma ChunkTexts()
    ensures Chunk("ici") == "3\r\nici\r\n" && Chunk("0123456789") == "a\r\n0123456789\r\n"
  {
    assert Hex(3) == "3" && Hex(10) == "a";
  }

  lemma EndTexts(n: nat)
    ensures LastChunk(Plain) == "0\r\n\r\n" && LastChunk(Ieof) == "0; ieof\r\n\r\n"
    ensures LastChunk(UseOriginal(n)) == "0; use-original-body=" + Dec(n) + "\r\n" + "\r\n"
  {
    hide Dec;
    assert "0; " + USE_ORIGINAL == "0; use-original-body=";
  }

  /** What both encoders produce: non-empty chunks whose size fits the decoder's int. */
  predicate GoodBlocks(blocks: seq<string>)
  {
    forall i :: 0 <= i < |blocks| ==> 0 < |blocks[i]| <= INT_MAX - 2
  }

  predicate GoodLast(last: Last)
  {
    last.UseOriginal? ==> last.offset <= LONG_MAX
  }

  // ------------------------------------------------------------------ the decoder

  /** CI_OK, CI_NEEDS_MORE, CI_EOF and CI_ERROR. BAD_SIZE stands for a chunk size outside
      [0, INT_MAX - 2], where the signed arithmetic of the C code has no meaning. */
  datatype Status = OK | NEEDS_MORE | EOF | ERROR | BAD_SIZE

  /** mem is the memory from pstrblock_read on, of which the first len characters were received;
      cur and read are current_chunk_len and chunk_bytes_read (both count the closing CRLF). */
  datatype Decoder = Decoder(mem: string, len: nat, cur: nat, read: nat, eof: bool, original: int)
  {
    predicate Wf() { len <= |mem| && read <= cur <= INT_MAX }

    function Unread(): string requires Wf() { mem[..len] }
  }

  function Advance(d: Decoder, n: nat): (r: Decoder)
    requires d.Wf() && n <= d.len
    ensures r.Wf() && r.len == d.len - n && r.Unread() == d.Unread()[n..]
  {
    d.(mem := d.mem[n..], len := d.len - n)
  }

  function SkipToCr(s: string, i: nat): (j: nat)
    requires i <= |s|
    ensures i <= j <= |s|
    decreases |s| - i
  {
    if i < |s| && s[i] != '\r' then SkipToCr(s, i + 1) else i
  }

  /** The extension of a zero chunk, from the ';' at index e on: the new decoder and the index
      after the extension, or a parse error. */
  datatype Extension = Extension(d: Decoder, end: nat) | BadExtension

  function ParseExtension(d: Decoder, e: nat): (r: Extension)
    requires d.Wf() && e < |d.mem|
    ensures r.Extension? ==> r.d == d.(eof := true, original := r.d.original) && r.end <= |d.mem|
  {
    var e1 := SkipBlank(d.mem, e + 1);
    if d.len - e1 >= 18 && MatchesAt(d.mem, USE_ORIGINAL, e1) then
      var n := Strtol(d.mem, e1 + 18, 10);
      Extension(d.(eof := true, original := n.value), SkipToCr(d.mem, n.end))
    else if d.len - e1 >= 4 && !MatchesAt(d.mem, "ieof", e1) then
      BadExtension
    else
      Extension(d.(eof := true), SkipToCr(d.mem, e1))
  }

  /** The outcome of reading one chunk-size line. */
  datatype Definition = Wait(d: Decoder) | Failed(status: Status) | Zero(d: Decoder) | Size(d: Decoder)

  /** A size line saying zero: its CRLF is at index i, and e is the index after the digits and blanks.
      The second CRLF is checked with "&&", so one wrong byte of the two goes unnoticed. */
  function ParseZero(d: Decoder, i: nat, e: nat): (r: Definition)
    requires d.Wf() && d.cur == d.read && i + 2 <= d.len && e <= |d.mem|
    ensures r.Wait? ==> r.d == d
    ensures r.Zero? ==> r.d.Wf() && r.d.len < d.len && r.d.read == r.d.cur
    ensures !r.Size?
    ensures r.Failed? ==> r.status == ERROR
  {
    if d.len - (i + 2) < 2 then Wait(d)
    else if d.mem[i + 2] != '\r' && d.mem[i + 3] != '\n' then Failed(ERROR)
    else
      var x := if e < |d.mem| && d.mem[e] == ';' then ParseExtension(d, e) else Extension(d, e);
      if x.BadExtension? || Peek(d.mem, x.end) != '\r' || Peek(d.mem, x.end + 1) != '\n' then Failed(ERROR)
      else Zero(Advance(x.d, i + 4))
  }

  function ParseDefinition(d: Decoder): (r: Definition)
    requires d.Wf() && d.cur == d.read
    ensures r.Wait? ==> r.d == d.(cur := r.d.cur, read := r.d.read) && r.d.cur == r.d.read && r.d.Wf()
    ensures r.Zero? || r.Size? ==> r.d.Wf() && r.d.len < d.len
    ensures r.Size? ==> r.d.read < r.d.cur && SameFlags(d, r.d)
    ensures r.Zero? ==> r.d.read == r.d.cur
    ensures r.Failed? ==> r.status == ERROR || r.status == BAD_SIZE
  {
    var i := IndexOf(d.mem, CRLF, d.len, 0);
    if i < 0 then
      if d.len >= BUFSIZE then Failed(ERROR) else Wait(d)
    else
      var n := Strtol(d.mem, 0, 16);
      var e := SkipBlank(d.mem, n.end);
      if n.value == 0 && n.end == 0 then Failed(ERROR)
      else if n.value < 0 || n.value > INT_MAX - 2 then Failed(BAD_SIZE)
      else if n.value == 0 then ParseZero(d.(cur := 0, read := 0), i, e)
      else if Peek(d.mem, e) != '\r' || Peek(d.mem, e + 1) != '\n' then Failed(ERROR)
      else Size(Advance(d, i + 2).(cur := n.value + 2, read := 0))
  }

  /** How many of len received bytes are data when remains bytes of the chunk are due: the last two
      bytes of a chunk are its CRLF and are never handed over, even when they arrive separately. */
  function DataBytes(remains: nat, len: nat): (n: nat)
    requires remains > 0 && len > 0
    ensures n <= len && n <= remains
  {
    if remains <= len then (if remains > 2 then remains - 2 else 0)
    else if remains - len < 2 then len - (remains - len)
    else len
  }

  /** Consume chunk data: the bytes for the service, and the decoder after them. */
  function TakeData(d: Decoder): (r: (string, Decoder))
    requires d.Wf() && d.read < d.cur && d.len > 0
    ensures r.1.Wf() && r.1.len < d.len
    ensures r.1.len > 0 ==> r.1.read == r.1.cur
  {
    var k := Min(d.cur - d.read, d.len);
    (d.mem[..DataBytes(d.cur - d.read, d.len)], Advance(d, k).(read := d.read + k))
  }

  /** What one call of parse_chunk_data returns: status, decoder, and the data at *wdata. */
  datatype Outcome = Outcome(status: Status, d: Decoder, data: string)

  /** The loop of parse_chunk_data; data is what write_to_module_pending already covers. */
  function Parse(d: Decoder, data: string): (o: Outcome)
    requires d.Wf()
    ensures o.d.Wf() && o.d.len <= d.len
    ensures data == [] && o.status == OK ==> o.data != [] && o.d.len < d.len
    decreases d.len
  {
    if d.cur == d.read then
      match ParseDefinition(d)
      case Wait(e) => Outcome(NEEDS_MORE, e, data)
      case Failed(s) => Outcome(s, d, data)
      case Zero(e) => Outcome(EOF, e, data)
      case Size(e) => if data != [] then Outcome(OK, e, data) else ParseData(e)
    else if data != [] then Outcome(OK, d, data) else ParseData(d)
  }

  function ParseData(d: Decoder): (o: Outcome)
    requires d.Wf() && d.read < d.cur
    ensures o.d.Wf() && o.d.len <= d.len
    ensures o.status == OK ==> o.data != [] && o.d.len < d.len
    decreases d.len, 0
  {
    if d.len == 0 then Outcome(NEEDS_MORE, d, [])
    else
      var (data, e) := TakeData(d);
      if e.len == 0 then Outcome(NEEDS_MORE, e, data) else Parse(e, data)
  }

  // ------------------------------------------------------------------ where a decoder stands in a body

  /** rem is the data still due of the chunk being read, frame the number of its closing CRLF bytes
      still due, and blocks the chunks after it. */
  datatype Pos = Pos(rem: string, frame: nat, blocks: seq<string>)
  {
    predicate Wf() { frame <= 2 && (frame < 2 ==> rem == []) && GoodBlocks(blocks) }

    /** The data a correct decoder still has to hand over. */
    function Due(): string { rem + Concat(blocks) }
  }

  function Framing(frame: nat): string
  {
    if frame == 0 then [] else if frame == 1 then "\n" else CRLF
  }

  /** The bytes still to come when the decoder is at p and the body is followed by rest. */
  function Future(p: Pos, last: Last, rest: string): string
  {
    p.rem + Framing(p.frame) + (Encode(p.blocks) + (LastChunk(last) + rest))
  }

  /** The decoder, with net not received yet, is at p of a body that ends with last. */
  ghost predicate Tracks(d: Decoder, net: string, p: Pos, last: Last, rest: string)
  {
    && d.Wf() && p.Wf() && GoodLast(last)
    && d.len <= BUFSIZE
    && d.cur - d.read == |p.rem| + p.frame
    && d.Unread() + net == Future(p, last, rest)
  }

  /** A line without CR in front of a CRLF is found exactly when all of it has arrived. */
  lemma FirstLine(mem: string, len: nat, net: string, line: string, after: string)
    requires len <= |mem|
    requires mem[..len] + net == line + CRLF + after
    requires forall i :: 0 <= i < |line| ==> line[i] != '\r'
    ensures len >= |line| + 2 ==> IndexOf(mem, CRLF, len, 0) == |line|
    ensures len < |line| + 2 ==> IndexOf(mem, CRLF, len, 0) == -1
  {
    var all := mem[..len] + net;
    assert forall i :: 0 <= i < len ==> mem[i] == all[i];
    forall j: nat | j < |line| && j + 2 <= len ensures !MatchesAt(mem, CRLF, j) {
      assert mem[j] == all[j] == line[j];
    }
    if len >= |line| + 2 {
      assert all[|line|] == '\r' && all[|line| + 1] == '\n';
      assert mem[|line|..|line| + 2] == CRLF;
      IndexOfIs(mem, CRLF, len, 0, |line|);
    }
  }

  lemma NumeralNoCr(n: nat, base: nat)
    requires IsBase(base)
    ensures forall i :: 0 <= i < |Numeral(n, base)| ==> Numeral(n, base)[i] != '\r'
  {
    assert DigitValue('\r') == 99;
  }

  /** Memory that starts with a given text splits into that text and what follows. */
  lemma SplitPrefix(mem: string, len: nat, net: string, text: string, after: string)
    requires len <= |mem| && |text| <= len
    requires mem[..len] + net == text + after
    ensures mem == text + mem[|text|..]
    ensures mem[|text|..len] + net == after
  {
    var all := mem[..len] + net;
    assert mem[..|text|] == all[..|text|] == text;
    assert mem[|text|..len] + net == all[|text|..] == after;
  }

  /** A size line that has arrived is read exactly. */
  lemma SizeLineRead(d: Decoder, n: nat, e: nat)
    requires d.Wf() && d.cur == d.read && 0 < n <= INT_MAX - 2
    requires 0 < e && e + 2 <= d.len && d.mem[e] == '\r' && d.mem[e + 1] == '\n'
    requires IndexOf(d.mem, CRLF, d.len, 0) == e && Strtol(d.mem, 0, 16) == Scanned(n, e)
    ensures ParseDefinition(d) == Size(Advance(d, e + 2).(cur := n + 2, read := 0))
  {
  }

  lemma NoLine(d: Decoder)
    requires d.Wf() && d.cur == d.read && d.len < BUFSIZE && IndexOf(d.mem, CRLF, d.len, 0) == -1
    ensures ParseDefinition(d) == Wait(d)
  {
  }

  lemma FutureOfBlock(p: Pos, last: Last, rest: string)
    requires p.Wf() && p.frame == 0 && p.blocks != []
    ensures var b, q := p.blocks[0], Pos(p.blocks[0], 2, p.blocks[1..]);
            q.Wf() && q.Due() == p.Due() && Future(p, last, rest) == Hex(|b|) + CRLF + Future(q, last, rest)
  {
    var b := p.blocks[0];
    var after := LastChunk(last) + rest;
    assert Encode(p.blocks) + after == Hex(|b|) + CRLF + (b + CRLF + (Encode(p.blocks[1..]) + after));
  }

  lemma SizeArrived(d: Decoder, net: string, n: nat, tail: string)
    requires d.Wf() && d.cur == d.read && 0 < n <= INT_MAX - 2
    requires d.Unread() + net == Hex(n) + CRLF + tail && d.len >= |Hex(n)| + 2
    ensures ParseDefinition(d) == Size(Advance(d, |Hex(n)| + 2).(cur := n + 2, read := 0))
    ensures Advance(d, |Hex(n)| + 2).Unread() + net == tail
  {
    hide ParseDefinition, Strtol, IndexOf, Numeral;
    var line := Hex(n);
    SplitPrefix(d.mem, d.len, net, line + CRLF, tail);
    assert d.mem[|line|] == '\r' && d.mem[|line| + 1] == '\n';
    assert IndexOf(d.mem, CRLF, d.len, 0) == |line| by {
      NumeralNoCr(n, 16);
      FirstLine(d.mem, d.len, net, line, tail);
    }
    assert Strtol(d.mem, 0, 16) == Scanned(n, |line|) by {
      assert d.mem[0..|line|] == line;
      StrtolAt(d.mem, 0, n, 16);
    }
    SizeLineRead(d, n, |line|);
  }

  lemma SizeAwaited(d: Decoder, net: string, n: nat, tail: string)
    requires d.Wf() && d.cur == d.read && n <= INT_MAX
    requires d.Unread() + net == Hex(n) + CRLF + tail && d.len < |Hex(n)| + 2
    ensures ParseDefinition(d) == Wait(d) && d.len < BUFSIZE && net != []
  {
    NumeralNoCr(n, 16);
    LongLength(n, 16);
    FirstLine(d.mem, d.len, net, Hex(n), tail);
    NoLine(d);
  }

  /** At a chunk boundary with a chunk to come, a size line is either awaited or read correctly. */
  lemma SizeLine(d: Decoder, net: string, p: Pos, last: Last, rest: string) returns (q: Pos)
    requires Tracks(d, net, p, last, rest) && p.frame == 0 && p.blocks != []
    ensures var r := ParseDefinition(d);
            if r.Size? then Tracks(r.d, net, q, last, rest) && q.Due() == p.Due() && q.frame == 2
            else r == Wait(d) && d.len < BUFSIZE && net != []
  {
    hide ParseDefinition, Numeral, Future;
    var n := |p.blocks[0]|;
    q := Pos(p.blocks[0], 2, p.blocks[1..]);
    FutureOfBlock(p, last, rest);
    if d.len >= |Hex(n)| + 2 {
      SizeArrived(d, net, n, Future(q, last, rest));
    } else {
      SizeAwaited(d, net, n, Future(q, last, rest));
    }
  }

  // ------------------------------------------------------------------ the zero chunk

  lemma LastLineShape(last: Last)
    requires GoodLast(last)
    ensures 1 <= |LastLine(last)| <= 40 && LastLine(last)[0] == '0'
    ensures forall i :: 0 <= i < |LastLine(last)| ==> LastLine(last)[i] != '\r'
    ensures |LastLine(last)| > 1 ==> LastLine(last)[1] == ';'
  {
    if last.UseOriginal? {
      NumeralNoCr(last.offset, 10);
      LongLength(last.offset, 10);
    }
  }

  lemma StrtolZero(mem: string)
    requires |mem| >= 2 && mem[0] == '0' && (mem[1] == '\r' || mem[1] == ';')
    ensures Strtol(mem, 0, 16) == Scanned(0, 1)
  {
    assert Hex(0) == "0";
    StrtolNumeral([], 0, 16, mem[1..]);
    assert mem == [] + Hex(0) + mem[1..];
  }

  lemma IeofExtension(d: Decoder)
    requires d.Wf() && d.len >= 8 && d.mem[..8] == "0; ieof\r"
    ensures ParseExtension(d, 1) == Extension(d.(eof := true), 7)
  {
    var text := d.mem[..8];
    assert d.mem[2] == text[2] && d.mem[3] == text[3] && d.mem[4] == text[4];
    assert d.mem[5] == text[5] && d.mem[6] == text[6] && d.mem[7] == text[7];
    assert SkipBlank(d.mem, 2) == 3;
    assert d.mem[3..7] == text[3..7] == "ieof";
    assert !MatchesAt(d.mem, USE_ORIGINAL, 3) by { assert USE_ORIGINAL[0] == 'u'; }
    assert SkipToCr(d.mem, 6) == 7;
    assert SkipToCr(d.mem, 4) == 7;
  }

  lemma OriginalExtension(d: Decoder, n: nat)
    requires d.Wf() && n <= LONG_MAX && d.len >= |Dec(n)| + 22
    requires d.mem[..|Dec(n)| + 22] == "0; " + USE_ORIGINAL + Dec(n) + "\r"
    ensures ParseExtension(d, 1) == Extension(d.(eof := true, original := n), 21 + |Dec(n)|)
  {
    var text := d.mem[..|Dec(n)| + 22];
    assert d.mem[2] == text[2] == ' ' && d.mem[3] == text[3] == 'u';
    assert SkipBlank(d.mem, 2) == 3;
    assert d.mem[3..21] == text[3..21] == USE_ORIGINAL;
    assert d.mem[21..21 + |Dec(n)|] == text[21..21 + |Dec(n)|] == Dec(n);
    assert d.mem[21 + |Dec(n)|] == text[21 + |Dec(n)|] == '\r';
    assert Strtol(d.mem, 21, 10) == Scanned(n, 21 + |Dec(n)|) by { StrtolAt(d.mem, 21, n, 10); }
  }

  /** The decoder after the whole zero chunk. */
  function Finished(d: Decoder, last: Last): (r: Decoder)
    requires d.Wf() && |LastChunk(last)| <= d.len
    ensures r.Wf() && r.Unread() == d.Unread()[|LastChunk(last)|..]
  {
    Advance(d, |LastChunk(last)|).(cur := 0, read := 0, eof := d.eof || !last.Plain?,
                                   original := if last.UseOriginal? then last.offset else d.original)
  }

  /** The zero chunk of either encoder is accepted, with its extension. */
  lemma ZeroAccepted(d: Decoder, last: Last)
    requires d.Wf() && d.cur == d.read == 0 && GoodLast(last)
    requires |LastChunk(last)| <= d.len && d.mem[..|LastChunk(last)|] == LastChunk(last)
    ensures ParseZero(d, |LastLine(last)|, 1) == Zero(Finished(d, last))
  {
    hide ParseExtension;
    var k := |LastLine(last)|;
    LastLineShape(last);
    assert d.mem[k] == LastChunk(last)[k] == '\r' && d.mem[k + 1] == LastChunk(last)[k + 1] == '\n';
    assert d.mem[k + 2] == LastChunk(last)[k + 2] == '\r';
    assert d.mem[1] == LastChunk(last)[1];
    match last {
      case Plain =>
      case Ieof =>
        assert d.mem[..8] == LastChunk(last)[..8];
        IeofExtension(d);
      case UseOriginal(n) =>
        assert d.mem[..|Dec(n)| + 22] == LastChunk(last)[..|Dec(n)| + 22];
        OriginalExtension(d, n);
    }
  }

  lemma ZeroChunkRead(d: Decoder, last: Last)
    requires d.Wf() && d.cur == d.read && GoodLast(last)
    requires |LastChunk(last)| <= d.len && d.mem[..|LastChunk(last)|] == LastChunk(last)
    requires IndexOf(d.mem, CRLF, d.len, 0) == |LastLine(last)|
    ensures ParseDefinition(d) == Zero(Finished(d, last))
  {
    hide Strtol, IndexOf, ParseZero;
    LastLineShape(last);
    assert d.mem[0] == LastChunk(last)[0] && d.mem[1] == LastChunk(last)[1];
    StrtolZero(d.mem);
    assert SkipBlank(d.mem, 1) == 1;
    ZeroAccepted(d.(cur := 0, read := 0), last);
  }

  lemma ZeroChunkAwaited(d: Decoder, k: nat)
    requires d.Wf() && d.cur == d.read && IndexOf(d.mem, CRLF, d.len, 0) == k && d.len < k + 4
    requires Strtol(d.mem, 0, 16) == Scanned(0, 1)
    ensures ParseDefinition(d) == Wait(d.(cur := 0, read := 0))
  {
  }

  /** At the end of the blocks, the zero chunk is either awaited or recognised with its extension. */
  lemma ZeroChunk(d: Decoder, net: string, p: Pos, last: Last, rest: string)
    requires Tracks(d, net, p, last, rest) && p.frame == 0 && p.blocks == []
    ensures var r := ParseDefinition(d);
            if r.Zero? then |LastChunk(last)| <= d.len && r.d == Finished(d, last) && r.d.Unread() + net == rest
            else r.Wait? && Tracks(r.d, net, p, last, rest) && d.len < BUFSIZE && net != []
  {
    hide ParseDefinition, Strtol, IndexOf, LastLine;
    var line := LastLine(last);
    LastLineShape(last);
    assert Future(p, last, rest) == line + CRLF + (CRLF + rest) == LastChunk(last) + rest;
    FirstLine(d.mem, d.len, net, line, CRLF + rest);
    if d.len >= |line| + 4 {
      SplitPrefix(d.mem, d.len, net, LastChunk(last), rest);
      ZeroChunkRead(d, last);
    } else if d.len >= |line| + 2 {
      SplitPrefix(d.mem, d.len, net, line + CRLF, CRLF + rest);
      assert d.mem[0] == (line + CRLF)[0] && d.mem[1] == (line + CRLF)[1];
      StrtolZero(d.mem);
      ZeroChunkAwaited(d, |line|);
    } else {
      NoLine(d);
    }
  }

  /** The check of the second CRLF is weaker than section 4.1 of RFC 7230 asks: a zero chunk without
      extension passes exactly when at least one of the two bytes is right. */
  lemma LaxTerminator(x: char, y: char, rest: string)
    ensures var d := Decoder("0\r\n" + [x, y] + rest, 5 + |rest|, 0, 0, false, -1);
            ParseDefinition(d).Zero? <==> x == '\r' || y == '\n'
  {
    var mem := "0\r\n" + [x, y] + rest;
    hide Strtol, IndexOf, ParseExtension;
    assert mem[1] == '\r' && mem[2] == '\n' && mem[3] == x && mem[4] == y;
    assert IndexOf(mem, CRLF, |mem|, 0) == 1 by {
      FirstLine(mem, |mem|, [], "0", [x, y] + rest);
    }
    StrtolZero(mem);
    assert SkipBlank(mem, 1) == 1;
  }

  /** Where a size line is due, the decoder fails on a line that does not start like a number, on a number with
      other characters behind it, and on a full buffer without the end of a line. */
  lemma BadLine(d: Decoder, line: string, rest: string)
    requires d.Wf() && d.cur == d.read && d.Unread() == line + CRLF + rest && forall i :: 0 <= i < |line| ==> line[i] != '\r'
    requires line != [] && DigitValue(line[0]) >= 16 && !IsSpace(line[0]) && line[0] != '+' && line[0] != '-'
    ensures Parse(d, []).status == ERROR
  {
    FirstLine(d.mem, d.len, [], line, rest);
    assert d.Unread() + [] == d.Unread();
    assert d.mem[0] == d.Unread()[0] == line[0];
    assert SkipSpace(d.mem, 0) == 0;
    assert Strtol(d.mem, 0, 16) == Scanned(0, 0);
  }

  lemma ExtraCharacters(d: Decoder, n: nat, c: char, more: string, rest: string)
    requires d.Wf() && d.cur == d.read && 0 < n <= INT_MAX - 2 && d.Unread() == Hex(n) + ([c] + more) + CRLF + rest
    requires forall i :: 0 <= i < |more| ==> more[i] != '\r'
    requires DigitValue(c) >= 16 && c != 'x' && c != 'X' && c != ' ' && c != '\t' && c != '\r'
    ensures Parse(d, []).status == ERROR
  {
    NumeralNoCr(n, 16);
    hide Numeral;
    var text, end := d.Unread(), |Hex(n)|;
    FirstLine(d.mem, d.len, [], Hex(n) + ([c] + more), rest);
    assert text + [] == text;
    assert d.mem[..end] == text[..end] == Hex(n) && d.mem[end] == text[end] == c;
    assert d.mem[0..0 + end] == Hex(n);
    StrtolAt(d.mem, 0, n, 16);
    hide Strtol, IndexOf;
    assert SkipBlank(d.mem, end) == end;
  }

  lemma LongLine(d: Decoder)
    requires d.Wf() && d.cur == d.read && d.len >= BUFSIZE && IndexOf(d.mem, CRLF, d.len, 0) < 0
    ensures Parse(d, []).status == ERROR
  {
  }

  // ------------------------------------------------------------------ whole calls and whole bodies

  /** Consuming k bytes of what was received leaves the rest of the stream. */
  lemma Consume(d: Decoder, net: string, k: nat, own: string, tail: string)
    requires d.Wf() && d.Unread() + net == own + tail && k <= d.len && k <= |own|
    ensures d.mem[..k] == own[..k] && Advance(d, k).Unread() + net == own[k..] + tail
  {
    var all := d.Unread() + net;
    assert d.mem[..k] == all[..k] == own[..k];
    assert Advance(d, k).Unread() + net == all[k..] == own[k..] + tail;
  }

  /** The place after k bytes of the current chunk and its CRLF. */
  function After(p: Pos, k: nat): (q: Pos)
    requires p.Wf() && k <= |p.rem| + p.frame
    ensures q.Wf() && q.blocks == p.blocks && |q.rem| + q.frame == |p.rem| + p.frame - k
    ensures q.rem + Framing(q.frame) == (p.rem + Framing(p.frame))[k..]
    ensures p.rem == (if k <= |p.rem| then p.rem[..k] else p.rem) + q.rem
  {
    if k <= |p.rem| then Pos(p.rem[k..], p.frame, p.blocks) else Pos([], p.frame - (k - |p.rem|), p.blocks)
  }

  lemma TakeDataIs(d: Decoder, p: Pos, k: nat)
    requires d.Wf() && p.Wf() && p.frame > 0 && d.len > 0 && d.cur - d.read == |p.rem| + p.frame
    requires k == if d.cur - d.read <= d.len then d.cur - d.read else d.len
    requires d.mem[..k] == (p.rem + Framing(p.frame))[..k]
    ensures TakeData(d) == (if k <= |p.rem| then p.rem[..k] else p.rem, Advance(d, k).(read := d.read + k))
  {
    var own := p.rem + Framing(p.frame);
    var n := if k <= |p.rem| then k else |p.rem|;
    assert d.mem[..n] == d.mem[..k][..n] == own[..n] == p.rem[..n];
  }

  /** Taking data hands over exactly the data bytes that arrived and keeps the place in the body. */
  lemma DataTaken(d: Decoder, net: string, p: Pos, last: Last, rest: string) returns (q: Pos)
    requires Tracks(d, net, p, last, rest) && p.frame > 0 && d.len > 0
    ensures var (data, e) := TakeData(d);
            Tracks(e, net, q, last, rest) && p.Due() == data + q.Due()
  {
    var k := if d.cur - d.read <= d.len then d.cur - d.read else d.len;
    q := After(p, k);
    var own, tail := p.rem + Framing(p.frame), Encode(p.blocks) + (LastChunk(last) + rest);
    assert d.mem[..k] == own[..k] && Advance(d, k).Unread() + net == Future(q, last, rest) by {
      Consume(d, net, k, own, tail);
    }
    TakeDataIs(d, p, k);
    DuePart(p, k);
  }

  lemma DuePart(p: Pos, k: nat)
    requires p.Wf() && k <= |p.rem| + p.frame
    ensures p.Due() == (if k <= |p.rem| then p.rem[..k] else p.rem) + After(p, k).Due()
  {
    var part := if k <= |p.rem| then p.rem[..k] else p.rem;
    assert part + After(p, k).Due() == (part + After(p, k).rem) + Concat(p.blocks);
  }

  /** The flags a zero chunk leaves behind. */
  predicate Ended(d: Decoder, e: Decoder, last: Last)
  {
    && e.eof == (d.eof || !last.Plain?)
    && e.original == (if last.UseOriginal? then last.offset else d.original)
  }

  /** A call from d that had due left to hand over returned o and stands at q: no error, nothing lost,
      nothing repeated; more input is asked for only when there is some to come and room for it. */
  ghost predicate Faithful(o: Outcome, d: Decoder, due: string, net: string, q: Pos, last: Last, rest: string)
  {
    match o.status
    case EOF => o.data == due && o.d.Wf() && o.d.Unread() + net == rest && Ended(d, o.d, last)
    case OK => Tracks(o.d, net, q, last, rest) && due == o.data + q.Due() && SameFlags(d, o.d)
    case NEEDS_MORE =>
      && Tracks(o.d, net, q, last, rest) && due == o.data + q.Due() && SameFlags(d, o.d)
      && o.d.len < BUFSIZE && net != []
    case _ => false
  }

  predicate SameFlags(d: Decoder, e: Decoder) { e.eof == d.eof && e.original == d.original }

  /** One call of parse_chunk_data on a well-formed body. */
  lemma {:induction false} ParseTracks(d: Decoder, data: string, net: string, p: Pos, last: Last, rest: string)
    returns (q: Pos)
    requires Tracks(d, net, p, last, rest)
    ensures Faithful(Parse(d, data), d, data + p.Due(), net, q, last, rest)
    decreases d.len, 1
  {
    hide ParseDefinition, ParseData;
    q := p;
    if p.frame == 0 {
      if p.blocks == [] {
        ZeroChunk(d, net, p, last, rest);
        assert data + p.Due() == data;
      } else {
        q := SizeLine(d, net, p, last, rest);
        var r := ParseDefinition(d);
        if r.Wait? {
          q := p;
        } else if data == [] {
          q := ParseDataTracks(r.d, net, q, last, rest);
          assert data + p.Due() == p.Due();
        }
      }
    } else if data == [] {
      q := ParseDataTracks(d, net, p, last, rest);
      assert data + p.Due() == p.Due();
    }
  }

  lemma {:induction false} ParseDataTracks(d: Decoder, net: string, p: Pos, last: Last, rest: string) returns (q: Pos)
    requires Tracks(d, net, p, last, rest) && p.frame > 0
    ensures Faithful(ParseData(d), d, p.Due(), net, q, last, rest)
    decreases d.len, 0
  {
    q := p;
    if d.len > 0 {
      q := DataTaken(d, net, p, last, rest);
      var (data, e) := TakeData(d);
      if e.len > 0 {
        q := ParseTracks(e, data, net, q, last, rest);
      } else {
        assert Future(q, last, rest) != [];
      }
    }
  }

  /** One answer of the network: it offers size bytes; stale is whatever the read buffer holds behind
      the bytes received so far. */
  datatype Arrival = Arrival(size: nat, stale: string)

  /** net_data_read: move the unread bytes to the front of the buffer and append the new ones. */
  function NetRead(d: Decoder, piece: string, stale: string): (r: Decoder)
    requires d.Wf()
    ensures r.Wf() && r.Unread() == d.Unread() + piece && SameFlags(d, r)
  {
    d.(mem := d.mem[..d.len] + piece + stale, len := d.len + |piece|)
  }

  datatype Reception = Reception(status: Status, d: Decoder, net: string, body: string)

  /** Receive a body: parse, hand over the data, read again when more is needed. NEEDS_MORE means the
      network stopped answering. */
  function Receive(d: Decoder, net: string, arrivals: seq<Arrival>): Reception
    requires d.Wf()
    decreases |arrivals|, d.len, 1
  {
    Continue(Parse(d, []), net, arrivals)
  }

  function Continue(o: Outcome, net: string, arrivals: seq<Arrival>): Reception
    requires o.d.Wf()
    decreases |arrivals|, if o.status == OK then o.d.len + 1 else 0, 0
  {
    if o.status == OK then
      var r := Receive(o.d, net, arrivals);
      r.(body := o.data + r.body)
    else if o.status != NEEDS_MORE || arrivals == [] then
      Reception(o.status, o.d, net, o.data)
    else if o.d.len >= BUFSIZE then
      Reception(ERROR, o.d, net, o.data)
    else
      var k := Min(Min(arrivals[0].size, |net|), BUFSIZE - o.d.len);
      var r := Receive(NetRead(o.d, net[..k], arrivals[0].stale), net[k..], arrivals[1..]);
      r.(body := o.data + r.body)
  }

  /** The number of network answers that bring something. */
  function Productive(arrivals: seq<Arrival>): nat
  {
    if arrivals == [] then 0 else (if arrivals[0].size > 0 then 1 else 0) + Productive(arrivals[1..])
  }

  /** r is a correct reception, from d, of a body of which due was still to be handed over. */
  ghost predicate Received(r: Reception, d: Decoder, due: string, last: Last, rest: string)
  {
    match r.status
    case EOF => r.body == due && r.d.Wf() && r.d.Unread() + r.net == rest && Ended(d, r.d, last)
    case NEEDS_MORE => r.body <= due
    case _ => false
  }

  lemma ReceivedMore(r: Reception, d: Decoder, e: Decoder, part: string, due: string, last: Last, rest: string)
    requires Received(r, e, due, last, rest) && SameFlags(d, e)
    ensures Received(r.(body := part + r.body), d, part + due, last, rest)
  {
  }

  lemma {:induction false} ReceiveFrom(d: Decoder, net: string, arrivals: seq<Arrival>, p: Pos, last: Last, rest: string)
    requires Tracks(d, net, p, last, rest)
    ensures Received(Receive(d, net, arrivals), d, p.Due(), last, rest)
    ensures Productive(arrivals) >= |net| ==> Receive(d, net, arrivals).status == EOF
    decreases |arrivals|, d.len, 1
  {
    hide Parse;
    var q := ParseTracks(d, [], net, p, last, rest);
    assert [] + p.Due() == p.Due();
    ContinueFrom(Parse(d, []), d, p.Due(), net, arrivals, q, last, rest);
  }

  /** Reading from the network does not move the decoder's place. */
  lemma ReadTracks(d: Decoder, net: string, k: nat, stale: string, p: Pos, last: Last, rest: string)
    requires Tracks(d, net, p, last, rest) && k <= |net| && d.len + k <= BUFSIZE
    ensures Tracks(NetRead(d, net[..k], stale), net[k..], p, last, rest)
  {
    hide Future;
    assert d.Unread() + net[..k] + net[k..] == d.Unread() + (net[..k] + net[k..]);
    assert net[..k] + net[k..] == net;
  }

  lemma {:induction false} ContinueFrom(o: Outcome, d: Decoder, due: string, net: string, arrivals: seq<Arrival>,
                                        q: Pos, last: Last, rest: string)
    requires o.d.Wf() && Faithful(o, d, due, net, q, last, rest)
    ensures Received(Continue(o, net, arrivals), d, due, last, rest)
    ensures Productive(arrivals) >= |net| ==> Continue(o, net, arrivals).status == EOF
    decreases |arrivals|, if o.status == OK then o.d.len + 1 else 0, 0
  {
    hide Receive, Tracks, NetRead, Concat;
    if o.status == OK {
      ReceiveFrom(o.d, net, arrivals, q, last, rest);
      ReceivedMore(Receive(o.d, net, arrivals), d, o.d, o.data, q.Due(), last, rest);
    } else if o.status == NEEDS_MORE && arrivals != [] {
      var k := Min(Min(arrivals[0].size, |net|), BUFSIZE - o.d.len);
      var e := NetRead(o.d, net[..k], arrivals[0].stale);
      ReadTracks(o.d, net, k, arrivals[0].stale, q, last, rest);
      ReceiveFrom(e, net[k..], arrivals[1..], q, last, rest);
      ReceivedMore(Receive(e, net[k..], arrivals[1..]), d, e, o.data, q.Due(), last, rest);
    }
  }

  /** THE ROUND TRIP. However the network cuts a chunk-encoded body, and whatever lies in the buffer
      behind it, the decoder never fails; what it hands over is always a prefix of the data; when it
      reports the end it has handed over exactly the data, has recovered the end flag and the 206
      offset, and has left exactly the bytes after the terminator unread; and it does report the end
      once the network has answered often enough. */
  lemma RoundTrip(blocks: seq<string>, last: Last, rest: string, d: Decoder, net: string, arrivals: seq<Arrival>)
    requires GoodBlocks(blocks) && GoodLast(last)
    requires d.Wf() && d.cur == d.read && d.len <= BUFSIZE
    requires d.Unread() + net == Encode(blocks) + LastChunk(last) + rest
    ensures var r := Receive(d, net, arrivals);
            && (r.status == EOF || r.status == NEEDS_MORE)
            && r.body <= Concat(blocks)
            && (r.status == EOF ==> r.body == Concat(blocks) && r.d.Wf() && r.d.Unread() + r.net == rest
                                    && r.d.eof == (d.eof || !last.Plain?)
                                    && r.d.original == (if last.UseOriginal? then last.offset else d.original))
            && (Productive(arrivals) >= |net| ==> r.status == EOF)
  {
    hide Receive, Encode, LastChunk, Concat;
    var p := Pos([], 0, blocks);
    assert Tracks(d, net, p, last, rest) by {
      assert Future(p, last, rest) == Encode(blocks) + LastChunk(last) + rest;
    }
    assert p.Due() == Concat(blocks);
    ReceiveFrom(d, net, arrivals, p, last, rest);
  }
}
