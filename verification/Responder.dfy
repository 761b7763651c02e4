/** The sending half of ci_request_t (request.c): response header, encapsulated headers, body chunks
    and last chunk leave through one block pointer and one write buffer, under partial writes. */
module ResponseSender {
  import opened Bytes
  import opened Text
  import opened ChunkCodec
  import opened ClientBody

  const EXTRA_CHUNK_SIZE: nat := 30
  const MAX_CHUNK_SIZE: nat := 4064
  const WBUF_SIZE: nat := MAX_CHUNK_SIZE + EXTRA_CHUNK_SIZE + 2
  const CI_EOF: int := -2

  // enum SENDDATA_STATUS
  const SEND_NOTHING: nat := 0
  const SEND_RESPHEAD: nat := 1
  const SEND_HEAD1: nat := 2
  const SEND_HEAD3: nat := 4
  const SEND_BODY: nat := 5
  const SEND_EOF: nat := 6

  /** Blocks in front of and behind one that was written in place. */
  lemma FramedSlice(s: string, from: nat, def: string, data: string)
    requires from + |def| + |data| + 2 <= |s|
    requires s[from..from + |def|] == def
    requires s[from + |def|..from + |def| + |data|] == data
    requires s[from + |def| + |data|] == '\r' && s[from + |def| + |data| + 1] == '\n'
    ensures s[from..from + |def| + |data| + 2] == def + data + CRLF
  {
  }

  /** The size of a chunk that fits the write buffer prints in at most four characters. */
  lemma SizeFits(n: nat)
    requires n <= MAX_CHUNK_SIZE
    ensures |Hex(n)| + 2 < EXTRA_CHUNK_SIZE
  {
    assert Pow10(4) == 10_000;
    NumeralLength(n, 16, 4);
  }

  lemma LastChunkFits(last: Last)
    requires GoodLast(last)
    ensures 0 < |LastChunk(last)| <= WBUF_SIZE
  {
    LastLineShape(last);
  }

  /** The framing both encoders do in place (format_body_chunk and client_prepere_body_chunk): CRLF
      behind the n data bytes at EXTRA_CHUNK_SIZE, the size line right in front of them. */
  method FrameChunk(wbuf: array<char>, n: nat) returns (start: nat, total: nat)
    requires wbuf.Length == WBUF_SIZE && 0 < n <= MAX_CHUNK_SIZE
    modifies wbuf
    ensures start + total <= WBUF_SIZE && n < total
    ensures wbuf[start..start + total] == Chunk(old(wbuf[EXTRA_CHUNK_SIZE..EXTRA_CHUNK_SIZE + n]))
  {
    ghost var data := wbuf[EXTRA_CHUNK_SIZE..EXTRA_CHUNK_SIZE + n];
    wbuf[EXTRA_CHUNK_SIZE + n], wbuf[EXTRA_CHUNK_SIZE + n + 1] := '\r', '\n';
    var def := Hex(n) + CRLF;
    SizeFits(n);
    start := EXTRA_CHUNK_SIZE - |def|;
    forall i | 0 <= i < |def| {
      wbuf[start + i] := def[i];
    }
    total := |def| + n + 2;
    ghost var s := wbuf[..];
    assert s[start..start + |def|] == def;
    assert s[EXTRA_CHUNK_SIZE..EXTRA_CHUNK_SIZE + n] == data;
    FramedSlice(s, start, def, data);
  }

  /** client_prepere_body_chunk: chunksize is what the reader callback returned after writing that many
      bytes at EXTRA_CHUNK_SIZE. */
  method PrepareBodyChunk(wbuf: array<char>, chunksize: int) returns (r: Status, start: nat, total: nat)
    requires wbuf.Length == WBUF_SIZE && chunksize <= MAX_CHUNK_SIZE
    modifies wbuf
    ensures r == (if chunksize > 0 then OK else if chunksize == CI_EOF then EOF else if chunksize == 0 then NEEDS_MORE else ERROR)
    ensures start + total <= WBUF_SIZE
    ensures r == OK ==> wbuf[start..start + total] == Chunk(old(wbuf[EXTRA_CHUNK_SIZE..EXTRA_CHUNK_SIZE + chunksize]))
    ensures r != OK ==> total == 0
  {
    start, total := 0, 0;
    if chunksize == CI_EOF || chunksize == 0 {
      return if chunksize == CI_EOF then EOF else NEEDS_MORE, 0, 0;
    } else if chunksize < 0 {
      return ERROR, 0, 0;
    }
    r := OK;
    start, total := FrameChunk(wbuf, chunksize);
  }

  lemma {:induction false} ConcatSnoc(xs: seq<string>, x: string)
    ensures Concat(xs + [x]) == Concat(xs) + x
  {
    if xs == [] {
      assert Concat([x]) == x + Concat([]);
    } else {
      ConcatSnoc(xs[1..], x);
      assert (xs + [x])[1..] == xs[1..] + [x];
    }
  }

  lemma {:induction false} EncodeSnoc(xs: seq<string>, x: string)
    ensures Encode(xs + [x]) == Encode(xs) + Chunk(x)
  {
    if xs == [] {
      assert Encode([x]) == Chunk(x) + Encode([]);
    } else {
      EncodeSnoc(xs[1..], x);
      assert (xs + [x])[1..] == xs[1..] + [x];
    }
  }

  /** A numeral is no longer than its number. */
  lemma {:induction false} HexLength(n: nat)
    requires n > 0
    ensures |Hex(n)| <= n
  {
    if n >= 16 {
      HexLength(n / 16);
    }
  }

  lemma ChunkLength(data: string)
    requires data != []
    ensures |Chunk(data)| <= 6 * |data|
  {
    HexLength(|data|);
  }

  lemma {:induction false} EncodeLength(blocks: seq<string>)
    requires GoodBlocks(blocks)
    ensures |Encode(blocks)| <= 6 * |Concat(blocks)|
  {
    if blocks != [] {
      ChunkLength(blocks[0]);
      EncodeLength(blocks[1..]);
    }
  }

  lemma Regroup(a: string, raw: string, out: string, n: nat)
    requires n <= |out|
    ensures a + (raw + out[..n]) + out[n..] == a + raw + out
  {
    assert out == out[..n] + out[n..];
  }

  lemma JoinParts(a: string, b: string, c: string, d: string)
    ensures a + (b + c) + d == (a + b) + (c + d) && a + b <= (a + b) + (c + d)
  {
  }

  lemma SplitBlock(sent: string, block: string, n: nat)
    requires n <= |block|
    ensures sent + block == (sent + block[..n]) + block[n..] && sent <= sent + block[..n]
  {
    assert block == block[..n] + block[n..];
  }

  lemma SplitSlice(text: string, off: nat, len: nat, n: nat)
    requires off + len <= |text| && n <= len
    ensures text[off..off + len][..n] == text[off..off + n] && text[off..off + len][n..] == text[off + n..off + len]
  {
  }

  /** What pstrblock_responce points into: nothing, a packed header that no longer changes, or wbuf. */
  datatype Source = Nowhere | Header(text: string) | WriteBuffer

  /** One return of wait_for_data: the directions that are ready, the bytes the socket will deliver and
      the bytes it will accept (negative: a socket error). */
  datatype Wait = Wait(read: bool, write: bool, arrives: int, accepts: int)
  {
    /** The read fails, and the write is not reached. */
    predicate Fails() { read && arrives < 0 }

    /** Neither direction fails. */
    predicate Works() { (read ==> arrives >= 0) && accepts >= 0 }

    /** Something arrives. */
    predicate Brings() { read && arrives > 0 }
  }

  /** No wait fails up to the one in which something arrives for the need-th time, and there is that one. */
  predicate Enough(waits: seq<Wait>, need: nat)
  {
    need == 0 || (waits != [] && waits[0].Works() && Enough(waits[1..], if waits[0].Brings() then need - 1 else need))
  }

  /** How many waits that takes. */
  function Until(waits: seq<Wait>, need: nat): (n: nat)
    ensures n <= |waits|
  {
    if need == 0 || waits == [] then 0
    else 1 + Until(waits[1..], if waits[0].Brings() then need - 1 else need)
  }

  /** Less needs no more waits. */
  lemma {:induction false} EnoughLess(waits: seq<Wait>, need: nat, less: nat)
    requires Enough(waits, need) && less <= need
    ensures Enough(waits, less) && Until(waits, less) <= Until(waits, need)
    decreases |waits|
  {
    if less > 0 {
      var n := if waits[0].Brings() then 1 else 0;
      EnoughLess(waits[1..], need - n, less - n);
    }
  }

  /** The next wait, after which left is still needed. */
  lemma NextWait(waits: seq<Wait>, need: nat, left: nat)
    requires Enough(waits, need) && need > 0 && left <= need && (waits != [] && waits[0].Brings() ==> left < need)
    ensures waits != [] && waits[0].Works() && Enough(waits[1..], left) && 1 + Until(waits[1..], left) <= Until(waits, need)
  {
    EnoughLess(waits[1..], if waits[0].Brings() then need - 1 else need, left);
  }

  predicate Suffix(left: seq<Wait>, waits: seq<Wait>)
  {
    |left| <= |waits| && left == waits[|waits| - |left|..]
  }

  /** get_send_body comes to choosing a block: there is data read already, or the first wait does not fail. */
  predicate Begins(readLen: nat, waits: seq<Wait>) { readLen > 0 || (waits != [] && !waits[0].Fails()) }

  /** The number of waits in which the socket accepts something, up to the first socket error. */
  function Accepted(waits: seq<Wait>): nat
  {
    if waits == [] || waits[0].accepts < 0 then 0
    else (if waits[0].accepts > 0 then 1 else 0) + Accepted(waits[1..])
  }

  /** The waits that are left are enough for what is still to arrive, and no more are used than were needed. */
  predicate InTime(waits: seq<Wait>, left: seq<Wait>, need: nat, c: Client)
  {
    && |left| >= |waits| - Until(waits, need)
    && (!c.eof ==> Enough(left, |c.net|) && |left| - Until(left, |c.net|) >= |waits| - Until(waits, need))
  }

  lemma StillInTime(waits: seq<Wait>, was: seq<Wait>, left: seq<Wait>, need: nat, c: Client, e: Client, waiting: bool)
    requires InTime(waits, was, need, c) && !c.eof && |e.net| <= |c.net|
    requires if waiting then c.net != [] && was != [] && left == was[1..] && (was[0].Brings() ==> |e.net| < |c.net|) else left == was
    ensures InTime(waits, left, need, e)
  {
    if waiting {
      NextWait(was, |c.net|, |e.net|);
    } else {
      EnoughLess(was, |c.net|, |e.net|);
    }
  }

  lemma SuffixSelf(waits: seq<Wait>)
    ensures Suffix(waits, waits)
  {
  }

  lemma SuffixOn(left: seq<Wait>, waits: seq<Wait>)
    requires Suffix(left, waits) && left != []
    ensures Suffix(left[1..], waits)
  {
  }

  /** The fixed parts of a response: the packed ICAP header, the packed encapsulated headers
      (entities[0] on), whether a body follows, and how it ends (UseOriginal when the answer is a 206
      with an offset, Plain otherwise). At most two headers precede a body. */
  datatype Plan = Plan(header: string, heads: seq<string>, hasBody: bool, last: Last)
  {
    predicate Wf() { |heads| <= 2 && last != Ieof && GoodLast(last) }

    /** Everything up to and including the first n encapsulated headers. */
    function Heads(n: nat): string requires n <= |heads| { header + Concat(heads[..n]) }

    function Body(blocks: seq<string>): string { if hasBody then Encode(blocks) + LastChunk(last) else [] }

    /** The whole response when the service's output was cut into blocks. */
    function Full(blocks: seq<string>): string { Heads(|heads|) + Body(blocks) }

    /** At least as long as the response to this output, however that is cut into blocks. */
    function Bound(output: string): nat { |Heads(|heads|)| + 6 * |output| + |LastChunk(last)| }

    /** One more chunk makes the response longer by at most six bytes a byte. */
    lemma Longer(blocks: seq<string>, raw: string)
      requires 0 < |raw|
      ensures |Full(blocks + [raw])| <= |Full(blocks)| + 6 * |raw|
    {
      EncodeSnoc(blocks, raw);
      ChunkLength(raw);
      hide Encode, LastChunk, Chunk, Concat;
    }

    lemma Bounded(blocks: seq<string>, output: string)
      requires GoodBlocks(blocks)
      ensures |Full(blocks)| + 6 * |output| <= Bound(Concat(blocks) + output)
    {
      EncodeLength(blocks);
      hide Encode, LastChunk, Concat, Heads;
    }

    predicate WfStatus(status: nat)
    {
      status <= SEND_EOF && (SEND_HEAD1 <= status <= SEND_HEAD3 ==> status - 1 <= |heads|)
      && (status == SEND_BODY ==> hasBody)
    }

    /** What a sender with this status has handed to the connection or holds in its current block. */
    function Due(status: nat, blocks: seq<string>): string
      requires WfStatus(status)
    {
      if status == SEND_NOTHING then []
      else if status < SEND_BODY then Heads(status - 1)
      else if status == SEND_BODY then Heads(|heads|) + Encode(blocks)
      else Full(blocks)
    }

    lemma NextHead(i: nat)
      requires i < |heads|
      ensures Heads(i + 1) == Heads(i) + heads[i]
    {
      ConcatSnoc(heads[..i], heads[i]);
      assert heads[..i + 1] == heads[..i] + [heads[i]];
    }

    lemma NewBlock(blocks: seq<string>, raw: string)
      requires hasBody
      ensures Due(SEND_BODY, blocks + [raw]) == Due(SEND_BODY, blocks) + Chunk(raw)
      ensures Concat(blocks + [raw]) == Concat(blocks) + raw
    {
      EncodeSnoc(blocks, raw);
      ConcatSnoc(blocks, raw);
    }

    lemma LastBlock(blocks: seq<string>)
      requires hasBody
      ensures Full(blocks) == Due(SEND_BODY, blocks) + LastChunk(last)
    {
      hide Concat, Encode, LastChunk, Heads;
    }

    /** What is due grows by the next header, or by nothing when the body or the end comes next. */
    lemma NextDue(status: nat)
      requires Wf() && WfStatus(status) && status < SEND_BODY
      ensures Due(SEND_NOTHING, []) == [] && Due(SEND_RESPHEAD, []) == header
      ensures status >= SEND_RESPHEAD && status - 1 < |heads| ==> Due(status + 1, []) == Due(status, []) + heads[status - 1]
      ensures status >= SEND_RESPHEAD && status - 1 == |heads| && hasBody ==> Due(SEND_BODY, []) == Due(status, [])
      ensures status >= SEND_RESPHEAD && status - 1 == |heads| && !hasBody ==> Due(SEND_EOF, []) == Due(status, [])
    {
      assert Heads(0) == header && Encode([]) == [] && Concat([]) == [];
      if status >= SEND_RESPHEAD && status - 1 < |heads| {
        NextHead(status - 1);
      }
      hide Concat, Encode, LastChunk, Heads;
      assert WfStatus(SEND_NOTHING) && WfStatus(SEND_RESPHEAD);
    }

    lemma HeadsPrefix(n: nat, blocks: seq<string>)
      requires n <= |heads|
      ensures Heads(n) <= Full(blocks)
    {
      ConcatSplit(heads, n);
      hide Concat, Encode, LastChunk;
      assert heads[..|heads|] == heads;
      JoinParts(header, Concat(heads[..n]), Concat(heads[n..]), Body(blocks));
    }

    lemma DuePrefix(status: nat, blocks: seq<string>)
      requires WfStatus(status)
      ensures Due(status, blocks) <= Full(blocks)
    {
      hide Concat, Encode, LastChunk, LastLine;
      if SEND_RESPHEAD <= status < SEND_BODY {
        HeadsPrefix(status - 1, blocks);
      } else if status == SEND_BODY {
        LastBlock(blocks);
      }
    }
  }

  class Responder {
    const wbuf: array<char>
    const plan: Plan
    const quiet: bool           // the service is mod_null_io, which never unlocks the data
    const steady: bool          // the service never fails, and gives data or its end whenever there is room
    const greedy: bool          // the service never fails, and takes all that it is offered

    var status: nat
    var source: Source
    var off: nat                // pstrblock_responce, as an index into source
    var remain: int             // remain_send_block_bytes
    var locked: bool            // data_locked
    var sent: string            // what the connection has accepted

    // The service: what it has still to produce.
    var output: string

    var client: Client

    ghost var total: string         // all that the service produces
    ghost var blocks: seq<string>   // the chunks formed so far

    constructor (plan: Plan, output: string, client: Client, locked: bool, quiet: bool, steady: bool, greedy: bool)
      requires plan.Wf()
      ensures Valid() && status == SEND_NOTHING && sent == [] && fresh(wbuf)
      ensures this.plan == plan && total == output && blocks == [] && this.client == client
      ensures this.locked == locked && this.quiet == quiet && this.steady == steady && this.greedy == greedy
    {
      wbuf := new char[WBUF_SIZE];
      this.plan, this.quiet, this.steady, this.greedy := plan, quiet, steady, greedy;
      status, source, off, remain, this.locked, sent := SEND_NOTHING, Nowhere, 0, 0, locked, [];
      this.output, this.client := output, client;
      total, blocks := output, [];
      new;
      hide Encode, LastChunk, Plan.Heads, GoodLast;
      assert Concat(blocks) == [] && Block() == [];
    }

    /** The unsent part of the current block. */
    ghost function Block(): string
      requires InBounds()
      reads `source, `off, `remain, wbuf
    {
      match source
      case Nowhere => []
      case Header(text) => text[off..off + remain]
      case WriteBuffer => wbuf[off..off + remain]
    }

    ghost predicate InBounds()
      reads `source, `off, `remain
    {
      wbuf.Length == WBUF_SIZE && remain >= 0
      && match source
         case Nowhere => remain == 0
         case Header(text) => off + remain <= |text|
         case WriteBuffer => off + remain <= WBUF_SIZE
    }

    ghost predicate Shape()
      reads `status, `blocks
    {
      && wbuf.Length == WBUF_SIZE && plan.Wf() && plan.WfStatus(status) && GoodBlocks(blocks)
      && (status < SEND_BODY || !plan.hasBody ==> blocks == [])
    }

    /** Between steps: the bytes sent and the current block are together exactly what the status calls
        for, and the blocks and what the service still holds are together its output. */
    ghost predicate Valid()
      reads `status, `source, `off, `remain, `sent, `output, `total, `blocks, wbuf
    {
      && Shape() && InBounds()
      && sent + Block() == plan.Due(status, blocks)
      && Concat(blocks) + output == total
      && (status == SEND_NOTHING ==> remain == 0)
      && (status == SEND_EOF && plan.hasBody ==> output == [])
    }

    /** While wbuf is being filled: everything before it is sent, and it holds data not yet in a block. */
    ghost predicate Filling()
      reads `status, `source, `off, `remain, `sent, `output, `total, `blocks, wbuf
    {
      && Shape() && status == SEND_BODY && InBounds() && remain <= MAX_CHUNK_SIZE
      && (remain > 0 ==> source == WriteBuffer && off == EXTRA_CHUNK_SIZE)
      && sent == plan.Due(status, blocks)
      && Concat(blocks) + wbuf[EXTRA_CHUNK_SIZE..EXTRA_CHUNK_SIZE + remain] + output == total
    }

    /** SAFETY: at every point between steps the bytes sent are a prefix of the response, whose body so far
        is a prefix of what the service produces. */
    lemma SentIsPrefix()
      requires Valid()
      ensures sent <= plan.Full(blocks) && Concat(blocks) <= total
      ensures status == SEND_EOF && remain == 0 ==>
                sent == plan.Full(blocks) && (plan.hasBody ==> Concat(blocks) == total)
    {
      plan.DuePrefix(status, blocks);
      assert sent <= plan.Due(status, blocks);
    }

    /** A bound on what is still to be sent. */
    ghost function Ahead(): int
      reads `sent, `blocks, `output
    {
      |plan.Full(blocks)| - |sent| + 6 * |output|
    }

    lemma AheadBounds()
      requires Valid()
      ensures remain <= Ahead() <= plan.Bound(total)
    {
      hide Concat, Plan.Due, Plan.Full, Plan.Bound;
      plan.DuePrefix(status, blocks);
      plan.Bounded(blocks, output);
    }

    lemma BlockLength()
      requires Valid()
      ensures InBounds() && |Block()| == remain
    {
    }

    /** The first n bytes of the current block leave it. */
    method Advance(n: nat)
      requires InBounds() && n <= remain
      modifies this`sent, this`off, this`remain
      ensures InBounds() && remain == old(remain) - n && old(sent) <= sent && sent + Block() == old(sent + Block())
    {
      if source.Header? {
        SplitSlice(source.text, off, remain, n);
        SplitBlock(sent, source.text[off..off + remain], n);
        sent := sent + source.text[off..off + n];
      } else if source.WriteBuffer? {
        SplitSlice(wbuf[..], off, remain, n);
        SplitBlock(sent, wbuf[..][off..off + remain], n);
        sent := sent + wbuf[off..off + n];
      }
      off, remain := off + n, remain - n;
    }

    /** send_current_block_data: the socket accepts at most k bytes; a negative k is an error. */
    method SendCurrentBlock(k: int) returns (ok: bool)
      requires Valid()
      modifies this`sent, this`off, this`remain
      ensures Valid() && old(sent) <= sent && sent + Block() == old(sent + Block())
      ensures ok <==> remain == old(remain) == 0 || k >= 0
      ensures ok ==> remain == old(remain) - (if k <= 0 then 0 else Min(k, old(remain)))
    {
      hide Plan.Due, Concat, Shape, InBounds, Block;
      BlockLength();
      ok := remain == 0 || k >= 0;
      if ok {
        Advance(if k <= 0 then 0 else Min(k, remain));
      }
    }

    /** update_send_status without trailers: point at the next block. It must not be called while a header
        block is unsent. */
    method UpdateSendStatus() returns (r: Status)
      requires Valid() && (SEND_NOTHING < status < SEND_BODY ==> remain == 0)
      modifies this`status, this`source, this`off, this`remain
      ensures Valid() && r == (if status == SEND_EOF && remain == 0 then EOF else OK)
      ensures old(status) <= status && (old(status) < SEND_BODY ==> old(status) < status)
      ensures old(status) >= SEND_BODY ==> unchanged(this)
      ensures status != old(status) && status == SEND_BODY ==> remain == 0
    {
      hide Plan.Due, Concat;
      if status >= SEND_BODY {
        return if status == SEND_EOF && remain == 0 then EOF else OK;
      }
      plan.NextDue(status);
      assert remain == 0 && Block() == [] && blocks == [];
      if status == SEND_NOTHING {
        Point(SEND_RESPHEAD, plan.header);
        return OK;
      }
      var next := if status < SEND_HEAD3 then status + 1 else status;
      var i := next - SEND_HEAD1;
      if i < |plan.heads| {
        Point(next, plan.heads[i]);
        return OK;
      }
      if plan.hasBody {
        status := SEND_BODY;
        return OK;
      }
      status, source, remain := SEND_EOF, Nowhere, 0;
      return EOF;
    }

    /** pstrblock_responce is set to a packed header. */
    method Point(next: nat, text: string)
      requires Valid() && remain == 0 && plan.WfStatus(next) && SEND_NOTHING < next < SEND_BODY && status < SEND_BODY
      requires plan.Due(next, blocks) == plan.Due(status, blocks) + text
      modifies this`status, this`source, this`off, this`remain
      ensures Valid() && status == next && remain == |text|
    {
      hide Plan.Due, Concat;
      assert Block() == [];
      assert sent + Block() == sent;
      status, source, off, remain := next, Header(text), 0, |text|;
      assert Block() == text;
    }

    /** The data in wbuf becomes a chunk. */
    method FormatData()
      requires Filling() && remain > 0
      modifies this`off, this`remain, this`blocks, wbuf
      ensures Valid() && old(blocks) <= blocks && remain > 0
      ensures |plan.Full(blocks)| <= |plan.Full(old(blocks))| + 6 * old(remain)
    {
      hide Concat, Chunk, Plan.Due, Plan.Full;
      ghost var raw := wbuf[EXTRA_CHUNK_SIZE..EXTRA_CHUNK_SIZE + remain];
      plan.NewBlock(blocks, raw);
      plan.Longer(blocks, raw);
      off, remain := FrameChunk(wbuf, remain);
      blocks := blocks + [raw];
    }

    /** The CI_EOF mark becomes the last chunk. */
    method FormatLast()
      requires FillingDone() && remain == CI_EOF
      modifies this`source, this`off, this`remain, wbuf
      ensures FillingDone() && InBounds() && sent + Block() == plan.Full(blocks) && remain > 0
    {
      hide Concat, LastChunk, Plan.Due, Plan.Full;
      var text := LastChunk(plan.last);
      plan.LastBlock(blocks);
      LastChunkFits(plan.last);
      forall i | 0 <= i < |text| {
        wbuf[i] := text[i];
      }
      source, off, remain := WriteBuffer, 0, |text|;
      assert wbuf[0..|text|] == text;
    }

    /** format_body_chunk: turn the data in wbuf into a chunk, or a CI_EOF mark into the last chunk. */
    method FormatBodyChunk() returns (r: Status)
      requires Filling() || (FillingDone() && remain == CI_EOF)
      modifies this`source, this`off, this`remain, this`blocks, wbuf
      ensures r == (if old(remain) == CI_EOF then EOF else OK)
      ensures r == OK ==> Valid() && old(blocks) <= blocks && (remain > 0 <==> old(remain) > 0)
      ensures r == EOF ==> FillingDone() && remain > 0 && InBounds() && sent + Block() == plan.Full(blocks) && blocks == old(blocks)
      ensures |plan.Full(blocks)| <= |plan.Full(old(blocks))| + if old(remain) > 0 then 6 * old(remain) else 0
    {
      hide Concat, Plan.Due, Plan.Full;
      if remain > 0 {
        FormatData();
      } else if remain == CI_EOF {
        FormatLast();
        return EOF;
      } else {
        assert Block() == [] == wbuf[EXTRA_CHUNK_SIZE..EXTRA_CHUNK_SIZE + remain];
      }
      return OK;
    }

    /** The service has reported its end and everything in front of the last chunk is sent. */
    ghost predicate FillingDone()
      reads this
    {
      Shape() && status == SEND_BODY && sent == plan.Due(status, blocks) && Concat(blocks) == total && output == []
    }

    /** The state service_io runs in: filling wbuf, or with an unsent block (or no body phase) pending. */
    ghost predicate Io(fill: bool)
      reads `status, `source, `off, `remain, `sent, `output, `total, `blocks, wbuf
    {
      if fill then Filling() else Valid()
    }

    /** The service hands over the next n bytes of its output, behind the data in wbuf. */
    method Produce(n: nat)
      requires 0 <= remain && wbuf.Length == WBUF_SIZE && remain + n <= MAX_CHUNK_SIZE && n <= |output|
      modifies this`output, wbuf
      ensures output == old(output)[n..]
      ensures wbuf[EXTRA_CHUNK_SIZE..EXTRA_CHUNK_SIZE + remain + n] ==
              old(wbuf[EXTRA_CHUNK_SIZE..EXTRA_CHUNK_SIZE + remain]) + old(output)[..n]
    {
      forall i | 0 <= i < n {
        wbuf[EXTRA_CHUNK_SIZE + remain + i] := output[i];
      }
      output := output[n..];
    }

    /** Any service: it writes at most space bytes of its output behind the data in wbuf, takes at most
        offered bytes, may unlock the data, and reports its end only when it has nothing left. */
    method ServiceIo(space: nat, offered: nat) returns (res: bool, rbytes: int, wbytes: int)
      requires 0 <= remain && wbuf.Length == WBUF_SIZE
      requires space > 0 ==> remain + space <= MAX_CHUNK_SIZE
      modifies this`output, this`locked, wbuf
      ensures (locked ==> old(locked)) && (quiet ==> locked == old(locked))
      ensures rbytes <= space && wbytes <= offered
      ensures rbytes <= 0 ==> output == old(output) && wbuf[..] == old(wbuf[..])
      ensures rbytes > 0 ==> rbytes <= |old(output)| && output == old(output)[rbytes..]
      ensures rbytes > 0 ==> wbuf[EXTRA_CHUNK_SIZE..EXTRA_CHUNK_SIZE + remain + rbytes] ==
                             old(wbuf[EXTRA_CHUNK_SIZE..EXTRA_CHUNK_SIZE + remain]) + old(output)[..rbytes]
      ensures rbytes == CI_EOF ==> output == []
      ensures steady ==> res && wbytes >= 0 && (space == 0 ==> rbytes == 0)
      ensures steady && space > 0 ==> if old(output) == [] then rbytes == CI_EOF else rbytes > 0
      ensures greedy ==> res && wbytes == offered && (rbytes >= 0 || rbytes == CI_EOF)
    {
      var unlock: bool := *;
      locked := locked && (quiet || !unlock);
      res := *;
      wbytes := *;
      if wbytes > offered {
        wbytes := offered;
      }
      rbytes := *;
      if rbytes > 0 {
        rbytes := Min(Min(rbytes, |output|), space);
      } else if rbytes == CI_EOF && output != [] {
        rbytes := 0;
      }
      if steady {
        res, wbytes := true, if wbytes < 0 then 0 else wbytes;
        rbytes := if space == 0 then 0 else if output == [] then CI_EOF else if rbytes > 0 then rbytes else 1;
      }
      if greedy {
        res, wbytes := true, offered;
        rbytes := if rbytes >= 0 || rbytes == CI_EOF then rbytes else 0;
      }
      if rbytes > 0 {
        Produce(rbytes);
      }
    }

    /** parse_chunk_data. */
    method ParseClient() returns (r: Status)
      requires client.Wf() && client.d.len > 0 && client.held == []
      modifies `client
      ensures client.Wf() && client.d.len + |client.held| <= old(client).d.len + |old(client).held|
      ensures Kept(old(client), client) && client.net == old(client).net
      ensures Known(old(client)) ==> (r == OK || r == NEEDS_MORE || r == EOF) && (r == OK ==> client.held != [])
      ensures Known(old(client)) ==> (r == EOF <==> client.eof) && (r == NEEDS_MORE ==> Ready(client))
    {
      hide Parse, Following, Known, Kept, Ready;
      ParsedKept(client);
      ParseLength(client.d, []);
      r := Parse(client.d, []).status;
      client := client.Parsed();
    }

    /** The n bytes that the service wrote behind those in wbuf are now in it. */
    method Collect(ghost raw: string, ghost out: string, n: nat)
      requires Shape() && status == SEND_BODY && wbuf.Length == WBUF_SIZE && 0 <= remain && remain + n <= MAX_CHUNK_SIZE
      requires source == WriteBuffer && off == EXTRA_CHUNK_SIZE && sent == plan.Due(status, blocks)
      requires Concat(blocks) + raw + out == total && n <= |out| && output == out[n..]
      requires wbuf[EXTRA_CHUNK_SIZE..EXTRA_CHUNK_SIZE + remain + n] == raw + out[..n]
      modifies `remain
      ensures Filling() && remain == old(remain) + n
    {
      hide Concat, Plan.Due, Shape;
      Regroup(Concat(blocks), raw, out, n);
      remain := remain + n;
    }

    /** One call of the service with what the client has pending and the free space of wbuf (none unless
        wbuf is being filled). */
    method CallService(fill: bool, space: nat, offered: nat) returns (ok: bool, rbytes: int, wbytes: int)
      requires Io(fill) && (space > 0 ==> fill && space == MAX_CHUNK_SIZE - remain) && offered <= |client.held|
      requires space > 0 && remain == 0 ==> source == WriteBuffer && off == EXTRA_CHUNK_SIZE
      modifies this`output, this`locked, this`remain, this`client, wbuf
      ensures (locked ==> old(locked)) && (quiet ==> locked == old(locked))
      ensures ok ==> Io(fill) && -2 <= rbytes <= space && 0 <= wbytes && (rbytes < 0 ==> rbytes == CI_EOF && output == [])
      ensures ok ==> |output| == |old(output)| - (if rbytes > 0 then rbytes else 0)
      ensures ok && rbytes <= 0 ==> output == old(output)
      ensures ok ==> remain == old(remain) + (if rbytes > 0 then rbytes else 0)
      ensures if ok then 0 <= wbytes <= offered && client == old(client).Taking(wbytes) else client == old(client)
      ensures (steady ==> ok && (space > 0 ==> rbytes != 0)) && (greedy ==> ok && wbytes == offered)
    {
      hide Concat, Plan.Due, Shape;
      var res;
      res, rbytes, wbytes := ServiceIo(space, offered);
      ok := res && wbytes >= 0 && (rbytes >= 0 || rbytes == CI_EOF);
      if ok {
        client := client.Taking(wbytes);
        if rbytes > 0 {
          Collect(old(wbuf[EXTRA_CHUNK_SIZE..EXTRA_CHUNK_SIZE + remain]), old(output), rbytes);
        }
      }
    }

    /** Where the service may write, and how much. */
    method FillSpace(fill: bool, eof: bool) returns (space: nat)
      requires Io(fill)
      modifies this`source, this`off
      ensures Io(fill) && space == (if fill && !eof then MAX_CHUNK_SIZE - remain else 0)
      ensures fill ==> 0 <= remain <= MAX_CHUNK_SIZE
      ensures space > 0 && remain == 0 ==> source == WriteBuffer && off == EXTRA_CHUNK_SIZE
    {
      hide Concat, Plan.Due;
      space := 0;
      if fill && !eof {
        if remain == 0 {
          source, off := WriteBuffer, EXTRA_CHUNK_SIZE;
        }
        space := MAX_CHUNK_SIZE - remain;
      }
    }

    /** One round of the inner loop: the client's part. */
    method TakeIn(parsed: Status) returns (r: Status)
      requires client.Wf() && parsed != ERROR && parsed != BAD_SIZE
      modifies `client
      ensures client.Wf() && client.d.len + |client.held| <= old(client).d.len + |old(client).held|
      ensures Kept(old(client), client) && client.net == old(client).net
      ensures Known(old(client)) ==> r != ERROR && r != BAD_SIZE
      ensures Known(old(client)) && Settled(parsed, old(client)) ==> Settled(r, client)
      ensures Known(old(client)) && r == OK && client.held == [] ==> client.d.len == 0 || old(client).held != []
    {
      hide Following, Known, Kept, Ready;
      r := parsed;
      if client.d.len != 0 && client.held == [] {
        r := ParseClient();
      } else {
        KeptSelf(client);
      }
    }

    /** What the last answer of the decoder tells about the client. */
    static predicate Settled(parsed: Status, c: Client)
    {
      (parsed == EOF ==> c.eof) && (parsed == NEEDS_MORE ==> Ready(c))
    }

    /** The inner loop of get_send_body: parse what the client sent, hand it to the service and collect
        the service's output. eof says whether the service has reported its end. What the client sent is kept
        in order, and a greedy service is given all of what has arrived. */
    method ModuleIo(fill: bool, wasEof: bool) returns (ok: bool, eof: bool)
      requires Io(fill) && (fill <==> status == SEND_BODY && remain == 0)
      requires (wasEof ==> output == []) && client.Wf()
      modifies this`output, this`locked, this`remain, this`client, this`source, this`off, wbuf
      ensures (locked ==> old(locked)) && (quiet ==> locked == old(locked))
      ensures ok ==> Io(fill) && (eof ==> output == []) && (!fill ==> remain == old(remain))
      ensures client.Wf() && Kept(old(client), client) && client.net == old(client).net
      ensures greedy && Known(old(client)) && old(client).held == [] ==> ok && Fed(client)
    {
      hide Valid, Filling, Following, Known, Kept;
      eof := wasEof;
      ok := false;
      var parsed := OK;
      var again := true;
      KeptSelf(client);
      ghost var hope := greedy && Known(client) && client.held == [];
      while again
        invariant Io(fill) && (eof ==> output == []) && (!fill ==> remain == old(remain))
        invariant fill ==> 0 <= remain <= MAX_CHUNK_SIZE
        invariant (locked ==> old(locked)) && (quiet ==> locked == old(locked))
        invariant client.Wf() && Kept(old(client), client) && client.net == old(client).net
        invariant parsed != ERROR && parsed != BAD_SIZE
        invariant hope ==> Known(client) && client.held == [] && Settled(parsed, client)
        invariant hope && !again ==> parsed != OK || client.d.len == 0
        decreases client.d.len + |client.held| + (if fill then MAX_CHUNK_SIZE - remain else 0), if again then 1 else 0
      {
        ghost var before := client;
        parsed := TakeIn(parsed);
        KeptOn(old(client), before, client);
        if hope {
          KeptKnown(before, client);
        }
        if parsed == ERROR || parsed == BAD_SIZE {
          return;
        }
        var space := FillSpace(fill, eof);
        var rbytes, wbytes := 0, 0;
        if |client.held| > 0 || space > 0 || parsed == EOF {
          before := client;
          var served;
          served, rbytes, wbytes := CallService(fill, space, |client.held|);
          if served {
            TakingKept(before, wbytes);
            KeptOn(old(client), before, client);
            if hope {
              KeptKnown(before, client);
            }
          }
          if !served {
            return;
          }
        }
        if rbytes == CI_EOF {
          eof := true;
        }
        again := (rbytes > 0 || wbytes > 0)
                 && ((client.d.len != 0 && parsed != NEEDS_MORE && parsed != EOF) || space > 0);
      }
      ok := true;
      if hope && !client.eof && client.d.len == 0 {
        MoreToCome(client);
      }
    }

    lemma Idle()
      requires Valid()
      ensures status == SEND_NOTHING ==> remain == 0
    {
    }

    /** A new block is pointed at once the current one has gone. */
    method NextBlock()
      requires Valid()
      modifies this`status, this`source, this`off, this`remain
      ensures Valid() && old(status) <= status && (locked ==> status == old(status)) && (!locked ==> status != SEND_NOTHING)
    {
      Idle();
      hide Valid;
      if !locked && remain == 0 {
        var _ := UpdateSendStatus();
      }
    }

    /** The wait is for reading, and the read fails. */
    ghost predicate ReadFails(w: Wait, wantRead: bool)
      reads `client
    {
      wantRead && w.read && (w.arrives < 0 || client.d.len >= BUFSIZE)
    }

    /** net_data_read. */
    method ReadNet(w: Wait) returns (ok: bool)
      requires client.Wf() && w.read
      modifies `client
      ensures client.Wf() && Kept(old(client), client) && (ok <==> !old(ReadFails(w, true)))
      ensures client.held == old(client).held && client.eof == old(client).eof && |client.net| <= |old(client).net|
      ensures ok && w.arrives > 0 && old(client).net != [] ==> |client.net| < |old(client).net|
    {
      KeptSelf(client);
      hide Kept, NetRead;
      ok := w.arrives >= 0 && client.d.len < BUFSIZE;
      if ok {
        var stale: string := *;
        ReadingKept(client, w.arrives, stale);
        client := client.Reading(w.arrives, stale);
      }
    }

    /** The writing half of a wait. */
    method WriteNet(accepts: int) returns (ok: bool)
      requires Valid()
      modifies this`status, this`source, this`off, this`remain, this`sent
      ensures Valid() && old(sent) <= sent && old(status) <= status && (accepts >= 0 ==> ok)
      ensures if locked then status == old(status) && (status == SEND_NOTHING ==> sent == old(sent)) else status != SEND_NOTHING
    {
      Idle();
      hide Valid, Block;
      if !locked && status == SEND_NOTHING {
        var _ := UpdateSendStatus();
      }
      BlockLength();
      ok := SendCurrentBlock(accepts);
      BlockLength();
    }

    /** One return of wait_for_data: read, and write some of the current block, as far as it waited for that. */
    method Exchange(w: Wait, wantRead: bool, wantWrite: bool) returns (ok: bool)
      requires Valid() && client.Wf()
      modifies this`status, this`source, this`off, this`remain, this`sent, this`client
      ensures Valid() && old(sent) <= sent && old(status) <= status
      ensures locked && old(status) == SEND_NOTHING ==> status == SEND_NOTHING && sent == old(sent)
      ensures !old(ReadFails(w, wantRead)) && !ok && !locked ==> status != SEND_NOTHING
      ensures old(ReadFails(w, wantRead)) ==> !ok && status == old(status)
      ensures w.Works() && !old(ReadFails(w, wantRead)) ==> ok
      ensures client.Wf() && Kept(old(client), client)
      ensures client.held == old(client).held && client.eof == old(client).eof && |client.net| <= |old(client).net|
      ensures ok && wantRead && w.Brings() && old(client).net != [] ==> |client.net| < |old(client).net|
    {
      hide Valid, Kept;
      ok := true;
      if w.read && wantRead {
        ok := ReadNet(w);
      } else {
        KeptSelf(client);
      }
      if ok && w.write && wantWrite {
        ok := WriteNet(w.accepts);
      }
    }

    /** With nothing left to send of the body, filling may start. */
    lemma MayFill()
      requires Valid() && status == SEND_BODY && remain == 0
      ensures Filling()
    {
      assert Block() == [] == wbuf[EXTRA_CHUNK_SIZE..EXTRA_CHUNK_SIZE + remain];
    }

    /** After the service was called: frame what it produced, or its end. */
    method FinishFill(eof: bool)
      requires Filling() && (eof ==> output == [])
      modifies this`status, this`source, this`off, this`remain, this`blocks, wbuf
      ensures Valid() && old(blocks) <= blocks
      ensures status == SEND_BODY || status == SEND_EOF
      ensures remain > 0 <==> old(remain) > 0 || eof
      ensures status == SEND_EOF <==> old(remain) == 0 && eof
      ensures |plan.Full(blocks)| <= |plan.Full(old(blocks))| + 6 * old(remain)
    {
      hide Concat, Plan.Full, LastChunk;
      if remain == 0 && eof {
        assert Concat(blocks) + wbuf[EXTRA_CHUNK_SIZE..EXTRA_CHUNK_SIZE + remain] + output == Concat(blocks);
        remain := CI_EOF;
      }
      var r := FormatBodyChunk();
      if r == EOF {
        status := SEND_EOF;
      }
    }

    /** What holds whenever get_send_body returns: what is sent belongs to the response to what the service
        produces, and it is nothing while the data are locked. */
    ghost predicate Sound()
      reads `sent, `blocks, `total, `locked, `status
    {
      sent <= plan.Full(blocks) && Concat(blocks) <= total && (locked ==> status == SEND_NOTHING && sent == [])
    }

    /** The choice of a block, the service, and the framing of what it produced. */
    method Process(wasEof: bool) returns (ok: bool, eof: bool)
      requires Valid() && Sound() && (wasEof ==> output == []) && client.Wf()
      modifies this, wbuf
      ensures Sound() && total == old(total) && (locked ==> old(locked)) && (quiet ==> locked == old(locked))
      ensures ok ==> Valid() && (eof ==> output == [])
      ensures !old(locked) ==> status != SEND_NOTHING
      ensures client.Wf() && Kept(old(client), client) && client.net == old(client).net
      ensures greedy && Known(old(client)) && old(client).held == [] ==> ok && Fed(client)
    {
      hide Valid, Filling, Plan.Full, Concat, Kept, Known, Fed;
      NextBlock();
      SentIsPrefix();
      var fill := status == SEND_BODY && remain == 0;
      if fill {
        MayFill();
      }
      ok, eof := ModuleIo(fill, wasEof);
      if ok {
        if fill {
          FinishFill(eof);
        }
        SentIsPrefix();
      }
    }

    /** One round of get_send_body: the wait if there is one, and the processing. */
    method Turn(wantRead: bool, wantWrite: bool, w: Wait, wasEof: bool) returns (ok: bool, eof: bool)
      requires Valid() && Sound() && (wasEof ==> output == []) && client.Wf()
      modifies this, wbuf
      ensures Sound() && total == old(total) && (locked ==> old(locked)) && (quiet ==> locked == old(locked))
      ensures ok ==> Valid() && (eof ==> output == [])
      ensures !old(locked) ==> if old(ReadFails(w, wantRead)) then !ok && status == old(status) else status != SEND_NOTHING
      ensures client.Wf() && Kept(old(client), client) && |client.net| <= |old(client).net|
      ensures greedy && Known(old(client)) && old(client).held == [] && w.Works() && !old(ReadFails(w, wantRead)) ==> ok && Fed(client)
      ensures ok && wantRead && w.Brings() && old(client).net != [] ==> |client.net| < |old(client).net|
    {
      hide Valid, Filling, Plan.Full, Concat, Kept, Known, Fed;
      eof := wasEof;
      ok := Exchange(w, wantRead, wantWrite);
      SentIsPrefix();
      if ok {
        ghost var before := client;
        if Known(old(client)) {
          KeptKnown(old(client), before);
        }
        ok, eof := Process(wasEof);
        KeptOn(old(client), before, client);
      }
    }

    /** get_send_body: receive the client's body, feed the service and send, all interleaved by waits. Only
        a prefix of the response to what the service produces is ever sent, and nothing while the data are
        locked; data that were unlocked before are answered exactly when a block comes to be chosen. Of the
        client's body nothing is lost, repeated or out of order. PROGRESS: with a greedy service it succeeds, the
        service having all of the body, if no wait fails up to the one that brings its last byte, and it uses no
        wait behind that one. */
    method GetSendBody(waits: seq<Wait>) returns (ok: bool, left: seq<Wait>)
      requires Valid() && status == SEND_NOTHING && sent == [] && client.Wf() && client.held == [] && !client.eof
      modifies this, wbuf
      ensures total == old(total) && sent <= plan.Full(blocks) && Concat(blocks) <= total
      ensures ok ==> Valid() && client.eof
      ensures locked ==> old(locked) && status == SEND_NOTHING && sent == []
      ensures quiet ==> locked == old(locked)
      ensures !old(locked) ==> (status != SEND_NOTHING <==> Begins(old(client).d.len, waits))
      ensures Kept(old(client), client) && Suffix(left, waits)
      ensures greedy && Known(old(client)) && Enough(waits, |old(client).net|) ==>
                ok && client.held == [] && |left| >= |waits| - Until(waits, |old(client).net|)
    {
      hide Valid, Filling, Plan.Full, Concat, Kept, Known, Following, Enough, Until, Suffix;
      left, ok := waits, false;
      var eof := false;
      var wantRead, wantWrite := client.d.len == 0, false;
      var going := true;
      ghost var first := true;
      ghost var need := |client.net|;
      ghost var hope := greedy && Known(client) && Enough(waits, need);
      SentIsPrefix();
      KeptSelf(client);
      assert Suffix(left, waits) by { SuffixSelf(waits); }
      if hope && wantRead {
        MoreToCome(client);
      }
      while going
        invariant Valid() && Sound() && total == old(total) && (eof ==> output == [])
        invariant (locked ==> old(locked)) && (quiet ==> locked == old(locked))
        invariant first ==> going && left == waits && status == SEND_NOTHING && wantRead == (old(client).d.len == 0) && !wantWrite
        invariant first ==> client == old(client)
        invariant !first && !old(locked) ==> status != SEND_NOTHING && Begins(old(client).d.len, waits)
        invariant client.Wf() && Kept(old(client), client) && Suffix(left, waits)
        invariant hope ==> Known(client) && client.held == [] && (wantRead ==> client.eof || Ready(client)) && InTime(waits, left, need, client)
        invariant hope && (!wantRead || client.eof) ==> first || !going
        invariant hope && !going ==> client.eof
        decreases |left|, if locked then 1 else 0, if wantRead || wantWrite then 0 else 1, if going then 1 else 0
      {
        var waiting := wantRead || wantWrite;
        if waiting && left == [] {
          if hope {
            NextWait(left, |client.net|, 0);
          }
          break;
        }
        if hope && waiting {
          NextWait(left, |client.net|, 0);
        }
        var wasLocked, w := locked, if waiting then left[0] else Wait.Wait(false, false, 0, 0);
        ghost var before, was := client, left;
        if waiting {
          SuffixOn(left, waits);
        }
        left := if waiting then left[1..] else left;
        first := false;
        var served;
        served, eof := Turn(wantRead, wantWrite, w, eof);
        KeptOn(old(client), before, client);
        if hope {
          KeptKnown(before, client);
          StillInTime(waits, was, left, need, before, client, waiting);
        }
        if !served {
          return;
        }
        wantRead, wantWrite := client.held == [], remain != 0;
        going := (!client.eof || client.held != []) && (wantRead || wantWrite || wasLocked != locked);
      }
      ok := client.eof;
    }

    lemma NothingFilled()
      requires Filling() && remain == 0
      ensures Valid()
    {
      assert Block() == [] == wbuf[EXTRA_CHUNK_SIZE..EXTRA_CHUNK_SIZE + remain];
    }

    /** Read the next part of the service's output into wbuf and frame it; stalled means the service gave
        neither data nor its end. */
    method ReadMore() returns (ok: bool, stalled: bool)
      requires Valid() && status == SEND_BODY && remain == 0
      modifies this`output, this`locked, this`client, this`status, this`source, this`off, this`remain, this`blocks, wbuf
      ensures old(blocks) <= blocks && (!ok ==> blocks == old(blocks)) && status >= SEND_BODY
      ensures ok ==> Valid()
      ensures ok && stalled ==> status == SEND_BODY && remain == 0
      ensures ok && !stalled ==> remain > 0
      ensures ok && !stalled ==> status == SEND_EOF || (status == SEND_BODY && |output| < |old(output)|)
      ensures (ok ==> Ahead() <= old(Ahead())) && (steady ==> ok && !stalled)
    {
      hide Valid, Filling, Plan.Full;
      MayFill();
      var space := FillSpace(true, false);
      var rbytes, wbytes;
      ok, rbytes, wbytes := CallService(true, space, 0);
      stalled := ok && rbytes == 0;
      if ok {
        if stalled {
          NothingFilled();
        } else {
          FinishFill(rbytes == CI_EOF);
        }
      }
    }

    /** Write the current block out, over as many waits as it takes. */
    method Drain(waits: seq<Wait>) returns (ok: bool, left: seq<Wait>)
      requires Valid()
      modifies this`sent, this`off, this`remain
      ensures Valid() && old(sent) <= sent && (ok ==> remain == 0)
      ensures Accepted(waits) >= old(remain) ==> ok
      ensures ok && Accepted(waits) >= old(Ahead()) ==> Accepted(left) >= Ahead()
    {
      hide Valid, Plan.Full, InBounds, Block;
      left, ok := waits, true;
      while remain > 0
        invariant Valid() && old(sent) <= sent && ok && |sent| + remain == |old(sent)| + old(remain)
        invariant Accepted(left) >= Accepted(waits) - (|sent| - |old(sent)|)
        decreases |left|
      {
        if left == [] {
          return false, left;
        }
        BlockLength();
        ok := SendCurrentBlock(left[0].accepts);
        BlockLength();
        left := left[1..];
        if !ok {
          return;
        }
      }
      NonNegative();
    }

    lemma NonNegative()
      requires Valid()
      ensures remain >= 0
    {
    }

    /** send_remaining_response. COMPLETENESS: when it succeeds, either the service stalled (a read of
        zero bytes, request.c:1223) or every byte of the response has been sent, its body being the
        service's whole output. PROGRESS: with a steady service and enough waits in which the socket accepts
        something it succeeds, and without a stall. */
    method SendRemainingResponse(waits: seq<Wait>) returns (ok: bool, stalled: bool)
      requires Valid()
      modifies this, wbuf
      ensures total == old(total) && sent <= plan.Full(blocks) && Concat(blocks) <= total && old(blocks) <= blocks
      ensures (ok ==> Valid()) && (ok && stalled ==> status == SEND_BODY && remain == 0)
      ensures ok && !stalled ==> sent == plan.Full(blocks) && (plan.hasBody ==> Concat(blocks) == total)
      ensures steady && Accepted(waits) >= old(Ahead()) ==> ok && !stalled
      ensures status != SEND_NOTHING
    {
      hide Valid, Filling, Plan.Full, Concat, Ahead, Accepted, Plan.Bound;
      stalled, ok := false, true;
      SentIsPrefix();
      if status == SEND_EOF && remain == 0 {
        return;
      }
      var left := waits;
      var r := OK;
      while r == OK
        invariant Valid() && sent <= plan.Full(blocks) && Concat(blocks) <= total && total == old(total) && old(blocks) <= blocks
        invariant !stalled && ok && r == (if status == SEND_EOF && remain == 0 then EOF else OK)
        invariant steady && Accepted(waits) >= old(Ahead()) ==> Accepted(left) >= Ahead()
        decreases SEND_EOF - status, |output|, if r == OK then 1 else 0
      {
        StatusBound();
        AheadBounds();
        Idle();
        ok, left := Drain(left);
        SentIsPrefix();
        if !ok {
          return;
        }
        if status == SEND_BODY {
          ok, stalled := ReadMore();
          if !ok || stalled {
            if ok {
              SentIsPrefix();
            }
            return;
          }
          SentIsPrefix();
        }
        r := UpdateSendStatus();
        StatusBound();
        SentIsPrefix();
      }
      SentIsPrefix();
    }

    lemma Formed()
      requires Valid()
      ensures GoodBlocks(blocks)
    {
    }

    lemma StatusBound()
      requires Valid()
      ensures status <= SEND_EOF
    {
    }
  }

  lemma {:induction false} ConcatSplit(xs: seq<string>, n: nat)
    requires n <= |xs|
    ensures Concat(xs) == Concat(xs[..n]) + Concat(xs[n..])
  {
    if n == 0 {
      assert xs[..0] == [] && xs[0..] == xs;
    } else {
      ConcatSplit(xs[1..], n - 1);
      assert xs[1..][..n - 1] == xs[..n][1..] && xs[1..][n - 1..] == xs[n..];
    }
  }

  /** What is behind the headers of a complete response decodes to what its blocks hold. */
  lemma BodyDecodes(plan: Plan, blocks: seq<string>, rest: string, d: Decoder, net: string, arrivals: seq<Arrival>)
    requires plan.Wf() && plan.hasBody && GoodBlocks(blocks)
    requires d.Wf() && d.cur == d.read && d.len <= BUFSIZE && d.original == -1
    requires d.Unread() + net == plan.Body(blocks) + rest
    ensures var r := Receive(d, net, arrivals);
            && (r.status == EOF || r.status == NEEDS_MORE) && r.body <= Concat(blocks)
            && (Productive(arrivals) >= |net| ==> r.status == EOF)
            && (r.status == EOF ==> r.body == Concat(blocks) && r.d.Wf() && r.d.Unread() + r.net == rest
                                    && r.d.original == (if plan.last.UseOriginal? then plan.last.offset else -1))
  {
    hide Receive, Encode, LastChunk, Concat;
    RoundTrip(blocks, plan.last, rest, d, net, arrivals);
  }

  lemma {:induction false} AcceptedMore(waits: seq<Wait>, n: nat)
    requires n <= |waits| && forall i :: 0 <= i < n ==> waits[i].Works()
    ensures Accepted(waits) >= Accepted(waits[n..])
    decreases n
  {
    if n == 0 {
      assert waits[0..] == waits;
    } else {
      AcceptedMore(waits[1..], n - 1);
      assert waits[1..][n - 1..] == waits[n..];
    }
  }

  lemma {:induction false} WorkUntil(waits: seq<Wait>, need: nat, i: nat)
    requires Enough(waits, need) && i < Until(waits, need)
    ensures waits[i].Works()
    decreases |waits|
  {
    if i > 0 {
      WorkUntil(waits[1..], if waits[0].Brings() then need - 1 else need, i - 1);
    }
  }

  /** The socket accepts at least as often in what is left as behind the last wait that was needed. */
  lemma AcceptedAfter(waits: seq<Wait>, left: seq<Wait>, need: nat)
    requires Enough(waits, need) && Suffix(left, waits) && |left| >= |waits| - Until(waits, need)
    ensures Accepted(left) >= Accepted(waits[Until(waits, need)..])
  {
    hide Enough, Accepted, Until;
    var m, n := |waits| - |left|, Until(waits, need);
    forall i | 0 <= i < n - m ensures left[i].Works() {
      WorkUntil(waits, need, m + i);
    }
    AcceptedMore(left, n - m);
    assert left[n - m..] == waits[n..];
  }

  /** END TO END. A client sends a body, and any service that produces output answers, through get_send_body and
      send_remaining_response over any schedule. What the service takes is the client's body in order, and all of
      it but what is still held when the exchange is over. Whenever sending then succeeds without a stall, the
      client finds the headers in front, and its decoder, however the network cuts what follows and whatever
      comes behind it, never fails, hands over a prefix of the output, and at the end has handed over all of it.
      All this does happen with a service that takes what it is offered and neither fails nor stalls, when no
      wait fails up to the one that brings the last byte of the body, and when after that one the socket accepts
      something often enough. */
  method Deliver(plan: Plan, output: string, steady: bool, greedy: bool, from: Client, locked: bool, waits: seq<Wait>,
                 d: Decoder, rest: string, arrivals: seq<Arrival>)
    returns (received: bool, to: Client, done: bool, sent: string, r: Reception)
    requires plan.Wf() && plan.hasBody && d.Wf() && d.cur == d.read && d.len == 0 && d.original == -1
    requires from.Wf() && from.held == [] && !from.eof
    ensures received ==> forall body, last :: Following(from, body, last) ==> to.taken + to.held == body
    ensures greedy && Known(from) && Enough(waits, |from.net|) ==> received && to.held == []
    ensures greedy && steady && Known(from) && Enough(waits, |from.net|) ==>
              Accepted(waits[Until(waits, |from.net|)..]) >= plan.Bound(output) ==> done
    ensures done ==> received && plan.Heads(|plan.heads|) <= sent
    ensures done ==> (r.status == EOF || r.status == NEEDS_MORE) && r.body <= output
    ensures done && Productive(arrivals) >= |sent| + |rest| ==> r.status == EOF
    ensures done && r.status == EOF ==>
              && r.body == output && r.d.Wf() && r.d.Unread() + r.net == rest
              && r.d.original == if plan.last.UseOriginal? then plan.last.offset else -1
  {
    hide Receive, Concat, Plan.Body, Plan.Heads, Plan.Bound, Responder.Valid, Responder.Ahead, Known, Enough, Until, Accepted, Suffix;
    var s := new Responder(plan, output, from, locked, false, steady, greedy);
    var left;
    received, left := s.GetSendBody(waits);
    to, done, sent, r := s.client, false, s.sent, Reception(ERROR, d, [], []);
    if received {
      s.AheadBounds();
      if greedy && Known(from) && Enough(waits, |from.net|) {
        AcceptedAfter(waits, left, |from.net|);
      }
      s.locked := false;
      var ok, stalled := s.SendRemainingResponse(left);
      done, sent := ok && !stalled, s.sent;
      if done {
        s.Formed();
        var net := sent[|plan.Heads(|plan.heads|)|..] + rest;
        assert d.Unread() + net == plan.Body(s.blocks) + rest;
        BodyDecodes(plan, s.blocks, rest, d, net, arrivals);
        r := Receive(d, net, arrivals);
      }
    }
  }
}
