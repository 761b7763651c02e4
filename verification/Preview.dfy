/** Reading the preview of a body into its buffer: read_preview_data of request.c and ci_buf of
    request_common.c. */
module Preview {
  import opened Bytes
  import opened ChunkCodec
  import BufferPools

  /** struct ci_buf. */
  class Buf {
    var data: string        // the used part
    var size: nat

    /** A buffer as an earlier request left it. */
    constructor (size: nat)
      ensures data == [] && this.size == size
    {
      data, this.size := [], size;
    }

    /** ci_buf_reset_and_resize, when there is memory. */
    method Resize(request: nat)
      requires request >= 1
      modifies this
      ensures data == [] && size == Capacity(old(size), request)
    {
      data := [];
      if size < request {
        size := BufferPools.ClassOf(request);
      }
    }

    /** ci_buf_write: all of the data or nothing. */
    method Write(more: string) returns (r: int)
      requires |data| <= size
      modifies `data
      ensures |data| <= size && (r < 0 <==> |old(data)| + |more| > size)
      ensures data == if r < 0 then old(data) else old(data) + more
    {
      if |more| > size - |data| {
        return -1;
      }
      data := data + more;
      r := |more|;
    }
  }

  /** The size of a buffer after it was asked to hold a request. */
  function Capacity(size: nat, request: nat): (r: nat)
    requires request >= 1
    ensures r >= request
  {
    if size >= request then size else BufferPools.ClassOf(request)
  }

  // ------------------------------------------------------------------ read_preview_data

  /** The outcome of a preview whose data must fit size bytes: OK when the rest of the body may follow, EOF
      when there is none. */
  function PreviewRead(d: Decoder, net: string, arrivals: seq<Arrival>, size: nat): Status
    requires d.Wf()
  {
    var r := Receive(d, net, arrivals);
    if r.status != EOF || |r.body| > size then ERROR else if r.d.eof then EOF else OK
  }

  /** The reception all is part of the one that is left, with the data of the buffer in front. */
  predicate Continues(all: Reception, left: Reception, data: string)
  {
    all == left.(body := data + left.body)
  }

  /** What one call of the decoder leaves of a reception. */
  lemma ReadOn(d: Decoder, net: string, arrivals: seq<Arrival>, all: Reception, data: string, o: Outcome)
    requires d.Wf() && o == Parse(d, []) && Continues(all, Receive(d, net, arrivals), data)
    ensures data + o.data <= all.body
    ensures o.status != OK && (o.status != NEEDS_MORE || arrivals == []) ==>
              all.status == o.status && all.d == o.d && all.body == data + o.data
    ensures o.status == NEEDS_MORE && arrivals != [] && o.d.len >= BUFSIZE ==> all.status == ERROR
    ensures o.status == OK ==> Continues(all, Receive(o.d, net, arrivals), data + o.data)
    ensures o.status == NEEDS_MORE && arrivals != [] && o.d.len < BUFSIZE ==>
              Continues(all, Receive(Refilled(o.d, net, arrivals), net[Taken(o.d, net, arrivals)..], arrivals[1..]), data + o.data)
  {
    hide Parse, Receive;
    var left := Continue(o, net, arrivals);
    assert left == Receive(d, net, arrivals) by { Unfold(d, net, arrivals); }
    if o.status == OK {
      assert data + (o.data + Receive(o.d, net, arrivals).body) == data + o.data + Receive(o.d, net, arrivals).body;
    } else if o.status == NEEDS_MORE && arrivals != [] && o.d.len < BUFSIZE {
      var next := Receive(Refilled(o.d, net, arrivals), net[Taken(o.d, net, arrivals)..], arrivals[1..]);
      assert data + (o.data + next.body) == data + o.data + next.body;
    }
  }

  lemma Unfold(d: Decoder, net: string, arrivals: seq<Arrival>)
    requires d.Wf()
    ensures Receive(d, net, arrivals) == Continue(Parse(d, []), net, arrivals)
  {
  }

  /** How many bytes the next answer of the network brings, and the decoder with them. */
  function Taken(d: Decoder, net: string, arrivals: seq<Arrival>): (k: nat)
    requires d.len < BUFSIZE && arrivals != []
    ensures k <= |net|
  {
    Min(Min(arrivals[0].size, |net|), BUFSIZE - d.len)
  }

  function Refilled(d: Decoder, net: string, arrivals: seq<Arrival>): Decoder
    requires d.Wf() && d.len < BUFSIZE && arrivals != []
  {
    NetRead(d, net[..Taken(d, net, arrivals)], arrivals[0].stale)
  }

  /** read_preview_data: parse, store and read on until the zero chunk. */
  method ReadPreviewData(start: Decoder, stream: string, answers: seq<Arrival>, buf: Buf) returns (r: Status)
    requires start.Wf() && buf.data == []
    modifies buf`data
    ensures r == PreviewRead(start, stream, answers, buf.size)
    ensures r != ERROR ==> buf.data == Receive(start, stream, answers).body
  {
    hide Parse, Continue, Receive;
    var d, net, arrivals := start, stream, answers;
    ghost var all := Receive(start, stream, answers);
    assert [] + all.body == all.body;
    while true
      invariant d.Wf() && |buf.data| <= buf.size && Continues(all, Receive(d, net, arrivals), buf.data)
      decreases |arrivals|, d.len
    {
      var o := Parse(d, []);
      ReadOn(d, net, arrivals, all, buf.data, o);
      if o.status == ERROR || o.status == BAD_SIZE {
        return ERROR;
      }
      var written := buf.Write(o.data);
      if written < 0 {
        return ERROR;
      }
      if o.status == EOF {
        return if o.d.eof then EOF else OK;
      }
      d := o.d;
      if o.status == NEEDS_MORE {
        if arrivals == [] || d.len >= BUFSIZE {
          return ERROR;
        }
        d, net, arrivals := Refilled(d, net, arrivals), net[Taken(d, net, arrivals)..], arrivals[1..];
      }
    }
  }

  // ------------------------------------------------------------------ the end of a preview

  /** However the network cuts a preview: once all of it has arrived, reading it fails if and only if its data
      do not fit the buffer; otherwise the data are exactly those of the client, and the rest of the body
      is asked for exactly when the last chunk is plain. */
  lemma PreviewEnds(blocks: seq<string>, last: Last, rest: string, d: Decoder, net: string, arrivals: seq<Arrival>, size: nat)
    requires GoodBlocks(blocks) && GoodLast(last) && !d.eof && d.Wf() && d.cur == d.read && d.len <= BUFSIZE
    requires d.Unread() + net == Encode(blocks) + LastChunk(last) + rest
    ensures PreviewRead(d, net, arrivals, size) == OK ==> last.Plain?
    ensures PreviewRead(d, net, arrivals, size) == EOF ==> !last.Plain?
    ensures PreviewRead(d, net, arrivals, size) != ERROR ==> Receive(d, net, arrivals).body == Concat(blocks)
    ensures Productive(arrivals) >= |net| ==> (PreviewRead(d, net, arrivals, size) == ERROR <==> |Concat(blocks)| > size)
  {
    hide Receive, Encode, LastChunk, Concat;
    RoundTrip(blocks, last, rest, d, net, arrivals);
  }

  /** A preview that is not longer than the client announced never fails once it has arrived: the buffer is
      made for the announced length and 64 bytes more. */
  lemma AnnouncedFits(announced: nat, before: nat, blocks: seq<string>, last: Last, rest: string,
                      d: Decoder, net: string, arrivals: seq<Arrival>)
    requires GoodBlocks(blocks) && GoodLast(last) && !d.eof && d.Wf() && d.cur == d.read && d.len <= BUFSIZE
    requires d.Unread() + net == Encode(blocks) + LastChunk(last) + rest
    requires |Concat(blocks)| <= announced && Productive(arrivals) >= |net|
    ensures PreviewRead(d, net, arrivals, Capacity(before, announced + 64)) == if last.Plain? then OK else EOF
  {
    hide Receive, Encode, LastChunk, Concat, PreviewRead, BufferPools.ClassOf;
    PreviewEnds(blocks, last, rest, d, net, arrivals, Capacity(before, announced + 64));
    Outcomes(d, net, arrivals, Capacity(before, announced + 64));
  }

  lemma Outcomes(d: Decoder, net: string, arrivals: seq<Arrival>, size: nat)
    requires d.Wf()
    ensures PreviewRead(d, net, arrivals, size) in {OK, EOF, ERROR}
  {
  }

  /** A longer one may fail: a preview announced as empty but of one chunk of 65 bytes. */
  lemma OversizeFails(data: string, d: Decoder, net: string, arrivals: seq<Arrival>)
    requires |data| == 65 && !d.eof && d.Wf() && d.cur == d.read && d.len == 0
    requires net == Encode([data]) + LastChunk(Plain) && Productive(arrivals) >= |net|
    ensures Capacity(0, 0 + 64) == 64 && PreviewRead(d, net, arrivals, Capacity(0, 0 + 64)) == ERROR
  {
    hide Receive, Encode, LastChunk, PreviewRead;
    assert Concat([data]) == data by { assert Concat([]) == []; }
    assert d.Unread() + net == Encode([data]) + LastChunk(Plain) + [];
    PreviewEnds([data], Plain, [], d, net, arrivals, 64);
  }
}
