/** Receiving a whole body with the in-place decoder: the loop around parse_chunk_data and net_data_read. */
module BodyReceiver {
  import opened ChunkCodec
  import opened ChunkReader

  /** The number of network answers that bring something. */
  function Answers(sizes: seq<nat>): nat
  {
    if sizes == [] then 0 else (if sizes[0] > 0 then 1 else 0) + Answers(sizes[1..])
  }

  /** A correct place in the body, for a decoder that started as d: so much is handed over, and the rest is in
      the buffer or to come. */
  ghost predicate Within(d: Decoder, e: Decoder, net: string, body: string, p: Pos, all: string, last: Last, rest: string)
  {
    Tracks(e, net, p, last, rest) && body + p.Due() == all && SameFlags(d, e)
  }

  /** The end of it. */
  ghost predicate Complete(d: Decoder, e: Decoder, net: string, body: string, all: string, last: Last, rest: string)
  {
    body == all && e.Wf() && e.Unread() + net == rest && Ended(d, e, last)
  }

  lemma Starts(d: Decoder, net: string, blocks: seq<string>, last: Last, rest: string)
    requires GoodBlocks(blocks) && GoodLast(last) && d.Wf() && d.cur == d.read && d.len <= BUFSIZE
    requires d.Unread() + net == Encode(blocks) + LastChunk(last) + rest
    ensures Within(d, d, net, [], Pos([], 0, blocks), Concat(blocks), last, rest)
  {
    hide Encode, LastChunk, GoodLast;
    assert Encode([]) == [] by { EmptyEncoded(); }
    assert Future(Pos([], 0, blocks), last, rest) == Encode(blocks) + LastChunk(last) + rest;
  }

  lemma EmptyEncoded()
    ensures Encode([]) == []
  {
  }

  /** One call of the decoder. */
  lemma Parsed(d: Decoder, e: Decoder, net: string, body: string, p: Pos, all: string, last: Last, rest: string)
    returns (q: Pos)
    requires e.Wf() && Within(d, e, net, body, p, all, last, rest)
    ensures var o := Parse(e, []);
            && (o.status == OK || o.status == NEEDS_MORE || o.status == EOF) && o.d.Wf()
            && (o.status == EOF ==> Complete(d, o.d, net, body + o.data, all, last, rest))
            && (o.status != EOF ==> Within(d, o.d, net, body + o.data, q, all, last, rest))
            && (o.status == NEEDS_MORE ==> o.d.len < BUFSIZE && net != [])
  {
    hide Parse, Tracks, Decoder.Wf;
    q := ParseTracks(e, [], net, p, last, rest);
    assert [] + p.Due() == p.Due();
    var o := Parse(e, []);
    assert body + o.data + q.Due() == body + (o.data + q.Due());
  }

  /** One answer of the network. */
  lemma Arrived(d: Decoder, e: Decoder, net: string, k: nat, stale: string, body: string, p: Pos, all: string,
                last: Last, rest: string)
    requires e.Wf() && Within(d, e, net, body, p, all, last, rest) && k <= |net| && e.len + k <= BUFSIZE
    ensures Within(d, NetRead(e, net[..k], stale), net[k..], body, p, all, last, rest)
  {
    hide Tracks;
    ReadTracks(e, net, k, stale, p, last, rest);
  }

  lemma Prefix(d: Decoder, e: Decoder, net: string, body: string, p: Pos, all: string, last: Last, rest: string)
    requires Within(d, e, net, body, p, all, last, rest)
    ensures body <= all
  {
    hide Tracks;
    assert body <= body + p.Due();
  }

  /** parse_chunk_data, and the data it found handed over. */
  method HandOver(r: Reader, ghost d: Decoder, ghost net: string, body: string, ghost p: Pos, ghost all: string,
                  ghost last: Last, ghost rest: string)
    returns (status: Status, more: string, ghost q: Pos)
    requires r.Valid() && r.pending == 0 && Within(d, r.View(), net, body, p, all, last, rest)
    modifies r
    ensures r.Valid() && r.block == old(r.block) && r.pending == 0
    ensures (status == OK || status == NEEDS_MORE || status == EOF) && (status == OK ==> r.len < old(r.len))
    ensures status == EOF ==> Complete(d, r.View(), net, more, all, last, rest)
    ensures status != EOF ==> Within(d, r.View(), net, more, q, all, last, rest)
    ensures status == NEEDS_MORE ==> r.len < BUFSIZE && net != []
  {
    hide Parse, Within, Complete, Decoder.Wf;
    q := Parsed(d, r.View(), net, body, p, all, last, rest);
    var wdata;
    status, wdata := r.ParseChunkData();
    more := body + r.block[wdata..wdata + r.pending];
    r.pending := 0;
  }

  /** net_data_read. */
  method ReadOn(r: Reader, net: string, size: nat, ghost d: Decoder, ghost body: string, ghost p: Pos, ghost all: string,
                ghost last: Last, ghost rest: string)
    returns (left: string)
    requires r.Valid() && r.pending == 0 && Within(d, r.View(), net, body, p, all, last, rest) && r.len < BUFSIZE && net != []
    modifies r`block, r`pos, r`len, r.rbuf
    ensures r.Valid() && r.block == r.rbuf && Within(d, r.View(), left, body, p, all, last, rest)
    ensures |left| <= |net| && (size > 0 ==> |left| < |net|)
  {
    hide Within, NetRead;
    ghost var e := r.View();
    var ok, n := r.NetDataRead(net, size);
    Arrived(d, e, net, n, r.rbuf[e.len + n..], body, p, all, last, rest);
    left := net[n..];
  }

  /** THE ROUND TRIP in place. The body in front of rest reaches the reader partly with the header and partly
      from the network, which offers sizes bytes with its answers. The reader never fails, hands over a prefix
      of the data, and at the end all of it, with the end flag, the 206 offset and the bytes behind; and it does
      come to the end if the network answers often enough. */
  method ReceiveBody(r: Reader, net: string, sizes: seq<nat>, ghost blocks: seq<string>, ghost last: Last, ghost rest: string)
    returns (status: Status, body: string, left: string)
    requires r.Valid() && r.pending == 0 && r.cur == r.got && GoodBlocks(blocks) && GoodLast(last)
    requires r.View().Unread() + net == Encode(blocks) + LastChunk(last) + rest
    modifies r, r.rbuf
    ensures r.Valid() && (status == EOF || status == NEEDS_MORE) && body <= Concat(blocks)
    ensures status == EOF ==> body == Concat(blocks) && r.View().Unread() + left == rest
    ensures status == EOF ==> r.eof == (old(r.eof) || !last.Plain?)
    ensures status == EOF ==> r.original == if last.UseOriginal? then last.offset else old(r.original)
    ensures Answers(sizes) >= |net| ==> status == EOF
  {
    hide Within, Concat, Encode, LastChunk, GoodBlocks, GoodLast;
    ghost var d, p, all := r.View(), Pos([], 0, blocks), Concat(blocks);
    Starts(d, net, blocks, last, rest);
    body, left := [], net;
    var todo := sizes;
    while true
      invariant r.Valid() && r.pending == 0 && Within(d, r.View(), left, body, p, all, last, rest)
      invariant r.block == old(r.block) || r.block == r.rbuf
      invariant Answers(sizes) >= |net| ==> Answers(todo) >= |left|
      decreases |todo|, r.len
    {
      status, body, p := HandOver(r, d, left, body, p, all, last, rest);
      if status == EOF {
        return;
      }
      if status == NEEDS_MORE {
        if todo == [] {
          Prefix(d, r.View(), left, body, p, all, last, rest);
          return;
        }
        left := ReadOn(r, left, todo[0], d, body, p, all, last, rest);
        todo := todo[1..];
      }
    }
  }
}
