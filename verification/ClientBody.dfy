/** The client's side of the exchange of bodies: what it has sent and sends on, the decoder between the network
    and the service, and what the service has been given of it. */
module ClientBody {
  import opened Bytes
  import opened ChunkCodec

  /** net is still to arrive; held is what write_to_module_pending covers; taken is what the service took; eof is
      eof_received. */
  datatype Client = Client(d: Decoder, net: string, held: string, taken: string, eof: bool)
  {
    predicate Wf() { d.Wf() }

    /** parse_chunk_data, with nothing held. */
    function Parsed(): Client
      requires Wf()
    {
      var o := Parse(d, []);
      this.(d := o.d, held := o.data, eof := eof || o.status == EOF)
    }

    /** net_data_read of at most k bytes. */
    function Reading(k: nat, stale: string): Client
      requires Wf() && d.len < BUFSIZE
    {
      var n := Min(Min(k, |net|), BUFSIZE - d.len);
      this.(d := NetRead(d, net[..n], stale), net := net[n..])
    }

    /** The service takes n bytes. */
    function Taking(n: nat): Client
      requires n <= |held|
    {
      this.(held := held[n..], taken := taken + held[..n])
    }
  }

  /** The client sends this body and nothing behind it, and so far nothing of it is lost, repeated or out of order. */
  ghost predicate Following(c: Client, body: string, last: Last)
  {
    c.Wf() && if c.eof then c.net == [] && c.d.len == 0 && c.taken + c.held == body
              else exists p :: Tracks(c.d, c.net, p, last, []) && c.taken + c.held + p.Due() == body
  }

  ghost predicate Known(c: Client) { exists body, last :: Following(c, body, last) }

  /** Whatever body c followed, e follows. */
  ghost predicate Kept(c: Client, e: Client)
  {
    forall body, last :: Following(c, body, last) ==> Following(e, body, last)
  }

  /** There is more to come, and room for it. */
  predicate Ready(c: Client) { c.d.len < BUFSIZE && c.net != [] }

  /** The service has all that has arrived. */
  predicate Fed(c: Client) { c.held == [] && (c.eof || Ready(c)) }

  lemma KeptOn(c: Client, e: Client, f: Client)
    requires Kept(c, e) && Kept(e, f)
    ensures Kept(c, f)
  {
    hide Following;
  }

  lemma KeptKnown(c: Client, e: Client)
    requires Kept(c, e) && Known(c)
    ensures Known(e)
  {
    hide Following;
  }

  lemma KeptSelf(c: Client)
    ensures Kept(c, c)
  {
  }

  /** In front of an encoded body. */
  lemma Starts(c: Client, blocks: seq<string>, last: Last)
    requires c.Wf() && !c.eof && c.held == [] && c.taken == [] && GoodBlocks(blocks) && GoodLast(last)
    requires c.d.cur == c.d.read && c.d.len <= BUFSIZE && c.d.Unread() + c.net == Encode(blocks) + LastChunk(last)
    ensures Following(c, Concat(blocks), last)
  {
    hide Encode, LastChunk, GoodLast, GoodBlocks;
    var p := Pos([], 0, blocks);
    assert Future(p, last, []) == Encode(blocks) + LastChunk(last);
    assert p.Due() == Concat(blocks);
    assert Tracks(c.d, c.net, p, last, []) && c.taken + c.held + p.Due() == Concat(blocks);
  }

  /** A body has an end, so that with nothing unread there is more to come. */
  lemma MoreToCome(c: Client)
    requires Known(c) && !c.eof && c.d.len == 0
    ensures Ready(c)
  {
    var body, last :| Following(c, body, last);
    var p :| Tracks(c.d, c.net, p, last, []) && c.taken + c.held + p.Due() == body;
    assert c.d.Unread() == [];
    EndIsThere(p, last);
  }

  lemma EndIsThere(p: Pos, last: Last)
    ensures Future(p, last, []) != []
  {
    assert |LastChunk(last)| >= 4;
    hide Encode, LastChunk;
  }

  /** What the decoder hands over is the next part of the body. */
  lemma ParsedFollows(c: Client, body: string, last: Last)
    requires Following(c, body, last) && c.d.len > 0 && c.held == []
    ensures var s := Parse(c.d, []).status;
            && (s == OK || s == NEEDS_MORE || s == EOF) && Following(c.Parsed(), body, last)
            && (s == EOF <==> c.Parsed().eof) && (s == NEEDS_MORE ==> Ready(c.Parsed()))
  {
    hide Parse, Tracks;
    var p :| Tracks(c.d, c.net, p, last, []) && c.taken + c.held + p.Due() == body;
    var q := ParseTracks(c.d, [], c.net, p, last, []);
    var o := Parse(c.d, []);
    assert [] + p.Due() == p.Due();
    assert c.taken + c.held == c.taken;
    assert c.taken + (o.data + q.Due()) == c.taken + o.data + q.Due();
    assert c.taken + o.data + [] == c.taken + o.data;
    if o.status == EOF {
      NothingLeft(o.d, c.net);
    } else {
      assert Tracks(o.d, c.net, q, last, []) && c.Parsed().taken + c.Parsed().held + q.Due() == body;
    }
  }

  lemma NothingLeft(d: Decoder, net: string)
    requires d.Wf() && d.Unread() + net == []
    ensures net == [] && d.len == 0
  {
    assert |d.Unread() + net| == d.len + |net|;
  }

  lemma ParsedKept(c: Client)
    requires c.Wf() && c.d.len > 0 && c.held == []
    ensures Kept(c, c.Parsed())
    ensures Known(c) ==> var s := Parse(c.d, []).status;
              && (s == OK || s == NEEDS_MORE || s == EOF)
              && (s == EOF <==> c.Parsed().eof) && (s == NEEDS_MORE ==> Ready(c.Parsed()))
  {
    hide Following, Parse;
    forall body, last | Following(c, body, last) ensures Following(c.Parsed(), body, last) {
      ParsedFollows(c, body, last);
    }
    if Known(c) {
      var body, last :| Following(c, body, last);
      ParsedFollows(c, body, last);
    }
  }

  lemma ReadingKept(c: Client, k: nat, stale: string)
    requires c.Wf() && c.d.len < BUFSIZE
    ensures Kept(c, c.Reading(k, stale)) && c.Reading(k, stale).Wf()
  {
    forall body, last | Following(c, body, last) ensures Following(c.Reading(k, stale), body, last) {
      ReadingFollows(c, k, stale, body, last);
    }
  }

  lemma ReadingFollows(c: Client, k: nat, stale: string, body: string, last: Last)
    requires Following(c, body, last) && c.d.len < BUFSIZE
    ensures Following(c.Reading(k, stale), body, last)
  {
    var e, n := c.Reading(k, stale), Min(Min(k, |c.net|), BUFSIZE - c.d.len);
    if !c.eof {
      var p :| Tracks(c.d, c.net, p, last, []) && c.taken + c.held + p.Due() == body;
      ReadTracks(c.d, c.net, n, stale, p, last, []);
      hide Tracks;
      assert Tracks(e.d, e.net, p, last, []) && e.taken + e.held + p.Due() == body;
    }
  }

  lemma TakingKept(c: Client, n: nat)
    requires n <= |c.held|
    ensures Kept(c, c.Taking(n))
  {
    var e := c.Taking(n);
    assert e.taken + e.held == c.taken + c.held by {
      assert c.held == c.held[..n] + c.held[n..];
    }
    hide Tracks;
    forall body, last | Following(c, body, last) ensures Following(e, body, last) {
      if !c.eof {
        var p :| Tracks(c.d, c.net, p, last, []) && c.taken + c.held + p.Due() == body;
        assert Tracks(e.d, e.net, p, last, []) && e.taken + e.held + p.Due() == body;
      }
    }
  }

  /** The decoder makes no bytes. */
  lemma {:induction false} ParseLength(d: Decoder, data: string)
    requires d.Wf()
    ensures |Parse(d, data).data| + Parse(d, data).d.len <= |data| + d.len
    decreases d.len, 1
  {
    if d.cur == d.read {
      match ParseDefinition(d)
      case Size(e) => if data == [] { ParseDataLength(e); }
      case _ =>
    } else if data == [] {
      ParseDataLength(d);
    }
  }

  lemma {:induction false} ParseDataLength(d: Decoder)
    requires d.Wf() && d.read < d.cur
    ensures |ParseData(d).data| + ParseData(d).d.len <= d.len
    decreases d.len, 0
  {
    if d.len > 0 {
      var (data, e) := TakeData(d);
      if e.len > 0 {
        ParseLength(e, data);
      }
    }
  }
}
