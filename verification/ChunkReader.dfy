/** The receiving half of ci_request_t: parse_chunk_data and net_data_read (request_common.c) on the
    read buffer, proved against the decoder of ChunkCodec. */
module ChunkReader {
  import opened Bytes
  import opened Text
  import opened ChunkCodec

  lemma SliceOf(s: string, i: nat, n: nat)
    requires i + n <= |s|
    ensures s[i..][..n] == s[i..i + n] && s[i..][n..] == s[i + n..]
  {
  }

  lemma TakeSlices(s: string, pos: nat, d: Decoder, n: nat, k: nat)
    requires pos <= |s| && d.mem == s[pos..] && d.Wf() && d.read < d.cur && d.len > 0
    requires k == Min(d.cur - d.read, d.len) && n == DataBytes(d.cur - d.read, d.len)
    ensures pos + n <= |s| && pos + k <= |s|
    ensures TakeData(d) == (s[pos..pos + n], d.(mem := s[pos + k..], len := d.len - k, read := d.read + k))
  {
    SliceOf(s, pos, n);
    SliceOf(s, pos, k);
  }

  class Reader {
    const rbuf: array<char>   // BUFSIZE bytes
    var block: array<char>    // the buffer pstrblock_read points into: rbuf, or the header buffer it started in
    var pos: nat              // pstrblock_read - block
    var len: nat              // pstrblock_read_len
    var cur: nat              // current_chunk_len
    var got: nat              // chunk_bytes_read
    var pending: nat          // write_to_module_pending
    var eof: bool             // eof_received
    var original: int         // i206_use_original_body

    /** A request whose header was read into head, with n body bytes behind the header at index from. */
    constructor (head: array<char>, from: nat, n: nat)
      requires from + n <= head.Length && n <= BUFSIZE
      ensures Valid() && fresh(rbuf) && block == head
      ensures View() == Decoder(head[from..], n, 0, 0, false, -1) && pending == 0
    {
      rbuf := new char[BUFSIZE];
      block, pos, len := head, from, n;
      cur, got, pending, eof, original := 0, 0, 0, false, -1;
    }

    ghost predicate Valid()
      reads this
    {
      rbuf.Length == BUFSIZE && pos + len <= block.Length && len <= BUFSIZE && got <= cur <= INT_MAX
    }

    ghost function View(): (d: Decoder)
      requires Valid()
      reads this, block
      ensures d.Wf()
    {
      Decoder(block[pos..], len, cur, got, eof, original)
    }

    /** pstrblock_read += k, pstrblock_read_len -= k. */
    method Consumed(k: nat)
      requires Valid() && k <= len
      modifies this`pos, this`len
      ensures Valid() && View() == Advance(old(View()), k)
    {
      ghost var s := block[..];
      SliceOf(s, pos, k);
      len, pos := len - k, pos + k;
      assert block[..] == s;
    }

    /** Skip blanks and tabs in the memory at pstrblock_read. */
    method SkipBlanks(from: nat) returns (end: nat)
      requires Valid() && pos + from <= block.Length
      ensures end == SkipBlank(block[pos..], from)
    {
      ghost var mem := block[pos..];
      end := from;
      while pos + end < block.Length && (block[pos + end] == ' ' || block[pos + end] == '\t')
        invariant end <= |mem| && SkipBlank(mem, from) == SkipBlank(mem, end)
      {
        end := end + 1;
      }
    }

    /** Skip everything up to the next CR. */
    method SkipToReturn(from: nat) returns (end: nat)
      requires Valid() && pos + from <= block.Length
      ensures end == SkipToCr(block[pos..], from)
    {
      ghost var mem := block[pos..];
      end := from;
      while pos + end < block.Length && block[pos + end] != '\r'
        invariant end <= |mem| && SkipToCr(mem, from) == SkipToCr(mem, end)
      {
        end := end + 1;
      }
    }

    /** The extension of the zero chunk; from indexes the ';'. */
    method ReadExtension(from: nat) returns (ok: bool, end: nat)
      requires Valid() && pos + from < block.Length
      modifies this`eof, this`original
      ensures Valid()
      ensures var x := ParseExtension(old(View()), from);
              ok == x.Extension? && (ok ==> View() == x.d && end == x.end)
    {
      hide Strtol, SkipBlank, SkipToCr, MatchesAt;
      ok := true;
      end := SkipBlanks(from + 1);
      var mem := block[pos..];
      var remains := len - end;
      var isOriginal := remains >= 18 && MatchesAt(mem, USE_ORIGINAL, end);
      if isOriginal {
        var n := Strtol(mem, end + 18, 10);
        original := n.value;
        end := n.end;
      } else if remains >= 4 && !MatchesAt(mem, "ieof", end) {
        return false, end;
      }
      end := SkipToReturn(end);
      eof := true;
    }

    /** A size line saying zero, with its CRLF at index i and its digits ending at from. */
    method ReadZero(i: nat, from: nat) returns (status: Status)
      requires Valid() && cur == got && i + 2 <= len && pos + from <= block.Length
      modifies this
      ensures block == old(block) && pending == old(pending)
      ensures match ParseZero(old(View()), i, from)
              case Wait(e) => status == NEEDS_MORE && Valid() && View() == e
              case Failed(s) => status == s
              case Zero(e) => status == EOF && Valid() && View() == e
    {
      hide ParseExtension, Advance;
      var mem := block[pos..];
      if len - (i + 2) < 2 {
        return NEEDS_MORE;
      }
      if mem[i + 2] != '\r' && mem[i + 3] != '\n' {
        return ERROR;
      }
      var ok, end := true, from;
      if from < |mem| && mem[from] == ';' {
        ok, end := ReadExtension(from);
      }
      if !ok || Peek(mem, end) != '\r' || Peek(mem, end + 1) != '\n' {
        return ERROR;
      }
      Consumed(i + 4);
      status := EOF;
    }

    /** The READ_CHUNK_DEF half of the loop body: OK after the size line of a chunk, EOF after a whole
        zero chunk. */
    method ReadDefinition() returns (status: Status)
      requires Valid() && cur == got
      modifies this
      ensures block == old(block) && pending == old(pending)
      ensures match ParseDefinition(old(View()))
              case Wait(e) => status == NEEDS_MORE && Valid() && View() == e
              case Failed(s) => status == s
              case Zero(e) => status == EOF && Valid() && View() == e
              case Size(e) => status == OK && Valid() && View() == e
    {
      hide Strtol, IndexOf, SkipBlank, ParseZero, Advance;
      var mem := block[pos..];
      var i := StrnStr(mem, CRLF, len);
      if i < 0 {
        return if len >= BUFSIZE then ERROR else NEEDS_MORE;
      }
      var n := Strtol(mem, 0, 16);
      if n.value == 0 && n.end == 0 {
        return ERROR;
      }
      if n.value < 0 || n.value > INT_MAX - 2 {
        return BAD_SIZE;
      }
      var end := SkipBlanks(n.end);
      if n.value == 0 {
        cur, got := 0, 0;
        status := ReadZero(i, end);
        return;
      }
      if Peek(mem, end) != '\r' || Peek(mem, end + 1) != '\n' {
        return ERROR;
      }
      Consumed(i + 2);
      cur, got := n.value + 2, 0;
      status := OK;
    }

    /** The READ_CHUNK_DATA half of the loop body. */
    method TakeChunkData() returns (wdata: nat)
      requires Valid() && got < cur && len > 0 && pending == 0
      modifies this`pos, this`len, this`got, this`pending
      ensures Valid() && wdata + pending <= block.Length
      ensures (block[wdata..wdata + pending], View()) == TakeData(old(View()))
    {
      wdata := pos;
      ghost var d := View();
      var remains, n := cur - got, 0;
      var k := if remains <= len then remains else len;
      if remains <= len {
        n := if remains > 2 then remains - 2 else 0;
      } else {
        var tmp := remains - len;
        n := if tmp < 2 then len - tmp else len;
      }
      ghost var s := block[..];
      TakeSlices(s, pos, d, n, k);
      hide TakeData;
      pending, got, pos, len := n, got + k, pos + k, len - k;
      assert block[..] == s;
    }

    /** parse_chunk_data: afterwards the data for the service is block[wdata..wdata + pending]. */
    method ParseChunkData() returns (status: Status, wdata: nat)
      requires Valid()
      modifies this
      ensures block == old(block)
      ensures old(pending) != 0 ==> status == ERROR && unchanged(this)
      ensures old(pending) == 0 ==>
                var o := Parse(old(View()), []);
                status == o.status
                && (status != ERROR && status != BAD_SIZE ==>
                      && Valid() && View() == o.d
                      && wdata + pending <= block.Length && block[wdata..wdata + pending] == o.data)
    {
      hide ParseDefinition, TakeData;
      wdata := 0;
      if pending != 0 {
        return ERROR, wdata;
      }
      assert block[0..0] == [];
      while true
        invariant Valid() && block == old(block) && wdata + pending <= block.Length
        invariant Parse(old(View()), []) == Parse(View(), block[wdata..wdata + pending])
        decreases len
      {
        if cur == got {
          status := ReadDefinition();
          if status != OK {
            return;
          }
        }
        if pending != 0 {
          return OK, wdata;
        }
        assert Parse(old(View()), []) == ParseData(View());
        if len == 0 {
          assert block[wdata..wdata + pending] == [];
          return NEEDS_MORE, wdata;
        }
        wdata := TakeChunkData();
        if len == 0 {
          return NEEDS_MORE, wdata;
        }
      }
    }

    /** memmove the unread bytes to the front of rbuf. */
    method MoveToFront()
      requires Valid()
      modifies this`block, this`pos, rbuf
      ensures Valid() && block == rbuf && pos == 0
      ensures rbuf[..len] == old(View().Unread())
    {
      if block != rbuf || pos != 0 {
        forall i | 0 <= i < len {
          rbuf[i] := block[pos + i];
        }
        block, pos := rbuf, 0;
      }
    }

    /** net_data_read: shift the unread bytes and append what the socket gives, which is a start of
        net of at most k bytes. A negative k is a socket error. */
    method NetDataRead(net: string, k: int) returns (ok: bool, n: nat)
      requires Valid()
      modifies this`block, this`pos, this`len, rbuf
      ensures ok <==> old(len) < BUFSIZE && k >= 0
      ensures ok ==> n == Min(Min(k, |net|), BUFSIZE - old(len))
      ensures ok ==> Valid() && block == rbuf && pos == 0
      ensures ok ==> View() == NetRead(old(View()), net[..n], rbuf[old(len) + n..])
    {
      ghost var d := View();
      MoveToFront();
      ok := len < BUFSIZE && k >= 0;
      n := 0;
      if ok {
        n := Min(Min(k, |net|), BUFSIZE - len);
        ghost var was := rbuf[..len];
        forall i | 0 <= i < n {
          rbuf[len + i] := net[i];
        }
        assert rbuf[..] == was + net[..n] + rbuf[len + n..];
        len := len + n;
      }
    }
  }
}
