/** The in-memory ring buffer of body.c. */
module RingBuffer {
  import opened Bytes

  /** The bytes from r up to w in a ring over s; r == w means empty or full. */
  function Window(s: seq<Byte>, r: nat, w: nat, full: bool): seq<Byte>
    requires r < |s| && w < |s|
  {
    if r == w && !full then [] else if r < w then s[r..w] else s[r..] + s[..w]
  }

  /** Appending a block that fits behind w without wrapping inside it. */
  lemma Appended(s: seq<Byte>, t: seq<Byte>, r: nat, w: nat, full: bool, block: seq<Byte>)
    requires r < |s| == |t| && w < |s| && block != [] && w + |block| <= |s|
    requires |Window(s, r, w, full)| + |block| <= |s|
    requires t == s[..w] + block + s[w + |block|..]
    ensures var w' := if w + |block| == |s| then 0 else w + |block|;
            Window(t, r, w', w' == r) == Window(s, r, w, full) + block
  {
    var v := w + |block|;
    assert t[..w] == s[..w] && t[w..v] == block && t[v..] == s[v..];
    if r == w && !full {
      assert v == |s| ==> t[r..] + t[..0] == block;
      assert v < |s| ==> t[r..v] == block;
    } else if r < w {
      assert t[r..v] == s[r..w] + block;
      assert v == |s| ==> t[r..] == s[r..w] + block;
    } else {
      assert t[r..] == s[r..];
      assert t[..v] == s[..w] + block;
    }
  }

  class Ring {
    const buf: array<Byte>
    var readPos: nat
    var writePos: nat
    var full: bool

    ghost predicate Valid()
      reads this
    {
      buf.Length >= 1 && readPos < buf.Length && writePos < buf.Length && (full ==> readPos == writePos)
    }

    /** The stored bytes, oldest first. */
    ghost function Contents(): seq<Byte>
      requires Valid()
      reads this, buf
    {
      Window(buf[..], readPos, writePos, full)
    }

    constructor (size: nat)
      requires size >= 1
      ensures Valid() && fresh(buf) && buf.Length == size && Contents() == []
    {
      buf := new Byte[size](_ => 0);
      readPos, writePos, full := 0, 0, false;
    }

    predicate IsEmpty()
      reads this
    {
      readPos == writePos && !full
    }

    /** ci_ring_buf_write_direct: the free block at writePos, and whether another may follow it. */
    method WriteDirect() returns (len: nat, more: bool)
      requires Valid()
      ensures writePos + len <= buf.Length
      ensures len == if IsEmpty() || readPos < writePos then buf.Length - writePos else readPos - writePos
      ensures more == (readPos < writePos)
    {
      if readPos == writePos && !full {
        return buf.Length - writePos, false;
      } else if readPos >= writePos {
        return readPos - writePos, false;
      }
      return buf.Length - writePos, true;
    }

    /** ci_ring_buf_read_direct: the stored block at readPos, and whether another may follow it. */
    method ReadDirect() returns (len: nat, more: bool)
      requires Valid()
      ensures readPos + len <= buf.Length
      ensures len == if IsEmpty() then 0 else if readPos < writePos then writePos - readPos else buf.Length - readPos
      ensures more == (!IsEmpty() && readPos >= writePos && readPos != 0)
    {
      if readPos == writePos && !full {
        return 0, false;
      } else if readPos >= writePos {
        return buf.Length - readPos, readPos != 0;
      }
      return writePos - readPos, false;
    }

    /** ci_ring_buf_consume. */
    method Consume(len: nat)
      requires Valid() && len <= |Contents()| && readPos + len <= buf.Length
      modifies `readPos, `full
      ensures Valid() && Contents() == old(Contents())[len..]
    {
      if len == 0 {
        return;
      }
      readPos := readPos + len;
      if readPos > buf.Length - 1 {
        readPos := 0;
      }
      full := false;
    }

    /** Copy a block to writePos, then ci_ring_buf_produce. */
    method Produce(block: seq<Byte>)
      requires Valid() && |Contents()| + |block| <= buf.Length && writePos + |block| <= buf.Length
      modifies `writePos, `full, buf
      ensures Valid() && Contents() == old(Contents()) + block
      ensures block != [] ==> !IsEmpty()
    {
      if block == [] {
        return;
      }
      ghost var s := buf[..];
      forall i | 0 <= i < |block| {
        buf[writePos + i] := block[i];
      }
      ghost var t := buf[..];
      assert t == s[..writePos] + block + s[writePos + |block|..];
      Appended(s, t, readPos, writePos, full, block);
      hide Window;
      writePos := writePos + |block|;
      if writePos > buf.Length - 1 {
        writePos := 0;
      }
      if writePos == readPos {
        full := true;
      }
    }

    /** How much of n bytes a write takes: all that is free, except that on an empty ring it stops at the
        end of the array. */
    ghost function Accepts(n: nat): (k: nat)
      requires Valid()
      reads this, buf
      ensures n > 0 && |Contents()| < buf.Length ==> k > 0
    {
      Min(n, if IsEmpty() then buf.Length - writePos else buf.Length - |Contents()|)
    }

    /** One round of the write loop: fill the free block; again says whether another round follows. */
    method WriteRound(data: seq<Byte>) returns (n: nat, again: bool)
      requires Valid()
      modifies `writePos, `full, buf
      ensures Valid() && n <= |data| && Contents() == old(Contents()) + data[..n]
      ensures n + (if again then Accepts(|data| - n) else 0) == old(Accepts(|data|))
      ensures again ==> 0 < n < |data|
    {
      var len, more := WriteDirect();
      n := Min(|data|, len);
      Produce(data[..n]);
      again := more && |data| > n;
    }

    /** ci_ring_buf_write. */
    method Write(data: seq<Byte>) returns (written: nat)
      requires Valid()
      modifies this, buf
      ensures Valid() && written == old(Accepts(|data|))
      ensures Contents() == old(Contents()) + data[..written]
    {
      hide Window;
      written := 0;
      var again := true;
      while again
        invariant Valid() && written <= |data| && Contents() == old(Contents()) + data[..written]
        invariant written + (if again then Accepts(|data| - written) else 0) == old(Accepts(|data|))
        decreases |data| - written + if again then 1 else 0
      {
        var n;
        n, again := WriteRound(data[written..]);
        assert data[written..][..n] == data[written..written + n];
        assert data[..written + n] == data[..written] + data[written..written + n];
        written := written + n;
      }
    }

    /** One round of the read loop: take from the stored block. */
    method ReadRound(size: nat) returns (data: seq<Byte>, again: bool)
      requires Valid()
      modifies `readPos, `full
      ensures Valid() && |data| <= size && old(Contents()) == data + Contents()
      ensures again ==> 0 < |data| < size
      ensures !again ==> |data| == size || Contents() == []
    {
      var len, more := ReadDirect();
      var n := Min(size, len);
      data := buf[readPos..readPos + n];
      assert data == Contents()[..n];
      Consume(n);
      again := more && size > n;
    }

    /** ci_ring_buf_read. */
    method Read(size: nat) returns (data: seq<Byte>)
      requires Valid()
      modifies this
      ensures Valid() && |data| == Min(size, |old(Contents())|)
      ensures old(Contents()) == data + Contents()
    {
      hide Window;
      data := [];
      var again := true;
      while again
        invariant Valid() && |data| <= size && old(Contents()) == data + Contents()
        invariant !again ==> |data| == size || Contents() == []
        decreases size - |data| + if again then 1 else 0
      {
        var part;
        part, again := ReadRound(size - |data|);
        assert data + (part + Contents()) == (data + part) + Contents();
        data := data + part;
      }
    }
  }

  /** Any interleaving of writes and reads: what was read, followed by what is stored, is what was
      accepted, in order. */
  datatype Op = Put(data: seq<Byte>) | Get(size: nat)

  method Run(ring: Ring, ops: seq<Op>) returns (taken: seq<Byte>, given: seq<Byte>)
    requires ring.Valid()
    modifies ring, ring.buf
    ensures ring.Valid() && old(ring.Contents()) + taken == given + ring.Contents()
  {
    hide Window;
    taken, given := [], [];
    for i := 0 to |ops|
      invariant ring.Valid() && old(ring.Contents()) + taken == given + ring.Contents()
    {
      ghost var before := ring.Contents();
      match ops[i] {
        case Put(data) =>
          var n := ring.Write(data);
          assert old(ring.Contents()) + (taken + data[..n]) == given + before + data[..n];
          taken := taken + data[..n];
        case Get(size) =>
          var data := ring.Read(size);
          assert given + before == given + data + ring.Contents();
          given := given + data;
      }
    }
  }
}
