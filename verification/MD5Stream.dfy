/** The digest of RFC 1321 over a whole message, and the streaming context of md5.c. */
module MD5Stream {
  import opened Bytes
  import opened Words
  import opened MD5Spec
  import MD5Transform

  /** One block of 64 bytes. */
  function Process(s: State, block: seq<Byte>): State
    requires |block| == 64
  {
    Compress(s, WordsOf(block))
  }

  /** Section 3.4, over all whole blocks of m. */
  function Absorb(s: State, m: seq<Byte>): State
    decreases |m|
  {
    if |m| < 64 then s else Absorb(Process(s, m[..64]), m[64..])
  }

  function Zeros(n: nat): (z: seq<Byte>)
    ensures |z| == n && forall i :: 0 <= i < n ==> z[i] == 0
  {
    seq(n, _ => 0)
  }

  /** The two words of the bit count, which is 8 * len modulo 2^64. */
  function LowBits(len: nat): Word { 8 * len % TWO32 }

  function HighBits(len: nat): Word { 8 * len / TWO32 % TWO32 }

  /** Section 3.1: a one bit, and zeros up to 56 modulo 64. */
  function Filler(len: nat): (f: seq<Byte>)
    ensures (len + |f|) % 64 == 56 && (len + |f|) % 4 == 0
  {
    [0x80] + Zeros(if len % 64 < 56 then 55 - len % 64 else 119 - len % 64)
  }

  /** Section 3.2: the bit count, low word first. */
  function Count(len: nat): (c: seq<Byte>)
    ensures |c| == 8
  {
    BytesOf(LowBits(len)) + BytesOf(HighBits(len))
  }

  /** Section 3.5. */
  function Output(s: State): (d: seq<Byte>)
    ensures |d| == 16
  {
    BytesOf(s.a) + BytesOf(s.b) + BytesOf(s.c) + BytesOf(s.d)
  }

  function Digest(m: seq<Byte>): (d: seq<Byte>)
    ensures |d| == 16
  {
    Output(Absorb(INIT, m + Filler(|m|) + Count(|m|)))
  }

  // ------------------------------------------------------------------ what a build computes

  /** Message and filler are compressed as the words that a machine with this byte order loads, the count as the
      words it is, and the digest is the registers as that machine stores them. */
  function Computed(order: Order, m: seq<Byte>): (d: seq<Byte>)
    ensures |d| == 16
  {
    InOrder(order, Output(Absorb(INIT, InOrder(order, m + Filler(|m|)) + Count(|m|))))
  }

  /** Groups of four bytes that read the same both ways. */
  predicate Symmetric(b: seq<Byte>)
  {
    |b| < 4 || (b[0] == b[3] && b[1] == b[2] && Symmetric(b[4..]))
  }

  lemma {:induction false} TurnedIff(b: seq<Byte>)
    ensures Turned(b) == b <==> Symmetric(b)
  {
    if |b| >= 4 {
      TurnedIff(b[4..]);
      var head, rest := [b[3], b[2], b[1], b[0]], Turned(b[4..]);
      assert (head + rest)[..4] == head && (head + rest)[4..] == rest;
      assert b[..4] == [b[0], b[1], b[2], b[3]] && b == b[..4] + b[4..];
    }
  }

  /** On a machine that stores the low byte first this is the digest of RFC 1321. On the others the compression
      function is given the words of the RFC if and only if message and filler are symmetric, and the digest is
      then the RFC's with its groups turned round. */
  lemma WhatIsComputed(m: seq<Byte>)
    ensures Computed(Little, m) == Digest(m)
    ensures WordsOf(InOrder(Big, m + Filler(|m|))) == WordsOf(m + Filler(|m|)) <==> Symmetric(m + Filler(|m|))
    ensures Symmetric(m + Filler(|m|)) ==> Computed(Big, m) == Turned(Digest(m))
  {
    hide Absorb, Filler, Count, Output;
    var b := m + Filler(|m|);
    TurnedIff(b);
    SameWords(Turned(b), b);
  }

  /** Words determine their bytes. */
  lemma SameWords(a: seq<Byte>, b: seq<Byte>)
    requires |a| == |b| && |a| % 4 == 0
    ensures WordsOf(a) == WordsOf(b) <==> a == b
  {
    hide WordOf, BytesOf;
    if WordsOf(a) == WordsOf(b) {
      forall i | 0 <= i < |a| ensures a[i] == b[i] {
        SameByte(a, b, i / 4, i % 4);
      }
    }
  }

  lemma SameByte(a: seq<Byte>, b: seq<Byte>, g: nat, k: nat)
    requires |a| == |b| && |a| % 4 == 0 && g < |a| / 4 && k < 4 && WordsOf(a) == WordsOf(b)
    ensures a[4 * g + k] == b[4 * g + k]
  {
    hide WordOf, BytesOf;
    var x, y := a[4 * g..4 * g + 4], b[4 * g..4 * g + 4];
    assert WordsOf(a)[g] == WordsOf(b)[g];
    BytesRoundTrip(x);
    BytesRoundTrip(y);
    assert x[k] == y[k];
  }

  /** Already the empty message is read as two different words. */
  lemma EmptyDiffers()
    ensures Load(Little, Filler(0)[..4]) == 0x80 && Load(Big, Filler(0)[..4]) == 0x8000_0000
    ensures !Symmetric(Filler(0))
  {
    var f := Filler(0);
    assert f[..4] == [0x80, 0, 0, 0];
    assert f[0] != f[3];
  }

  /** The registers after whole blocks of memory, and after one more. */
  function Taken(order: Order, m: seq<Byte>): State
  {
    Absorb(INIT, InOrder(order, m))
  }

  function Step(order: Order, s: State, block: seq<Byte>): State
    requires |block| == 64
  {
    Process(s, InOrder(order, block))
  }

  /** Whole blocks can be absorbed first. */
  lemma {:induction false} AbsorbSplit(s: State, m: seq<Byte>, more: seq<Byte>)
    requires |m| % 64 == 0
    ensures Absorb(s, m + more) == Absorb(Absorb(s, m), more)
    decreases |m|
  {
    hide Process;
    if m == [] {
      assert m + more == more;
    } else {
      assert (m + more)[..64] == m[..64] && (m + more)[64..] == m[64..] + more;
      AbsorbSplit(Process(s, m[..64]), m[64..], more);
    }
  }

  lemma AbsorbBlock(s: State, m: seq<Byte>, block: seq<Byte>)
    requires |m| % 64 == 0 && |block| == 64
    ensures Absorb(s, m + block) == Process(Absorb(s, m), block)
  {
    AbsorbSplit(s, m, block);
    hide Process;
    assert block[..64] == block && block[64..] == [];
  }

  lemma TakenBlock(order: Order, m: seq<Byte>, block: seq<Byte>)
    requires |m| % 64 == 0 && |block| == 64
    ensures Taken(order, m + block) == Step(order, Taken(order, m), block)
  {
    hide Process, Absorb, InOrder;
    InOrderJoins(order, m, block);
    AbsorbBlock(INIT, InOrder(order, m), InOrder(order, block));
  }

  /** The part of a message that has been through the compression function, and the part that waits. */
  function Whole(m: seq<Byte>): (w: seq<Byte>)
    ensures |w| % 64 == 0
  {
    m[..|m| - |m| % 64]
  }

  function Rest(m: seq<Byte>): seq<Byte> { m[|m| - |m| % 64..] }

  /** The carry of ci_MD5Update is right. */
  lemma BitCount(n: nat, len: nat)
    ensures var low := (LowBits(n) + LowBits(len)) % TWO32;
            && low == LowBits(n + len)
            && (HighBits(n) + (if low < LowBits(n) then 1 else 0) + len / 0x2000_0000) % TWO32 == HighBits(n + len)
  {
    var a, b := 8 * n, 8 * len;
    assert b / TWO32 == len / 0x2000_0000;
    var carry := if a % TWO32 + b % TWO32 >= TWO32 then 1 else 0;
    Split(a, b, carry);
  }

  lemma Split(a: nat, b: nat, carry: nat)
    requires carry == if a % TWO32 + b % TWO32 >= TWO32 then 1 else 0
    ensures (a + b) / TWO32 == a / TWO32 + b / TWO32 + carry
    ensures (a + b) % TWO32 == a % TWO32 + b % TWO32 - carry * TWO32
  {
    assert a + b == TWO32 * (a / TWO32 + b / TWO32 + carry) + (a % TWO32 + b % TWO32 - carry * TWO32);
  }

  /** The position in the block is kept in the bit count. */
  lemma LowPosition(n: nat)
    ensures LowBits(n) / 8 % 64 == n % 64
  {
    var q, r := n / 0x2000_0000, n % 0x2000_0000;
    assert LowBits(n) == 8 * r by {
      assert 8 * n == q * TWO32 + 8 * r;
    }
    assert n == 64 * (0x80_0000 * q + r / 64) + r % 64;
  }

  lemma WholeAndRest(m: seq<Byte>)
    ensures |Whole(m)| % 64 == 0 && Whole(m) + Rest(m) == m && |Rest(m)| == |m| % 64
  {
  }

  /** Data that does not fill the block only joins the part that waits. */
  lemma StillWaiting(m: seq<Byte>, data: seq<Byte>)
    requires |m| % 64 + |data| < 64
    ensures Whole(m + data) == Whole(m) && Rest(m + data) == Rest(m) + data
  {
    assert (|m| + |data|) % 64 == |m| % 64 + |data|;
  }

  /** Data that fills the block completes it. */
  lemma Completed(order: Order, m: seq<Byte>, data: seq<Byte>)
    requires |m| % 64 + |data| == 64
    ensures (|m| + |data|) % 64 == 0 && |Rest(m) + data| == 64
    ensures Taken(order, m + data) == Step(order, Taken(order, Whole(m)), Rest(m) + data)
  {
    hide Step, Taken;
    WholeAndRest(m);
    TakenBlock(order, Whole(m), Rest(m) + data);
    assert m + data == Whole(m) + (Rest(m) + data);
  }

  lemma NextBlock(n: nat)
    requires n % 64 == 0
    ensures (n + 64) % 64 == 0
  {
  }

  /** What follows whole blocks and is shorter than one waits. */
  lemma Tail(m: seq<Byte>, tail: seq<Byte>)
    requires |m| % 64 == 0 && |tail| < 64
    ensures Whole(m + tail) == m && Rest(m + tail) == tail
  {
    assert (|m| + |tail|) % 64 == |tail|;
  }

  /** The last block in memory, with the count stored as words, is the filler in order and the count. */
  lemma LastBlock(order: Order, p: seq<Byte>, low: Word, high: Word)
    requires |p| == 56
    ensures InOrder(order, p + Store(order, low) + Store(order, high)) == InOrder(order, p) + (BytesOf(low) + BytesOf(high))
  {
    hide BytesOf, Store, InOrder;
    InOrderJoins(order, p + Store(order, low), Store(order, high));
    InOrderJoins(order, p, Store(order, low));
    StoreIsTurned(order, low);
    StoreIsTurned(order, high);
  }

  /** Four words in memory. */
  lemma StoredState(order: Order, s: State)
    ensures Store(order, s.a) + Store(order, s.b) + Store(order, s.c) + Store(order, s.d) == InOrder(order, Output(s))
  {
    hide BytesOf, Store, InOrder;
    StoreIsTurned(order, s.a);
    StoreIsTurned(order, s.b);
    StoreIsTurned(order, s.c);
    StoreIsTurned(order, s.d);
    InOrderJoins(order, BytesOf(s.a), BytesOf(s.b));
    InOrderJoins(order, BytesOf(s.a) + BytesOf(s.b), BytesOf(s.c));
    InOrderJoins(order, BytesOf(s.a) + BytesOf(s.b) + BytesOf(s.c), BytesOf(s.d));
  }

  /** ci_MD5Context; in is called block here. The byte order is that of the machine the library is built for. */
  class Context {
    const order: Order
    var buf: State
    var low: Word           // bits[0]
    var high: Word          // bits[1]
    const block: array<Byte>
    ghost var msg: seq<Byte>  // everything passed to Update so far

    ghost predicate Valid()
      reads this, block
    {
      && block.Length == 64 && low == LowBits(|msg|) && high == HighBits(|msg|)
      && buf == Taken(order, Whole(msg)) && block[..|msg| % 64] == Rest(msg)
    }

    /** ci_MD5Init. */
    constructor (order: Order)
      ensures Valid() && fresh(block) && msg == [] && this.order == order
    {
      assert Taken(order, []) == INIT;
      this.order := order;
      buf, low, high, msg := INIT, 0, 0, [];
      block := new Byte[64](_ => 0);
    }

    /** memcpy to ctx->in. */
    method Copy(at: nat, data: seq<Byte>)
      requires block.Length == 64 && at + |data| <= 64
      modifies block
      ensures block[..] == old(block[..at]) + data + old(block[at + |data|..])
    {
      forall i | 0 <= i < |data| {
        block[at + i] := data[i];
      }
    }

    /** byteReverse. Where the high byte is stored first it is compiled to nothing; elsewhere it reads each group
        from its low byte on and stores it as a word, which is what was there. */
    method ByteReverse(longs: nat)
      requires block.Length == 64 && longs <= 16
      modifies block
      ensures block[..] == old(block[..])
    {
      if order.Little? {
        for i := 0 to longs
          invariant block[..] == old(block[..])
        {
          ghost var was := block[..];
          var t := WordOf(block[4 * i..4 * i + 4]);
          BytesRoundTrip(was[4 * i..4 * i + 4]);
          hide WordOf, BytesOf;
          Copy(4 * i, Store(order, t));
          assert was == was[..4 * i] + was[4 * i..4 * i + 4] + was[4 * i + 4..];
        }
      }
    }

    /** byteReverse and MD5Transform on the full block. */
    method TransformBlock()
      requires block.Length == 64
      modifies `buf, block
      ensures buf == Step(order, old(buf), block[..]) && block[..] == old(block[..])
    {
      hide Compress, Load, InOrder;
      ByteReverse(16);
      LoadsInOrder(order, block[..]);
      buf := MD5Transform.Transform(buf, Loads(order, block[..]));
    }

    /** The bit count of ci_MD5Update. */
    method CountBits(ghost n: nat, len: nat)
      requires low == LowBits(n) && high == HighBits(n)
      modifies `low, `high
      ensures low == LowBits(n + len) && high == HighBits(n + len)
    {
      BitCount(n, len);
      var t := low;
      low := (t + LowBits(len)) % TWO32;
      if low < t {
        high := (high + 1) % TWO32;
      }
      high := (high + len / 0x2000_0000) % TWO32;
    }

    /** Complete the block that waits, if one does. */
    method FillBlock(ghost m: seq<Byte>, data: seq<Byte>, t: nat) returns (pos: nat)
      requires block.Length == 64 && t == |m| % 64 && (t != 0 ==> 64 - t <= |data|)
      requires buf == Taken(order, Whole(m)) && block[..t] == Rest(m)
      modifies `buf, block
      ensures pos <= |data| && (|m| + pos) % 64 == 0 && buf == Taken(order, m + data[..pos])
    {
      hide Step, Taken;
      pos := 0;
      if t != 0 {
        pos := 64 - t;
        Completed(order, m, data[..pos]);
        Copy(t, data[..pos]);
        assert block[..] == Rest(m) + data[..pos];
        TransformBlock();
      } else {
        assert m + data[..0] == m == Whole(m);
      }
    }

    /** Data that does not complete the block. */
    method Keep(ghost m: seq<Byte>, data: seq<Byte>, t: nat)
      requires block.Length == 64 && t == |m| % 64 && t + |data| < 64 && block[..t] == Rest(m)
      modifies block
      ensures Whole(m + data) == Whole(m) && (|m| + |data|) % 64 == t + |data| && block[..t + |data|] == Rest(m + data)
    {
      StillWaiting(m, data);
      hide Whole, Rest;
      Copy(t, data);
    }

    /** The bytes after the last whole block. */
    method KeepTail(ghost m: seq<Byte>, data: seq<Byte>, pos: nat)
      requires block.Length == 64 && pos <= |data| < pos + 64 && (|m| + pos) % 64 == 0
      modifies block
      ensures Whole(m + data) == m + data[..pos] && block[..(|m| + |data|) % 64] == Rest(m + data)
    {
      Tail(m + data[..pos], data[pos..]);
      hide Whole, Rest;
      assert m + data[..pos] + data[pos..] == m + data;
      Copy(0, data[pos..]);
      assert (|m| + |data|) % 64 == |data| - pos;
    }

    /** ci_MD5Update: however a message is cut into calls, the context is that of the whole message. */
    method Update(data: seq<Byte>)
      requires Valid()
      modifies this, block
      ensures Valid() && msg == old(msg) + data
    {
      hide Step, Taken, LowBits, HighBits, Whole, Rest;
      ghost var m := msg;
      LowPosition(|m|);
      var t := low / 8 % 64;
      CountBits(|m|, |data|);
      msg := m + data;
      if t != 0 && |data| < 64 - t {
        Keep(m, data, t);
        return;
      }
      var pos := FillBlock(m, data, t);
      pos := UpdateBlocks(m, data, pos);
      KeepTail(m, data, pos);
    }

    /** The loop over 64-byte chunks. */
    method UpdateBlocks(ghost m: seq<Byte>, data: seq<Byte>, from: nat) returns (pos: nat)
      requires block.Length == 64 && from <= |data| && (|m| + from) % 64 == 0
      requires buf == Taken(order, m + data[..from])
      modifies `buf, block
      ensures pos <= |data| < pos + 64 && (|m| + pos) % 64 == 0 && buf == Taken(order, m + data[..pos])
    {
      hide Step, Taken;
      pos := from;
      while |data| - pos >= 64
        invariant pos <= |data| && (|m| + pos) % 64 == 0 && buf == Taken(order, m + data[..pos])
      {
        Copy(0, data[pos..pos + 64]);
        assert block[..] == data[pos..pos + 64];
        TransformBlock();
        TakenBlock(order, m + data[..pos], data[pos..pos + 64]);
        assert m + data[..pos] + data[pos..pos + 64] == m + data[..pos + 64];
        NextBlock(|m| + pos);
        pos := pos + 64;
      }
    }

    /** The padding and the last block or two of ci_MD5Final, as bytes in front of the count. */
    method Pad(count: nat)
      requires block.Length == 64 && count < 64
      modifies `buf, block
      ensures count < 56 ==> buf == old(buf) && block[..56] == old(block[..count]) + [0x80] + Zeros(55 - count)
      ensures count >= 56 ==> buf == Step(order, old(buf), old(block[..count]) + [0x80] + Zeros(63 - count)) && block[..56] == Zeros(56)
    {
      hide Step;
      ghost var r := block[..count];
      if 63 - count < 8 {
        Copy(count, [0x80] + Zeros(63 - count));
        assert block[..] == r + [0x80] + Zeros(63 - count);
        TransformBlock();
        Copy(0, Zeros(56));
      } else {
        Copy(count, [0x80] + Zeros(55 - count));
        assert block[..56] == r + [0x80] + Zeros(55 - count);
      }
    }

    /** The last transform, with the two words of the count stored behind the filler. */
    method TransformLast()
      requires block.Length == 64
      modifies `buf, block
      ensures buf == Process(old(buf), InOrder(order, old(block[..56])) + (BytesOf(low) + BytesOf(high)))
    {
      hide Compress, Load, Store, BytesOf, InOrder;
      ByteReverse(14);
      ghost var p := block[..56];
      Copy(56, Store(order, low));
      Copy(60, Store(order, high));
      assert block[..] == p + Store(order, low) + Store(order, high);
      LastBlock(order, p, low, high);
      LoadsInOrder(order, block[..]);
      buf := MD5Transform.Transform(buf, Loads(order, block[..]));
    }

    /** ci_MD5Final: what the build computes of everything passed to Update; the context is wiped. The last
        byteReverse leaves the registers in memory as they are. */
    method Final() returns (digest: seq<Byte>)
      requires Valid()
      modifies `buf, `low, `high, block
      ensures digest == Computed(order, msg)
      ensures buf == State(0, 0, 0, 0) && low == 0 && high == 0 && block[..] == Zeros(64)
    {
      hide Process, Absorb, Step, Taken, LowBits, HighBits, Whole, Rest, Output, BytesOf, InOrder, Filler;
      LowPosition(|msg|);
      var count := low / 8 % 64;
      ghost var was := buf;
      Pad(count);
      ghost var p := block[..56];
      TransformLast();
      if count < 56 {
        OneBlock(order, msg, was, p, buf);
      } else {
        TwoBlocks(order, msg, was, p, buf);
      }
      StoredState(order, buf);
      digest := Store(order, buf.a) + Store(order, buf.b) + Store(order, buf.c) + Store(order, buf.d);
      buf, low, high := State(0, 0, 0, 0), 0, 0;
      Copy(0, Zeros(64));
    }
  }

  /** The message ends in one block when the count fits behind it. */
  lemma OneBlock(order: Order, m: seq<Byte>, was: State, p: seq<Byte>, s: State)
    requires was == Taken(order, Whole(m)) && |m| % 64 < 56 && p == Rest(m) + [0x80] + Zeros(55 - |m| % 64) && |p| == 56
    requires s == Process(was, InOrder(order, p) + Count(|m|))
    ensures s == Absorb(INIT, InOrder(order, m + Filler(|m|)) + Count(|m|))
  {
    WholeAndRest(m);
    hide Process, Absorb, Count, Whole, Rest, InOrder;
    var w, c := Whole(m), Count(|m|);
    assert m + Filler(|m|) == w + p;
    InOrderJoins(order, w, p);
    AbsorbBlock(INIT, InOrder(order, w), InOrder(order, p) + c);
    assert InOrder(order, w) + InOrder(order, p) + c == InOrder(order, w) + (InOrder(order, p) + c);
  }

  /** Otherwise it ends in two. */
  lemma TwoBlocks(order: Order, m: seq<Byte>, was: State, p: seq<Byte>, s: State)
    requires was == Taken(order, Whole(m)) && |m| % 64 >= 56 && p == Zeros(56) && |Rest(m)| == |m| % 64
    requires s == Process(Step(order, was, Rest(m) + [0x80] + Zeros(63 - |m| % 64)), InOrder(order, p) + Count(|m|))
    ensures s == Absorb(INIT, InOrder(order, m + Filler(|m|)) + Count(|m|))
  {
    WholeAndRest(m);
    hide Process, Absorb, Count, Whole, Rest, InOrder;
    var w, b, c := Whole(m), Rest(m) + [0x80] + Zeros(63 - |m| % 64), Count(|m|);
    TakenBlock(order, w, b);
    assert m + Filler(|m|) == w + b + p by {
      assert Zeros(119 - |m| % 64) == Zeros(63 - |m| % 64) + p;
    }
    InOrderJoins(order, w + b, p);
    AbsorbBlock(INIT, InOrder(order, w + b), InOrder(order, p) + c);
    assert InOrder(order, w + b) + InOrder(order, p) + c == InOrder(order, w + b) + (InOrder(order, p) + c);
  }

  /** STREAMING: for every way of cutting a message into calls of Update, Final returns what the build computes of
      the whole message: the digest of RFC 1321 where the low byte of a word is stored first. */
  method DigestOf(order: Order, pieces: seq<seq<Byte>>) returns (digest: seq<Byte>)
    ensures digest == Computed(order, Joined(pieces))
    ensures order.Little? ==> digest == Digest(Joined(pieces))
  {
    hide Digest, Computed;
    var ctx := new Context(order);
    for i := 0 to |pieces|
      invariant fresh(ctx) && fresh(ctx.block) && ctx.Valid() && ctx.msg == Joined(pieces[..i]) && ctx.order == order
    {
      ctx.Update(pieces[i]);
      JoinedSnoc(pieces[..i], pieces[i]);
      assert pieces[..i] + [pieces[i]] == pieces[..i + 1];
    }
    assert pieces[..|pieces|] == pieces;
    digest := ctx.Final();
    WhatIsComputed(Joined(pieces));
  }

  function Joined(pieces: seq<seq<Byte>>): seq<Byte>
  {
    if pieces == [] then [] else pieces[0] + Joined(pieces[1..])
  }

  lemma {:induction false} JoinedSnoc(pieces: seq<seq<Byte>>, piece: seq<Byte>)
    ensures Joined(pieces + [piece]) == Joined(pieces) + piece
  {
    if pieces == [] {
      assert Joined([piece]) == piece + Joined([]);
    } else {
      JoinedSnoc(pieces[1..], piece);
      assert (pieces + [piece])[1..] == pieces[1..] + [piece];
    }
  }
}
