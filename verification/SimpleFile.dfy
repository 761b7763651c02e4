/** The file of body.c that turns into a ring once it has reached its size limit, without locks. */
module SimpleFile {
  import opened Bytes

  const CI_EOF: int := -2

  /** max is max_store_size (0: no limit); data is the file on disk. */
  datatype File = File(data: seq<Byte>, max: nat, endpos: nat, readpos: nat, ring: bool, eof: bool,
                       bytesIn: nat, bytesOut: nat)
  {
    /** Unread data reaches over the end of the file into its front. At least one byte must be there:
        endpos == 0 with readpos beyond it would read as a full ring once readpos wraps. */
    predicate Valid()
    {
      && endpos <= |data| && readpos <= |data|
      && (max == 0 ==> readpos <= endpos == |data|)
      && (max > 0 ==> |data| <= max)
      && (endpos < readpos ==> ring && endpos > 0 && |data| == max)
      && (readpos <= endpos && !ring ==> endpos == |data|)
      && (ring ==> max > 0 && |data| == max)
      && bytesIn - bytesOut == |Contents()|
    }

    /** The stored bytes, oldest first. */
    function Contents(): seq<Byte>
      requires endpos <= |data| && readpos <= |data|
    {
      if readpos <= endpos then data[readpos..endpos] else data[readpos..] + data[..endpos]
    }
  }

  function NewFile(max: nat): (f: File)
    ensures f.Valid() && f.Contents() == []
  {
    File([], max, 0, 0, false, false, 0, 0)
  }

  /** pwrite within the file or at its end. */
  function PWrite(data: seq<Byte>, at: nat, block: seq<Byte>): seq<Byte>
    requires at <= |data|
  {
    data[..at] + block + if at + |block| <= |data| then data[at + |block|..] else []
  }

  /** Where the next write goes, and how many bytes there is room for. */
  datatype Room = Room(at: nat, size: nat, ring: bool) | NoRoom

  function WriteRoom(f: File, len: nat): Room
  {
    if f.endpos < f.readpos then Room(f.endpos, Min(f.readpos - f.endpos - 1, len), f.ring)
    else if f.max > 0 && f.endpos == f.max then
      if f.readpos != 0 then Room(0, Min(f.readpos - 1, len), true) else NoRoom
    else if f.max > 0 && f.endpos <= f.max then Room(f.endpos, Min(f.max - f.endpos, len), f.ring)
    else Room(f.endpos, len, f.ring)
  }

  /** The file with part stored in the room WriteRoom found. */
  function Filled(f: File, len: nat, part: seq<Byte>): File
    requires f.endpos <= |f.data| && WriteRoom(f, len).Room?
  {
    var room := WriteRoom(f, len);
    f.(data := PWrite(f.data, room.at, part), endpos := room.at + |part|, ring := room.ring, bytesIn := f.bytesIn + |part|)
  }

  /** What a write returns, and the file after it. */
  datatype Written = Written(f: File, ret: int)

  /** ci_simple_file_write; io is what the operating system transfers at most, negative for an error. */
  function WriteFile(f: File, block: seq<Byte>, iseof: bool, io: int): Written
    requires f.endpos <= |f.data| && f.readpos <= |f.data|
  {
    if f.eof then Written(f, 0)
    else if block == [] then Written(f.(eof := iseof), 0)
    else
      var room := WriteRoom(f, |block|);
      if room.NoRoom? then Written(f, 0)
      else if io < 0 then Written(f.(endpos := room.at, ring := room.ring), -1)
      else
        var n := Min(io, room.size);
        Written(Filled(f, |block|, block[..n]).(eof := iseof && n == |block|), n)
  }

  datatype Got = Got(f: File, ret: int, block: seq<Byte>)

  /** A reader at the size limit starts again at the front. */
  function Turned(f: File): File
  {
    if f.max > 0 && f.readpos == f.max then f.(readpos := 0) else f
  }

  /** How far the reader can go without turning. */
  function Available(g: File): nat
    requires g.endpos <= g.readpos ==> g.readpos <= g.max
  {
    if g.endpos > g.readpos then g.endpos - g.readpos else g.max - g.readpos
  }

  function Take(g: File, n: nat): (r: Got)
    requires g.readpos + n <= |g.data|
    ensures r.ret == n == |r.block| && r.f.max == g.max && r.f.eof == g.eof
  {
    Got(g.(readpos := g.readpos + n, bytesOut := g.bytesOut + n), n, g.data[g.readpos..g.readpos + n])
  }

  /** ci_simple_file_read. */
  function ReadFile(f: File, len: nat, io: int): Got
    requires f.endpos <= |f.data| && f.readpos <= |f.data| && (f.max > 0 ==> |f.data| <= f.max)
  {
    if len == 0 then Got(f, 0, [])
    else if f.readpos == f.endpos then Got(f, if f.eof then CI_EOF else 0, [])
    else
      var g := Turned(f);
      if g.endpos <= g.readpos && g.max == 0 then Got(g, CI_EOF, [])
      else if io <= 0 then Got(g, io, [])
      else Take(g, Min(Min(io, |g.data| - g.readpos), Min(Available(g), len)))
  }

  /** The write turns to the front of the file and then stores nothing: only the byte before readpos is
      left there, or the operating system refuses. */
  predicate EmptyWrap(f: File, block: seq<Byte>, io: int)
  {
    !f.eof && block != [] && f.max > 0 && f.endpos == f.max && f.readpos > 0 && (f.readpos == 1 || io <= 0)
  }

  /** How much a write may store: up to the size limit, and once that is reached all that is free but the last
      byte, unless nothing has been read yet. */
  function Space(f: File): nat
    requires f.Valid() && f.max > 0
  {
    if f.readpos <= f.endpos < f.max then f.max - f.endpos
    else if |f.Contents()| == f.max then 0
    else f.max - |f.Contents()| - 1
  }

  /** The answer of a write: as much as the block, the room and the operating system allow. */
  lemma WriteReturns(f: File, block: seq<Byte>, iseof: bool, io: int)
    requires f.Valid()
    ensures var ret := WriteFile(f, block, iseof, io).ret;
            if f.eof || block == [] || (f.max > 0 && |f.Contents()| == f.max) then ret == 0
            else if io < 0 then ret == -1
            else ret == Min(io, if f.max == 0 then |block| else Min(|block|, Space(f)))
  {
  }

  // ------------------------------------------------------------------ first in, first out

  lemma PWriteParts(data: seq<Byte>, at: nat, part: seq<Byte>)
    requires at <= |data|
    ensures var d := PWrite(data, at, part);
            && |d| == (if at + |part| <= |data| then |data| else at + |part|)
            && d[..at] == data[..at] && d[at..at + |part|] == part && d[..at + |part|] == data[..at] + part
            && (at + |part| <= |data| ==> d[at + |part|..] == data[at + |part|..])
  {
  }

  /** Beyond the written block nothing changes. */
  lemma PWriteTail(data: seq<Byte>, at: nat, part: seq<Byte>, from: nat)
    requires at + |part| <= from <= |data|
    ensures PWrite(data, at, part)[from..] == data[from..]
  {
    PWriteParts(data, at, part);
  }

  lemma FrontRoom(f: File, len: nat, n: nat)
    requires f.Valid() && WriteRoom(f, len).Room? && 0 < n <= WriteRoom(f, len).size
    requires f.endpos < f.readpos || (f.max > 0 && f.endpos == f.max)
    ensures WriteRoom(f, len).at + n < f.readpos <= |f.data| == f.max && WriteRoom(f, len).ring && f.endpos <= |f.data|
    ensures f.Contents() == f.data[f.readpos..] + f.data[..WriteRoom(f, len).at]
    ensures f.bytesIn - f.bytesOut == |f.Contents()|
  {
  }

  /** In front of the reader, when the stored bytes wrap or are about to. */
  lemma StoredInFront(f: File, len: nat, part: seq<Byte>)
    requires f.Valid() && WriteRoom(f, len).Room? && |part| <= WriteRoom(f, len).size && part != []
    requires f.endpos < f.readpos || (f.max > 0 && f.endpos == f.max)
    ensures Filled(f, len, part).Valid() && Filled(f, len, part).Contents() == f.Contents() + part
  {
    hide File.Contents, File.Valid;
    FrontRoom(f, len, |part|);
    var at, g := WriteRoom(f, len).at, Filled(f, len, part);
    PWriteParts(f.data, at, part);
    PWriteTail(f.data, at, part, f.readpos);
    InFront(g, f.data[f.readpos..], f.data[..at], part);
  }

  lemma InFront(g: File, tail: seq<Byte>, front: seq<Byte>, part: seq<Byte>)
    requires 0 < g.endpos < g.readpos <= |g.data| == g.max && g.ring
    requires g.data[g.readpos..] == tail && g.data[..g.endpos] == front + part
    requires g.bytesIn - g.bytesOut == |tail| + |front| + |part|
    ensures g.Valid() && g.Contents() == tail + front + part
  {
    assert tail + (front + part) == tail + front + part;
  }

  /** Behind the stored bytes, when they do not wrap. */
  lemma StoredBehind(f: File, len: nat, part: seq<Byte>)
    requires f.Valid() && WriteRoom(f, len).Room? && |part| <= WriteRoom(f, len).size
    requires f.readpos <= f.endpos && !(f.max > 0 && f.endpos == f.max)
    ensures var g := Filled(f, len, part); g.Valid() && g.Contents() == f.Contents() + part
  {
    var g := Filled(f, len, part);
    PWriteParts(f.data, f.endpos, part);
    assert g.data[f.readpos..g.endpos] == g.data[..g.endpos][f.readpos..] == f.data[f.readpos..f.endpos] + part;
    hide PWrite;
  }

  /** The bytes go behind the stored ones, also when that is the front of the file. */
  lemma StoredAt(f: File, len: nat, part: seq<Byte>)
    requires f.Valid() && WriteRoom(f, len).Room? && |part| <= WriteRoom(f, len).size
    requires f.max > 0 && f.endpos == f.max ==> part != []
    ensures var g := Filled(f, len, part); g.Valid() && g.Contents() == f.Contents() + part
  {
    if part == [] {
      StoredNothing(f, len);
    } else if f.endpos < f.readpos || (f.max > 0 && f.endpos == f.max) {
      StoredInFront(f, len, part);
    } else {
      StoredBehind(f, len, part);
    }
  }

  lemma StoredNothing(f: File, len: nat)
    requires f.Valid() && WriteRoom(f, len).Room? && !(f.max > 0 && f.endpos == f.max)
    ensures Filled(f, len, []) == f
  {
    assert PWrite(f.data, f.endpos, []) == f.data;
  }

  /** Flagging the end changes nothing else. */
  lemma Flagged(f: File, eof: bool)
    requires f.Valid()
    ensures f.(eof := eof).Valid() && f.(eof := eof).Contents() == f.Contents() == f.Contents() + []
  {
  }

  lemma RoomFor(f: File, len: nat)
    requires f.Valid() && WriteRoom(f, len).Room?
    ensures WriteRoom(f, len).size <= len && f.endpos <= |f.data|
    ensures !(f.max > 0 && f.endpos == f.max) ==> WriteRoom(f, len).at == f.endpos && WriteRoom(f, len).ring == f.ring
  {
  }

  /** A write that does not wrap emptily appends exactly the bytes it reports. */
  lemma WriteAppends(f: File, block: seq<Byte>, iseof: bool, io: int)
    requires f.Valid() && !EmptyWrap(f, block, io)
    ensures var w := WriteFile(f, block, iseof, io);
            && w.f.Valid() && w.f.max == f.max && w.ret <= |block|
            && w.f.Contents() == f.Contents() + (if w.ret < 0 then [] else block[..w.ret])
            && (w.f.eof <==> f.eof || (iseof && w.ret == |block|))
  {
    hide File.Valid, File.Contents, WriteRoom, PWrite;
    Positions(f);
    Flagged(f, f.eof);
    if !f.eof && block == [] {
      Flagged(f, iseof);
    } else if !f.eof && WriteRoom(f, |block|).Room? {
      RoomFor(f, |block|);
      if f.max > 0 && f.endpos == f.max {
        NoRoomAtFront(f, block);
      }
      if io >= 0 {
        var n := Min(io, WriteRoom(f, |block|).size);
        StoredAt(f, |block|, block[..n]);
        Flagged(Filled(f, |block|, block[..n]), iseof && n == |block|);
      }
    }
  }

  /** At the limit there is room only in front of the reader. */
  lemma NoRoomAtFront(f: File, block: seq<Byte>)
    requires f.Valid() && f.max > 0 && f.endpos == f.max && WriteRoom(f, |block|).Room? && block != []
    ensures f.readpos > 0 && (f.readpos > 1 ==> WriteRoom(f, |block|).size > 0)
  {
  }

  lemma TurnedSame(f: File)
    requires f.Valid() && f.readpos != f.endpos
    ensures Turned(f).Valid() && Turned(f).Contents() == f.Contents() != []
    ensures Turned(f).endpos == f.endpos && Turned(f).max == f.max && Turned(f).data == f.data && Turned(f).eof == f.eof
    ensures Turned(f).readpos < |f.data| && Turned(f).readpos != f.endpos && (f.max == 0 ==> f.readpos < f.endpos)
  {
  }

  lemma TakenFrom(g: File, n: nat)
    requires g.Valid() && g.readpos != g.endpos
    requires g.readpos + n <= if g.endpos > g.readpos then g.endpos else |g.data|
    ensures var r := Take(g, n); r.f.Valid() && g.Contents() == r.block + r.f.Contents()
  {
  }

  lemma Positions(f: File)
    requires f.Valid()
    ensures f.endpos <= |f.data| && f.readpos <= |f.data| && (f.max > 0 ==> |f.data| <= f.max)
    ensures f.readpos == f.endpos ==> f.Contents() == []
    ensures f.bytesIn - f.bytesOut == |f.Contents()|
  {
  }

  /** A read returns the oldest stored bytes and leaves the others. */
  lemma ReadTakes(f: File, len: nat, io: int)
    requires f.Valid() && io >= -1
    ensures var r := ReadFile(f, len, io);
            && r.f.Valid() && r.f.max == f.max && r.f.eof == f.eof && |r.block| <= len
            && f.Contents() == r.block + r.f.Contents()
            && (r.ret >= 0 ==> r.ret == |r.block|) && (r.ret < 0 ==> r.block == [])
            && (r.ret == CI_EOF <==> len > 0 && f.eof && f.Contents() == [])
            && (len > 0 && io > 0 && f.Contents() != [] ==> r.block != [])
  {
    hide File.Contents, File.Valid, Turned, Take;
    Positions(f);
    if len > 0 && f.readpos != f.endpos {
      TurnedSame(f);
      hide Available;
      var g := Turned(f);
      if io > 0 {
        TakenFrom(g, Min(Min(io, |g.data| - g.readpos), Min(Available(g), len)));
      }
    }
  }

  /** The stored bytes up to the end of the file. */
  function OnePiece(f: File): nat
    requires f.Valid()
  {
    if f.endpos < f.readpos < f.max then f.max - f.readpos else |f.Contents()|
  }

  /** The answer of a read: as much as is asked for, lies in one piece and the operating system gives. */
  lemma ReadReturns(f: File, len: nat, io: int)
    requires f.Valid() && len > 0 && io > 0 && f.Contents() != []
    ensures ReadFile(f, len, io).ret == Min(io, Min(len, OnePiece(f)))
  {
  }

  /** A limited file never holds more than its limit. */
  lemma WithinLimit(f: File)
    requires f.Valid() && f.max > 0
    ensures |f.Contents()| <= f.max && f.bytesIn - f.bytesOut == |f.Contents()|
  {
  }

  // ------------------------------------------------------------------ the object

  /** ci_simple_file_t. */
  class BodyFile {
    const max: nat
    var data: seq<Byte>
    var endpos: nat
    var readpos: nat
    var ring: bool
    var eof: bool
    var bytesIn: nat
    var bytesOut: nat

    constructor (max: nat)
      ensures Valid() && Contents() == [] && !eof && this.max == max && View() == NewFile(max)
    {
      this.max := max;
      data, endpos, readpos, ring, eof, bytesIn, bytesOut := [], 0, 0, false, false, 0, 0;
    }

    function View(): File
      reads this
    {
      File(data, max, endpos, readpos, ring, eof, bytesIn, bytesOut)
    }

    ghost predicate Valid()
      reads this
    {
      View().Valid()
    }

    /** The stored bytes, oldest first. */
    ghost function Contents(): seq<Byte>
      requires Valid()
      reads this
    {
      View().Contents()
    }

    /** ci_simple_file_write: the bytes it reports are appended to the stored ones, and the end is flagged with
        the last of them. The file stays in order if and only if the write does not wrap emptily. */
    method Write(block: seq<Byte>, iseof: bool, io: int) returns (ret: int)
      requires Valid()
      modifies this
      ensures Valid() <==> !EmptyWrap(old(View()), block, io)
      ensures if old(eof) || block == [] || (max > 0 && |old(Contents())| == max) then ret == 0
              else if io < 0 then ret == -1
              else ret == Min(io, if max == 0 then |block| else Min(|block|, old(Space(View()))))
      ensures ret <= |block|
      ensures Valid() ==> Contents() == old(Contents()) + if ret < 0 then [] else block[..ret]
      ensures Valid() ==> (eof <==> old(eof) || (iseof && ret == |block|))
      ensures View() == WriteFile(old(View()), block, iseof, io).f
    {
      hide File.Valid, File.Contents, WriteFile, Space;
      ghost var f := View();
      Positions(f);
      WriteReturns(f, block, iseof, io);
      ret := Store(block, iseof, io);
      if EmptyWrap(f, block, io) {
        WrapBreaks(f, block, iseof, io);
      } else {
        WriteAppends(f, block, iseof, io);
      }
    }

    /** ci_simple_file_read: the oldest stored bytes, and CI_EOF exactly at the flagged end with nothing left. */
    method Read(len: nat, io: int) returns (ret: int, block: seq<Byte>)
      requires Valid() && io >= -1
      modifies this
      ensures Valid() && old(Contents()) == block + Contents() && |block| <= len && eof == old(eof)
      ensures (ret >= 0 ==> ret == |block|) && (ret < 0 ==> block == [])
      ensures ret == CI_EOF <==> len > 0 && old(eof) && old(Contents()) == []
      ensures len > 0 && io > 0 && old(Contents()) != [] ==> ret == Min(io, Min(len, old(OnePiece(View())))) > 0
    {
      hide File.Valid, File.Contents, ReadFile, OnePiece;
      ghost var f := View();
      Positions(f);
      ret, block := Load(len, io);
      ReadTakes(f, len, io);
      if len > 0 && io > 0 && f.Contents() != [] {
        ReadReturns(f, len, io);
      }
    }

    /** The steps of a write. */
    method Store(block: seq<Byte>, iseof: bool, io: int) returns (ret: int)
      requires View().Valid()
      modifies this
      ensures WriteFile(old(View()), block, iseof, io) == Written(View(), ret)
    {
      Positions(View());
      hide File.Valid, File.Contents, PWrite;
      if eof {
        return 0;
      }
      if block == [] {
        if iseof {
          eof := true;
        }
        return 0;
      }
      var at, turned, wsize := endpos, ring, |block|;
      if endpos < readpos {
        wsize := Min(readpos - endpos - 1, |block|);
      } else if max > 0 && endpos == max {
        if readpos == 0 {
          return 0;
        }
        at, turned := 0, true;
        wsize := Min(readpos - 1, |block|);
      } else if max > 0 {
        wsize := Min(max - endpos, |block|);
      }
      assert WriteRoom(View(), |block|) == Room(at, wsize, turned);
      hide WriteRoom;
      endpos, ring := at, turned;
      if io < 0 {
        return -1;
      }
      ret := Min(io, wsize);
      data, endpos, bytesIn, eof := PWrite(data, at, block[..ret]), at + ret, bytesIn + ret, iseof && ret == |block|;
    }

    /** The steps of a read. */
    method Load(len: nat, io: int) returns (ret: int, block: seq<Byte>)
      requires View().Valid()
      modifies this
      ensures ReadFile(old(View()), len, io) == Got(View(), ret, block)
    {
      Positions(View());
      hide File.Valid, File.Contents, Take, Available;
      if len == 0 {
        return 0, [];
      }
      if readpos == endpos {
        return if eof then CI_EOF else 0, [];
      }
      if max > 0 && readpos == max {
        readpos := 0;
      }
      assert View() == Turned(old(View()));
      hide Turned;
      if endpos <= readpos && max == 0 {
        return CI_EOF, [];
      }
      ret, block := io, [];
      if io > 0 {
        ret, block := Transfer(len, io);
      }
    }

    /** The part of a read that moves bytes. */
    method Transfer(len: nat, io: nat) returns (ret: nat, block: seq<Byte>)
      requires readpos <= |data| && (endpos <= readpos ==> readpos <= max)
      modifies `readpos, `bytesOut
      ensures Take(old(View()), Min(Min(io, |data| - old(readpos)), Min(Available(old(View())), len))) == Got(View(), ret, block)
    {
      var available := if endpos > readpos then endpos - readpos else max - readpos;
      ret := Min(Min(io, |data| - readpos), Min(available, len));
      block := data[readpos..readpos + ret];
      readpos, bytesOut := readpos + ret, bytesOut + ret;
    }
  }

  // ------------------------------------------------------------------ whole runs

  datatype Op = Put(block: seq<Byte>, iseof: bool, io: int) | Get(len: nat, io: int)

  /** The operation keeps the file in order. */
  predicate Sound(f: File, op: Op)
  {
    match op
    case Put(block, iseof, io) => !EmptyWrap(f, block, io)
    case Get(len, io) => io >= -1
  }

  /** FIRST IN, FIRST OUT over every run up to the first empty wrap: what was read, followed by what is stored,
      is what was there followed by what was written; the counters tell the stored length, and the limit
      holds. */
  method Run(file: BodyFile, ops: seq<Op>) returns (taken: seq<Byte>, given: seq<Byte>, done: nat)
    requires file.Valid()
    modifies file
    ensures done <= |ops| && (done < |ops| ==> !Sound(file.View(), ops[done]))
    ensures file.Valid() && old(file.Contents()) + taken == given + file.Contents()
    ensures file.bytesIn - file.bytesOut == |file.Contents()| && (file.max > 0 ==> |file.Contents()| <= file.max)
  {
    hide File.Valid, File.Contents, WriteFile, EmptyWrap;
    taken, given, done := [], [], 0;
    while done < |ops| && Sound(file.View(), ops[done])
      invariant done <= |ops| && file.Valid() && old(file.Contents()) + taken == given + file.Contents()
    {
      ghost var before := file.Contents();
      match ops[done] {
        case Put(block, iseof, io) =>
          var ret := file.Write(block, iseof, io);
          var part := if ret < 0 then [] else block[..ret];
          Chain(old(file.Contents()), taken, given, before, part, [], file.Contents());
          taken := taken + part;
          assert given + [] == given;
        case Get(len, io) =>
          var ret, block := file.Read(len, io);
          Chain(old(file.Contents()), taken, given, before, [], block, file.Contents());
          assert taken + [] == taken;
          given := given + block;
      }
      done := done + 1;
    }
    Positions(file.View());
    if file.max > 0 {
      WithinLimit(file.View());
    }
  }

  lemma Chain(a: seq<Byte>, t1: seq<Byte>, g1: seq<Byte>, b: seq<Byte>, t2: seq<Byte>, g2: seq<Byte>, c: seq<Byte>)
    requires a + t1 == g1 + b && b + t2 == g2 + c
    ensures a + (t1 + t2) == g1 + g2 + c
  {
    assert a + (t1 + t2) == (a + t1) + t2 == g1 + (b + t2) == g1 + g2 + c;
  }

  lemma WrapBreaks(f: File, block: seq<Byte>, iseof: bool, io: int)
    requires f.Valid() && EmptyWrap(f, block, io)
    ensures !WriteFile(f, block, iseof, io).f.Valid() && WriteFile(f, block, iseof, io).ret <= 0
  {
  }

  /** The condition is exact: after every empty wrap, two reads of the file's size return bytes that were
      never written into it, or were returned before. */
  lemma EmptyWrapRereads(f: File, block: seq<Byte>, iseof: bool, io: int)
    requires f.Valid() && EmptyWrap(f, block, io)
    ensures var w := WriteFile(f, block, iseof, io);
            && w.f.endpos <= |w.f.data| && w.f.readpos <= |w.f.data| <= w.f.max
            && var r1 := ReadFile(w.f, f.max, f.max);
            && r1.f.endpos <= |r1.f.data| && r1.f.readpos <= |r1.f.data| <= r1.f.max
            && var r2 := ReadFile(r1.f, f.max, f.max);
            && w.ret <= 0 && |r1.block| + |r2.block| > |f.Contents()|
  {
  }
}
