/** Bitwise gates on numbers, cut at a bit. */
module BitSplit {
  import opened Bytes
  import opened Words

  lemma Unfold(gate: Gate, x: nat, y: nat, n: nat)
    requires n > 0
    ensures Bitwise(gate, x, y, n) == 2 * Bitwise(gate, x / 2, y / 2, n - 1) + gate.Of(x % 2, y % 2)
  {
  }

  lemma NoBits(gate: Gate, x: nat, y: nat)
    ensures Bitwise(gate, x, y, 0) == 0
  {
  }

  /** h above the p possible values of l. */
  function Above(h: nat, p: nat, l: nat): nat { h * p + l }

  lemma HalfOf(h: nat, q: nat, l: nat)
    requires l < 2 * q
    ensures Above(h, 2 * q, l) / 2 == Above(h, q, l / 2) && Above(h, 2 * q, l) % 2 == l % 2 && l / 2 < q
  {
    assert h * (2 * q) == 2 * (h * q);
  }

  lemma Twice(b: nat, q: nat, l: nat, bit: nat)
    ensures 2 * Above(b, q, l) + bit == Above(b, 2 * q, 2 * l + bit)
  {
  }

  /** The gates work on the low k bits and on those above them alike. */
  lemma {:induction false} SplitBits(gate: Gate, x1: nat, x0: nat, y1: nat, y0: nat, n: nat, k: nat)
    requires x0 < Pow2(k) && y0 < Pow2(k)
    ensures Bitwise(gate, Above(x1, Pow2(k), x0), Above(y1, Pow2(k), y0), n + k) ==
            Above(Bitwise(gate, x1, y1, n), Pow2(k), Bitwise(gate, x0, y0, k))
    decreases k
  {
    if k == 0 {
      NoBits(gate, x0, y0);
    } else {
      var q := Pow2(k - 1);
      assert Pow2(k) == 2 * q;
      hide Above, Bitwise, Pow2, Gate.Of;
      HalfOf(x1, q, x0);
      HalfOf(y1, q, y0);
      SplitBits(gate, x1, x0 / 2, y1, y0 / 2, n, k - 1);
      Unfold(gate, Above(x1, 2 * q, x0), Above(y1, 2 * q, y0), n + k);
      Unfold(gate, x0, y0, k);
      Twice(Bitwise(gate, x1, y1, n), q, Bitwise(gate, x0 / 2, y0 / 2, k - 1), gate.Of(x0 % 2, y0 % 2));
    }
  }

  /** A number by its four bytes. */
  function Joined(b3: nat, b2: nat, b1: nat, b0: nat): nat { Above(Above(Above(b3, 256, b2), 256, b1), 256, b0) }

  /** The same, by weights. */
  function Weighed(b3: nat, b2: nat, b1: nat, b0: nat): Word
    requires b3 < 256 && b2 < 256 && b1 < 256 && b0 < 256
  {
    0x100_0000 * b3 + 0x1_0000 * b2 + 0x100 * b1 + b0
  }

  lemma WeighedIsJoined(b3: nat, b2: nat, b1: nat, b0: nat)
    requires b3 < 256 && b2 < 256 && b1 < 256 && b0 < 256
    ensures Weighed(b3, b2, b1, b0) == Joined(b3, b2, b1, b0)
  {
  }

  lemma PowByte()
    ensures Pow2(8) == 256
  {
    assert Pow2(4) == 16;
  }

  lemma JoinedGate(gate: Gate, x3: nat, x2: nat, x1: nat, x0: nat, y3: nat, y2: nat, y1: nat, y0: nat)
    requires x3 < 256 && x2 < 256 && x1 < 256 && x0 < 256 && y3 < 256 && y2 < 256 && y1 < 256 && y0 < 256
    ensures Bitwise(gate, Joined(x3, x2, x1, x0), Joined(y3, y2, y1, y0), 32) ==
            Joined(Bitwise(gate, x3, y3, 8), Bitwise(gate, x2, y2, 8), Bitwise(gate, x1, y1, 8), Bitwise(gate, x0, y0, 8))
  {
    hide Bitwise, Pow2, Above, Gate.Of;
    PowByte();
    SplitBits(gate, x3, x2, y3, y2, 8, 8);
    SplitBits(gate, Above(x3, 256, x2), x1, Above(y3, 256, y2), y1, 16, 8);
    SplitBits(gate, Above(Above(x3, 256, x2), 256, x1), x0, Above(Above(y3, 256, y2), 256, y1), y0, 24, 8);
  }
}

/** The words of MD5 as numbers against those of a machine: the gates defined bit by bit are its bitwise operators. */
module MachineWords {
  import opened Bytes
  import opened Words
  import opened MD5Spec
  import opened BitSplit

  function GateOf(gate: Gate, u: bv8, v: bv8): bv8
  {
    match gate
    case AND => u & v
    case OR => u | v
    case XOR => u ^ v
    case NOT => !u
  }

  function Mask(n: nat): (m: bv8)
    requires n <= 8
  {
    if n == 0 then 0 else (Mask(n - 1) << 1) | 1
  }

  lemma Half(v: bv8)
    ensures (v >> 1) as nat == (v as nat) / 2 && (v & 1) as nat == (v as nat) % 2
  {
  }

  lemma LowBit(gate: Gate, u: bv8, v: bv8)
    ensures (GateOf(gate, u, v) & 1) as nat == gate.Of((u & 1) as nat, (v & 1) as nat)
  {
    assert (u & 1 == 0 || u & 1 == 1) && (v & 1 == 0 || v & 1 == 1);
  }

  lemma UpperBits(gate: Gate, u: bv8, v: bv8, m: bv8)
    requires m & 0x80 == 0
    ensures GateOf(gate, u >> 1, v >> 1) & m == (GateOf(gate, u, v) & ((m << 1) | 1)) >> 1
    ensures GateOf(gate, u, v) & ((m << 1) | 1) & 1 == GateOf(gate, u, v) & 1
  {
  }

  lemma {:induction false} MaskTop(n: nat)
    requires n < 8
    ensures Mask(n) & 0x80 == 0
  {
    assert Mask(0) == 0;
    assert Mask(1) == 1;
    assert Mask(2) == 3;
    assert Mask(3) == 7;
    assert Mask(4) == 15;
    assert Mask(5) == 31;
    assert Mask(6) == 63;
    assert Mask(7) == 127;
  }

  lemma {:induction false} LowBits(gate: Gate, u: bv8, v: bv8, n: nat)
    requires n <= 8
    ensures Bitwise(gate, u as nat, v as nat, n) == (GateOf(gate, u, v) & Mask(n)) as nat
    decreases n
  {
    if n > 0 {
      LowBits(gate, u >> 1, v >> 1, n - 1);
      MaskTop(n - 1);
      UpperBits(gate, u, v, Mask(n - 1));
      LowBit(gate, u, v);
      Half(u);
      Half(v);
      Half(GateOf(gate, u, v) & Mask(n));
      hide GateOf, Gate.Of;
    }
  }

  /** On one byte. */
  lemma ByteGate(gate: Gate, u: bv8, v: bv8)
    ensures Bitwise(gate, u as nat, v as nat, 8) == GateOf(gate, u, v) as nat
  {
    LowBits(gate, u, v, 8);
    MaskTop(7);
    assert Mask(7) == 127 by {
      assert Mask(1) == 1 && Mask(2) == 3 && Mask(3) == 7 && Mask(4) == 15 && Mask(5) == 31 && Mask(6) == 63;
    }
    assert Mask(8) == 255;
    assert GateOf(gate, u, v) & 255 == GateOf(gate, u, v);
  }

  /** A machine word by its bytes, and the number it stands for. */
  datatype Quad = Quad(b3: bv8, b2: bv8, b1: bv8, b0: bv8)
  {
    function Num(): Word
    {
      Weighed(b3 as nat, b2 as nat, b1 as nat, b0 as nat)
    }

    function With(gate: Gate, other: Quad): Quad
    {
      Quad(GateOf(gate, b3, other.b3), GateOf(gate, b2, other.b2), GateOf(gate, b1, other.b1), GateOf(gate, b0, other.b0))
    }

    lemma NumIsJoined()
      ensures Num() == Joined(b3 as nat, b2 as nat, b1 as nat, b0 as nat)
    {
      hide Above;
      WeighedIsJoined(b3 as nat, b2 as nat, b1 as nat, b0 as nat);
    }
  }

  /** On one word. */
  lemma WordGate(gate: Gate, u: Quad, v: Quad)
    ensures Bitwise(gate, u.Num(), v.Num(), 32) == u.With(gate, v).Num()
  {
    u.NumIsJoined();
    v.NumIsJoined();
    u.With(gate, v).NumIsJoined();
    hide Bitwise, GateOf, Joined, Quad.Num;
    ByteGate(gate, u.b3, v.b3);
    ByteGate(gate, u.b2, v.b2);
    ByteGate(gate, u.b1, v.b1);
    ByteGate(gate, u.b0, v.b0);
    JoinedGate(gate, u.b3 as nat, u.b2 as nat, u.b1 as nat, u.b0 as nat, v.b3 as nat, v.b2 as nat, v.b1 as nat, v.b0 as nat);
  }

  /** The auxiliary functions of section 3.4 of RFC 1321 with the operators of the machine, byte by byte. */
  function MixByte(i: nat, x: bv8, y: bv8, z: bv8): bv8
  {
    if i < 16 then (x & y) | (!x & z)
    else if i < 32 then (x & z) | (y & !z)
    else if i < 48 then x ^ y ^ z
    else y ^ (x | !z)
  }

  function MixOf(i: nat, x: Quad, y: Quad, z: Quad): Quad
  {
    Quad(MixByte(i, x.b3, y.b3, z.b3), MixByte(i, x.b2, y.b2, z.b2), MixByte(i, x.b1, y.b1, z.b1), MixByte(i, x.b0, y.b0, z.b0))
  }

  lemma ByteF(x: bv8, y: bv8, z: bv8)
    ensures GateOf(OR, GateOf(AND, x, y), GateOf(AND, GateOf(NOT, x, x), z)) == MixByte(0, x, y, z)
  {
  }

  lemma ByteG(x: bv8, y: bv8, z: bv8)
    ensures GateOf(OR, GateOf(AND, x, z), GateOf(AND, y, GateOf(NOT, z, z))) == MixByte(16, x, y, z)
  {
  }

  lemma ByteH(x: bv8, y: bv8, z: bv8)
    ensures GateOf(XOR, GateOf(XOR, x, y), z) == MixByte(32, x, y, z)
  {
  }

  lemma ByteI(x: bv8, y: bv8, z: bv8)
    ensures GateOf(XOR, y, GateOf(OR, x, GateOf(NOT, z, z))) == MixByte(48, x, y, z)
  {
  }

  lemma SameRound(i: nat, x: bv8, y: bv8, z: bv8)
    ensures MixByte(i, x, y, z) == MixByte(if i < 16 then 0 else if i < 32 then 16 else if i < 48 then 32 else 48, x, y, z)
  {
  }

  lemma ByteByGates(i: nat, x: bv8, y: bv8, z: bv8)
    ensures MixByte(i, x, y, z) ==
            if i < 16 then GateOf(OR, GateOf(AND, x, y), GateOf(AND, GateOf(NOT, x, x), z))
            else if i < 32 then GateOf(OR, GateOf(AND, x, z), GateOf(AND, y, GateOf(NOT, z, z)))
            else if i < 48 then GateOf(XOR, GateOf(XOR, x, y), z)
            else GateOf(XOR, y, GateOf(OR, x, GateOf(NOT, z, z)))
  {
    hide GateOf, MixByte;
    SameRound(i, x, y, z);
    ByteF(x, y, z);
    ByteG(x, y, z);
    ByteH(x, y, z);
    ByteI(x, y, z);
  }

  lemma MixByGates(i: nat, x: Quad, y: Quad, z: Quad)
    ensures MixOf(i, x, y, z) ==
            if i < 16 then x.With(AND, y).With(OR, x.With(NOT, x).With(AND, z))
            else if i < 32 then x.With(AND, z).With(OR, y.With(AND, z.With(NOT, z)))
            else if i < 48 then x.With(XOR, y).With(XOR, z)
            else y.With(XOR, x.With(OR, z.With(NOT, z)))
  {
    hide MixByte, GateOf;
    ByteByGates(i, x.b3, y.b3, z.b3);
    ByteByGates(i, x.b2, y.b2, z.b2);
    ByteByGates(i, x.b1, y.b1, z.b1);
    ByteByGates(i, x.b0, y.b0, z.b0);
  }

  lemma MixIsMachine(i: nat, x: Quad, y: Quad, z: Quad)
    ensures Mix(i, x.Num(), y.Num(), z.Num()) == MixOf(i, x, y, z).Num()
  {
    hide Bitwise, Quad.Num, Quad.With, MixOf;
    MixByGates(i, x, y, z);
    if i < 16 {
      WordGate(AND, x, y);
      WordGate(NOT, x, x);
      WordGate(AND, x.With(NOT, x), z);
      WordGate(OR, x.With(AND, y), x.With(NOT, x).With(AND, z));
    } else if i < 32 {
      WordGate(AND, x, z);
      WordGate(NOT, z, z);
      WordGate(AND, y, z.With(NOT, z));
      WordGate(OR, x.With(AND, z), y.With(AND, z.With(NOT, z)));
    } else if i < 48 {
      WordGate(XOR, x, y);
      WordGate(XOR, x.With(XOR, y), z);
    } else {
      WordGate(NOT, z, z);
      WordGate(OR, x, z.With(NOT, z));
      WordGate(XOR, y, x.With(OR, z.With(NOT, z)));
    }
  }
}
