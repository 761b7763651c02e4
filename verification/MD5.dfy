/** 32-bit words as numbers, with their arithmetic and, bit by bit, their logic. */
module Words {
  import opened Bytes

  const TWO32: nat := 0x1_0000_0000

  type Word = w: nat | w < TWO32

  lemma Pow2Of32()
    ensures Pow2(32) == TWO32
  {
    assert Pow2(8) == 256;
    assert Pow2(16) == 65536;
    assert Pow2(24) == 0x100_0000;
  }

  function Plus(x: Word, y: Word): Word { (x + y) % TWO32 }

  lemma PlusAssociates(x: Word, y: Word, z: Word)
    ensures Plus(x, Plus(y, z)) == Plus(Plus(x, y), z) && Plus(x, y) == Plus(y, x)
  {
  }

  datatype Gate = AND | OR | XOR | NOT
  {
    function Of(a: nat, b: nat): (r: nat)
      requires a < 2 && b < 2
      ensures r < 2
    {
      match this
      case AND => a * b
      case OR => if a + b == 0 then 0 else 1
      case XOR => (a + b) % 2
      case NOT => 1 - a
    }
  }

  /** The gate applied to the low n bits. */
  function Bitwise(gate: Gate, x: nat, y: nat, n: nat): (r: nat)
    ensures r < Pow2(n)
    decreases n
  {
    if n == 0 then 0 else 2 * Bitwise(gate, x / 2, y / 2, n - 1) + gate.Of(x % 2, y % 2)
  }

  function And(x: Word, y: Word): Word { Pow2Of32(); Bitwise(AND, x, y, 32) }

  function Or(x: Word, y: Word): Word { Pow2Of32(); Bitwise(OR, x, y, 32) }

  function Xor(x: Word, y: Word): Word { Pow2Of32(); Bitwise(XOR, x, y, 32) }

  function Not(x: Word): Word { Pow2Of32(); Bitwise(NOT, x, x, 32) }

  /** Circular left shift. */
  function Rotl(w: Word, s: nat): (r: Word)
    requires s <= 32
  {
    (w * Pow2(s) + w / Pow2(32 - s)) % TWO32
  }

  /** Choosing y where x is set and z elsewhere, with two gates less. */
  lemma {:induction false} Choose(x: nat, y: nat, z: nat, n: nat)
    ensures Bitwise(XOR, z, Bitwise(AND, x, Bitwise(XOR, y, z, n), n), n) ==
            Bitwise(OR, Bitwise(AND, x, y, n), Bitwise(AND, Bitwise(NOT, x, x, n), z, n), n)
    decreases n
  {
    if n > 0 {
      Choose(x / 2, y / 2, z / 2, n - 1);
      Halves(XOR, y, z, n);
      Halves(AND, x, Bitwise(XOR, y, z, n), n);
      Halves(AND, x, y, n);
      Halves(NOT, x, x, n);
      Halves(AND, Bitwise(NOT, x, x, n), z, n);
      BitChoice(x % 2, y % 2, z % 2);
      hide Gate.Of, Pow2;
    }
  }

  lemma BitChoice(a: nat, b: nat, c: nat)
    requires a < 2 && b < 2 && c < 2
    ensures XOR.Of(c, AND.Of(a, XOR.Of(b, c))) == OR.Of(AND.Of(a, b), AND.Of(NOT.Of(a, a), c))
  {
  }

  lemma Halves(gate: Gate, x: nat, y: nat, n: nat)
    requires n > 0
    ensures Bitwise(gate, x, y, n) / 2 == Bitwise(gate, x / 2, y / 2, n - 1)
    ensures Bitwise(gate, x, y, n) % 2 == gate.Of(x % 2, y % 2)
  {
  }

  /** Four bytes as a word, low byte first. */
  function WordOf(b: seq<Byte>): Word
    requires |b| == 4
  {
    var b0: nat, b1: nat, b2: nat, b3: nat := b[0], b[1], b[2], b[3];
    b0 + 0x100 * b1 + 0x1_0000 * b2 + 0x100_0000 * b3
  }

  function BytesOf(w: Word): (b: seq<Byte>)
    ensures |b| == 4
  {
    [w % 0x100, w / 0x100 % 0x100, w / 0x1_0000 % 0x100, w / 0x100_0000]
  }

  lemma WordRoundTrip(w: Word)
    ensures WordOf(BytesOf(w)) == w
  {
  }

  lemma BytesRoundTrip(b: seq<Byte>)
    requires |b| == 4
    ensures BytesOf(WordOf(b)) == b
  {
    var b0: nat, b1: nat, b2: nat, b3: nat := b[0], b[1], b[2], b[3];
    var w := WordOf(b);
    assert w % 0x100 == b0;
    assert w / 0x100 == b1 + 0x100 * b2 + 0x1_0000 * b3;
    assert w / 0x1_0000 == b2 + 0x100 * b3;
    assert w / 0x100_0000 == b3;
  }

  /** The words of a block of bytes, low byte first. */
  function WordsOf(b: seq<Byte>): (x: seq<Word>)
    requires |b| % 4 == 0
    ensures |x| == |b| / 4
    ensures forall i :: 0 <= i < |x| ==> x[i] == WordOf(b[4 * i..4 * i + 4])
  {
    seq(|b| / 4, i requires 0 <= i < |b| / 4 => WordOf(b[4 * i..4 * i + 4]))
  }

  // ------------------------------------------------------------------ the byte order of a build

  datatype Order = Little | Big

  /** Every group of four bytes turned round. */
  function Turned(b: seq<Byte>): (r: seq<Byte>)
    ensures |r| == |b|
  {
    if |b| < 4 then b else [b[3], b[2], b[1], b[0]] + Turned(b[4..])
  }

  /** The bytes of memory as a low byte first machine would hold the same words. */
  function InOrder(order: Order, b: seq<Byte>): (r: seq<Byte>)
    ensures |r| == |b|
  {
    if order.Little? then b else Turned(b)
  }

  /** A word of memory, and a word put into memory, as the machine does it. */
  function Load(order: Order, b: seq<Byte>): Word
    requires |b| == 4
  {
    WordOf(if order.Little? then b else [b[3], b[2], b[1], b[0]])
  }

  function Store(order: Order, w: Word): (b: seq<Byte>)
    ensures |b| == 4
  {
    var b := BytesOf(w);
    if order.Little? then b else [b[3], b[2], b[1], b[0]]
  }

  function Loads(order: Order, b: seq<Byte>): (x: seq<Word>)
    requires |b| % 4 == 0
    ensures |x| == |b| / 4
  {
    seq(|b| / 4, i requires 0 <= i < |b| / 4 => Load(order, b[4 * i..4 * i + 4]))
  }

  lemma LoadsInOrder(order: Order, b: seq<Byte>)
    requires |b| % 4 == 0
    ensures Loads(order, b) == WordsOf(InOrder(order, b))
  {
    forall i | 0 <= i < |b| / 4 ensures Loads(order, b)[i] == WordsOf(InOrder(order, b))[i] {
      TurnedGroup(b, i);
      hide WordOf, Turned;
    }
  }

  lemma {:induction false} TurnedGroup(b: seq<Byte>, i: nat)
    requires |b| % 4 == 0 && i < |b| / 4
    ensures Turned(b)[4 * i..4 * i + 4] == [b[4 * i + 3], b[4 * i + 2], b[4 * i + 1], b[4 * i]]
    decreases i
  {
    var head, rest := [b[3], b[2], b[1], b[0]], Turned(b[4..]);
    if i == 0 {
      assert (head + rest)[..4] == head;
    } else {
      TurnedGroup(b[4..], i - 1);
      Dropped(head, rest, i);
    }
  }

  lemma Dropped(head: seq<Byte>, rest: seq<Byte>, i: nat)
    requires |head| == 4 && 0 < i && 4 * i <= |rest|
    ensures (head + rest)[4 * i..4 * i + 4] == rest[4 * (i - 1)..4 * (i - 1) + 4]
  {
  }

  lemma {:induction false} TurnedTwice(b: seq<Byte>)
    ensures Turned(Turned(b)) == b
  {
    if |b| >= 4 {
      TurnedTwice(b[4..]);
      assert Turned(b)[4..] == Turned(b[4..]);
    }
  }

  lemma InOrderJoins(order: Order, a: seq<Byte>, b: seq<Byte>)
    requires |a| % 4 == 0
    ensures InOrder(order, a + b) == InOrder(order, a) + InOrder(order, b)
  {
    TurnedJoins(a, b);
  }

  lemma TurnedJoins(a: seq<Byte>, b: seq<Byte>)
    requires |a| % 4 == 0
    ensures Turned(a + b) == Turned(a) + Turned(b)
  {
    GroupsJoin(a, b, |a| / 4);
  }

  lemma {:induction false} GroupsJoin(a: seq<Byte>, b: seq<Byte>, n: nat)
    requires |a| == 4 * n
    ensures Turned(a + b) == Turned(a) + Turned(b)
    decreases n
  {
    if n == 0 {
      assert a + b == b;
    } else {
      GroupsJoin(a[4..], b, n - 1);
      assert (a + b)[4..] == a[4..] + b;
    }
  }

  /** A stored word is its bytes in the order of the machine. */
  lemma StoreIsTurned(order: Order, w: Word)
    ensures Store(order, w) == InOrder(order, BytesOf(w)) && InOrder(order, Store(order, w)) == BytesOf(w)
  {
    hide BytesOf;
    TurnedTwice(BytesOf(w));
  }
}

/** The compression function of RFC 1321. */
module MD5Spec {
  import opened Words

  /** The four registers. */
  datatype State = State(a: Word, b: Word, c: Word, d: Word)

  /** Section 3.3. */
  const INIT: State := State(0x67452301, 0xefcdab89, 0x98badcfe, 0x10325476)

  // Section 3.4: the auxiliary functions, the order of the words, the rotations, and the sine table.

  function F(x: Word, y: Word, z: Word): Word { Or(And(x, y), And(Not(x), z)) }

  function G(x: Word, y: Word, z: Word): Word { Or(And(x, z), And(y, Not(z))) }

  function H(x: Word, y: Word, z: Word): Word { Xor(Xor(x, y), z) }

  function I(x: Word, y: Word, z: Word): Word { Xor(y, Or(x, Not(z))) }

  function Mix(i: nat, x: Word, y: Word, z: Word): Word
  {
    if i < 16 then F(x, y, z) else if i < 32 then G(x, y, z) else if i < 48 then H(x, y, z) else I(x, y, z)
  }

  function WordIndex(i: nat): (k: nat)
    ensures k < 16
  {
    if i < 16 then i else if i < 32 then (1 + 5 * i) % 16 else if i < 48 then (5 + 3 * i) % 16 else (7 * i) % 16
  }

  function Shift(i: nat): (s: nat)
    ensures s < 32
  {
    if i < 16 then (if i % 4 == 0 then 7 else if i % 4 == 1 then 12 else if i % 4 == 2 then 17 else 22)
    else if i < 32 then (if i % 4 == 0 then 5 else if i % 4 == 1 then 9 else if i % 4 == 2 then 14 else 20)
    else if i < 48 then (if i % 4 == 0 then 4 else if i % 4 == 1 then 11 else if i % 4 == 2 then 16 else 23)
    else (if i % 4 == 0 then 6 else if i % 4 == 1 then 10 else if i % 4 == 2 then 15 else 21)
  }

  /** The integer part of 4294967296 times abs(sin(i + 1)). */
  function Sine(i: nat): Word
  {
    if i < 16 then Sine1(i) else if i < 32 then Sine2(i) else if i < 48 then Sine3(i) else Sine4(i)
  }

  function Sine1(i: nat): Word
  {
    match i
    case 0 => 0xd76aa478
    case 1 => 0xe8c7b756
    case 2 => 0x242070db
    case 3 => 0xc1bdceee
    case 4 => 0xf57c0faf
    case 5 => 0x4787c62a
    case 6 => 0xa8304613
    case 7 => 0xfd469501
    case 8 => 0x698098d8
    case 9 => 0x8b44f7af
    case 10 => 0xffff5bb1
    case 11 => 0x895cd7be
    case 12 => 0x6b901122
    case 13 => 0xfd987193
    case 14 => 0xa679438e
    case 15 => 0x49b40821
    case _ => 0
  }

  function Sine2(i: nat): Word
  {
    match i
    case 16 => 0xf61e2562
    case 17 => 0xc040b340
    case 18 => 0x265e5a51
    case 19 => 0xe9b6c7aa
    case 20 => 0xd62f105d
    case 21 => 0x02441453
    case 22 => 0xd8a1e681
    case 23 => 0xe7d3fbc8
    case 24 => 0x21e1cde6
    case 25 => 0xc33707d6
    case 26 => 0xf4d50d87
    case 27 => 0x455a14ed
    case 28 => 0xa9e3e905
    case 29 => 0xfcefa3f8
    case 30 => 0x676f02d9
    case 31 => 0x8d2a4c8a
    case _ => 0
  }

  function Sine3(i: nat): Word
  {
    match i
    case 32 => 0xfffa3942
    case 33 => 0x8771f681
    case 34 => 0x6d9d6122
    case 35 => 0xfde5380c
    case 36 => 0xa4beea44
    case 37 => 0x4bdecfa9
    case 38 => 0xf6bb4b60
    case 39 => 0xbebfbc70
    case 40 => 0x289b7ec6
    case 41 => 0xeaa127fa
    case 42 => 0xd4ef3085
    case 43 => 0x04881d05
    case 44 => 0xd9d4d039
    case 45 => 0xe6db99e5
    case 46 => 0x1fa27cf8
    case 47 => 0xc4ac5665
    case _ => 0
  }

  function Sine4(i: nat): Word
  {
    match i
    case 48 => 0xf4292244
    case 49 => 0x432aff97
    case 50 => 0xab9423a7
    case 51 => 0xfc93a039
    case 52 => 0x655b59c3
    case 53 => 0x8f0ccc92
    case 54 => 0xffeff47d
    case 55 => 0x85845dd1
    case 56 => 0x6fa87e4f
    case 57 => 0xfe2ce6e0
    case 58 => 0xa3014314
    case 59 => 0x4e0811a1
    case 60 => 0xf7537e82
    case 61 => 0xbd3af235
    case 62 => 0x2ad7d2bb
    case 63 => 0xeb86d391
    case _ => 0
  }

  /** Operation [abcd k s i]; the registers then move on by one. */
  function Operation(s: State, x: seq<Word>, i: nat): State
    requires |x| == 16
  {
    var sum := Plus(Plus(Plus(s.a, Mix(i, s.b, s.c, s.d)), x[WordIndex(i)]), Sine(i));
    State(s.d, Plus(s.b, Rotl(sum, Shift(i))), s.b, s.c)
  }

  /** The registers after the first n operations on block x. */
  function After(s: State, x: seq<Word>, n: nat): State
    requires |x| == 16
  {
    if n == 0 then s else Operation(After(s, x, n - 1), x, n - 1)
  }

  function Add(s: State, t: State): State { State(Plus(s.a, t.a), Plus(s.b, t.b), Plus(s.c, t.c), Plus(s.d, t.d)) }

  /** One 16-word block: four rounds of one operation a word. */
  function Compress(s: State, x: seq<Word>): State
    requires |x| == 16
  {
    Add(s, After(s, x, 4 * |x|))
  }
}

/** MD5Transform (md5.c). */
module MD5Transform {
  import opened Words
  import opened MD5Spec

  function F1(x: Word, y: Word, z: Word): Word { Xor(z, And(x, Xor(y, z))) }

  function F2(x: Word, y: Word, z: Word): Word { F1(z, x, y) }

  function F3(x: Word, y: Word, z: Word): Word { Xor(Xor(x, y), z) }

  function F4(x: Word, y: Word, z: Word): Word { Xor(y, Or(x, Not(z))) }

  /** MD5STEP: w += f + data, rotate by s, += x. */
  function Md5Step(f: Word, w: Word, x: Word, data: Word, s: nat): Word
    requires s < 32
  {
    Plus(Rotl(Plus(w, Plus(f, data)), s), x)
  }

  /** F1 is the F of the RFC with one operation less. */
  lemma F1IsF(x: Word, y: Word, z: Word)
    ensures F1(x, y, z) == F(x, y, z)
  {
    Choose(x, y, z, 32);
  }

  lemma F2IsG(x: Word, y: Word, z: Word)
    ensures F2(x, y, z) == G(x, y, z)
  {
    Choose(z, x, y, 32);
    hide Bitwise;
    Commutes(z, x, 32);
    Commutes(Not(z), y, 32);
  }

  lemma {:induction false} Commutes(x: nat, y: nat, n: nat)
    ensures Bitwise(AND, x, y, n) == Bitwise(AND, y, x, n)
    decreases n
  {
    if n > 0 {
      Commutes(x / 2, y / 2, n - 1);
    }
  }

  lemma StepIsOperation(f: Word, w: Word, x: Word, word: Word, t: Word, s: nat)
    requires s < 32
    ensures Md5Step(f, w, x, Plus(word, t), s) == Plus(x, Rotl(Plus(Plus(Plus(w, f), word), t), s))
  {
    PlusAssociates(f, word, t);
    PlusAssociates(w, Plus(f, word), t);
    PlusAssociates(w, f, word);
    hide Rotl;
  }

  lemma Step1(s: State, x: seq<Word>, i: nat, r: State)
    requires |x| == 16 && 0 <= i < 16 && After(s, x, i) == r
    ensures After(s, x, i + 1) ==
            State(r.d, Md5Step(F1(r.b, r.c, r.d), r.a, r.b, Plus(x[WordIndex(i)], Sine(i)), Shift(i)), r.b, r.c)
  {
    hide Rotl, Sine, Shift, WordIndex, Md5Step, F, G, Plus;
    F1IsF(r.b, r.c, r.d);
    StepIsOperation(F1(r.b, r.c, r.d), r.a, r.b, x[WordIndex(i)], Sine(i), Shift(i));
  }

  lemma Step2(s: State, x: seq<Word>, i: nat, r: State)
    requires |x| == 16 && 16 <= i < 32 && After(s, x, i) == r
    ensures After(s, x, i + 1) ==
            State(r.d, Md5Step(F2(r.b, r.c, r.d), r.a, r.b, Plus(x[WordIndex(i)], Sine(i)), Shift(i)), r.b, r.c)
  {
    hide Rotl, Sine, Shift, WordIndex, Md5Step, F, G, Plus;
    F2IsG(r.b, r.c, r.d);
    StepIsOperation(F2(r.b, r.c, r.d), r.a, r.b, x[WordIndex(i)], Sine(i), Shift(i));
  }

  lemma Step3(s: State, x: seq<Word>, i: nat, r: State)
    requires |x| == 16 && 32 <= i < 48 && After(s, x, i) == r
    ensures After(s, x, i + 1) ==
            State(r.d, Md5Step(F3(r.b, r.c, r.d), r.a, r.b, Plus(x[WordIndex(i)], Sine(i)), Shift(i)), r.b, r.c)
  {
    hide Rotl, Sine, Shift, WordIndex, Md5Step, F, G, Plus;
    StepIsOperation(F3(r.b, r.c, r.d), r.a, r.b, x[WordIndex(i)], Sine(i), Shift(i));
  }

  lemma Step4(s: State, x: seq<Word>, i: nat, r: State)
    requires |x| == 16 && 48 <= i < 64 && After(s, x, i) == r
    ensures After(s, x, i + 1) ==
            State(r.d, Md5Step(F4(r.b, r.c, r.d), r.a, r.b, Plus(x[WordIndex(i)], Sine(i)), Shift(i)), r.b, r.c)
  {
    hide Rotl, Sine, Shift, WordIndex, Md5Step, F, G, Plus;
    StepIsOperation(F4(r.b, r.c, r.d), r.a, r.b, x[WordIndex(i)], Sine(i), Shift(i));
  }

  method Steps0To7(s: State, x: seq<Word>, r: State) returns (t: State)
    requires |x| == 16 && After(s, x, 0) == r
    ensures t == After(s, x, 8)
  {
    hide After, Md5Step, F1, F2, F3, F4, Plus, Sine2, Sine3, Sine4;
    var a, b, c, d := r.a, r.b, r.c, r.d;
    Step1(s, x, 0, State(a, b, c, d));
    a := Md5Step(F1(b, c, d), a, b, Plus(x[0], 0xd76aa478), 7);
    Step1(s, x, 1, State(d, a, b, c));
    d := Md5Step(F1(a, b, c), d, a, Plus(x[1], 0xe8c7b756), 12);
    Step1(s, x, 2, State(c, d, a, b));
    c := Md5Step(F1(d, a, b), c, d, Plus(x[2], 0x242070db), 17);
    Step1(s, x, 3, State(b, c, d, a));
    b := Md5Step(F1(c, d, a), b, c, Plus(x[3], 0xc1bdceee), 22);
    Step1(s, x, 4, State(a, b, c, d));
    a := Md5Step(F1(b, c, d), a, b, Plus(x[4], 0xf57c0faf), 7);
    Step1(s, x, 5, State(d, a, b, c));
    d := Md5Step(F1(a, b, c), d, a, Plus(x[5], 0x4787c62a), 12);
    Step1(s, x, 6, State(c, d, a, b));
    c := Md5Step(F1(d, a, b), c, d, Plus(x[6], 0xa8304613), 17);
    Step1(s, x, 7, State(b, c, d, a));
    b := Md5Step(F1(c, d, a), b, c, Plus(x[7], 0xfd469501), 22);
    t := State(a, b, c, d);
  }

  method Steps8To15(s: State, x: seq<Word>, r: State) returns (t: State)
    requires |x| == 16 && After(s, x, 8) == r
    ensures t == After(s, x, 16)
  {
    hide After, Md5Step, F1, F2, F3, F4, Plus, Sine2, Sine3, Sine4;
    var a, b, c, d := r.a, r.b, r.c, r.d;
    Step1(s, x, 8, State(a, b, c, d));
    a := Md5Step(F1(b, c, d), a, b, Plus(x[8], 0x698098d8), 7);
    Step1(s, x, 9, State(d, a, b, c));
    d := Md5Step(F1(a, b, c), d, a, Plus(x[9], 0x8b44f7af), 12);
    Step1(s, x, 10, State(c, d, a, b));
    c := Md5Step(F1(d, a, b), c, d, Plus(x[10], 0xffff5bb1), 17);
    Step1(s, x, 11, State(b, c, d, a));
    b := Md5Step(F1(c, d, a), b, c, Plus(x[11], 0x895cd7be), 22);
    Step1(s, x, 12, State(a, b, c, d));
    a := Md5Step(F1(b, c, d), a, b, Plus(x[12], 0x6b901122), 7);
    Step1(s, x, 13, State(d, a, b, c));
    d := Md5Step(F1(a, b, c), d, a, Plus(x[13], 0xfd987193), 12);
    Step1(s, x, 14, State(c, d, a, b));
    c := Md5Step(F1(d, a, b), c, d, Plus(x[14], 0xa679438e), 17);
    Step1(s, x, 15, State(b, c, d, a));
    b := Md5Step(F1(c, d, a), b, c, Plus(x[15], 0x49b40821), 22);
    t := State(a, b, c, d);
  }

  method Steps16To23(s: State, x: seq<Word>, r: State) returns (t: State)
    requires |x| == 16 && After(s, x, 16) == r
    ensures t == After(s, x, 24)
  {
    hide After, Md5Step, F1, F2, F3, F4, Plus, Sine1, Sine3, Sine4;
    var a, b, c, d := r.a, r.b, r.c, r.d;
    Step2(s, x, 16, State(a, b, c, d));
    a := Md5Step(F2(b, c, d), a, b, Plus(x[1], 0xf61e2562), 5);
    Step2(s, x, 17, State(d, a, b, c));
    d := Md5Step(F2(a, b, c), d, a, Plus(x[6], 0xc040b340), 9);
    Step2(s, x, 18, State(c, d, a, b));
    c := Md5Step(F2(d, a, b), c, d, Plus(x[11], 0x265e5a51), 14);
    Step2(s, x, 19, State(b, c, d, a));
    b := Md5Step(F2(c, d, a), b, c, Plus(x[0], 0xe9b6c7aa), 20);
    Step2(s, x, 20, State(a, b, c, d));
    a := Md5Step(F2(b, c, d), a, b, Plus(x[5], 0xd62f105d), 5);
    Step2(s, x, 21, State(d, a, b, c));
    d := Md5Step(F2(a, b, c), d, a, Plus(x[10], 0x02441453), 9);
    Step2(s, x, 22, State(c, d, a, b));
    c := Md5Step(F2(d, a, b), c, d, Plus(x[15], 0xd8a1e681), 14);
    Step2(s, x, 23, State(b, c, d, a));
    b := Md5Step(F2(c, d, a), b, c, Plus(x[4], 0xe7d3fbc8), 20);
    t := State(a, b, c, d);
  }

  method Steps24To31(s: State, x: seq<Word>, r: State) returns (t: State)
    requires |x| == 16 && After(s, x, 24) == r
    ensures t == After(s, x, 32)
  {
    hide After, Md5Step, F1, F2, F3, F4, Plus, Sine1, Sine3, Sine4;
    var a, b, c, d := r.a, r.b, r.c, r.d;
    Step2(s, x, 24, State(a, b, c, d));
    a := Md5Step(F2(b, c, d), a, b, Plus(x[9], 0x21e1cde6), 5);
    Step2(s, x, 25, State(d, a, b, c));
    d := Md5Step(F2(a, b, c), d, a, Plus(x[14], 0xc33707d6), 9);
    Step2(s, x, 26, State(c, d, a, b));
    c := Md5Step(F2(d, a, b), c, d, Plus(x[3], 0xf4d50d87), 14);
    Step2(s, x, 27, State(b, c, d, a));
    b := Md5Step(F2(c, d, a), b, c, Plus(x[8], 0x455a14ed), 20);
    Step2(s, x, 28, State(a, b, c, d));
    a := Md5Step(F2(b, c, d), a, b, Plus(x[13], 0xa9e3e905), 5);
    Step2(s, x, 29, State(d, a, b, c));
    d := Md5Step(F2(a, b, c), d, a, Plus(x[2], 0xfcefa3f8), 9);
    Step2(s, x, 30, State(c, d, a, b));
    c := Md5Step(F2(d, a, b), c, d, Plus(x[7], 0x676f02d9), 14);
    Step2(s, x, 31, State(b, c, d, a));
    b := Md5Step(F2(c, d, a), b, c, Plus(x[12], 0x8d2a4c8a), 20);
    t := State(a, b, c, d);
  }

  method Steps32To39(s: State, x: seq<Word>, r: State) returns (t: State)
    requires |x| == 16 && After(s, x, 32) == r
    ensures t == After(s, x, 40)
  {
    hide After, Md5Step, F1, F2, F3, F4, Plus, Sine1, Sine2, Sine4;
    var a, b, c, d := r.a, r.b, r.c, r.d;
    Step3(s, x, 32, State(a, b, c, d));
    a := Md5Step(F3(b, c, d), a, b, Plus(x[5], 0xfffa3942), 4);
    Step3(s, x, 33, State(d, a, b, c));
    d := Md5Step(F3(a, b, c), d, a, Plus(x[8], 0x8771f681), 11);
    Step3(s, x, 34, State(c, d, a, b));
    c := Md5Step(F3(d, a, b), c, d, Plus(x[11], 0x6d9d6122), 16);
    Step3(s, x, 35, State(b, c, d, a));
    b := Md5Step(F3(c, d, a), b, c, Plus(x[14], 0xfde5380c), 23);
    Step3(s, x, 36, State(a, b, c, d));
    a := Md5Step(F3(b, c, d), a, b, Plus(x[1], 0xa4beea44), 4);
    Step3(s, x, 37, State(d, a, b, c));
    d := Md5Step(F3(a, b, c), d, a, Plus(x[4], 0x4bdecfa9), 11);
    Step3(s, x, 38, State(c, d, a, b));
    c := Md5Step(F3(d, a, b), c, d, Plus(x[7], 0xf6bb4b60), 16);
    Step3(s, x, 39, State(b, c, d, a));
    b := Md5Step(F3(c, d, a), b, c, Plus(x[10], 0xbebfbc70), 23);
    t := State(a, b, c, d);
  }

  method Steps40To47(s: State, x: seq<Word>, r: State) returns (t: State)
    requires |x| == 16 && After(s, x, 40) == r
    ensures t == After(s, x, 48)
  {
    hide After, Md5Step, F1, F2, F3, F4, Plus, Sine1, Sine2, Sine4;
    var a, b, c, d := r.a, r.b, r.c, r.d;
    Step3(s, x, 40, State(a, b, c, d));
    a := Md5Step(F3(b, c, d), a, b, Plus(x[13], 0x289b7ec6), 4);
    Step3(s, x, 41, State(d, a, b, c));
    d := Md5Step(F3(a, b, c), d, a, Plus(x[0], 0xeaa127fa), 11);
    Step3(s, x, 42, State(c, d, a, b));
    c := Md5Step(F3(d, a, b), c, d, Plus(x[3], 0xd4ef3085), 16);
    Step3(s, x, 43, State(b, c, d, a));
    b := Md5Step(F3(c, d, a), b, c, Plus(x[6], 0x04881d05), 23);
    Step3(s, x, 44, State(a, b, c, d));
    a := Md5Step(F3(b, c, d), a, b, Plus(x[9], 0xd9d4d039), 4);
    Step3(s, x, 45, State(d, a, b, c));
    d := Md5Step(F3(a, b, c), d, a, Plus(x[12], 0xe6db99e5), 11);
    Step3(s, x, 46, State(c, d, a, b));
    c := Md5Step(F3(d, a, b), c, d, Plus(x[15], 0x1fa27cf8), 16);
    Step3(s, x, 47, State(b, c, d, a));
    b := Md5Step(F3(c, d, a), b, c, Plus(x[2], 0xc4ac5665), 23);
    t := State(a, b, c, d);
  }

  method Steps48To55(s: State, x: seq<Word>, r: State) returns (t: State)
    requires |x| == 16 && After(s, x, 48) == r
    ensures t == After(s, x, 56)
  {
    hide After, Md5Step, F1, F2, F3, F4, Plus, Sine1, Sine2, Sine3;
    var a, b, c, d := r.a, r.b, r.c, r.d;
    Step4(s, x, 48, State(a, b, c, d));
    a := Md5Step(F4(b, c, d), a, b, Plus(x[0], 0xf4292244), 6);
    Step4(s, x, 49, State(d, a, b, c));
    d := Md5Step(F4(a, b, c), d, a, Plus(x[7], 0x432aff97), 10);
    Step4(s, x, 50, State(c, d, a, b));
    c := Md5Step(F4(d, a, b), c, d, Plus(x[14], 0xab9423a7), 15);
    Step4(s, x, 51, State(b, c, d, a));
    b := Md5Step(F4(c, d, a), b, c, Plus(x[5], 0xfc93a039), 21);
    Step4(s, x, 52, State(a, b, c, d));
    a := Md5Step(F4(b, c, d), a, b, Plus(x[12], 0x655b59c3), 6);
    Step4(s, x, 53, State(d, a, b, c));
    d := Md5Step(F4(a, b, c), d, a, Plus(x[3], 0x8f0ccc92), 10);
    Step4(s, x, 54, State(c, d, a, b));
    c := Md5Step(F4(d, a, b), c, d, Plus(x[10], 0xffeff47d), 15);
    Step4(s, x, 55, State(b, c, d, a));
    b := Md5Step(F4(c, d, a), b, c, Plus(x[1], 0x85845dd1), 21);
    t := State(a, b, c, d);
  }

  method Steps56To63(s: State, x: seq<Word>, r: State) returns (t: State)
    requires |x| == 16 && After(s, x, 56) == r
    ensures t == After(s, x, 64)
  {
    hide After, Md5Step, F1, F2, F3, F4, Plus, Sine1, Sine2, Sine3;
    var a, b, c, d := r.a, r.b, r.c, r.d;
    Step4(s, x, 56, State(a, b, c, d));
    a := Md5Step(F4(b, c, d), a, b, Plus(x[8], 0x6fa87e4f), 6);
    Step4(s, x, 57, State(d, a, b, c));
    d := Md5Step(F4(a, b, c), d, a, Plus(x[15], 0xfe2ce6e0), 10);
    Step4(s, x, 58, State(c, d, a, b));
    c := Md5Step(F4(d, a, b), c, d, Plus(x[6], 0xa3014314), 15);
    Step4(s, x, 59, State(b, c, d, a));
    b := Md5Step(F4(c, d, a), b, c, Plus(x[13], 0x4e0811a1), 21);
    Step4(s, x, 60, State(a, b, c, d));
    a := Md5Step(F4(b, c, d), a, b, Plus(x[4], 0xf7537e82), 6);
    Step4(s, x, 61, State(d, a, b, c));
    d := Md5Step(F4(a, b, c), d, a, Plus(x[11], 0xbd3af235), 10);
    Step4(s, x, 62, State(c, d, a, b));
    c := Md5Step(F4(d, a, b), c, d, Plus(x[2], 0x2ad7d2bb), 15);
    Step4(s, x, 63, State(b, c, d, a));
    b := Md5Step(F4(c, d, a), b, c, Plus(x[9], 0xeb86d391), 21);
    t := State(a, b, c, d);
  }

  /** MD5Transform: the 64 unrolled steps compute the compression function of the RFC. */
  method Transform(s: State, x: seq<Word>) returns (r: State)
    requires |x| == 16
    ensures r == Compress(s, x)
  {
    hide After, Plus;
    assert After(s, x, 0) == s by { Start(s, x); }
    var t := Steps0To7(s, x, s);
    t := Steps8To15(s, x, t);
    t := Steps16To23(s, x, t);
    t := Steps24To31(s, x, t);
    t := Steps32To39(s, x, t);
    t := Steps40To47(s, x, t);
    t := Steps48To55(s, x, t);
    t := Steps56To63(s, x, t);
    r := State(Plus(s.a, t.a), Plus(s.b, t.b), Plus(s.c, t.c), Plus(s.d, t.d));
  }

  lemma Start(s: State, x: seq<Word>)
    requires |x| == 16
    ensures After(s, x, 0) == s
  {
  }
}
