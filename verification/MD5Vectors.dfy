/** Test vectors of appendix A.5 of RFC 1321, worked out operation by operation. */
module MD5Vectors {
  import opened Bytes
  import opened Words
  import opened MD5Spec
  import opened BitSplit
  import opened MachineWords
  import opened MD5Stream

  /** A rotation takes the upper s bits behind the lower ones. */
  lemma Rotates(t: Word, s: nat, high: nat, low: nat)
    requires s <= 32 && t == high * Pow2(32 - s) + low && low < Pow2(32 - s)
    ensures high * Pow2(32 - s) <= t && Rotl(t, s) == (low * Pow2(s) + high) % TWO32
  {
    Product(s);
    hide Pow2;
    Shifted(t, Pow2(s), Pow2(32 - s), high, low);
  }

  lemma {:induction false} Product(s: nat)
    requires s <= 32
    ensures Pow2(s) * Pow2(32 - s) == TWO32
  {
    if s == 0 {
      Pow2Of32();
    } else {
      Product(s - 1);
      assert Pow2(33 - s) == 2 * Pow2(32 - s) && Pow2(s) == 2 * Pow2(s - 1);
      hide Pow2;
      Moved(Pow2(s - 1), Pow2(32 - s));
    }
  }

  lemma Moved(p: nat, q: nat)
    ensures (2 * p) * q == p * (2 * q)
  {
  }

  lemma Shifted(t: Word, p: nat, q: nat, high: nat, low: nat)
    requires p * q == TWO32 && t == high * q + low && low < q
    ensures t / q == high && (t * p + t / q) % TWO32 == (low * p + high) % TWO32
  {
    Quotient(t, q, high, low);
    assert t * p == high * (p * q) + low * p;
    Multiple(high, low * p + high);
  }

  lemma Quotient(t: nat, q: nat, high: nat, low: nat)
    requires t == high * q + low && low < q
    ensures t / q == high
  {
    var k := t / q;
    if k != high {
      Large(high - k, q);
    }
  }

  lemma Large(d: int, q: nat)
    requires d != 0
    ensures d * q >= q || d * q + q <= 0
  {
  }

  lemma Multiple(k: nat, x: nat)
    ensures (k * TWO32 + x) % TWO32 == x % TWO32
  {
  }

  lemma Powers()
    ensures Pow2(4) == 0x10 && Pow2(5) == 0x20 && Pow2(6) == 0x40 && Pow2(7) == 0x80 && Pow2(9) == 0x200
    ensures Pow2(10) == 0x400 && Pow2(11) == 0x800 && Pow2(12) == 0x1000 && Pow2(14) == 0x4000 && Pow2(15) == 0x8000
    ensures Pow2(16) == 0x1_0000 && Pow2(17) == 0x2_0000 && Pow2(18) == 0x4_0000 && Pow2(20) == 0x10_0000
    ensures Pow2(21) == 0x20_0000 && Pow2(22) == 0x40_0000 && Pow2(23) == 0x80_0000 && Pow2(25) == 0x200_0000
    ensures Pow2(26) == 0x400_0000 && Pow2(27) == 0x800_0000 && Pow2(28) == 0x1000_0000
  {
    assert Pow2(4) == 0x10;
    assert Pow2(8) == 0x100;
    assert Pow2(12) == 0x1000;
    assert Pow2(16) == 0x1_0000;
    assert Pow2(20) == 0x10_0000;
    assert Pow2(24) == 0x100_0000;
  }

  /** The registers hold these machine words. */
  function At(a: Quad, b: Quad, c: Quad, d: Quad): State { State(a.Num(), b.Num(), c.Num(), d.Num()) }

  /** What an operation comes to: the value of the auxiliary function, the sum in front of the rotation cut into
      the part that is rotated out and the rest, and the new register. */
  datatype Work = Work(mix: nat, high: nat, low: nat, made: Quad)
  {
    predicate Of(i: nat, word: nat, a: Quad, b: Quad, c: Quad, d: Quad)
    {
      var p, q := Pow2(Shift(i)), Pow2(32 - Shift(i));
      && mix == MixOf(i, b, c, d).Num()
      && high * q + low == (a.Num() + mix + word + Sine(i)) % TWO32
      && low < q
      && made.Num() == (b.Num() + low * p + high) % TWO32
    }
  }

  lemma Reduced(b: nat, x: nat)
    ensures (b + x % TWO32) % TWO32 == (b + x) % TWO32
  {
  }

  lemma Sums(a: Word, m: Word, w: Word, k: Word)
    ensures Plus(Plus(Plus(a, m), w), k) == (a + m + w + k) % TWO32
  {
    Reduced(w, a + m);
    Reduced(k, a + m + w);
  }

  lemma Made(t: Word, b: Word, s: nat, high: nat, low: nat)
    requires s <= 32 && t == high * Pow2(32 - s) + low && low < Pow2(32 - s)
    ensures Plus(b, Rotl(t, s)) == (b + low * Pow2(s) + high) % TWO32
  {
    hide Pow2, Rotl;
    Rotates(t, s, high, low);
    Reduced(b, low * Pow2(s) + high);
  }

  lemma One(x: seq<Word>, i: nat, a: Quad, b: Quad, c: Quad, d: Quad, w: Work)
    requires |x| == 16 && After(INIT, x, i) == At(a, b, c, d) && w.Of(i, x[WordIndex(i)], a, b, c, d)
    ensures After(INIT, x, i + 1) == At(d, w.made, b, c)
  {
    hide Mix, Rotl, Sine, Shift, MixOf, Quad.Num, WordIndex, Pow2, Plus;
    MixIsMachine(i, b, c, d);
    Sums(a.Num(), w.mix, x[WordIndex(i)], Sine(i));
    Made(Plus(Plus(Plus(a.Num(), w.mix), x[WordIndex(i)]), Sine(i)), b.Num(), Shift(i), w.high, w.low);
  }

  /** Four operations turn all registers. */
  lemma Four(x: seq<Word>, i: nat, a: Quad, b: Quad, c: Quad, d: Quad, w1: Work, w2: Work, w3: Work, w4: Work)
    requires |x| == 16 && After(INIT, x, i) == At(a, b, c, d)
    requires w1.Of(i, x[WordIndex(i)], a, b, c, d) && w2.Of(i + 1, x[WordIndex(i + 1)], d, w1.made, b, c)
    requires w3.Of(i + 2, x[WordIndex(i + 2)], c, w2.made, w1.made, b)
    requires w4.Of(i + 3, x[WordIndex(i + 3)], b, w3.made, w2.made, w1.made)
    ensures After(INIT, x, i + 4) == At(w1.made, w4.made, w3.made, w2.made)
  {
    hide Work.Of, After, At, WordIndex;
    One(x, i, a, b, c, d, w1);
    One(x, i + 1, d, w1.made, b, c, w2);
    One(x, i + 2, c, w2.made, w1.made, b, w3);
    One(x, i + 3, b, w3.made, w2.made, w1.made, w4);
  }

  // ------------------------------------------------------------------ the empty message

  /** The words of the one padded block. */
  predicate IsEmpty(x: seq<Word>)
  {
    |x| == 16 && x[0] == 0x80 && forall i :: 0 < i < 16 ==> x[i] == 0
  }

  lemma Empty0(x: seq<Word>)
    requires IsEmpty(x)
    ensures After(INIT, x, 0) == At(Quad(0x67, 0x45, 0x23, 0x01), Quad(0xef, 0xcd, 0xab, 0x89), Quad(0x98, 0xba, 0xdc, 0xfe), Quad(0x10, 0x32, 0x54, 0x76))
  {
  }

  lemma Empty8(x: seq<Word>)
    requires IsEmpty(x)
    ensures After(INIT, x, 8) == At(Quad(0x32, 0x03, 0x33, 0x44), Quad(0x9b, 0xc1, 0x3c, 0xe9), Quad(0xf5, 0xb1, 0x58, 0xdb), Quad(0x2f, 0x35, 0xd4, 0x94))
  {
    hide Bitwise, Pow2, After, At;
    Powers();
    Empty0(x);
    Four(x, 0, Quad(0x67, 0x45, 0x23, 0x01), Quad(0xef, 0xcd, 0xab, 0x89), Quad(0x98, 0xba, 0xdc, 0xfe), Quad(0x10, 0x32, 0x54, 0x76),
         Work(0x98badcfe, 0x6b, 0x16aa4f7, Quad(0xa5, 0x20, 0x27, 0x74)), Work(0xbd9afb8a, 0xb69, 0x50756, Quad(0xf5, 0x95, 0x92, 0xdd)),
         Work(0xaf482b54, 0xd846, 0x792d, Quad(0xe7, 0xf0, 0x6b, 0x23)), Work(0xe5900655, 0x25c6e0, 0xcc, Quad(0x1b, 0x16, 0x32, 0x03)));
    Four(x, 4, Quad(0xa5, 0x20, 0x27, 0x74), Quad(0x1b, 0x16, 0x32, 0x03), Quad(0xe7, 0xf0, 0x6b, 0x23), Quad(0xf5, 0x95, 0x92, 0xdd),
         Work(0xe791a2df, 0x41, 0x2dda02, Quad(0x32, 0x03, 0x33, 0x44)), Work(0xd7f27a23, 0x150, 0xfd32a, Quad(0x2f, 0x35, 0xd4, 0x94)),
         Work(0x32033207, 0x18447, 0x633d, Quad(0xf5, 0xb1, 0x58, 0xdb)), Work(0x27337394, 0xfe40e, 0x298, Quad(0x9b, 0xc1, 0x3c, 0xe9)));
  }

  lemma Empty16(x: seq<Word>)
    requires IsEmpty(x)
    ensures After(INIT, x, 16) == At(Quad(0xf5, 0x6c, 0x7c, 0xf1), Quad(0xd6, 0x81, 0x9c, 0x6a), Quad(0x5a, 0xa5, 0x3f, 0x75), Quad(0x37, 0x49, 0x43, 0xa7))
  {
    hide Bitwise, Pow2, After, At;
    Powers();
    Empty8(x);
    Four(x, 8, Quad(0x32, 0x03, 0x33, 0x44), Quad(0x9b, 0xc1, 0x3c, 0xe9), Quad(0xf5, 0xb1, 0x58, 0xdb), Quad(0x2f, 0x35, 0xd4, 0x94),
         Work(0xb5b5d8dd, 0x28, 0x139a4f9, Quad(0x38, 0x93, 0xb9, 0x91)), Work(0xdda178cb, 0x981, 0xc450e, Quad(0xfc, 0xe4, 0xa3, 0x12)),
         Work(0x3b81bdf9, 0x6264, 0x7285, Quad(0xe1, 0xef, 0x05, 0x76)), Work(0xf8f4b993, 0x784b3, 0x23a, Quad(0x70, 0x76, 0x8a, 0x29)));
    Four(x, 12, Quad(0x38, 0x93, 0xb9, 0x91), Quad(0x70, 0x76, 0x8a, 0x29), Quad(0xe1, 0xef, 0x05, 0x76), Quad(0xfc, 0xe4, 0xa3, 0x12),
         Work(0xece62132, 0x48, 0x109ebe5, Quad(0xf5, 0x6c, 0x7c, 0xf1)), Work(0x70e70927, 0x6b6, 0x41dcc, Quad(0x37, 0x49, 0x43, 0xa7)),
         Work(0x757ec8a9, 0x1fbce, 0x11ad, Quad(0x5a, 0xa5, 0x3f, 0x75)), Work(0xb74943a5, 0x1c5cf5, 0x1ef, Quad(0xd6, 0x81, 0x9c, 0x6a)));
  }

  lemma Empty24(x: seq<Word>)
    requires IsEmpty(x)
    ensures After(INIT, x, 24) == At(Quad(0x3d, 0x1e, 0x3e, 0x6c), Quad(0xe4, 0x22, 0x53, 0x1a), Quad(0xeb, 0x41, 0x64, 0x3e), Quad(0x68, 0xb7, 0xb3, 0xe3))
  {
    hide Bitwise, Pow2, After, At;
    Powers();
    Empty16(x);
    Four(x, 16, Quad(0xf5, 0x6c, 0x7c, 0xf1), Quad(0xd6, 0x81, 0x9c, 0x6a), Quad(0x5a, 0xa5, 0x3f, 0x75), Quad(0x37, 0x49, 0x43, 0xa7),
         Work(0x5ea53c72, 0x9, 0x22fdec5, Quad(0x1c, 0x7d, 0x75, 0x13)), Work(0x9c25b51b, 0x127, 0x2fac02, Quad(0x7b, 0xd5, 0x7a, 0x3a)),
         Work(0x5afd793b, 0x3700, 0x11301, Quad(0xc0, 0x95, 0xf1, 0x3a)), Work(0x63957b3a, 0x23cdd, 0xfce, Quad(0xbd, 0x78, 0x2e, 0x17)));
    Four(x, 20, Quad(0x1c, 0x7d, 0x75, 0x13), Quad(0xbd, 0x78, 0x2e, 0x17), Quad(0xc0, 0x95, 0xf1, 0x3a), Quad(0x7b, 0xd5, 0x7a, 0x3a),
         Work(0xb950ab12, 0x15, 0x3fd3082, Quad(0x3d, 0x1e, 0x3e, 0x6c)), Work(0x3d7c3e2d, 0x177, 0x15ccba, Quad(0x68, 0xb7, 0xb3, 0xe3)),
         Work(0x2836326b, 0x305b, 0x20a26, Quad(0xeb, 0x41, 0x64, 0x3e)), Work(0x69a1a5af, 0xeedc, 0xf8e, Quad(0xe4, 0x22, 0x53, 0x1a)));
  }

  lemma Empty32(x: seq<Word>)
    requires IsEmpty(x)
    ensures After(INIT, x, 32) == At(Quad(0x13, 0x70, 0x70, 0x36), Quad(0xa2, 0x20, 0x5f, 0x1f), Quad(0x1c, 0x31, 0xc3, 0x84), Quad(0xae, 0x78, 0x13, 0xdb))
  {
    hide Bitwise, Pow2, After, At;
    Powers();
    Empty24(x);
    Four(x, 24, Quad(0x3d, 0x1e, 0x3e, 0x6c), Quad(0xe4, 0x22, 0x53, 0x1a), Quad(0xeb, 0x41, 0x64, 0x3e), Quad(0x68, 0xb7, 0xb3, 0xe3),
         Work(0xe362571e, 0x8, 0x2626370, Quad(0x30, 0x6e, 0xc1, 0x22)), Work(0x24625322, 0xa0, 0x510edb, Quad(0xd2, 0x8c, 0x77, 0xc2)),
         Work(0xd04cd322, 0x2c18, 0x344e7, Quad(0xa3, 0xc6, 0x63, 0xda)), Work(0xe2c677c2, 0xc42d, 0xfc9, Quad(0xa0, 0x57, 0x28, 0x07)));
    Four(x, 28, Quad(0x30, 0x6e, 0xc1, 0x22), Quad(0xa0, 0x57, 0x28, 0x07), Quad(0xa3, 0xc6, 0x63, 0xda), Quad(0xd2, 0x8c, 0x77, 0xc2),
         Work(0xa146201a, 0xf, 0x398ca41, Quad(0x13, 0x70, 0x70, 0x36)), Work(0x3516817, 0x1a5, 0x4d83d1, Quad(0xae, 0x78, 0x13, 0xdb)),
         Work(0xb3705033, 0x2fa9, 0x1b6e6, Quad(0x1c, 0x31, 0xc3, 0x84)), Work(0xbc3843cd, 0xe9b9b, 0x85e, Quad(0xa2, 0x20, 0x5f, 0x1f)));
  }

  lemma Empty40(x: seq<Word>)
    requires IsEmpty(x)
    ensures After(INIT, x, 40) == At(Quad(0x5f, 0x7a, 0x9b, 0x2e), Quad(0xc5, 0xdc, 0x8c, 0x15), Quad(0x91, 0xca, 0x4c, 0xb7), Quad(0xab, 0xc3, 0x4e, 0x16))
  {
    hide Bitwise, Pow2, After, At;
    Powers();
    Empty32(x);
    Four(x, 32, Quad(0x13, 0x70, 0x70, 0x36), Quad(0xa2, 0x20, 0x5f, 0x1f), Quad(0x1c, 0x31, 0xc3, 0x84), Quad(0xae, 0x78, 0x13, 0xdb),
         Work(0x10698f40, 0x2, 0x3d438b8, Quad(0xdf, 0x63, 0xea, 0xa1)), Work(0x6172763a, 0x4ba, 0x1c8096, Quad(0xc3, 0x68, 0x9f, 0x5b)),
         Work(0xbe2b2ae5, 0x47fa, 0x4f8b, Quad(0x12, 0xf3, 0xe7, 0x55)), Work(0xef892af, 0x577f14, 0x1da, Quad(0x00, 0x4b, 0x66, 0x69)));
    Four(x, 36, Quad(0xdf, 0x63, 0xea, 0xa1), Quad(0x00, 0x4b, 0x66, 0x69), Quad(0x12, 0xf3, 0xe7, 0x55), Quad(0xc3, 0x68, 0x9f, 0x5b),
         Work(0xd1d01e67, 0x5, 0x5f2f34c, Quad(0x5f, 0x7a, 0x9b, 0x2e)), Work(0x4dc21a12, 0x2e8, 0x98916, Quad(0xab, 0xc3, 0x4e, 0x16)),
         Work(0xf4f2b351, 0xfea1, 0xe606, Quad(0x91, 0xca, 0x4c, 0xb7)), Work(0x6573998f, 0x123f5e, 0x68, Quad(0xc5, 0xdc, 0x8c, 0x15)));
  }

  lemma Empty48(x: seq<Word>)
    requires IsEmpty(x)
    ensures After(INIT, x, 48) == At(Quad(0x3f, 0x55, 0xed, 0xfd), Quad(0xca, 0x7d, 0x2d, 0xbd), Quad(0x68, 0xd8, 0x4e, 0xa2), Quad(0x22, 0xa3, 0x1f, 0x54))
  {
    hide Bitwise, Pow2, After, At;
    Powers();
    Empty40(x);
    Four(x, 40, Quad(0x5f, 0x7a, 0x9b, 0x2e), Quad(0xc5, 0xdc, 0x8c, 0x15), Quad(0x91, 0xca, 0x4c, 0xb7), Quad(0xab, 0xc3, 0x4e, 0x16),
         Work(0xffd58eb4, 0x8, 0x7eba8a8, Quad(0x44, 0x97, 0x16, 0x9d)), Work(0x1081d63f, 0x537, 0x64ccf, Quad(0x76, 0xfd, 0x93, 0xd4)),
         Work(0xf7b6095c, 0x5e6f, 0x8698, Quad(0xfd, 0x95, 0xf2, 0x43)), Work(0xcfff770a, 0x4d3210, 0x24, Quad(0x0f, 0xe3, 0x24, 0x53)));
    Four(x, 44, Quad(0x44, 0x97, 0x16, 0x9d), Quad(0x0f, 0xe3, 0x24, 0x53), Quad(0xfd, 0x95, 0xf2, 0x43), Quad(0x76, 0xfd, 0x93, 0xd4),
         Work(0x848b45c4, 0xa, 0x2f72c9a, Quad(0x3f, 0x55, 0xed, 0xfd)), Work(0xcd233bed, 0x157, 0x1c69a6, Quad(0x22, 0xa3, 0x1f, 0x54)),
         Work(0x1215d6fa, 0x2f4e, 0x4635, Quad(0x68, 0xd8, 0x4e, 0xa2)), Work(0x752ebc0b, 0x24df1b, 0xc3, Quad(0xca, 0x7d, 0x2d, 0xbd)));
  }

  lemma Empty56(x: seq<Word>)
    requires IsEmpty(x)
    ensures After(INIT, x, 56) == At(Quad(0x56, 0x25, 0xa1, 0x14), Quad(0x1e, 0x77, 0xfa, 0x61), Quad(0x39, 0x2a, 0xd0, 0xd0), Quad(0x34, 0x50, 0xf4, 0x2b))
  {
    hide Bitwise, Pow2, After, At;
    Powers();
    Empty48(x);
    Four(x, 48, Quad(0x3f, 0x55, 0xed, 0xfd), Quad(0xca, 0x7d, 0x2d, 0xbd), Quad(0x68, 0xd8, 0x4e, 0xa2), Quad(0x22, 0xa3, 0x1f, 0x54),
         Work(0xb7a5a31d, 0x3a, 0x324b3de, Quad(0x93, 0xaa, 0x25, 0x77)), Work(0x5dd298c2, 0x30e, 0x20b7ad, Quad(0x16, 0x88, 0xdc, 0x85)),
         Work(0xa420fbb0, 0x5c46, 0x16df9, Quad(0xcd, 0x85, 0xb8, 0xcb)), Work(0xfb5d264e, 0x184dbe, 0x444, Quad(0x56, 0x1e, 0x06, 0x89)));
    Four(x, 52, Quad(0x93, 0xaa, 0x25, 0x77), Quad(0x56, 0x1e, 0x06, 0x89), Quad(0xcd, 0x85, 0xb8, 0xcb), Quad(0x16, 0x88, 0xdc, 0x85),
         Work(0x32fa9f30, 0xb, 0x1e6a, Quad(0x56, 0x25, 0xa1, 0x14)), Work(0x2061e1bd, 0x317, 0x378ad4, Quad(0x34, 0x50, 0xf4, 0x2b)),
         Work(0xebd45c6b, 0x5ca5, 0x9b3, Quad(0x39, 0x2a, 0xd0, 0xd0)), Work(0x8daa2ad0, 0xd2991, 0x72a, Quad(0x1e, 0x77, 0xfa, 0x61)));
  }

  lemma Empty64(x: seq<Word>)
    requires IsEmpty(x)
    ensures After(INIT, x, 64) == At(Quad(0x72, 0x46, 0xfa, 0xd3), Quad(0x14, 0xe4, 0x55, 0x06), Quad(0xff, 0x4e, 0xa3, 0xeb), Quad(0x6e, 0x10, 0xa4, 0x76))
  {
    hide Bitwise, Pow2, After, At;
    Powers();
    Empty56(x);
    Four(x, 56, Quad(0x56, 0x25, 0xa1, 0x14), Quad(0x1e, 0x77, 0xfa, 0x61), Quad(0x39, 0x2a, 0xd0, 0xd0), Quad(0x34, 0x50, 0xf4, 0x2b),
         Work(0xe6d52b25, 0x2b, 0xa34a88, Quad(0x47, 0x4a, 0x9c, 0x8c)), Work(0xd9a845ce, 0x30, 0x2620d9, Quad(0xdf, 0xce, 0x00, 0xbc)),
         Work(0xb8849932, 0x4a58, 0xad16, Quad(0x36, 0x59, 0x4b, 0x14)), Work(0x61336bcb, 0x19b66e, 0x7cd, Quad(0x30, 0x13, 0x01, 0x82)));
    Four(x, 60, Quad(0x47, 0x4a, 0x9c, 0x8c), Quad(0x30, 0x13, 0x01, 0x82), Quad(0x36, 0x59, 0x4b, 0x14), Quad(0xdf, 0xce, 0x00, 0xbc),
         Work(0x66ab4d7, 0x11, 0x108cfe5, Quad(0x72, 0x46, 0xfa, 0xd3)), Work(0xcbf5ff79, 0x1a3, 0x3ef26a, Quad(0x6e, 0x10, 0xa4, 0x76)),
         Work(0x9dba04ac, 0x7f75, 0x1227b, Quad(0xff, 0x4e, 0xa3, 0xeb)), Work(0x91ef0399, 0x15b11b, 0xac, Quad(0x14, 0xe4, 0x55, 0x06)));
  }

  // ------------------------------------------------------------------ the letters "a" to "z"

  /** The words of the one padded block. */
  predicate IsLetters(x: seq<Word>)
  {
    && |x| == 16 && x[0] == 0x64636261 && x[1] == 0x68676665 && x[2] == 0x6c6b6a69 && x[3] == 0x706f6e6d
    && x[4] == 0x74737271 && x[5] == 0x78777675 && x[6] == 0x00807a79 && x[7] == 0 && x[8] == 0
    && x[9] == 0 && x[10] == 0 && x[11] == 0 && x[12] == 0 && x[13] == 0 && x[14] == 0x000000d0 && x[15] == 0
  }

  lemma Letters0(x: seq<Word>)
    requires IsLetters(x)
    ensures After(INIT, x, 0) == At(Quad(0x67, 0x45, 0x23, 0x01), Quad(0xef, 0xcd, 0xab, 0x89), Quad(0x98, 0xba, 0xdc, 0xfe), Quad(0x10, 0x32, 0x54, 0x76))
  {
  }

  lemma Letters8(x: seq<Word>)
    requires IsLetters(x)
    ensures After(INIT, x, 8) == At(Quad(0xfe, 0x15, 0xf7, 0x87), Quad(0xda, 0x9b, 0xbb, 0x0d), Quad(0xb7, 0x11, 0x22, 0xfc), Quad(0xa8, 0x11, 0xb2, 0x78))
  {
    hide Bitwise, Pow2, After, At;
    Powers();
    Letters0(x);
    Four(x, 0, Quad(0x67, 0x45, 0x23, 0x01), Quad(0xef, 0xcd, 0xab, 0x89), Quad(0x98, 0xba, 0xdc, 0xfe), Quad(0x10, 0x32, 0x54, 0x76),
         Work(0x98badcfe, 0x1d, 0x1ce06d8, Quad(0xd6, 0xd1, 0x17, 0xa6)), Work(0xceebcbd8, 0x304, 0xd3e09, Quad(0xaa, 0xb1, 0xaa, 0xaa)),
         Work(0xc7dd03a3, 0x1e247, 0x3be5, Quad(0x22, 0x7d, 0x8c, 0xf1)), Work(0xf6b19ba6, 0x62b21, 0x8a, Quad(0x45, 0x03, 0xb8, 0x12)));
    Four(x, 4, Quad(0xd6, 0xd1, 0x17, 0xa6), Quad(0x45, 0x03, 0xb8, 0x12), Quad(0x22, 0x7d, 0x8c, 0xf1), Quad(0xaa, 0xb1, 0xaa, 0xaa),
         Work(0xaab18ab8, 0x75, 0x172247e, Quad(0xfe, 0x15, 0xf7, 0x87)), Work(0x4469b872, 0xaf1, 0xa9fbb, Quad(0xa8, 0x11, 0xb2, 0x78)),
         Work(0xed13ba02, 0x17084, 0x77f, Quad(0xb7, 0x11, 0x22, 0xfc)), Work(0xe815f77b, 0xa9811, 0x8e, Quad(0xda, 0x9b, 0xbb, 0x0d)));
  }

  lemma Letters16(x: seq<Word>)
    requires IsLetters(x)
    ensures After(INIT, x, 16) == At(Quad(0x17, 0x54, 0xa3, 0x16), Quad(0x60, 0x8d, 0x6b, 0x7e), Quad(0x00, 0xdf, 0x74, 0xd5), Quad(0x85, 0x56, 0x7d, 0x90))
  {
    hide Bitwise, Pow2, After, At;
    Powers();
    Letters8(x);
    Four(x, 8, Quad(0xfe, 0x15, 0xf7, 0x87), Quad(0xda, 0x9b, 0xbb, 0x0d), Quad(0xb7, 0x11, 0x22, 0xfc), Quad(0xa8, 0x11, 0xb2, 0x78),
         Work(0xb211227c, 0xc, 0x1a7b2db, Quad(0xae, 0x75, 0x28, 0x99)), Work(0x9b112a6d, 0xce6, 0x7d494, Quad(0x2b, 0xbe, 0x75, 0x7f)),
         Work(0xfa35aa19, 0x1628c, 0x28c6, Quad(0x7d, 0x4b, 0xd8, 0x0b)), Work(0xab3e709b, 0x3cdc0, 0x366, Quad(0x56, 0xcf, 0xa5, 0xcb)));
    Four(x, 12, Quad(0xae, 0x75, 0x28, 0x99), Quad(0x56, 0xcf, 0xa5, 0xcb), Quad(0x7d, 0x4b, 0xd8, 0x0b), Quad(0x2b, 0xbe, 0x75, 0x7f),
         Work(0x7d7bd03f, 0x4b, 0x18109fa, Quad(0x17, 0x54, 0xa3, 0x16)), Work(0x7e4ff90b, 0xa7a, 0x6e01d, Quad(0x85, 0x56, 0x7d, 0x90)),
         Work(0x57dda15b, 0xf745, 0x3dc4, Quad(0x00, 0xdf, 0x74, 0xd5)), Work(0x1756f792, 0x2df6a9, 0x17e, Quad(0x60, 0x8d, 0x6b, 0x7e)));
  }

  lemma Letters24(x: seq<Word>)
    requires IsLetters(x)
    ensures After(INIT, x, 24) == At(Quad(0x57, 0x0c, 0x43, 0xe0), Quad(0xc9, 0xf1, 0x62, 0xd4), Quad(0xc2, 0x8a, 0xb4, 0x9d), Quad(0x97, 0x7e, 0xfd, 0x2a))
  {
    hide Bitwise, Pow2, After, At;
    Powers();
    Letters16(x);
    Four(x, 16, Quad(0x17, 0x54, 0xa3, 0x16), Quad(0x60, 0x8d, 0x6b, 0x7e), Quad(0x00, 0xdf, 0x74, 0xd5), Quad(0x85, 0x56, 0x7d, 0x90),
         Work(0x8d6955, 0xe, 0x6679832, Quad(0x2d, 0x80, 0x71, 0xcc)), Work(0x60807bee, 0x14d, 0x182737, Quad(0x5d, 0xce, 0xe1, 0x19)),
         Work(0x4d8c7198, 0x1d32, 0x240be, Quad(0xed, 0xfe, 0x7e, 0x4b)), Work(0x7dcef059, 0x2c768, 0x5e2, Quad(0x4c, 0x21, 0x45, 0xb3)));
    Four(x, 20, Quad(0x2d, 0x80, 0x71, 0xcc), Quad(0x4c, 0x21, 0x45, 0xb3), Quad(0xed, 0xfe, 0x7e, 0x4b), Quad(0x5d, 0xce, 0xe1, 0x19),
         Work(0xec305f53, 0xd, 0x5757f1, Quad(0x57, 0x0c, 0x43, 0xe0)), Work(0x450d43f0, 0x14a, 0x20395c, Quad(0x97, 0x7e, 0xfd, 0x2a)),
         Work(0x172c4762, 0x3773, 0xac2e, Quad(0xc2, 0x8a, 0xb4, 0x9d)), Work(0xc27abc8a, 0x6ae37, 0x76, Quad(0xc9, 0xf1, 0x62, 0xd4)));
  }

  lemma Letters32(x: seq<Word>)
    requires IsLetters(x)
    ensures After(INIT, x, 32) == At(Quad(0xf5, 0x4d, 0x87, 0x10), Quad(0xae, 0xb3, 0x57, 0x66), Quad(0x2e, 0x69, 0xaf, 0xc7), Quad(0x92, 0x7b, 0x72, 0xe2))
  {
    hide Bitwise, Pow2, After, At;
    Powers();
    Letters24(x);
    Four(x, 24, Quad(0x57, 0x0c, 0x43, 0xe0), Quad(0xc9, 0xf1, 0x62, 0xd4), Quad(0xc2, 0x8a, 0xb4, 0x9d), Quad(0x97, 0x7e, 0xfd, 0x2a),
         Work(0xc1f06095, 0x7, 0x2de725b, Quad(0x25, 0xbf, 0xae, 0x3b)), Work(0x9fbe659, 0xc9, 0x31ec29, Quad(0x89, 0x98, 0x01, 0x04)),
         Work(0xad9e8c2f, 0x355b, 0x1bcc0, Quad(0xf8, 0xc8, 0x36, 0x5f)), Work(0xa888271f, 0xb7d39, 0xee0, Quad(0xe6, 0xd3, 0xb3, 0x98)));
    Four(x, 28, Quad(0x25, 0xbf, 0xae, 0x3b), Quad(0xe6, 0xd3, 0xb3, 0x98), Quad(0xf8, 0xc8, 0x36, 0x5f), Quad(0x89, 0x98, 0x01, 0x04),
         Work(0xf0d0375b, 0x18, 0x73ce9b, Quad(0xf5, 0x4d, 0x87, 0x10)), Work(0xf65b8790, 0x1d2, 0x4e96f5, Quad(0x92, 0x7b, 0x72, 0xe2)),
         Work(0x935f3680, 0x3ce5, 0x26fb8, Quad(0x2e, 0x69, 0xaf, 0xc7)), Work(0x267bf7e2, 0x9a79f, 0x804, Quad(0xae, 0xb3, 0x57, 0x66)));
  }

  lemma Letters40(x: seq<Word>)
    requires IsLetters(x)
    ensures After(INIT, x, 40) == At(Quad(0xb9, 0xc0, 0xc7, 0x33), Quad(0x8d, 0x41, 0xbf, 0x99), Quad(0x23, 0xa9, 0x45, 0x1b), Quad(0xf1, 0xe6, 0xdc, 0x7a))
  {
    hide Bitwise, Pow2, After, At;
    Powers();
    Letters32(x);
    Four(x, 32, Quad(0xf5, 0x4d, 0x87, 0x10), Quad(0xae, 0xb3, 0x57, 0x66), Quad(0x2e, 0x69, 0xaf, 0xc7), Quad(0x92, 0x7b, 0x72, 0xe2),
         Work(0x12a18a43, 0x8, 0x60c10a, Quad(0xb4, 0xbf, 0x68, 0x0e)), Work(0x346590af, 0x272, 0x12fa12, Quad(0x4c, 0x8f, 0xfa, 0x80)),
         Work(0x5683c5e8, 0xf28a, 0xd6d1, Quad(0x23, 0x61, 0xed, 0x0a)), Work(0xdb517f84, 0x43f507, 0x1c6, Quad(0x06, 0xa5, 0xe2, 0x11)));
    Four(x, 36, Quad(0xb4, 0xbf, 0x68, 0x0e), Quad(0x06, 0xa5, 0xe2, 0x11), Quad(0x23, 0x61, 0xed, 0x0a), Quad(0x4c, 0x8f, 0xfa, 0x80),
         Work(0x694bf59b, 0x2, 0xb31ae52, Quad(0xb9, 0xc0, 0xc7, 0x33)), Work(0x9c04c828, 0x547, 0x704c2, Quad(0xf1, 0xe6, 0xdc, 0x7a)),
         Work(0x4e83f958, 0x68a1, 0x31c2, Quad(0x23, 0xa9, 0x45, 0x1b)), Work(0x6b8f5e52, 0x187a7e, 0xd3, Quad(0x8d, 0x41, 0xbf, 0x99)));
  }

  lemma Letters48(x: seq<Word>)
    requires IsLetters(x)
    ensures After(INIT, x, 48) == At(Quad(0xb5, 0xd4, 0x1f, 0x9c), Quad(0x71, 0xd1, 0x03, 0x67), Quad(0x70, 0x3d, 0x54, 0xd8), Quad(0xa0, 0x4b, 0x49, 0x04))
  {
    hide Bitwise, Pow2, After, At;
    Powers();
    Letters40(x);
    Four(x, 40, Quad(0xb9, 0xc0, 0xc7, 0x33), Quad(0x8d, 0x41, 0xbf, 0x99), Quad(0x23, 0xa9, 0x45, 0x1b), Quad(0xf1, 0xe6, 0xdc, 0x7a),
         Work(0x5f0e26f8, 0x4, 0x16a6cf1, Quad(0xa3, 0xe8, 0x8e, 0xad)), Work(0xd00742f, 0x26f, 0xbdb04, Quad(0x02, 0xc0, 0xb1, 0x1c)),
         Work(0x2c698028, 0x9571, 0x6435, Quad(0x66, 0xf6, 0x46, 0x8d)), Work(0xc7de793c, 0x2d1468, 0x53, Quad(0x90, 0xa3, 0x5a, 0xf5)));
    Four(x, 44, Quad(0xa3, 0xe8, 0x8e, 0xad), Quad(0x90, 0xa3, 0x5a, 0xf5), Quad(0x66, 0xf6, 0x46, 0x8d), Quad(0x02, 0xc0, 0xb1, 0x1c),
         Work(0xf495ad64, 0x7, 0x2530c4a, Quad(0xb5, 0xd4, 0x1f, 0x9c)), Work(0x438103e4, 0x168, 0x1d4ee5, Quad(0xa0, 0x4b, 0x49, 0x04)),
         Work(0x853c0c6d, 0xbd4, 0xcff2, Quad(0x70, 0x3d, 0x54, 0xd8)), Work(0x65a20240, 0x13ae8f, 0x3, Quad(0x71, 0xd1, 0x03, 0x67)));
  }

  lemma Letters56(x: seq<Word>)
    requires IsLetters(x)
    ensures After(INIT, x, 56) == At(Quad(0xc1, 0xe9, 0x42, 0xf1), Quad(0x83, 0x87, 0x7d, 0x1b), Quad(0x23, 0xa6, 0x80, 0x48), Quad(0xd9, 0xbb, 0x98, 0x7c))
  {
    hide Bitwise, Pow2, After, At;
    Powers();
    Letters48(x);
    Four(x, 48, Quad(0xb5, 0xd4, 0x1f, 0x9c), Quad(0x71, 0xd1, 0x03, 0x67), Quad(0x70, 0x3d, 0x54, 0xd8), Quad(0xa0, 0x4b, 0x49, 0x04),
         Work(0xfc8e327, 0x7, 0x2298768, Quad(0xfc, 0x32, 0xdd, 0x6e)), Work(0x8e23fc08, 0x1c6, 0x1a44a3, Quad(0x65, 0x45, 0x6b, 0x34)),
         Work(0x135d22d2, 0x1797, 0x9c21, Quad(0xb3, 0x56, 0x02, 0xcb)), Work(0xd69a49ef, 0x17aecc, 0x404, Quad(0x33, 0xed, 0xb1, 0x97)));
    Four(x, 52, Quad(0xfc, 0x32, 0xdd, 0x6e), Quad(0x33, 0xed, 0xb1, 0x97), Quad(0xb3, 0x56, 0x02, 0xcb), Quad(0x65, 0x45, 0x6b, 0x34),
         Work(0x8a9b714, 0x1a, 0x237ee45, Quad(0xc1, 0xe9, 0x42, 0xf1)), Work(0xfe044e62, 0x18b, 0x5f495, Quad(0xd9, 0xbb, 0x98, 0x7c)),
         Work(0x1c529c8d, 0x67cc, 0x93d5, Quad(0x23, 0xa6, 0x80, 0x48)), Work(0xe60d2532, 0xfcd3, 0x2ff, Quad(0x83, 0x87, 0x7d, 0x1b)));
  }

  lemma Letters64(x: seq<Word>)
    requires IsLetters(x)
    ensures After(INIT, x, 64) == At(Quad(0x70, 0x8e, 0xd9, 0xc2), Quad(0x11, 0x16, 0xe6, 0xd8), Quad(0xd3, 0x8f, 0x1e, 0x7f), Quad(0x2b, 0xaf, 0x13, 0x54))
  {
    hide Bitwise, Pow2, After, At;
    Powers();
    Letters56(x);
    Four(x, 56, Quad(0xc1, 0xe9, 0x42, 0xf1), Quad(0x83, 0x87, 0x7d, 0x1b), Quad(0x23, 0xa6, 0x80, 0x48), Quad(0xd9, 0xbb, 0x98, 0x7c),
         Work(0x8461ffd3, 0x2d, 0x1f3c113, Quad(0x00, 0x77, 0xc2, 0x08)), Work(0x5ff882a4, 0xdf, 0x210200, Quad(0x84, 0x7f, 0xc2, 0xe7)),
         Work(0xfc0800ef, 0x6198, 0x3ec4, Quad(0xa3, 0xe2, 0x24, 0x7f)), Work(0x7b95ff18, 0x9a4b1, 0x5d4, Quad(0x5e, 0x6b, 0xc9, 0x30)));
    Four(x, 60, Quad(0x00, 0x77, 0xc2, 0x08), Quad(0x5e, 0x6b, 0xc9, 0x30), Quad(0xa3, 0xe2, 0x24, 0x7f), Quad(0x84, 0x7f, 0xc2, 0xe7),
         Work(0xdc09d947, 0x12, 0x488c42, Quad(0x70, 0x8e, 0xd9, 0xc2)), Work(0x22f412f2, 0x192, 0x2ec80e, Quad(0x2b, 0xaf, 0x13, 0x54)),
         Work(0xdb31ee1d, 0xb2b, 0x14fc0, Quad(0xd3, 0x8f, 0x1e, 0x7f)), Work(0xf4502d2b, 0x7c859, 0x1ec, Quad(0x11, 0x16, 0xe6, 0xd8)));
  }

  // ------------------------------------------------------------------ the digests

  /** A message that is padded to one block. */
  lemma OneBlockDigest(m: seq<Byte>)
    requires |m| < 56
    ensures |m + Filler(|m|) + Count(|m|)| == 64
    ensures Digest(m) == Output(Add(INIT, After(INIT, WordsOf(m + Filler(|m|) + Count(|m|)), 64)))
  {
    hide After, Add, Output, WordsOf;
    var block := m + Filler(|m|) + Count(|m|);
    assert block[..64] == block && block[64..] == [];
    assert Absorb(Process(INIT, block), []) == Process(INIT, block);
  }

  lemma EmptyBlock(k: nat)
    requires k < 16
    ensures |[] + Filler(0) + Count(0)| == 64 && WordsOf([] + Filler(0) + Count(0))[k] == if k == 0 then 0x80 else 0
  {
    var block := [] + Filler(0) + Count(0);
    assert Count(0) == [0, 0, 0, 0, 0, 0, 0, 0] && |Filler(0)| == 56;
    hide Count;
    assert forall i :: 0 < i < 64 ==> block[i] == 0;
    assert block[4 * k + 1] == block[4 * k + 2] == block[4 * k + 3] == 0;
    assert block[4 * k] == if k == 0 then 0x80 else 0;
  }

  /** MD5 ("") of appendix A.5. */
  lemma DigestOfEmpty()
    ensures Digest([]) == [0xd4, 0x1d, 0x8c, 0xd9, 0x8f, 0x00, 0xb2, 0x04, 0xe9, 0x80, 0x09, 0x98, 0xec, 0xf8, 0x42, 0x7e]
  {
    hide After, Output, Digest, Filler, Count;
    OneBlockDigest([]);
    var x := WordsOf([] + Filler(0) + Count(0));
    forall k | 0 <= k < 16 ensures x[k] == if k == 0 then 0x80 else 0 {
      EmptyBlock(k);
    }
    Empty64(x);
    LastEmpty();
  }

  lemma LastEmpty()
    ensures Output(Add(INIT, At(Quad(0x72, 0x46, 0xfa, 0xd3), Quad(0x14, 0xe4, 0x55, 0x06), Quad(0xff, 0x4e, 0xa3, 0xeb), Quad(0x6e, 0x10, 0xa4, 0x76)))) ==
            [0xd4, 0x1d, 0x8c, 0xd9, 0x8f, 0x00, 0xb2, 0x04, 0xe9, 0x80, 0x09, 0x98, 0xec, 0xf8, 0x42, 0x7e]
  {
    assert Add(INIT, At(Quad(0x72, 0x46, 0xfa, 0xd3), Quad(0x14, 0xe4, 0x55, 0x06), Quad(0xff, 0x4e, 0xa3, 0xeb), Quad(0x6e, 0x10, 0xa4, 0x76))) ==
           State(0xd98c1dd4, 0x04b2008f, 0x980980e9, 0x7e42f8ec);
  }

  /** The bytes of the letters "a" to "z". */
  const LETTERS: seq<Byte> := seq(26, i requires 0 <= i < 26 => 0x61 + i)

  function LettersByte(i: nat): nat
  {
    if i < 26 then 0x61 + i else if i == 26 then 0x80 else if i == 56 then 0xd0 else 0
  }

  lemma LettersBytes()
    ensures |LETTERS + Filler(26) + Count(26)| == 64
    ensures forall i :: 0 <= i < 64 ==> (LETTERS + Filler(26) + Count(26))[i] == LettersByte(i)
  {
    assert Count(26) == [0xd0, 0, 0, 0, 0, 0, 0, 0] && |Filler(26)| == 30;
  }

  lemma LettersWord(k: nat)
    requires k < 16
    ensures |LETTERS + Filler(26) + Count(26)| == 64
    ensures WordsOf(LETTERS + Filler(26) + Count(26))[k] ==
            LettersByte(4 * k) + 0x100 * LettersByte(4 * k + 1) + 0x1_0000 * LettersByte(4 * k + 2) + 0x100_0000 * LettersByte(4 * k + 3)
  {
    hide Filler, Count, LettersByte;
    LettersBytes();
  }

  lemma LettersBlock()
    ensures |LETTERS + Filler(26) + Count(26)| == 64 && IsLetters(WordsOf(LETTERS + Filler(26) + Count(26)))
  {
    hide Filler, Count, WordOf;
    LettersWord(0);
    LettersWord(1);
    LettersWord(2);
    LettersWord(3);
    LettersWord(4);
    LettersWord(5);
    LettersWord(6);
    LettersWord(7);
    LettersWord(8);
    LettersWord(9);
    LettersWord(10);
    LettersWord(11);
    LettersWord(12);
    LettersWord(13);
    LettersWord(14);
    LettersWord(15);
  }

  /** MD5 ("abcdefghijklmnopqrstuvwxyz") of appendix A.5. */
  lemma DigestOfLetters()
    ensures Digest(LETTERS) == [0xc3, 0xfc, 0xd3, 0xd7, 0x61, 0x92, 0xe4, 0x00, 0x7d, 0xfb, 0x49, 0x6c, 0xca, 0x67, 0xe1, 0x3b]
  {
    hide After, Output, Digest, Filler, Count;
    OneBlockDigest(LETTERS);
    LettersBlock();
    Letters64(WordsOf(LETTERS + Filler(26) + Count(26)));
    LastLetters();
  }

  lemma LastLetters()
    ensures Output(Add(INIT, At(Quad(0x70, 0x8e, 0xd9, 0xc2), Quad(0x11, 0x16, 0xe6, 0xd8), Quad(0xd3, 0x8f, 0x1e, 0x7f), Quad(0x2b, 0xaf, 0x13, 0x54)))) ==
            [0xc3, 0xfc, 0xd3, 0xd7, 0x61, 0x92, 0xe4, 0x00, 0x7d, 0xfb, 0x49, 0x6c, 0xca, 0x67, 0xe1, 0x3b]
  {
    assert Add(INIT, At(Quad(0x70, 0x8e, 0xd9, 0xc2), Quad(0x11, 0x16, 0xe6, 0xd8), Quad(0xd3, 0x8f, 0x1e, 0x7f), Quad(0x2b, 0xaf, 0x13, 0x54))) ==
           State(0xd7d3fcc3, 0x00e49261, 0x6c49fb7d, 0x3be167ca);
  }
}
