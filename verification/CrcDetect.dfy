/** What the frame check sequences are for: a receiver accepts exactly the frames that carry
    the right one, and no error burst of up to four bytes goes unnoticed. */
module CrcDetect {
  import opened CrcTheory
  import opened CrcSlicing

  const X25_POLY: bv32 := 0x8408
  const CRC32_POLY: bv32 := 0xEDB8_8320
  const MSB_POLY16: Word16 := 0x1021
  const MSB_POLY32: bv32 := 0x04C1_1DB7

  /** The 16-bit frame check sequence (Appendix C.2 of RFC 1662): the register starts with
      all ones, the message enters lowest bit first, and the result is complemented. */
  function Fcs16(data: seq<bv8>): bv32 {
    Xor(BitsRight(X25_POLY, 0xffff, LsbFirst(data)), 0xffff)
  }

  /** The 32-bit frame check sequence (Appendix C.3 of RFC 1662, section 8 of RFC 1952). */
  function Fcs32(data: seq<bv8>): bv32 {
    Xor(BitsRight(CRC32_POLY, 0xffff_ffff, LsbFirst(data)), 0xffff_ffff)
  }

  /** A register of 16 or 32 bits, given by its leading bit, and a polynomial of full degree. */
  predicate Fits(top: bv32, r: bv32) {
    (top == 0x8000 && r <= 0xffff) || top == 0x8000_0000
  }

  predicate FullDegree(top: bv32, poly: bv32) {
    Fits(top, poly) && poly & top != 0
  }

  lemma BitRightKernel(top: bv32, poly: bv32, r: bv32)
    requires FullDegree(top, poly) && Fits(top, r)
    ensures BitRight(poly, r, false) == 0 ==> r == 0
    ensures Fits(top, BitRight(poly, r, false))
  {
  }

  lemma {:induction false} ZerosRightKernel(top: bv32, poly: bv32, r: bv32, n: nat)
    requires FullDegree(top, poly) && Fits(top, r)
    ensures ZerosRight(poly, r, n) == 0 ==> r == 0
    ensures Fits(top, ZerosRight(poly, r, n))
    decreases n
  {
    hide BitRight, FullDegree, Fits;
    if n > 0 {
      BitRightKernel(top, poly, r);
      ZerosRightKernel(top, poly, BitRight(poly, r, false), n - 1);
    }
  }

  lemma XorZero(a: bv32, b: bv32)
    ensures Xor(a, b) == 0 <==> a == b
  {
    hide Xor;
    XorSelf(a);
    XorSelf(b);
    XorAssoc(a, b, b);
    XorComm(0, b);
  }

  lemma XorFits(top: bv32, a: bv32, b: bv32)
    requires Fits(top, a) && Fits(top, b)
    ensures Fits(top, Xor(a, b))
  {
  }

  lemma {:induction false} ShiftInjective(top: bv32, poly: bv32, a: bv32, b: bv32)
    requires FullDegree(top, poly) && Fits(top, a) && Fits(top, b)
    ensures Shift(Reflected(poly), a) == Shift(Reflected(poly), b) <==> a == b
    ensures Fits(top, Shift(Reflected(poly), a))
  {
    hide Shift, Xor, ZerosRight, FullDegree, Fits;
    var k := Reflected(poly);
    ShiftReflected(poly, Xor(a, b));
    ShiftReflected(poly, a);
    XorFits(top, a, b);
    ZerosRightKernel(top, poly, Xor(a, b), 8);
    ZerosRightKernel(top, poly, a, 8);
    ShiftLinear(k, a, b);
    XorZero(a, b);
    XorZero(Shift(k, a), Shift(k, b));
  }

  lemma {:induction false} ShiftsInjective(top: bv32, poly: bv32, a: bv32, b: bv32, n: nat)
    requires FullDegree(top, poly) && Fits(top, a) && Fits(top, b)
    ensures Shifts(Reflected(poly), a, n) == Shifts(Reflected(poly), b, n) <==> a == b
    ensures Fits(top, Shifts(Reflected(poly), a, n)) && Fits(top, Shifts(Reflected(poly), b, n))
    decreases n
  {
    hide Shift, FullDegree, Fits;
    var k := Reflected(poly);
    if n > 0 {
      ShiftsInjective(top, poly, a, b, n - 1);
      ShiftInjective(top, poly, Shifts(k, a, n - 1), Shifts(k, b, n - 1));
      ShiftInjective(top, poly, Shifts(k, b, n - 1), Shifts(k, a, n - 1));
    }
  }

  lemma ByteFits(top: bv32, r: bv32, b: bv8)
    requires Fits(top, r)
    ensures Fits(top, Xor(r, b as bv32))
  {
  }

  /** Different registers stay different, whatever message follows. */
  lemma {:induction false} FoldInjective(top: bv32, poly: bv32, r: bv32, r': bv32, data: seq<bv8>)
    requires FullDegree(top, poly) && Fits(top, r) && Fits(top, r')
    ensures Fold(Reflected(poly), r, data) == Fold(Reflected(poly), r', data) <==> r == r'
    ensures Fits(top, Fold(Reflected(poly), r, data)) && Fits(top, Fold(Reflected(poly), r', data))
  {
    hide Shift, Xor, FullDegree, Fits;
    var k := Reflected(poly);
    if data != [] {
      var front, b := data[..|data| - 1], data[|data| - 1];
      FoldInjective(top, poly, r, r', front);
      var s, s' := Fold(k, r, front), Fold(k, r', front);
      ByteFits(top, s, b);
      ByteFits(top, s', b);
      ShiftInjective(top, poly, Xor(s, b as bv32), Xor(s', b as bv32));
      ShiftInjective(top, poly, Xor(s', b as bv32), Xor(s, b as bv32));
      XorCancel(s, s', b as bv32);
    }
  }

  lemma XorCancel(a: bv32, b: bv32, c: bv32)
    ensures Xor(a, c) == Xor(b, c) <==> a == b
  {
    hide Xor;
    XorSelf(a);
    XorSelf(b);
    XorSelf(c);
    XorAssoc(a, c, c);
    XorAssoc(b, c, c);
  }

  lemma {:induction false} FoldFour(k: Scheme, r: bv32, b0: bv8, b1: bv8, b2: bv8, b3: bv8)
    ensures Fold(k, r, [b0, b1, b2, b3]) == Shifts(k, Xor(r, Word(b0, b1, b2, b3)), 4)
  {
    hide Feed, Xor, Word, Shifts;
    FourBytes(k, r, b0, b1, b2, b3);
    var s := [b0, b1, b2, b3];
    assert s[..3] == [b0, b1, b2] && s[..3][..2] == [b0, b1] && [b0, b1][..1] == [b0] && [b0][..0] == [];
    assert Fold(k, r, [b0]) == Feed(k, Fold(k, r, [b0][..0]), b0);
    assert Fold(k, r, [b0, b1]) == Feed(k, Fold(k, r, [b0, b1][..1]), b1);
    assert Fold(k, r, [b0, b1, b2]) == Feed(k, Fold(k, r, [b0, b1, b2][..2]), b2);
  }

  lemma WordInjective(a0: bv8, a1: bv8, a2: bv8, a3: bv8, b0: bv8, b1: bv8, b2: bv8, b3: bv8)
    requires Word(a0, a1, a2, a3) == Word(b0, b1, b2, b3)
    ensures a0 == b0 && a1 == b1 && a2 == b2 && a3 == b3
  {
    var w, v := Word(a0, a1, a2, a3), Word(b0, b1, b2, b3);
    WordBytes(a0, a1, a2, a3);
    WordBytes(b0, b1, b2, b3);
  }

  lemma WordBytes(a0: bv8, a1: bv8, a2: bv8, a3: bv8)
    ensures var w := Word(a0, a1, a2, a3);
      Byte0(w) == a0 as bv32 && Byte1(w) == a1 as bv32 && Byte2(w) == a2 as bv32 && Byte3(w) == a3 as bv32
  {
  }

  /** Two messages that differ in four consecutive bytes only have different checksums. */
  lemma {:induction false} BurstOfFour(s: bv32, before: seq<bv8>, w: seq<bv8>, w': seq<bv8>, after: seq<bv8>)
    requires |w| == 4 && |w'| == 4 && w != w'
    ensures Fold(Reflected(CRC32_POLY), s, before + w + after)
         != Fold(Reflected(CRC32_POLY), s, before + w' + after)
  {
    hide Fold, Shifts, Xor, Word;
    var k, top := Reflected(CRC32_POLY), 0x8000_0000 as bv32;
    var r := Fold(k, s, before);
    assert w == [w[0], w[1], w[2], w[3]] && w' == [w'[0], w'[1], w'[2], w'[3]];
    FoldFour(k, r, w[0], w[1], w[2], w[3]);
    FoldFour(k, r, w'[0], w'[1], w'[2], w'[3]);
    var v, v' := Word(w[0], w[1], w[2], w[3]), Word(w'[0], w'[1], w'[2], w'[3]);
    if v == v' { WordInjective(w[0], w[1], w[2], w[3], w'[0], w'[1], w'[2], w'[3]); }
    XorComm(r, v);
    XorComm(r, v');
    XorCancel(v, v', r);
    ShiftsInjective(top, CRC32_POLY, Xor(r, v), Xor(r, v'), 4);
    FoldInjective(top, CRC32_POLY, Fold(k, r, w), Fold(k, r, w'), after);
    FoldAppend(k, s, before, w);
    FoldAppend(k, s, before, w');
    FoldAppend(k, s, before + w, after);
    FoldAppend(k, s, before + w', after);
  }

  /** The same for any window of up to four bytes. */
  lemma {:induction false} BurstDetected(s: bv32, before: seq<bv8>, w: seq<bv8>, w': seq<bv8>, after: seq<bv8>)
    requires |w| == |w'| <= 4 && w != w'
    ensures Fold(Reflected(CRC32_POLY), s, before + w + after)
         != Fold(Reflected(CRC32_POLY), s, before + w' + after)
    decreases 4 - |w|
  {
    hide Fold;
    if |w| == 4 {
      BurstOfFour(s, before, w, w', after);
    } else {
      var k := Reflected(CRC32_POLY);
      assert (w + [0])[..|w|] == w && (w' + [0])[..|w|] == w';
      BurstDetected(s, before, w + [0], w' + [0], []);
      assert before + (w + [0]) + [] == (before + w) + [0];
      assert before + (w' + [0]) + [] == (before + w') + [0];
      FoldAppend(k, s, before + w, [0]);
      FoldAppend(k, s, before + w', [0]);
      FoldInjective(0x8000_0000, CRC32_POLY, Fold(k, s, before + w), Fold(k, s, before + w'), after);
      FoldAppend(k, s, before + w, after);
      FoldAppend(k, s, before + w', after);
    }
  }

  // ---- The receiver's test ---------------------------------------------------------------------

  /** What a 16-bit receiver's register holds after a good frame. */
  const GOOD_FCS16: bv32 := 0xf0b8
  const GOOD_FCS32: bv32 := 0xdebb_20e3

  lemma GoodConstant16()
    ensures Shifts(Reflected(X25_POLY), 0xffff, 2) == GOOD_FCS16
  {
    hide Shift;
    var k := Reflected(X25_POLY);
    ShiftReflected(X25_POLY, 0xffff);
    ShiftReflected(X25_POLY, 0x0f87);
    assert Shifts(k, 0xffff, 1) == Shift(k, Shifts(k, 0xffff, 0));
  }

  lemma GoodConstant32()
    ensures Shifts(Reflected(CRC32_POLY), 0xffff_ffff, 4) == GOOD_FCS32
  {
    hide Shift;
    var k := Reflected(CRC32_POLY);
    FourShifts(k, 0xffff_ffff);
    ShiftReflected(CRC32_POLY, 0xffff_ffff);
    ShiftReflected(CRC32_POLY, 0x2dfd_1072);
    ShiftReflected(CRC32_POLY, 0xbe26_ed00);
    ShiftReflected(CRC32_POLY, 0x00be_26ed);
  }

  lemma {:induction false} FoldTwo(k: Scheme, r: bv32, b0: bv8, b1: bv8)
    ensures Fold(k, r, [b0, b1]) == Shifts(k, Xor(r, Word(b0, b1, 0, 0)), 2)
  {
    hide Shift, Xor, Up32;
    assert [b0, b1][..1] == [b0] && [b0][..0] == [];
    assert Fold(k, r, [b0]) == Feed(k, Fold(k, r, [b0][..0]), b0);
    var w2, w1 := Xor(0, Up32(0)), Xor(b1 as bv32, Up32(Xor(0, Up32(0))));
    TwoBound(b1);
    FeedUnder(k, r, b0, b1 as bv32);
    assert Shifts(k, Xor(r, Word(b0, b1, 0, 0)), 1) == Shift(k, Shifts(k, Xor(r, Word(b0, b1, 0, 0)), 0));
  }

  lemma TwoBound(b: bv8)
    ensures Xor(b as bv32, Up32(Xor(0, Up32(0)))) == b as bv32 && b as bv32 <= 0xff_ffff
  {
  }

  /** A receiver of 16-bit frames that runs the data and the two check bytes through the
      register accepts exactly the frames whose check bytes are the FCS of the data. */
  lemma {:induction false} GoodFrame16(data: seq<bv8>, b0: bv8, b1: bv8)
    ensures Fold(Reflected(X25_POLY), 0xffff, data + [b0, b1]) == GOOD_FCS16
       <==> Word(b0, b1, 0, 0) == Fcs16(data)
  {
    hide Fold, Shifts, Xor, Word, LsbFirst, BitsRight;
    var k, top := Reflected(X25_POLY), 0x8000 as bv32;
    var r, w := Fold(k, 0xffff, data), Word(b0, b1, 0, 0);
    FoldReflected(X25_POLY, 0xffff, data);
    FoldAppend(k, 0xffff, data, [b0, b1]);
    FoldTwo(k, r, b0, b1);
    FoldInjective(top, X25_POLY, 0xffff, 0xffff, data);
    WordFits(b0, b1);
    XorFits(top, r, w);
    GoodConstant16();
    ShiftsInjective(top, X25_POLY, Xor(r, w), 0xffff, 2);
    ComplementOf(r, w, 0xffff);
  }

  lemma WordFits(b0: bv8, b1: bv8)
    ensures Word(b0, b1, 0, 0) <= 0xffff
  {
  }

  lemma ComplementOf(r: bv32, w: bv32, ones: bv32)
    ensures Xor(r, w) == ones <==> w == Xor(r, ones)
  {
    hide Xor;
    XorAssoc(r, r, w);
    XorAssoc(r, r, ones);
    XorSelf(r);
    XorSelf(w);
    XorSelf(ones);
    XorComm(0, w);
    XorComm(0, ones);
  }

  lemma {:induction false} GoodFrame32(data: seq<bv8>, b0: bv8, b1: bv8, b2: bv8, b3: bv8)
    ensures Fold(Reflected(CRC32_POLY), 0xffff_ffff, data + [b0, b1, b2, b3]) == GOOD_FCS32
       <==> Word(b0, b1, b2, b3) == Fcs32(data)
  {
    hide Fold, Shifts, Xor, Word, LsbFirst, BitsRight;
    var k, top := Reflected(CRC32_POLY), 0x8000_0000 as bv32;
    var r, w := Fold(k, 0xffff_ffff, data), Word(b0, b1, b2, b3);
    FoldReflected(CRC32_POLY, 0xffff_ffff, data);
    FoldAppend(k, 0xffff_ffff, data, [b0, b1, b2, b3]);
    FoldFour(k, r, b0, b1, b2, b3);
    GoodConstant32();
    ShiftsInjective(top, CRC32_POLY, Xor(r, w), 0xffff_ffff, 4);
    ComplementOf(r, w, 0xffff_ffff);
  }

  // ---- The same test for registers that shift left -----------------------------------------------

  /** What a receiver's register holds after a good frame with complemented check bytes. */
  const GOOD_MSB16: bv32 := 0x1d0f
  const GOOD_MSB32: bv32 := 0xc704_dd7b

  /** Check bytes, highest first. */
  function Big16(b0: bv8, b1: bv8): bv32 { Xor(b0 as bv32 << 8, b1 as bv32) }

  function Big32(b0: bv8, b1: bv8, b2: bv8, b3: bv8): bv32 {
    Xor(Xor(Xor(b0 as bv32 << 24, b1 as bv32 << 16), b2 as bv32 << 8), b3 as bv32)
  }

  lemma {:induction false} ZerosLeftMore(top: bv32, poly: bv32, r: bv32, m: nat, n: nat)
    ensures ZerosLeft(top, poly, r, m + n) == ZerosLeft(top, poly, ZerosLeft(top, poly, r, m), n)
    decreases m
  {
    hide BitLeft;
    if m > 0 { ZerosLeftMore(top, poly, BitLeft(top, poly, r, false), m - 1, n); }
  }

  lemma MsbOne(b: bv8)
    ensures MsbFirst([b]) == HighBits(0x80, b as bv32, 8)
  {
    hide HighBits;
    assert [b][..0] == [];
  }

  /** One byte waits at the top of the register while zeros are shifted in. */
  lemma {:induction false} ByteLeft16(r: bv32, b: bv8)
    ensures BitsLeft(0x8000, MSB_POLY16, r, MsbFirst([b]))
         == ZerosLeft(0x8000, MSB_POLY16, Xor(r, b as bv32 << 8), 8)
  {
    hide Xor, ZerosLeft, BitsLeft, HighBits, DoubleN, MsbFirst;
    var m := b as bv32;
    MsbOne(b);
    TopIs16(m);
    HighBits16(m, 8);
    DoubleEight16(m);
    ZerosLeftXor(0x8000, MSB_POLY16, r, Top16(m), 8);
    XorNothing(BitsLeft(0x8000, MSB_POLY16, r, MsbFirst([b])));
  }

  lemma {:induction false} ByteLeft32(r: bv32, b: bv8)
    ensures BitsLeft(0x8000_0000, MSB_POLY32, r, MsbFirst([b]))
         == ZerosLeft(0x8000_0000, MSB_POLY32, Xor(r, b as bv32 << 24), 8)
  {
    hide Xor, ZerosLeft, BitsLeft, HighBits, DoubleN, MsbFirst;
    var m := b as bv32;
    MsbOne(b);
    TopIs32(m);
    HighBits32(m, 8);
    DoubleEight32(m);
    ZerosLeftXor(0x8000_0000, MSB_POLY32, r, Top32(m), 8);
    XorNothing(BitsLeft(0x8000_0000, MSB_POLY32, r, MsbFirst([b])));
  }

  lemma TopIs16(m: bv32)
    requires m <= 0xff
    ensures Top16(m) == m << 8
  {
  }

  lemma TopIs32(m: bv32)
    requires m <= 0xff
    ensures Top32(m) == m << 24
  {
  }

  lemma XorNothing(a: bv32)
    ensures Xor(a, 0) == a
  {
  }

  /** A byte further down reaches the top as the register shifts. */
  lemma {:induction false} Rises16(b: bv8)
    ensures ZerosLeft(0x8000, MSB_POLY16, b as bv32, 8) == b as bv32 << 8
  {
    hide ZerosLeft, HighBits, DoubleN;
    var m := b as bv32;
    RestIs(m);
    TopIs16(m);
    HighEight16(m);
    DoubleEight16(m);
    ZerosLeftPlain(0x8000, MSB_POLY16, m, 8);
  }

  lemma {:induction false} Rises32(m: bv32)
    requires m <= 0xff_ffff
    ensures ZerosLeft(0x8000_0000, MSB_POLY32, m, 8) == m << 8
  {
    hide ZerosLeft, HighBits, DoubleN;
    RestIs32(m);
    HighEight32(m);
    DoubleEight32(m);
    ZerosLeftPlain(0x8000_0000, MSB_POLY32, m, 8);
  }

  lemma RestIs(m: bv32)
    requires m <= 0xff
    ensures Rest16(m) == m
  {
  }

  lemma RestIs32(m: bv32)
    requires m <= 0xff_ffff
    ensures Rest32(m) == m && Up32(m) == m << 8
  {
  }

  /** Two check bytes are one word that waits in the register. */
  lemma {:induction false} TwoLeft(r: bv32, b0: bv8, b1: bv8)
    ensures BitsLeft(0x8000, MSB_POLY16, r, MsbFirst([b0, b1]))
         == ZerosLeft(0x8000, MSB_POLY16, Xor(r, Big16(b0, b1)), 16)
  {
    hide Xor, ZerosLeft, BitsLeft, MsbFirst;
    var x := Xor(r, b0 as bv32 << 8);
    assert [b0] + [b1] == [b0, b1];
    LeftChain(0x8000, MSB_POLY16, r, [b0], [b1]);
    ByteLeft16(r, b0);
    ByteLeft16(ZerosLeft(0x8000, MSB_POLY16, x, 8), b1);
    Rises16(b1);
    ZerosLeftLinear(0x8000, MSB_POLY16, x, b1 as bv32, 8);
    ZerosLeftMore(0x8000, MSB_POLY16, Xor(x, b1 as bv32), 8, 8);
    XorAssoc(r, b0 as bv32 << 8, b1 as bv32);
  }

  /** The next byte, as a word m that takes n shifts to reach the top. */
  lemma {:induction false} NextLeft(x: bv32, n: nat, b: bv8, m: bv32)
    requires ZerosLeft(0x8000_0000, MSB_POLY32, m, n) == b as bv32 << 24
    ensures BitsLeft(0x8000_0000, MSB_POLY32, ZerosLeft(0x8000_0000, MSB_POLY32, x, n), MsbFirst([b]))
         == ZerosLeft(0x8000_0000, MSB_POLY32, Xor(x, m), n + 8)
  {
    hide Xor, ZerosLeft, BitsLeft, MsbFirst;
    ByteLeft32(ZerosLeft(0x8000_0000, MSB_POLY32, x, n), b);
    ZerosLeftLinear(0x8000_0000, MSB_POLY32, x, m, n);
    ZerosLeftMore(0x8000_0000, MSB_POLY32, Xor(x, m), n, 8);
  }

  lemma {:induction false} RisesFar(b: bv8)
    ensures ZerosLeft(0x8000_0000, MSB_POLY32, b as bv32 << 16, 8) == b as bv32 << 24
    ensures ZerosLeft(0x8000_0000, MSB_POLY32, b as bv32 << 8, 16) == b as bv32 << 24
    ensures ZerosLeft(0x8000_0000, MSB_POLY32, b as bv32, 24) == b as bv32 << 24
  {
    hide ZerosLeft;
    var m := b as bv32;
    ByteShifts(b);
    Rises32(m);
    Rises32(m << 8);
    Rises32(m << 16);
    ZerosLeftMore(0x8000_0000, MSB_POLY32, m << 8, 8, 8);
    ZerosLeftMore(0x8000_0000, MSB_POLY32, m, 8, 16);
  }

  lemma ByteShifts(b: bv8)
    ensures var m := b as bv32;
      && m <= 0xff_ffff && m << 8 <= 0xff_ffff && m << 16 <= 0xff_ffff
      && m << 8 << 8 == m << 16 && m << 16 << 8 == m << 24
  {
  }

  lemma {:induction false} FourLeft(r: bv32, b0: bv8, b1: bv8, b2: bv8, b3: bv8)
    ensures BitsLeft(0x8000_0000, MSB_POLY32, r, MsbFirst([b0, b1, b2, b3]))
         == ZerosLeft(0x8000_0000, MSB_POLY32, Xor(r, Big32(b0, b1, b2, b3)), 32)
  {
    hide Xor, ZerosLeft, BitsLeft, MsbFirst;
    var top, poly := 0x8000_0000 as bv32, MSB_POLY32;
    var m0, m1, m2, m3 := b0 as bv32 << 24, b1 as bv32 << 16, b2 as bv32 << 8, b3 as bv32;
    var x0, x1, x2 := Xor(r, m0), Xor(Xor(r, m0), m1), Xor(Xor(Xor(r, m0), m1), m2);
    assert [b0] + [b1] + [b2] + [b3] == [b0, b1, b2, b3];
    LeftChain(top, poly, r, [b0], [b1]);
    LeftChain(top, poly, r, [b0] + [b1], [b2]);
    LeftChain(top, poly, r, [b0] + [b1] + [b2], [b3]);
    ByteLeft32(r, b0);
    RisesFar(b1);
    RisesFar(b2);
    RisesFar(b3);
    NextLeft(x0, 8, b1, m1);
    NextLeft(x1, 16, b2, m2);
    NextLeft(x2, 24, b3, m3);
    XorAssoc(r, m0, m1);
    XorAssoc(r, Xor(m0, m1), m2);
    XorAssoc(r, Xor(Xor(m0, m1), m2), m3);
  }

  lemma BitLeftKernel16(r: bv32)
    requires r <= 0xffff
    ensures BitLeft(0x8000, MSB_POLY16, r, false) == 0 ==> r == 0
    ensures BitLeft(0x8000, MSB_POLY16, r, false) <= 0xffff
  {
  }

  lemma BitLeftKernel32(r: bv32)
    ensures BitLeft(0x8000_0000, MSB_POLY32, r, false) == 0 ==> r == 0
  {
  }

  lemma {:induction false} ZerosLeftKernel16(r: bv32, n: nat)
    requires r <= 0xffff
    ensures ZerosLeft(0x8000, MSB_POLY16, r, n) == 0 ==> r == 0
    decreases n
  {
    hide BitLeft;
    if n > 0 {
      BitLeftKernel16(r);
      ZerosLeftKernel16(BitLeft(0x8000, MSB_POLY16, r, false), n - 1);
    }
  }

  lemma {:induction false} ZerosLeftKernel32(r: bv32, n: nat)
    ensures ZerosLeft(0x8000_0000, MSB_POLY32, r, n) == 0 ==> r == 0
    decreases n
  {
    hide BitLeft;
    if n > 0 {
      BitLeftKernel32(r);
      ZerosLeftKernel32(BitLeft(0x8000_0000, MSB_POLY32, r, false), n - 1);
    }
  }

  lemma {:induction false} ZerosLeftInjective16(a: bv32, b: bv32, n: nat)
    requires a <= 0xffff && b <= 0xffff
    ensures ZerosLeft(0x8000, MSB_POLY16, a, n) == ZerosLeft(0x8000, MSB_POLY16, b, n) <==> a == b
  {
    hide Xor, ZerosLeft;
    ZerosLeftLinear(0x8000, MSB_POLY16, a, b, n);
    XorNarrow(a, b);
    ZerosLeftKernel16(Xor(a, b), n);
    XorZero(a, b);
    XorZero(ZerosLeft(0x8000, MSB_POLY16, a, n), ZerosLeft(0x8000, MSB_POLY16, b, n));
  }

  lemma XorNarrow(a: bv32, b: bv32)
    requires a <= 0xffff && b <= 0xffff
    ensures Xor(a, b) <= 0xffff
  {
  }

  lemma {:induction false} ZerosLeftInjective32(a: bv32, b: bv32, n: nat)
    ensures ZerosLeft(0x8000_0000, MSB_POLY32, a, n) == ZerosLeft(0x8000_0000, MSB_POLY32, b, n) <==> a == b
  {
    hide Xor, ZerosLeft;
    ZerosLeftLinear(0x8000_0000, MSB_POLY32, a, b, n);
    ZerosLeftKernel32(Xor(a, b), n);
    XorZero(a, b);
    XorZero(ZerosLeft(0x8000_0000, MSB_POLY32, a, n), ZerosLeft(0x8000_0000, MSB_POLY32, b, n));
  }

  /** Eight bits of zeros, one after the other. */
  function EightLeft(top: bv32, poly: bv32, r: bv32): bv32 {
    var r2 := BitLeft(top, poly, BitLeft(top, poly, r, false), false);
    var r4 := BitLeft(top, poly, BitLeft(top, poly, r2, false), false);
    var r6 := BitLeft(top, poly, BitLeft(top, poly, r4, false), false);
    BitLeft(top, poly, BitLeft(top, poly, r6, false), false)
  }

  lemma {:induction false} EightIs(top: bv32, poly: bv32, r: bv32)
    ensures ZerosLeft(top, poly, r, 8) == EightLeft(top, poly, r)
  {
    hide BitLeft;
    TwoIs(top, poly, r, 6);
    var r2 := BitLeft(top, poly, BitLeft(top, poly, r, false), false);
    TwoIs(top, poly, r2, 4);
    var r4 := BitLeft(top, poly, BitLeft(top, poly, r2, false), false);
    TwoIs(top, poly, r4, 2);
    TwoIs(top, poly, BitLeft(top, poly, BitLeft(top, poly, r4, false), false), 0);
  }

  lemma TwoIs(top: bv32, poly: bv32, r: bv32, n: nat)
    ensures ZerosLeft(top, poly, r, n + 2)
         == ZerosLeft(top, poly, BitLeft(top, poly, BitLeft(top, poly, r, false), false), n)
  {
    hide BitLeft;
    assert ZerosLeft(top, poly, r, n + 2) == ZerosLeft(top, poly, BitLeft(top, poly, r, false), n + 1);
  }

  lemma GoodMsbConstant16()
    ensures ZerosLeft(0x8000, MSB_POLY16, 0xffff, 16) == GOOD_MSB16
  {
    hide ZerosLeft;
    EightIs(0x8000, MSB_POLY16, 0xffff);
    EightIs(0x8000, MSB_POLY16, 0xe1f0);
    ZerosLeftMore(0x8000, MSB_POLY16, 0xffff, 8, 8);
  }

  lemma GoodMsbConstant32()
    ensures ZerosLeft(0x8000_0000, MSB_POLY32, 0xffff_ffff, 32) == GOOD_MSB32
  {
    hide ZerosLeft;
    var top, poly := 0x8000_0000 as bv32, MSB_POLY32;
    EightIs(top, poly, 0xffff_ffff);
    EightIs(top, poly, 0x4e08bfb4);
    EightIs(top, poly, 0xb7647d);
    EightIs(top, poly, 0xb7647d00);
    ZerosLeftMore(top, poly, 0xffff_ffff, 8, 24);
    ZerosLeftMore(top, poly, 0x4e08bfb4, 8, 16);
    ZerosLeftMore(top, poly, 0xb7647d, 8, 8);
  }

  /** Data and two complemented check bytes, from any start: the register ends at the residue
      exactly if the check bytes are those of the data. */
  lemma {:induction false} GoodFrameMsb16(init: Word16, data: seq<bv8>, b0: bv8, b1: bv8)
    ensures BitsLeft(0x8000, MSB_POLY16, init, MsbFirst(data + [b0, b1])) == GOOD_MSB16
       <==> Big16(b0, b1) == Xor(BitsLeft(0x8000, MSB_POLY16, init, MsbFirst(data)), 0xffff)
  {
    hide Xor, ZerosLeft, BitsLeft, MsbFirst, Big16;
    var r, w := BitsLeft(0x8000, MSB_POLY16, init, MsbFirst(data)), Big16(b0, b1);
    LeftChain(0x8000, MSB_POLY16, init, data, [b0, b1]);
    TwoLeft(r, b0, b1);
    LeftNarrow(init, MsbFirst(data));
    Big16Narrow(b0, b1);
    XorNarrow(r, w);
    GoodMsbConstant16();
    ZerosLeftInjective16(Xor(r, w), 0xffff, 16);
    ComplementOf(r, w, 0xffff);
  }

  /** The same for check bytes as they are: the register ends at zero. */
  lemma {:induction false} ZeroFrameMsb16(init: Word16, data: seq<bv8>, b0: bv8, b1: bv8)
    ensures BitsLeft(0x8000, MSB_POLY16, init, MsbFirst(data + [b0, b1])) == 0
       <==> Big16(b0, b1) == BitsLeft(0x8000, MSB_POLY16, init, MsbFirst(data))
  {
    hide Xor, ZerosLeft, BitsLeft, MsbFirst, Big16;
    var r, w := BitsLeft(0x8000, MSB_POLY16, init, MsbFirst(data)), Big16(b0, b1);
    LeftChain(0x8000, MSB_POLY16, init, data, [b0, b1]);
    TwoLeft(r, b0, b1);
    LeftNarrow(init, MsbFirst(data));
    Big16Narrow(b0, b1);
    XorNarrow(r, w);
    ZeroStays16(16);
    ZerosLeftInjective16(Xor(r, w), 0, 16);
    XorZero(r, w);
  }

  lemma {:induction false} ZeroStays16(n: nat)
    ensures ZerosLeft(0x8000, MSB_POLY16, 0, n) == 0
  {
    if n > 0 { ZeroStays16(n - 1); }
  }

  lemma Big16Narrow(b0: bv8, b1: bv8)
    ensures Big16(b0, b1) <= 0xffff
  {
  }

  lemma BitLeftNarrow(r: bv32, bit: bool)
    requires r <= 0xffff
    ensures BitLeft(0x8000, MSB_POLY16, r, bit) <= 0xffff
  {
  }

  lemma {:induction false} LeftNarrow(r: bv32, bits: seq<bool>)
    requires r <= 0xffff
    ensures BitsLeft(0x8000, MSB_POLY16, r, bits) <= 0xffff
    decreases |bits|
  {
    hide BitLeft;
    if bits != [] {
      BitLeftNarrow(r, bits[0]);
      LeftNarrow(BitLeft(0x8000, MSB_POLY16, r, bits[0]), bits[1..]);
    }
  }

  lemma {:induction false} GoodFrameMsb32(init: bv32, data: seq<bv8>, b0: bv8, b1: bv8, b2: bv8, b3: bv8)
    ensures BitsLeft(0x8000_0000, MSB_POLY32, init, MsbFirst(data + [b0, b1, b2, b3])) == GOOD_MSB32
       <==> Big32(b0, b1, b2, b3) == Xor(BitsLeft(0x8000_0000, MSB_POLY32, init, MsbFirst(data)), 0xffff_ffff)
  {
    hide Xor, ZerosLeft, BitsLeft, MsbFirst, Big32;
    var r, w := BitsLeft(0x8000_0000, MSB_POLY32, init, MsbFirst(data)), Big32(b0, b1, b2, b3);
    LeftChain(0x8000_0000, MSB_POLY32, init, data, [b0, b1, b2, b3]);
    FourLeft(r, b0, b1, b2, b3);
    GoodMsbConstant32();
    ZerosLeftInjective32(Xor(r, w), 0xffff_ffff, 32);
    ComplementOf(r, w, 0xffff_ffff);
  }
}
