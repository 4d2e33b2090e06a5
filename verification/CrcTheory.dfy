/** Cyclic redundancy checks: the bit-serial registers that define them, the tables of
    FastCRC, and the proof that four bytes may be looked up at once. */
module CrcTheory {

  /** Exclusive or and the shifts by one bit have names, so that proofs can hide what they
      do to the bits. */
  function Xor(a: bv32, b: bv32): bv32 { a ^ b }
  function Half(a: bv32): bv32 { a >> 1 }
  predicate Odd(a: bv32) { a & 1 == 1 }
  function Double(top: bv32, a: bv32): bv32 { (a << 1) & (top | (top - 1)) }
  predicate High(top: bv32, a: bv32) { a & top != 0 }

  // ---- The definitions: one message bit at a time ------------------------------------------

  /** One bit into a register that shifts right (reflected checksums). */
  function BitRight(poly: bv32, r: bv32, bit: bool): bv32 {
    if Odd(r) != bit then Xor(Half(r), poly) else Half(r)
  }

  /** One bit into a register that shifts left; `top` is its leading bit. */
  function BitLeft(top: bv32, poly: bv32, r: bv32, bit: bool): bv32 {
    if High(top, r) != bit then Xor(Double(top, r), poly) else Double(top, r)
  }

  function BitsRight(poly: bv32, r: bv32, bits: seq<bool>): bv32
    decreases |bits|
  {
    if bits == [] then r else BitsRight(poly, BitRight(poly, r, bits[0]), bits[1..])
  }

  function BitsLeft(top: bv32, poly: bv32, r: bv32, bits: seq<bool>): bv32
    decreases |bits|
  {
    if bits == [] then r else BitsLeft(top, poly, BitLeft(top, poly, r, bits[0]), bits[1..])
  }

  /** The n low bits of m, lowest first. */
  function LowBits(m: bv32, n: nat): seq<bool>
    decreases n
  {
    if n == 0 then [] else [Odd(m)] + LowBits(Half(m), n - 1)
  }

  /** The n leading bits of m in a register with leading bit `top`, highest first. */
  function HighBits(top: bv32, m: bv32, n: nat): seq<bool>
    decreases n
  {
    if n == 0 then [] else [High(top, m)] + HighBits(top, Double(top, m), n - 1)
  }

  /** The message as a reflected checksum reads it: every byte lowest bit first. */
  function LsbFirst(data: seq<bv8>): seq<bool> {
    if data == [] then [] else LsbFirst(data[..|data| - 1]) + LowBits(data[|data| - 1] as bv32, 8)
  }

  function MsbFirst(data: seq<bv8>): seq<bool> {
    if data == [] then [] else MsbFirst(data[..|data| - 1]) + HighBits(0x80, data[|data| - 1] as bv32, 8)
  }

  // ---- Byte tables ---------------------------------------------------------------------------

  function ZerosRight(poly: bv32, r: bv32, n: nat): bv32
    decreases n
  {
    if n == 0 then r else ZerosRight(poly, BitRight(poly, r, false), n - 1)
  }

  function ZerosLeft(top: bv32, poly: bv32, r: bv32, n: nat): bv32
    decreases n
  {
    if n == 0 then r else ZerosLeft(top, poly, BitLeft(top, poly, r, false), n - 1)
  }

  /** Exchanges the two bytes of a 16-bit value. */
  function REV16(v: bv32): bv32 {
    (v >> 8) | ((v & 0xff) << 8)
  }

  function REV32(v: bv32): bv32 {
    var w := (v >> 16) | ((v & 0xffff) << 16);
    ((w >> 8) & 0xff00ff) | ((w & 0xff00ff) << 8)
  }

  function LowByte(r: bv32): bv32 { r & 0xff }
  function DropByte(r: bv32): bv32 { r >> 8 }

  /** A byte at the top of the register. */
  function Top16(i: bv32): bv32 { (i & 0xff) << 8 }
  function Top32(i: bv32): bv32 { (i & 0xff) << 24 }

  type Word16 = r: bv32 | r <= 0xffff

  /** How a checksum runs: reflected, or left-shifting on a byte-swapped register. */
  datatype Scheme = Reflected(poly: bv32) | Swapped16(poly16: Word16) | Swapped32(poly32: bv32)

  /** Entry i of the first table. */
  function T0(k: Scheme, i: bv32): bv32 {
    match k
    case Reflected(poly) => ZerosRight(poly, LowByte(i), 8)
    case Swapped16(poly) => REV16(ZerosLeft(0x8000, poly, Top16(i), 8))
    case Swapped32(poly) => REV32(ZerosLeft(0x8000_0000, poly, Top32(i), 8))
  }

  /** The register after one more byte position. */
  function Shift(k: Scheme, r: bv32): bv32 {
    Xor(DropByte(r), T0(k, LowByte(r)))
  }

  /** Entry i of the table that is j bytes ahead of the first. */
  function Entry(k: Scheme, j: nat, i: bv32): bv32
    decreases j
  {
    if j == 0 then T0(k, i)
    else var e := Entry(k, j - 1, i); Xor(DropByte(e), T0(k, LowByte(e)))
  }

  /** The big table: four tables of 256 entries each. */
  function Table(k: Scheme, index: bv32): bv32
    requires index < 0x400
  {
    if index < 0x100 then Entry(k, 0, index)
    else if index < 0x200 then Entry(k, 1, index - 0x100)
    else if index < 0x300 then Entry(k, 2, index - 0x200)
    else Entry(k, 3, index - 0x300)
  }

  /** Byte by byte, with the first table only. */
  function Feed(k: Scheme, r: bv32, b: bv8): bv32 {
    Shift(k, Xor(r, b as bv32))
  }

  function Fold(k: Scheme, r: bv32, data: seq<bv8>): bv32 {
    if data == [] then r else Feed(k, Fold(k, r, data[..|data| - 1]), data[|data| - 1])
  }

  // ---- Algebra of exclusive or --------------------------------------------------------------

  lemma XorAssoc(a: bv32, b: bv32, c: bv32)
    ensures Xor(a, Xor(b, c)) == Xor(Xor(a, b), c)
  {
  }

  lemma XorComm(a: bv32, b: bv32)
    ensures Xor(a, b) == Xor(b, a)
  {
  }

  lemma XorSelf(a: bv32)
    ensures Xor(a, a) == 0 && Xor(a, 0) == a
  {
  }

  lemma XorSwap(a: bv32, b: bv32, c: bv32, d: bv32)
    ensures Xor(Xor(a, b), Xor(c, d)) == Xor(Xor(a, c), Xor(b, d))
  {
    hide Xor;
    XorAssoc(a, b, Xor(c, d));
    XorAssoc(b, c, d);
    XorComm(b, c);
    XorAssoc(c, b, d);
    XorAssoc(a, c, Xor(b, d));
  }

  /** Adding the polynomial on either side, or on both. */
  lemma XorPoly(a: bv32, b: bv32, p: bv32)
    ensures Xor(Xor(a, p), Xor(b, p)) == Xor(a, b)
    ensures Xor(Xor(a, p), b) == Xor(Xor(a, b), p)
    ensures Xor(a, Xor(b, p)) == Xor(Xor(a, b), p)
  {
    hide Xor;
    XorSwap(a, p, b, p);
    XorSelf(p);
    XorSelf(Xor(a, b));
    XorAssoc(a, b, p);
    XorComm(b, p);
    XorAssoc(a, p, b);
  }

  lemma HalfXor(a: bv32, b: bv32)
    ensures Half(Xor(a, b)) == Xor(Half(a), Half(b))
    ensures Odd(Xor(a, b)) <==> Odd(a) != Odd(b)
  {
  }

  lemma DoubleXor(top: bv32, a: bv32, b: bv32)
    requires top == 0x8000 || top == 0x8000_0000
    ensures Double(top, Xor(a, b)) == Xor(Double(top, a), Double(top, b))
    ensures High(top, Xor(a, b)) <==> High(top, a) != High(top, b)
  {
  }

  /** A message bit may wait in the register until its turn. */
  lemma {:induction false} BitRightXor(poly: bv32, r: bv32, m: bv32)
    ensures BitRight(poly, Xor(r, m), false) == Xor(BitRight(poly, r, Odd(m)), Half(m))
  {
    hide Xor, Half, Odd;
    HalfXor(r, m);
    XorPoly(Half(r), Half(m), poly);
  }

  lemma {:induction false} BitLeftXor(top: bv32, poly: bv32, r: bv32, m: bv32)
    requires top == 0x8000 || top == 0x8000_0000
    ensures BitLeft(top, poly, Xor(r, m), false) == Xor(BitLeft(top, poly, r, High(top, m)), Double(top, m))
  {
    hide Xor, Double, High;
    DoubleXor(top, r, m);
    XorPoly(Double(top, r), Double(top, m), poly);
  }

  function HalfN(m: bv32, n: nat): bv32
    decreases n
  {
    if n == 0 then m else HalfN(Half(m), n - 1)
  }

  function DoubleN(top: bv32, m: bv32, n: nat): bv32
    decreases n
  {
    if n == 0 then m else DoubleN(top, Double(top, m), n - 1)
  }

  /** n message bits may wait in the register, as long as zeros are shifted in. */
  lemma {:induction false} ZerosRightXor(poly: bv32, r: bv32, m: bv32, n: nat)
    ensures ZerosRight(poly, Xor(r, m), n) == Xor(BitsRight(poly, r, LowBits(m, n)), HalfN(m, n))
    decreases n
  {
    hide Xor, Half, Odd, BitRight;
    if n > 0 {
      BitRightXor(poly, r, m);
      ZerosRightXor(poly, BitRight(poly, r, Odd(m)), Half(m), n - 1);
      assert LowBits(m, n)[1..] == LowBits(Half(m), n - 1);
    }
  }

  lemma {:induction false} ZerosLeftXor(top: bv32, poly: bv32, r: bv32, m: bv32, n: nat)
    requires top == 0x8000 || top == 0x8000_0000
    ensures ZerosLeft(top, poly, Xor(r, m), n)
         == Xor(BitsLeft(top, poly, r, HighBits(top, m, n)), DoubleN(top, m, n))
    decreases n
  {
    hide Xor, Double, High, BitLeft;
    if n > 0 {
      BitLeftXor(top, poly, r, m);
      ZerosLeftXor(top, poly, BitLeft(top, poly, r, High(top, m)), Double(top, m), n - 1);
      assert HighBits(top, m, n)[1..] == HighBits(top, Double(top, m), n - 1);
    }
  }

  /** Shifting zeros in is linear. */
  lemma {:induction false} ZerosRightLinear(poly: bv32, a: bv32, b: bv32, n: nat)
    ensures ZerosRight(poly, Xor(a, b), n) == Xor(ZerosRight(poly, a, n), ZerosRight(poly, b, n))
    decreases n
  {
    hide Xor, Half, Odd;
    if n > 0 {
      HalfXor(a, b);
      XorPoly(Half(a), Half(b), poly);
      ZerosRightLinear(poly, BitRight(poly, a, false), BitRight(poly, b, false), n - 1);
    }
  }

  lemma {:induction false} ZerosLeftLinear(top: bv32, poly: bv32, a: bv32, b: bv32, n: nat)
    requires top == 0x8000 || top == 0x8000_0000
    ensures ZerosLeft(top, poly, Xor(a, b), n)
         == Xor(ZerosLeft(top, poly, a, n), ZerosLeft(top, poly, b, n))
    decreases n
  {
    hide Xor, Double, High;
    if n > 0 {
      DoubleXor(top, a, b);
      XorPoly(Double(top, a), Double(top, b), poly);
      ZerosLeftLinear(top, poly, BitLeft(top, poly, a, false), BitLeft(top, poly, b, false), n - 1);
    }
  }

  /** While only zeros leave the register, nothing is added to it. */
  lemma {:induction false} ZerosRightPlain(poly: bv32, m: bv32, n: nat)
    requires true !in LowBits(m, n)
    ensures ZerosRight(poly, m, n) == HalfN(m, n)
    decreases n
  {
    hide Xor, Half, Odd;
    if n > 0 {
      assert LowBits(m, n)[0] == Odd(m);
      assert LowBits(m, n)[1..] == LowBits(Half(m), n - 1);
      ZerosRightPlain(poly, Half(m), n - 1);
    }
  }

  lemma {:induction false} ZerosLeftPlain(top: bv32, poly: bv32, m: bv32, n: nat)
    requires true !in HighBits(top, m, n)
    ensures ZerosLeft(top, poly, m, n) == DoubleN(top, m, n)
    decreases n
  {
    hide Xor, Double, High;
    if n > 0 {
      assert HighBits(top, m, n)[0] == High(top, m);
      assert HighBits(top, m, n)[1..] == HighBits(top, Double(top, m), n - 1);
      ZerosLeftPlain(top, poly, Double(top, m), n - 1);
    }
  }

  lemma HalfEight(m: bv32)
    ensures HalfN(m, 8) == DropByte(m)
  {
  }

  lemma LowEight(m: bv32)
    requires LowByte(m) == 0
    ensures true !in LowBits(m, 8)
  {
  }

  // ---- Reflected checksums are the right-shifting register ----------------------------------

  function HighBytes(r: bv32): bv32 { r & 0xffff_ff00 }

  lemma SplitLow(r: bv32)
    ensures Xor(HighBytes(r), LowByte(r)) == r
    ensures LowByte(HighBytes(r)) == 0 && DropByte(HighBytes(r)) == DropByte(r)
    ensures LowByte(LowByte(r)) == LowByte(r)
  {
  }

  lemma {:induction false} ShiftReflected(poly: bv32, r: bv32)
    ensures Shift(Reflected(poly), r) == ZerosRight(poly, r, 8)
  {
    hide Xor, ZerosRight, HalfN, LowBits, LowByte, DropByte, HighBytes;
    var high, low := HighBytes(r), LowByte(r);
    SplitLow(r);
    ZerosRightLinear(poly, high, low, 8);
    LowEight(high);
    ZerosRightPlain(poly, high, 8);
    HalfEight(high);
  }

  lemma {:induction false} FeedReflected(poly: bv32, r: bv32, b: bv8)
    ensures Feed(Reflected(poly), r, b) == BitsRight(poly, r, LowBits(b as bv32, 8))
  {
    hide Xor, ZerosRight, HalfN, LowBits, BitsRight, Shift;
    var m := b as bv32;
    ShiftReflected(poly, Xor(r, m));
    ZerosRightXor(poly, r, m, 8);
    HalfEight(m);
    assert DropByte(m) == 0;
    XorSelf(BitsRight(poly, r, LowBits(m, 8)));
  }

  lemma {:induction false} BitsRightAppend(poly: bv32, r: bv32, s: seq<bool>, t: seq<bool>)
    ensures BitsRight(poly, r, s + t) == BitsRight(poly, BitsRight(poly, r, s), t)
    decreases |s|
  {
    hide BitRight;
    if s == [] {
      assert s + t == t;
    } else {
      assert (s + t)[1..] == s[1..] + t;
      BitsRightAppend(poly, BitRight(poly, r, s[0]), s[1..], t);
    }
  }

  /** The byte-wise table form of a reflected checksum is the bit-serial register. */
  lemma {:induction false} FoldReflected(poly: bv32, r: bv32, data: seq<bv8>)
    ensures Fold(Reflected(poly), r, data) == BitsRight(poly, r, LsbFirst(data))
  {
    hide Feed, LowBits, BitsRight;
    if data == [] {
      EmptyBitsRight(poly, r);
    } else {
      var front, b := data[..|data| - 1], data[|data| - 1];
      FoldReflected(poly, r, front);
      FeedReflected(poly, Fold(Reflected(poly), r, front), b);
      BitsRightAppend(poly, r, LsbFirst(front), LowBits(b as bv32, 8));
    }
  }

  lemma EmptyBitsRight(poly: bv32, r: bv32)
    ensures BitsRight(poly, r, []) == r
  {
  }

  // ---- Byte-swapped checksums are the left-shifting register ---------------------------------

  function Rest16(r: bv32): bv32 { r & 0xff }
  function Rest32(r: bv32): bv32 { r & 0xff_ffff }
  function Front32(r: bv32): bv32 { r >> 24 }
  function Up32(r: bv32): bv32 { r << 8 }

  lemma DoubleEight16(m: bv32)
    ensures DoubleN(0x8000, Top16(m), 8) == 0
    ensures DoubleN(0x8000, Rest16(m), 8) == Top16(m)
  {
  }

  lemma DoubleEight32(m: bv32)
    ensures DoubleN(0x8000_0000, Top32(m), 8) == 0
    ensures DoubleN(0x8000_0000, Rest32(m), 8) == Up32(m)
  {
  }

  lemma HighEight16(m: bv32)
    ensures true !in HighBits(0x8000, Rest16(m), 8)
  {
  }

  lemma HighEight32(m: bv32)
    ensures true !in HighBits(0x8000_0000, Rest32(m), 8)
  {
  }

  lemma DoubleTop(m: bv32)
    requires m <= 0xff
    ensures Double(0x80, m) <= 0xff
    ensures Double(0x8000, Top16(m)) == Top16(Double(0x80, m))
    ensures Double(0x8000_0000, Top32(m)) == Top32(Double(0x80, m))
  {
  }

  lemma HighTop(m: bv32)
    requires m <= 0xff
    ensures High(0x80, m) <==> High(0x8000, Top16(m))
    ensures High(0x80, m) <==> High(0x8000_0000, Top32(m))
  {
  }

  /** The bits of a byte are the same at the top of the register. */
  lemma {:induction false} HighBits16(m: bv32, n: nat)
    requires m <= 0xff
    ensures HighBits(0x8000, Top16(m), n) == HighBits(0x80, m, n)
    decreases n
  {
    hide Double, High, Top16;
    if n > 0 {
      DoubleTop(m);
      HighTop(m);
      HighBits16(Double(0x80, m), n - 1);
    }
  }

  lemma {:induction false} HighBits32(m: bv32, n: nat)
    requires m <= 0xff
    ensures HighBits(0x8000_0000, Top32(m), n) == HighBits(0x80, m, n)
    decreases n
  {
    hide Double, High, Top32;
    if n > 0 {
      DoubleTop(m);
      HighTop(m);
      HighBits32(Double(0x80, m), n - 1);
    }
  }

  lemma {:induction false} ZerosLeftBound(poly: Word16, r: Word16, n: nat)
    ensures ZerosLeft(0x8000, poly, r, n) <= 0xffff
    decreases n
  {
    if n > 0 {
      assert Double(0x8000, r) <= 0xffff;
      assert Xor(Double(0x8000, r), poly) <= 0xffff;
      ZerosLeftBound(poly, BitLeft(0x8000, poly, r, false), n - 1);
    }
  }

  /** The register s, its byte-swapped value and the next byte m. */
  lemma Swap16(s: bv32, m: bv32)
    requires s <= 0xffff && m <= 0xff
    ensures Xor(REV16(s), Top16(m)) == Xor(Rest16(REV16(s)), Top16(LowByte(Xor(s, m))))
    ensures DropByte(Xor(s, m)) == Rest16(REV16(s))
  {
  }

  lemma Swap16Back(r: bv32, z: bv32)
    requires z <= 0xffff
    ensures REV16(Xor(Rest16(r), REV16(z))) == Xor(Top16(r), z) && Xor(Rest16(r), REV16(z)) <= 0xffff
  {
  }

  /** A byte that enters at the top only meets the leading byte of the register. */
  lemma {:induction false} TopByte(top: bv32, poly: bv32, r: bv32, m: bv32, lo: bv32, hi: bv32)
    requires top == 0x8000 || top == 0x8000_0000
    requires Xor(r, m) == Xor(lo, hi) && DoubleN(top, m, 8) == 0 && true !in HighBits(top, lo, 8)
    ensures BitsLeft(top, poly, r, HighBits(top, m, 8))
         == Xor(DoubleN(top, lo, 8), ZerosLeft(top, poly, hi, 8))
  {
    hide Xor, ZerosLeft, BitsLeft, HighBits, DoubleN;
    ZerosLeftXor(top, poly, r, m, 8);
    XorSelf(BitsLeft(top, poly, r, HighBits(top, m, 8)));
    ZerosLeftLinear(top, poly, lo, hi, 8);
    ZerosLeftPlain(top, poly, lo, 8);
  }

  lemma {:induction false} FeedSwapped16(poly: Word16, s: Word16, b: bv8)
    ensures var s' := Feed(Swapped16(poly), s, b);
      && s' <= 0xffff
      && REV16(s') == BitsLeft(0x8000, poly, REV16(s), HighBits(0x80, b as bv32, 8))
  {
    hide Xor, REV16, ZerosLeft, BitsLeft, HighBits, DoubleN, Top16, Rest16, LowByte, DropByte;
    var m, r := b as bv32, REV16(s);
    var i := LowByte(Xor(s, m));
    Swap16(s, m);
    DoubleEight16(m);
    HighBits16(m, 8);
    HighEight16(r);
    TopByte(0x8000, poly, r, Top16(m), Rest16(r), Top16(i));
    DoubleEight16(r);
    TopBound(i);
    ZerosLeftBound(poly, Top16(i), 8);
    Swap16Back(r, ZerosLeft(0x8000, poly, Top16(i), 8));
  }

  lemma TopBound(i: bv32)
    ensures Top16(i) <= 0xffff
  {
  }

  lemma Swap32Low(s: bv32, m: bv32)
    requires m <= 0xff
    ensures DropByte(Xor(s, m)) == DropByte(s) && LowByte(Xor(s, m)) == Xor(LowByte(s), m)
  {
  }

  lemma Swap32Top(s: bv32)
    ensures Front32(REV32(s)) == LowByte(s)
  {
  }

  lemma Swap32Shift(s: bv32)
    ensures REV32(Up32(REV32(s))) == DropByte(s)
  {
  }

  lemma Swap32Split(r: bv32, m: bv32)
    requires m <= 0xff
    ensures Xor(r, Top32(m)) == Xor(Rest32(r), Top32(Xor(Front32(r), m)))
  {
  }

  lemma Swap32Back(a: bv32, z: bv32)
    ensures REV32(Xor(REV32(a), REV32(z))) == Xor(a, z)
  {
  }

  lemma {:induction false} Swap32(s: bv32, m: bv32)
    requires m <= 0xff
    ensures var r := REV32(s);
      && Xor(r, Top32(m)) == Xor(Rest32(r), Top32(LowByte(Xor(s, m))))
      && DropByte(Xor(s, m)) == REV32(DoubleN(0x8000_0000, Rest32(r), 8))
  {
    hide Xor, REV32, DoubleN, Top32, LowByte, DropByte, Rest32, Up32, Front32;
    Swap32Low(s, m);
    Swap32Top(s);
    Swap32Shift(s);
    Swap32Split(REV32(s), m);
    DoubleEight32(REV32(s));
  }

  lemma {:induction false} FeedSwapped32(poly: bv32, s: bv32, b: bv8)
    ensures REV32(Feed(Swapped32(poly), s, b))
         == BitsLeft(0x8000_0000, poly, REV32(s), HighBits(0x80, b as bv32, 8))
  {
    hide Xor, REV32, ZerosLeft, BitsLeft, HighBits, DoubleN, Top32, Rest32, LowByte, DropByte;
    var m, r := b as bv32, REV32(s);
    var i := LowByte(Xor(s, m));
    Swap32(s, m);
    DoubleEight32(m);
    HighBits32(m, 8);
    HighEight32(r);
    TopByte(0x8000_0000, poly, r, Top32(m), Rest32(r), Top32(i));
    Swap32Back(DoubleN(0x8000_0000, Rest32(r), 8), ZerosLeft(0x8000_0000, poly, Top32(i), 8));
  }

  lemma {:induction false} BitsLeftAppend(top: bv32, poly: bv32, r: bv32, s: seq<bool>, t: seq<bool>)
    ensures BitsLeft(top, poly, r, s + t) == BitsLeft(top, poly, BitsLeft(top, poly, r, s), t)
    decreases |s|
  {
    hide BitLeft;
    if s == [] {
      assert s + t == t;
    } else {
      assert (s + t)[1..] == s[1..] + t;
      BitsLeftAppend(top, poly, BitLeft(top, poly, r, s[0]), s[1..], t);
    }
  }

  lemma EmptyBitsLeft(top: bv32, poly: bv32, r: bv32)
    ensures BitsLeft(top, poly, r, []) == r
  {
  }

  /** The table form that keeps its register byte-swapped and shifts right is the ordinary
      left-shifting register. */
  lemma {:induction false} FoldSwapped16(poly: Word16, s: Word16, data: seq<bv8>)
    ensures var s' := Fold(Swapped16(poly), s, data);
      s' <= 0xffff && REV16(s') == BitsLeft(0x8000, poly, REV16(s), MsbFirst(data))
  {
    hide Feed, HighBits, BitsLeft, REV16;
    if data == [] {
      EmptyBitsLeft(0x8000, poly, REV16(s));
    } else {
      var front, b := data[..|data| - 1], data[|data| - 1];
      FoldSwapped16(poly, s, front);
      FeedSwapped16(poly, Fold(Swapped16(poly), s, front), b);
      BitsLeftAppend(0x8000, poly, REV16(s), MsbFirst(front), HighBits(0x80, b as bv32, 8));
    }
  }

  lemma {:induction false} FoldSwapped32(poly: bv32, s: bv32, data: seq<bv8>)
    ensures REV32(Fold(Swapped32(poly), s, data))
         == BitsLeft(0x8000_0000, poly, REV32(s), MsbFirst(data))
  {
    hide Feed, HighBits, BitsLeft, REV32;
    if data == [] {
      EmptyBitsLeft(0x8000_0000, poly, REV32(s));
    } else {
      var front, b := data[..|data| - 1], data[|data| - 1];
      FoldSwapped32(poly, s, front);
      FeedSwapped32(poly, Fold(Swapped32(poly), s, front), b);
      BitsLeftAppend(0x8000_0000, poly, REV32(s), MsbFirst(front), HighBits(0x80, b as bv32, 8));
    }
  }

  // ---- Messages in parts -----------------------------------------------------------------------

  lemma {:induction false} LsbFirstAppend(a: seq<bv8>, b: seq<bv8>)
    ensures LsbFirst(a + b) == LsbFirst(a) + LsbFirst(b)
  {
    hide LowBits;
    if b == [] {
      assert a + b == a;
    } else {
      assert (a + b)[..|a + b| - 1] == a + b[..|b| - 1];
      LsbFirstAppend(a, b[..|b| - 1]);
    }
  }

  lemma {:induction false} MsbFirstAppend(a: seq<bv8>, b: seq<bv8>)
    ensures MsbFirst(a + b) == MsbFirst(a) + MsbFirst(b)
  {
    hide HighBits;
    if b == [] {
      assert a + b == a;
    } else {
      assert (a + b)[..|a + b| - 1] == a + b[..|b| - 1];
      MsbFirstAppend(a, b[..|b| - 1]);
    }
  }

  /** The register after a first part takes the second part on to the register of the whole. */
  lemma {:induction false} RightChain(poly: bv32, r: bv32, a: seq<bv8>, b: seq<bv8>)
    ensures BitsRight(poly, BitsRight(poly, r, LsbFirst(a)), LsbFirst(b)) == BitsRight(poly, r, LsbFirst(a + b))
  {
    hide BitsRight, LsbFirst;
    LsbFirstAppend(a, b);
    BitsRightAppend(poly, r, LsbFirst(a), LsbFirst(b));
  }

  lemma {:induction false} LeftChain(top: bv32, poly: bv32, r: bv32, a: seq<bv8>, b: seq<bv8>)
    ensures BitsLeft(top, poly, BitsLeft(top, poly, r, MsbFirst(a)), MsbFirst(b))
         == BitsLeft(top, poly, r, MsbFirst(a + b))
  {
    hide BitsLeft, MsbFirst;
    MsbFirstAppend(a, b);
    BitsLeftAppend(top, poly, r, MsbFirst(a), MsbFirst(b));
  }

  function Joined(parts: seq<seq<bv8>>): seq<bv8> {
    if parts == [] then [] else Joined(parts[..|parts| - 1]) + parts[|parts| - 1]
  }

  lemma JoinedOne(parts: seq<seq<bv8>>)
    requires |parts| > 0
    ensures Joined(parts[..1]) == parts[0]
  {
    assert parts[..1][..0] == [] && Joined(parts[..1]) == [] + parts[0] == parts[0];
  }

  lemma JoinedMore(parts: seq<seq<bv8>>, i: nat)
    requires i < |parts|
    ensures Joined(parts[..i + 1]) == Joined(parts[..i]) + parts[i]
  {
    assert parts[..i + 1][..i] == parts[..i];
  }
}
