/** Four table lookups at once do the work of four bytes. */
module CrcSlicing {
  import opened CrcTheory

  /** The little-endian word at four consecutive bytes. */
  function Word(b0: bv8, b1: bv8, b2: bv8, b3: bv8): bv32 {
    Xor(b0 as bv32, Up32(Xor(b1 as bv32, Up32(Xor(b2 as bv32, Up32(b3 as bv32))))))
  }

  /** crc_n4d */
  function SliceWord(k: Scheme, crc: bv32, data: bv32): bv32 {
    var c := Xor(crc, data);
    Xor(Xor(Xor(Table(k, (c & 0xff) + 0x300), Table(k, ((c >> 8) & 0xff) + 0x200)),
            Table(k, ((c >> 16) & 0xff) + 0x100)), Table(k, (c >> 24) & 0xff))
  }

  /** crc_n4: the register has 16 bits, so the upper half of the word goes straight to the
      tables. */
  function SliceHalf(k: Scheme, crc: bv32, data: bv32): bv32 {
    var c := Xor(crc, data) & 0xffff;
    Xor(Xor(Xor(Table(k, (c & 0xff) + 0x300), Table(k, ((c >> 8) & 0xff) + 0x200)),
            Table(k, ((data >> 16) & 0xff) + 0x100)), Table(k, data >> 24))
  }

  /** crcsm_n4d */
  function SliceSmall(k: Scheme, crc: bv32, data: bv32): bv32 {
    Shift(k, Shift(k, Shift(k, Shift(k, Xor(crc, data)))))
  }

  // ---- Linearity -----------------------------------------------------------------------------

  lemma LowByteLinear(a: bv32, b: bv32)
    ensures LowByte(Xor(a, b)) == Xor(LowByte(a), LowByte(b))
  {
  }

  lemma DropByteLinear(a: bv32, b: bv32)
    ensures DropByte(Xor(a, b)) == Xor(DropByte(a), DropByte(b))
  {
  }

  lemma Top16Linear(a: bv32, b: bv32)
    ensures Top16(Xor(a, b)) == Xor(Top16(a), Top16(b))
  {
  }

  lemma Top32Linear(a: bv32, b: bv32)
    ensures Top32(Xor(a, b)) == Xor(Top32(a), Top32(b))
  {
  }

  lemma Rev16Linear(a: bv32, b: bv32)
    requires a <= 0xffff && b <= 0xffff
    ensures REV16(Xor(a, b)) == Xor(REV16(a), REV16(b))
  {
  }

  lemma Rev32Linear(a: bv32, b: bv32)
    ensures REV32(Xor(a, b)) == Xor(REV32(a), REV32(b))
  {
  }

  lemma {:induction false} T0Linear(k: Scheme, a: bv32, b: bv32)
    ensures T0(k, Xor(a, b)) == Xor(T0(k, a), T0(k, b))
  {
    hide Xor, REV16, REV32, LowByte, DropByte, Top16, Top32, ZerosLeft, ZerosRight;
    match k
    case Reflected(poly) =>
      LowByteLinear(a, b);
      ZerosRightLinear(poly, LowByte(a), LowByte(b), 8);
    case Swapped16(poly) =>
      Top16Linear(a, b);
      ZerosLeftLinear(0x8000, poly, Top16(a), Top16(b), 8);
      TopBound(a);
      TopBound(b);
      ZerosLeftBound(poly, Top16(a), 8);
      ZerosLeftBound(poly, Top16(b), 8);
      Rev16Linear(ZerosLeft(0x8000, poly, Top16(a), 8), ZerosLeft(0x8000, poly, Top16(b), 8));
    case Swapped32(poly) =>
      Top32Linear(a, b);
      ZerosLeftLinear(0x8000_0000, poly, Top32(a), Top32(b), 8);
      Rev32Linear(ZerosLeft(0x8000_0000, poly, Top32(a), 8), ZerosLeft(0x8000_0000, poly, Top32(b), 8));
  }

  lemma {:induction false} ShiftLinear(k: Scheme, a: bv32, b: bv32)
    ensures Shift(k, Xor(a, b)) == Xor(Shift(k, a), Shift(k, b))
  {
    hide Xor, LowByte, DropByte, T0;
    LowByteLinear(a, b);
    DropByteLinear(a, b);
    T0Linear(k, LowByte(a), LowByte(b));
    XorSwap(DropByte(a), DropByte(b), T0(k, LowByte(a)), T0(k, LowByte(b)));
  }

  /** While zero bytes leave the register, nothing is looked up. */
  lemma {:induction false} ShiftPlain(k: Scheme, y: bv32)
    requires LowByte(y) == 0
    ensures Shift(k, y) == DropByte(y)
  {
    hide Xor, LowByte, DropByte, T0;
    XorSelf(0);
    T0Linear(k, 0, 0);
    XorSelf(T0(k, 0));
    XorSelf(DropByte(y));
  }

  // ---- Four bytes ----------------------------------------------------------------------------

  function Shifts(k: Scheme, r: bv32, n: nat): bv32
    decreases n
  {
    if n == 0 then r else Shift(k, Shifts(k, r, n - 1))
  }

  lemma {:induction false} ShiftsFirst(k: Scheme, r: bv32, n: nat)
    ensures Shifts(k, r, n + 1) == Shifts(k, Shift(k, r), n)
    decreases n
  {
    hide Shift;
    if n > 0 { ShiftsFirst(k, r, n - 1); }
  }

  lemma {:induction false} ShiftsLinear(k: Scheme, a: bv32, b: bv32, n: nat)
    ensures Shifts(k, Xor(a, b), n) == Xor(Shifts(k, a, n), Shifts(k, b, n))
    decreases n
  {
    hide Shift, Xor;
    if n > 0 {
      ShiftsLinear(k, a, b, n - 1);
      ShiftLinear(k, Shifts(k, a, n - 1), Shifts(k, b, n - 1));
    }
  }

  /** The j-th table looks j + 1 bytes ahead. */
  lemma {:induction false} EntryAhead(k: Scheme, j: nat, i: bv32)
    requires i <= 0xff
    ensures Entry(k, j, i) == Shifts(k, i, j + 1)
    decreases j
  {
    hide Xor, T0;
    if j == 0 {
      assert DropByte(i) == 0 && LowByte(i) == i;
      XorSelf(T0(k, i));
      XorComm(0, T0(k, i));
      assert Shifts(k, i, 0) == i;
    } else {
      EntryAhead(k, j - 1, i);
    }
  }

  function Byte0(x: bv32): bv32 { x & 0xff }
  function Byte1(x: bv32): bv32 { (x >> 8) & 0xff }
  function Byte2(x: bv32): bv32 { (x >> 16) & 0xff }
  function Byte3(x: bv32): bv32 { (x >> 24) & 0xff }

  lemma SplitWord(x: bv32)
    ensures x == Xor(Xor(Xor(Byte0(x), Up32(Byte1(x))), Up32(Up32(Byte2(x)))), Up32(Up32(Up32(Byte3(x)))))
    ensures Byte0(x) <= 0xff && Byte1(x) <= 0xff && Byte2(x) <= 0xff && Byte3(x) <= 0xff
  {
  }

  lemma UpDown(y: bv32)
    requires y <= 0xff_ffff
    ensures LowByte(Up32(y)) == 0 && DropByte(Up32(y)) == y
  {
  }

  lemma UpBound(y: bv32)
    ensures y <= 0xff ==> Up32(y) <= 0xffff && Up32(Up32(y)) <= 0xff_ffff
  {
  }

  /** A byte at a higher position waits for its turn. */
  lemma {:induction false} ShiftsUp(k: Scheme, y: bv32, n: nat)
    requires y <= 0xff_ffff
    ensures Shifts(k, Up32(y), n + 1) == Shifts(k, y, n)
  {
    hide Shift, Up32, LowByte, DropByte;
    UpDown(y);
    ShiftsFirst(k, Up32(y), n);
    ShiftPlain(k, Up32(y));
  }

  lemma {:induction false} FourAhead(k: Scheme, x: bv32)
    ensures Shifts(k, x, 4) == Xor(Xor(Xor(Entry(k, 3, Byte0(x)), Entry(k, 2, Byte1(x))),
                                       Entry(k, 1, Byte2(x))), Entry(k, 0, Byte3(x)))
  {
    hide Shifts, Entry, Xor, Up32, Byte0, Byte1, Byte2, Byte3;
    var b0, b1, b2, b3 := Byte0(x), Byte1(x), Byte2(x), Byte3(x);
    SplitWord(x);
    var low2 := Xor(b0, Up32(b1));
    var low3 := Xor(low2, Up32(Up32(b2)));
    ShiftsLinear(k, low3, Up32(Up32(Up32(b3))), 4);
    ShiftsLinear(k, low2, Up32(Up32(b2)), 4);
    ShiftsLinear(k, b0, Up32(b1), 4);
    UpBound(b2);
    UpBound(b3);
    ShiftsUp(k, b1, 3);
    ShiftsUp(k, Up32(b2), 3);
    ShiftsUp(k, b2, 2);
    ShiftsUp(k, Up32(Up32(b3)), 3);
    ShiftsUp(k, Up32(b3), 2);
    ShiftsUp(k, b3, 1);
    EntryAhead(k, 3, b0);
    EntryAhead(k, 2, b1);
    EntryAhead(k, 1, b2);
    EntryAhead(k, 0, b3);
  }

  /** A byte may be fed before the bytes behind it are added. */
  lemma {:induction false} FeedUnder(k: Scheme, r: bv32, b: bv8, rest: bv32)
    requires rest <= 0xff_ffff
    ensures Shift(k, Xor(r, Xor(b as bv32, Up32(rest)))) == Xor(Feed(k, r, b), rest)
  {
    hide Shift, Xor, Up32, LowByte, DropByte;
    XorAssoc(r, b as bv32, Up32(rest));
    ShiftLinear(k, Xor(r, b as bv32), Up32(rest));
    UpDown(rest);
    ShiftPlain(k, Up32(rest));
  }

  lemma RestBound(b1: bv8, b2: bv8, b3: bv8)
    ensures var w3 := b3 as bv32; var w2 := Xor(b2 as bv32, Up32(w3)); var w1 := Xor(b1 as bv32, Up32(w2));
      w3 <= 0xff && w2 <= 0xffff && w1 <= 0xff_ffff
  {
  }

  function Feed4(k: Scheme, r: bv32, b0: bv8, b1: bv8, b2: bv8, b3: bv8): bv32 {
    Feed(k, Feed(k, Feed(k, Feed(k, r, b0), b1), b2), b3)
  }

  lemma {:induction false} FourBytes(k: Scheme, r: bv32, b0: bv8, b1: bv8, b2: bv8, b3: bv8)
    ensures Shifts(k, Xor(r, Word(b0, b1, b2, b3)), 4) == Feed4(k, r, b0, b1, b2, b3)
  {
    hide Shift, Shifts, Xor, Up32, Feed;
    var w3 := b3 as bv32;
    var w2 := Xor(b2 as bv32, Up32(w3));
    var w1 := Xor(b1 as bv32, Up32(w2));
    RestBound(b1, b2, b3);
    FeedUnder(k, r, b0, w1);
    FeedUnder(k, Feed(k, r, b0), b1, w2);
    FeedUnder(k, Feed(k, Feed(k, r, b0), b1), b2, w3);
    LastFeed(k, Feed(k, Feed(k, Feed(k, r, b0), b1), b2), b3);
    FourShifts(k, Xor(r, Word(b0, b1, b2, b3)));
  }

  lemma LastFeed(k: Scheme, r: bv32, b: bv8)
    ensures Shift(k, Xor(r, b as bv32)) == Feed(k, r, b)
  {
  }

  lemma FourShifts(k: Scheme, r: bv32)
    ensures Shifts(k, r, 4) == Shift(k, Shift(k, Shift(k, Shift(k, r))))
  {
    hide Shift;
    assert Shifts(k, r, 2) == Shift(k, Shifts(k, r, 1));
    assert Shifts(k, r, 1) == Shift(k, Shifts(k, r, 0));
  }

  lemma TableEntries(k: Scheme, b: bv32)
    requires b <= 0xff
    ensures Table(k, b) == Entry(k, 0, b) && Table(k, b + 0x100) == Entry(k, 1, b)
    ensures Table(k, b + 0x200) == Entry(k, 2, b) && Table(k, b + 0x300) == Entry(k, 3, b)
  {
    hide Entry;
    assert b + 0x100 - 0x100 == b && b + 0x200 - 0x200 == b && b + 0x300 - 0x300 == b;
  }

  /** crc_n4d equals four byte steps. */
  lemma {:induction false} SliceWordIsFourBytes(k: Scheme, r: bv32, b0: bv8, b1: bv8, b2: bv8, b3: bv8)
    ensures SliceWord(k, r, Word(b0, b1, b2, b3)) == Feed4(k, r, b0, b1, b2, b3)
  {
    hide Table, Entry, Shifts, Xor, Word, Feed4;
    var x := Xor(r, Word(b0, b1, b2, b3));
    FourBytes(k, r, b0, b1, b2, b3);
    FourAhead(k, x);
    TableEntries(k, Byte0(x));
    TableEntries(k, Byte1(x));
    TableEntries(k, Byte2(x));
    TableEntries(k, Byte3(x));
  }

  lemma HalfBytes(crc: bv32, data: bv32)
    requires crc <= 0xffff
    ensures var c, x := Xor(crc, data) & 0xffff, Xor(crc, data);
      && c & 0xff == Byte0(x) && (c >> 8) & 0xff == Byte1(x)
      && (data >> 16) & 0xff == Byte2(x) && data >> 24 == Byte3(x)
  {
  }

  /** crc_n4 equals four byte steps of a 16-bit register. */
  lemma {:induction false} SliceHalfIsFourBytes(k: Scheme, r: bv32, b0: bv8, b1: bv8, b2: bv8, b3: bv8)
    requires r <= 0xffff
    ensures SliceHalf(k, r, Word(b0, b1, b2, b3)) == Feed4(k, r, b0, b1, b2, b3)
  {
    hide Table, Xor, Word, Feed4;
    HalfBytes(r, Word(b0, b1, b2, b3));
    var x := Xor(r, Word(b0, b1, b2, b3));
    SliceWordIsFourBytes(k, r, b0, b1, b2, b3);
    assert SliceHalf(k, r, Word(b0, b1, b2, b3)) == SliceWord(k, r, Word(b0, b1, b2, b3));
  }

  /** crcsm_n4d equals four byte steps. */
  lemma {:induction false} SliceSmallIsFourBytes(k: Scheme, r: bv32, b0: bv8, b1: bv8, b2: bv8, b3: bv8)
    ensures SliceSmall(k, r, Word(b0, b1, b2, b3)) == Feed4(k, r, b0, b1, b2, b3)
  {
    hide Shift, Shifts, Xor, Word, Feed4;
    FourBytes(k, r, b0, b1, b2, b3);
    FourShifts(k, Xor(r, Word(b0, b1, b2, b3)));
  }

  // ---- Splitting -----------------------------------------------------------------------------

  /** Successive calls with the saved register are one call with the whole message. */
  lemma {:induction false} FoldAppend(k: Scheme, r: bv32, a: seq<bv8>, b: seq<bv8>)
    ensures Fold(k, r, a + b) == Fold(k, Fold(k, r, a), b)
  {
    hide Feed;
    if b == [] {
      assert a + b == a;
    } else {
      assert (a + b)[..|a + b| - 1] == a + b[..|b| - 1];
      FoldAppend(k, r, a, b[..|b| - 1]);
    }
  }
}
