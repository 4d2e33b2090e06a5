/** FastCRC: the checksum classes, whose table loops equal the bit-serial registers for every
    byte string, every alignment of its first byte and every split into successive calls.

    All _upd methods of a class run the same three loops (bytes up to a multiple of four,
    blocks of 16 bytes, remaining bytes), each with its own table; the loops are written here
    once per class, with the table as a parameter. */
module FastCrc {
  import opened CrcTheory
  import opened CrcSlicing
  import opened CrcDetect

  /** The byte loops' update. */
  function ByteStep(k: Scheme, crc: bv32, b: bv8): bv32
    requires Xor(LowByte(crc), b as bv32) < 0x400
  {
    Xor(DropByte(crc), Table(k, Xor(LowByte(crc), b as bv32)))
  }

  lemma IndexBound(crc: bv32, b: bv8)
    ensures Xor(LowByte(crc), b as bv32) <= 0xff
  {
  }

  lemma ByteParts(crc: bv32, b: bv8)
    ensures LowByte(Xor(crc, b as bv32)) == Xor(LowByte(crc), b as bv32)
    ensures DropByte(Xor(crc, b as bv32)) == DropByte(crc)
  {
  }

  lemma {:induction false} ByteStepIsFeed(k: Scheme, crc: bv32, b: bv8)
    ensures Xor(LowByte(crc), b as bv32) <= 0xff
    ensures ByteStep(k, crc, b) == Feed(k, crc, b)
  {
    hide Xor, LowByte, DropByte, T0;
    IndexBound(crc, b);
    ByteParts(crc, b);
  }

  /** The aligned 32-bit word at position i. */
  function WordAt(data: seq<bv8>, i: nat): bv32
    requires i + 4 <= |data|
  {
    Word(data[i], data[i + 1], data[i + 2], data[i + 3])
  }

  lemma {:induction false} FoldOne(k: Scheme, r: bv32, data: seq<bv8>, i: nat)
    requires i < |data|
    ensures Fold(k, r, data[..i + 1]) == Feed(k, Fold(k, r, data[..i]), data[i])
  {
    hide Feed;
    assert data[..i + 1][..i] == data[..i];
  }

  lemma {:induction false} FoldWord(k: Scheme, r: bv32, data: seq<bv8>, i: nat)
    requires i + 4 <= |data|
    ensures Fold(k, r, data[..i + 4])
         == Feed4(k, Fold(k, r, data[..i]), data[i], data[i + 1], data[i + 2], data[i + 3])
  {
    hide Feed, Fold;
    FoldOne(k, r, data, i);
    FoldOne(k, r, data, i + 1);
    FoldOne(k, r, data, i + 2);
    FoldOne(k, r, data, i + 3);
  }

  /** A 16-bit checksum: its tables hold 16-bit entries. */
  predicate Narrow(k: Scheme) {
    k.Swapped16? || (k.Reflected? && k.poly <= 0xffff)
  }

  lemma {:induction false} ZerosRightNarrow(poly: Word16, r: Word16, n: nat)
    ensures ZerosRight(poly, r, n) <= 0xffff
    decreases n
  {
    if n > 0 {
      assert Half(r) <= 0xffff;
      assert Xor(Half(r), poly) <= 0xffff;
      ZerosRightNarrow(poly, BitRight(poly, r, false), n - 1);
    }
  }

  lemma {:induction false} FoldNarrow(k: Scheme, r: Word16, data: seq<bv8>)
    requires Narrow(k)
    ensures Fold(k, r, data) <= 0xffff
  {
    hide Shift, Xor, ZerosRight;
    if data != [] {
      var front, b := data[..|data| - 1], data[|data| - 1];
      FoldNarrow(k, r, front);
      var s := Fold(k, r, front);
      if k.Swapped16? {
        FeedSwapped16(k.poly16, s, b);
      } else {
        ShiftReflected(k.poly, Xor(s, b as bv32));
        NarrowByte(s, b);
        ZerosRightNarrow(k.poly, Xor(s, b as bv32), 8);
      }
    }
  }

  lemma NarrowByte(s: Word16, b: bv8)
    ensures Xor(s, b as bv32) <= 0xffff
  {
  }

  class FastCRC16 {
    var seed: Word16

    constructor ()
      ensures seed == 0
    {
      seed := 0;
    }

    method Update(k: Scheme, data: seq<bv8>, address: nat)
      requires Narrow(k)
      modifies this
      ensures seed == Fold(k, old(seed), data)
    {
      hide Fold, Feed, Feed4, Table, Xor, SliceHalf, Word, Narrow;
      var crc, i, len: nat := seed, 0, |data|;
      ghost var s := seed;
      Start(k, s, data);
      while (address + i) % 4 != 0 && len != 0
        invariant len == |data| - i && crc == Fold(k, s, data[..i])
        decreases len
      {
        ByteStepIsFeed(k, crc, data[i]);
        FoldOne(k, s, data, i);
        crc := ByteStep(k, crc, data[i]);
        i, len := i + 1, len - 1;
      }
      while len >= 16
        invariant len == |data| - i && crc == Fold(k, s, data[..i])
        decreases len
      {
        len := len - 16;
        crc := FourAt(k, s, data, i, crc);
        crc := FourAt(k, s, data, i + 4, crc);
        crc := FourAt(k, s, data, i + 8, crc);
        crc := FourAt(k, s, data, i + 12, crc);
        i := i + 16;
      }
      while len != 0
        invariant len == |data| - i && crc == Fold(k, s, data[..i])
        decreases len
      {
        ByteStepIsFeed(k, crc, data[i]);
        FoldOne(k, s, data, i);
        crc := ByteStep(k, crc, data[i]);
        i, len := i + 1, len - 1;
      }
      assert data[..i] == data;
      FoldNarrow(k, s, data);
      seed := crc;
    }

    /** One crc_n4 of the block loop. */
    static method FourAt(k: Scheme, ghost s: Word16, data: seq<bv8>, i: nat, crc: bv32) returns (crc': bv32)
      requires Narrow(k) && i + 4 <= |data| && crc == Fold(k, s, data[..i])
      ensures crc' == Fold(k, s, data[..i + 4])
    {
      hide Fold, Feed, Feed4, Table, Xor, SliceHalf, Word, Narrow;
      crc' := SliceHalf(k, crc, WordAt(data, i));
      FoldNarrow(k, s, data[..i]);
      SliceHalfIsFourBytes(k, crc, data[i], data[i + 1], data[i + 2], data[i + 3]);
      FoldWord(k, s, data, i);
    }

    method X25Upd(data: seq<bv8>, address: nat) returns (r: bv32)
      modifies this
      ensures seed == BitsRight(X25_POLY, old(seed), LsbFirst(data)) && r == Xor(seed, 0xffff)
    {
      hide Fold, Xor, BitsRight, LsbFirst;
      FoldReflected(X25_POLY, seed, data);
      Update(Reflected(X25_POLY), data, address);
      r := Xor(seed, 0xffff);
    }

    /** The 16-bit frame check sequence of RFC 1662. */
    method X25(data: seq<bv8>, address: nat) returns (r: bv32)
      modifies this
      ensures r == Fcs16(data)
      ensures seed == BitsRight(X25_POLY, 0xffff, LsbFirst(data)) && r == Xor(seed, 0xffff)
    {
      hide Xor, BitsRight, LsbFirst;
      seed := 0xffff;
      r := X25Upd(data, address);
    }

    method KermitUpd(data: seq<bv8>, address: nat) returns (r: bv32)
      modifies this
      ensures r == seed == BitsRight(X25_POLY, old(seed), LsbFirst(data))
    {
      hide Fold, BitsRight, LsbFirst;
      FoldReflected(X25_POLY, seed, data);
      Update(Reflected(X25_POLY), data, address);
      r := seed;
    }

    method Kermit(data: seq<bv8>, address: nat) returns (r: bv32)
      modifies this
      ensures r == seed == BitsRight(X25_POLY, 0, LsbFirst(data))
    {
      hide BitsRight, LsbFirst;
      seed := 0;
      r := KermitUpd(data, address);
    }

    /** xmodem_upd and ccitt_upd: their tables are equal, and so are their bodies. */
    method MsbFirstUpd(data: seq<bv8>, address: nat) returns (r: bv32)
      modifies this
      ensures r == REV16(seed)
      ensures r == BitsLeft(0x8000, MSB_POLY16, REV16(old(seed)), MsbFirst(data))
    {
      hide Fold, BitsLeft, MsbFirst, REV16;
      FoldSwapped16(MSB_POLY16, seed, data);
      Update(Swapped16(MSB_POLY16), data, address);
      r := REV16(seed);
    }

    method Xmodem(data: seq<bv8>, address: nat) returns (r: bv32)
      modifies this
      ensures r == REV16(seed) == BitsLeft(0x8000, MSB_POLY16, 0, MsbFirst(data))
    {
      hide BitsLeft, MsbFirst;
      seed := 0;
      r := MsbFirstUpd(data, address);
    }

    method Ccitt(data: seq<bv8>, address: nat) returns (r: bv32)
      modifies this
      ensures r == REV16(seed) == BitsLeft(0x8000, MSB_POLY16, 0xffff, MsbFirst(data))
    {
      hide BitsLeft, MsbFirst;
      seed := 0xffff;
      r := MsbFirstUpd(data, address);
    }

    /** A message handed over in parts, each wherever it lies in memory. */
    method X25OfParts(parts: seq<seq<bv8>>, addresses: seq<nat>) returns (r: bv32)
      requires |addresses| == |parts| > 0
      modifies this
      ensures r == Fcs16(Joined(parts))
    {
      hide Xor, BitsRight, LsbFirst, Joined;
      r := X25(parts[0], addresses[0]);
      JoinedOne(parts);
      for i := 1 to |parts|
        invariant seed == BitsRight(X25_POLY, 0xffff, LsbFirst(Joined(parts[..i]))) && r == Xor(seed, 0xffff)
      {
        ghost var done := Joined(parts[..i]);
        RightChain(X25_POLY, 0xffff, done, parts[i]);
        JoinedMore(parts, i);
        r := X25Upd(parts[i], addresses[i]);
      }
      assert parts[..|parts|] == parts;
    }

    method KermitOfParts(parts: seq<seq<bv8>>, addresses: seq<nat>) returns (r: bv32)
      requires |addresses| == |parts| > 0
      modifies this
      ensures r == BitsRight(X25_POLY, 0, LsbFirst(Joined(parts)))
    {
      hide BitsRight, LsbFirst, Joined;
      r := Kermit(parts[0], addresses[0]);
      JoinedOne(parts);
      for i := 1 to |parts|
        invariant r == seed == BitsRight(X25_POLY, 0, LsbFirst(Joined(parts[..i])))
      {
        ghost var done := Joined(parts[..i]);
        RightChain(X25_POLY, 0, done, parts[i]);
        JoinedMore(parts, i);
        r := KermitUpd(parts[i], addresses[i]);
      }
      assert parts[..|parts|] == parts;
    }

    method XmodemOfParts(parts: seq<seq<bv8>>, addresses: seq<nat>) returns (r: bv32)
      requires |addresses| == |parts| > 0
      modifies this
      ensures r == BitsLeft(0x8000, MSB_POLY16, 0, MsbFirst(Joined(parts)))
    {
      hide BitsLeft, MsbFirst, REV16, Joined;
      r := Xmodem(parts[0], addresses[0]);
      JoinedOne(parts);
      for i := 1 to |parts|
        invariant r == REV16(seed) == BitsLeft(0x8000, MSB_POLY16, 0, MsbFirst(Joined(parts[..i])))
      {
        ghost var done := Joined(parts[..i]);
        LeftChain(0x8000, MSB_POLY16, 0, done, parts[i]);
        JoinedMore(parts, i);
        r := MsbFirstUpd(parts[i], addresses[i]);
      }
      assert parts[..|parts|] == parts;
    }

    method CcittOfParts(parts: seq<seq<bv8>>, addresses: seq<nat>) returns (r: bv32)
      requires |addresses| == |parts| > 0
      modifies this
      ensures r == BitsLeft(0x8000, MSB_POLY16, 0xffff, MsbFirst(Joined(parts)))
    {
      hide BitsLeft, MsbFirst, REV16, Joined;
      r := Ccitt(parts[0], addresses[0]);
      JoinedOne(parts);
      for i := 1 to |parts|
        invariant r == REV16(seed) == BitsLeft(0x8000, MSB_POLY16, 0xffff, MsbFirst(Joined(parts[..i])))
      {
        ghost var done := Joined(parts[..i]);
        LeftChain(0x8000, MSB_POLY16, 0xffff, done, parts[i]);
        JoinedMore(parts, i);
        r := MsbFirstUpd(parts[i], addresses[i]);
      }
      assert parts[..|parts|] == parts;
    }
  }

  lemma Start(k: Scheme, r: bv32, data: seq<bv8>)
    ensures Fold(k, r, data[..0]) == r
  {
  }

  class FastCRC32 {
    var seed: bv32

    constructor ()
      ensures seed == 0
    {
      seed := 0;
    }

    /** With CRC_BIGTABLES the block loop looks four bytes up at once; without, it adds the
        word and then takes four byte steps with the first table. */
    method Update(k: Scheme, bigTables: bool, data: seq<bv8>, address: nat)
      modifies this
      ensures seed == Fold(k, old(seed), data)
    {
      hide Fold, Feed, Feed4, Table, Xor, SliceWord, SliceSmall, Word;
      var crc, i, len: nat := seed, 0, |data|;
      ghost var s := seed;
      Start(k, s, data);
      while (address + i) % 4 != 0 && len != 0
        invariant len == |data| - i && crc == Fold(k, s, data[..i])
        decreases len
      {
        ByteStepIsFeed(k, crc, data[i]);
        FoldOne(k, s, data, i);
        crc := ByteStep(k, crc, data[i]);
        i, len := i + 1, len - 1;
      }
      while len >= 16
        invariant len == |data| - i && crc == Fold(k, s, data[..i])
        decreases len
      {
        len := len - 16;
        crc := FourAt(k, bigTables, s, data, i, crc);
        crc := FourAt(k, bigTables, s, data, i + 4, crc);
        crc := FourAt(k, bigTables, s, data, i + 8, crc);
        crc := FourAt(k, bigTables, s, data, i + 12, crc);
        i := i + 16;
      }
      while len != 0
        invariant len == |data| - i && crc == Fold(k, s, data[..i])
        decreases len
      {
        ByteStepIsFeed(k, crc, data[i]);
        FoldOne(k, s, data, i);
        crc := ByteStep(k, crc, data[i]);
        i, len := i + 1, len - 1;
      }
      assert data[..i] == data;
      seed := crc;
    }

    /** One crc_n4d or crcsm_n4d of the block loop. */
    static method FourAt(k: Scheme, bigTables: bool, ghost s: bv32, data: seq<bv8>, i: nat, crc: bv32)
      returns (crc': bv32)
      requires i + 4 <= |data| && crc == Fold(k, s, data[..i])
      ensures crc' == Fold(k, s, data[..i + 4])
    {
      hide Fold, Feed, Feed4, Table, Xor, SliceWord, SliceSmall, Word;
      FoldWord(k, s, data, i);
      if bigTables {
        crc' := SliceWord(k, crc, WordAt(data, i));
        SliceWordIsFourBytes(k, crc, data[i], data[i + 1], data[i + 2], data[i + 3]);
      } else {
        crc' := SliceSmall(k, crc, WordAt(data, i));
        SliceSmallIsFourBytes(k, crc, data[i], data[i + 1], data[i + 2], data[i + 3]);
      }
    }

    method Crc32Upd(bigTables: bool, data: seq<bv8>, address: nat) returns (r: bv32)
      modifies this
      ensures seed == Fold(Reflected(CRC32_POLY), old(seed), data)
      ensures seed == BitsRight(CRC32_POLY, old(seed), LsbFirst(data)) && r == Xor(seed, 0xffff_ffff)
    {
      hide Fold, Xor, BitsRight, LsbFirst;
      FoldReflected(CRC32_POLY, seed, data);
      Update(Reflected(CRC32_POLY), bigTables, data, address);
      r := Xor(seed, 0xffff_ffff);
    }

    /** The 32-bit frame check sequence of RFC 1662. */
    method Crc32(bigTables: bool, data: seq<bv8>, address: nat) returns (r: bv32)
      modifies this
      ensures r == Fcs32(data)
      ensures seed == BitsRight(CRC32_POLY, 0xffff_ffff, LsbFirst(data)) && r == Xor(seed, 0xffff_ffff)
    {
      hide Fold, Xor, BitsRight, LsbFirst;
      seed := 0xffff_ffff;
      r := Crc32Upd(bigTables, data, address);
    }

    method CksumUpd(bigTables: bool, data: seq<bv8>, address: nat) returns (r: bv32)
      modifies this
      ensures r == Xor(REV32(seed), 0xffff_ffff)
      ensures REV32(seed) == BitsLeft(0x8000_0000, MSB_POLY32, REV32(old(seed)), MsbFirst(data))
    {
      hide Fold, Xor, BitsLeft, MsbFirst, REV32;
      FoldSwapped32(MSB_POLY32, seed, data);
      Update(Swapped32(MSB_POLY32), bigTables, data, address);
      r := Xor(REV32(seed), 0xffff_ffff);
    }

    method Cksum(bigTables: bool, data: seq<bv8>, address: nat) returns (r: bv32)
      modifies this
      ensures REV32(seed) == BitsLeft(0x8000_0000, MSB_POLY32, 0, MsbFirst(data))
      ensures r == Xor(REV32(seed), 0xffff_ffff)
    {
      hide Xor, BitsLeft, MsbFirst;
      seed := 0;
      r := CksumUpd(bigTables, data, address);
    }

    /** A message handed over in parts, each wherever it lies in memory. */
    method Crc32OfParts(bigTables: bool, parts: seq<seq<bv8>>, addresses: seq<nat>) returns (r: bv32)
      requires |addresses| == |parts| > 0
      modifies this
      ensures r == Fcs32(Joined(parts))
    {
      hide Xor, BitsRight, LsbFirst, Joined;
      r := Crc32(bigTables, parts[0], addresses[0]);
      JoinedOne(parts);
      for i := 1 to |parts|
        invariant seed == BitsRight(CRC32_POLY, 0xffff_ffff, LsbFirst(Joined(parts[..i])))
        invariant r == Xor(seed, 0xffff_ffff)
      {
        ghost var done := Joined(parts[..i]);
        RightChain(CRC32_POLY, 0xffff_ffff, done, parts[i]);
        JoinedMore(parts, i);
        r := Crc32Upd(bigTables, parts[i], addresses[i]);
      }
      assert parts[..|parts|] == parts;
    }

    method CksumOfParts(bigTables: bool, parts: seq<seq<bv8>>, addresses: seq<nat>) returns (r: bv32)
      requires |addresses| == |parts| > 0
      modifies this
      ensures r == Xor(BitsLeft(0x8000_0000, MSB_POLY32, 0, MsbFirst(Joined(parts))), 0xffff_ffff)
    {
      hide Xor, BitsLeft, MsbFirst, REV32, Joined;
      r := Cksum(bigTables, parts[0], addresses[0]);
      JoinedOne(parts);
      for i := 1 to |parts|
        invariant REV32(seed) == BitsLeft(0x8000_0000, MSB_POLY32, 0, MsbFirst(Joined(parts[..i])))
        invariant r == Xor(REV32(seed), 0xffff_ffff)
      {
        ghost var done := Joined(parts[..i]);
        LeftChain(0x8000_0000, MSB_POLY32, 0, done, parts[i]);
        JoinedMore(parts, i);
        r := CksumUpd(bigTables, parts[i], addresses[i]);
      }
      assert parts[..|parts|] == parts;
    }
  }
}
