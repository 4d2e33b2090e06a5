/** MemoryPoolAllocator of rapidjson (allocators.h): blocks cut from a list of chunks.

    Memory is an array of bytes and addresses are its indices; address 0 is the null pointer.
    The address that the base allocator returns, if it is asked for a chunk, is a parameter of
    the call. */
module PoolAllocator {
  import opened Prelude

  /** RAPIDJSON_ALIGN: to a multiple of eight bytes. */
  function Align(n: nat): nat { (n + 7) / 8 * 8 }

  /** sizeof(ChunkHeader), for 64-bit sizes and pointers. */
  const SIZEOF_HEADER: nat := 24

  /** The distance from a chunk to its data. */
  const HEADER: nat := Align(SIZEOF_HEADER)

  /** A user buffer's capacity is its size less the plain size of the header, while its data
      begin after the aligned one: they stay within the buffer exactly if the header's size is
      a multiple of eight (24 bytes with 64-bit pointers are, 12 bytes with 32-bit ones are
      not). */
  lemma BufferFitsIff(header: nat, size: nat)
    requires size > header
    ensures Align(header) + (size - header) <= size <==> header % 8 == 0
  {
  }

  datatype Chunk = Chunk(base: nat, capacity: nat, size: nat)

  datatype Block = Block(addr: nat, len: nat)

  function Data(c: Chunk): nat { c.base + HEADER }
  function End(c: Chunk): nat { c.base + HEADER + c.capacity }

  predicate ChunksApart(c: Chunk, d: Chunk) { End(c) <= d.base || End(d) <= c.base }

  predicate Apart(a: Block, b: Block) { a.addr + a.len <= b.addr || b.addr + b.len <= a.addr }

  /** The block lies in the used part of the chunk. */
  predicate Within(b: Block, c: Chunk) {
    b.len > 0 && Data(c) <= b.addr && b.addr + b.len <= Data(c) + c.size
  }

  ghost predicate Laid(cs: seq<Chunk>, memory: nat) {
    && (forall c :: c in cs ==> 0 < c.base && c.size <= c.capacity && End(c) <= memory)
    && (forall i, j :: 0 <= i < j < |cs| ==> ChunksApart(cs[i], cs[j]))
  }

  ghost predicate Disjoint(bs: seq<Block>) {
    forall i, j :: 0 <= i < j < |bs| ==> Apart(bs[i], bs[j])
  }

  ghost predicate Housed(b: Block, cs: seq<Chunk>) {
    exists c :: c in cs && Within(b, c)
  }

  ghost predicate AllHoused(bs: seq<Block>, cs: seq<Chunk>) {
    forall b :: b in bs ==> Housed(b, cs)
  }

  function SumCapacity(cs: seq<Chunk>): nat {
    if cs == [] then 0 else SumCapacity(cs[..|cs| - 1]) + cs[|cs| - 1].capacity
  }

  function SumSize(cs: seq<Chunk>): nat {
    if cs == [] then 0 else SumSize(cs[..|cs| - 1]) + cs[|cs| - 1].size
  }

  lemma {:induction false} SizeWithinCapacity(cs: seq<Chunk>)
    requires forall c :: c in cs ==> c.size <= c.capacity
    ensures SumSize(cs) <= SumCapacity(cs)
  {
    if cs != [] { SizeWithinCapacity(cs[..|cs| - 1]); }
  }

  /** Both sums, chunk by chunk: the first one counts as much as any other. */
  lemma {:induction false} SumsOfFirst(cs: seq<Chunk>)
    requires cs != []
    ensures SumSize(cs) == cs[0].size + SumSize(cs[1..])
    ensures SumCapacity(cs) == cs[0].capacity + SumCapacity(cs[1..])
  {
    if |cs| > 1 {
      var n := |cs| - 1;
      SumsOfFirst(cs[..n]);
      assert cs[1..][..n - 1] == cs[..n][1..];
    }
  }

  /** No byte of any of the blocks differs. */
  ghost predicate Untouched(m: seq<bv8>, m': seq<bv8>, bs: seq<Block>) {
    && |m'| == |m|
    && forall b :: b in bs ==> b.addr + b.len <= |m| && m'[b.addr..b.addr + b.len] == m[b.addr..b.addr + b.len]
  }

  lemma {:induction false} CopyUntouched(m: seq<bv8>, m': seq<bv8>, bs: seq<Block>, q: Block, len: nat)
    requires |m'| == |m| && len <= q.len && q.addr + len <= |m|
    requires m'[..q.addr] == m[..q.addr] && m'[q.addr + len..] == m[q.addr + len..]
    requires forall b :: b in bs ==> b.len > 0 && b.addr + b.len <= |m| && Apart(b, q)
    ensures Untouched(m, m', bs)
  {
    forall b | b in bs ensures m'[b.addr..b.addr + b.len] == m[b.addr..b.addr + b.len] {
      if b.addr + b.len <= q.addr {
        PrefixSlice(m, m', q.addr, b.addr, b.addr + b.len);
      } else {
        SuffixSlice(m, m', q.addr + len, b.addr, b.addr + b.len);
      }
    }
  }

  lemma PrefixSlice(m: seq<bv8>, m': seq<bv8>, n: nat, a: nat, b: nat)
    requires a <= b <= n <= |m| == |m'| && m'[..n] == m[..n]
    ensures m'[a..b] == m[a..b]
  {
    forall k | a <= k < b ensures m'[k] == m[k] { assert m'[..n][k] == m[..n][k]; }
  }

  lemma SuffixSlice(m: seq<bv8>, m': seq<bv8>, n: nat, a: nat, b: nat)
    requires n <= a <= b <= |m| == |m'| && m'[n..] == m[n..]
    ensures m'[a..b] == m[a..b]
  {
    forall k | a <= k < b ensures m'[k] == m[k] { assert m'[n..][k - n] == m[n..][k - n]; }
  }

  /** The head chunk, used up to a further `extra` bytes. */
  function Grown(cs: seq<Chunk>, extra: nat): seq<Chunk>
    requires cs != []
  {
    [cs[0].(size := cs[0].size + extra)] + cs[1..]
  }

  /** Handing out bytes of the head chunk raises the size by them and leaves the capacity. */
  lemma {:induction false} GrownSums(cs: seq<Chunk>, extra: nat)
    requires cs != []
    ensures SumSize(Grown(cs, extra)) == SumSize(cs) + extra
    ensures SumCapacity(Grown(cs, extra)) == SumCapacity(cs)
  {
    hide SumSize, SumCapacity;
    SumsOfFirst(cs);
    SumsOfFirst(Grown(cs, extra));
    assert Grown(cs, extra)[1..] == cs[1..];
  }

  lemma {:induction false} GrownHouses(bs: seq<Block>, cs: seq<Chunk>, extra: nat, memory: nat)
    requires cs != [] && Laid(cs, memory) && AllHoused(bs, cs) && cs[0].size + extra <= cs[0].capacity
    ensures Laid(Grown(cs, extra), memory) && AllHoused(bs, Grown(cs, extra))
  {
    var ds := Grown(cs, extra);
    forall b | b in bs ensures Housed(b, ds) {
      assert Housed(b, cs);
      var c :| c in cs && Within(b, c);
      var i :| 0 <= i < |cs| && cs[i] == c;
      assert ds[i] in ds && Within(b, ds[i]);
    }
  }

  /** The unused part of the head chunk meets no block. */
  lemma {:induction false} UnusedIsFree(bs: seq<Block>, cs: seq<Chunk>, memory: nat, n: Block)
    requires cs != [] && Laid(cs, memory) && AllHoused(bs, cs)
    requires Data(cs[0]) + cs[0].size <= n.addr && n.addr + n.len <= End(cs[0])
    ensures forall b :: b in bs ==> Apart(b, n)
  {
    forall b | b in bs ensures Apart(b, n) {
      assert Housed(b, cs);
      var i :| 0 <= i < |cs| && Within(b, cs[i]);
    }
  }

  /** A new chunk in front houses nothing and moves nothing. */
  lemma {:induction false} AddedHouses(bs: seq<Block>, cs: seq<Chunk>, c: Chunk, memory: nat)
    requires Laid(cs, memory) && AllHoused(bs, cs)
    requires 0 < c.base && c.size == 0 && End(c) <= memory && forall d :: d in cs ==> ChunksApart(c, d)
    ensures Laid([c] + cs, memory) && AllHoused(bs, [c] + cs)
  {
    forall b | b in bs ensures Housed(b, [c] + cs) {
      assert Housed(b, cs);
      var d :| d in cs && Within(b, d);
      assert d in [c] + cs;
    }
  }

  class MemoryPoolAllocator {
    /** chunkHead_: the head of the list comes first. */
    var chunks: seq<Chunk>
    var userBuffer: Option<nat>
    const chunkCapacity: nat
    const memory: array<bv8>
    /** The blocks handed out since the last Clear, at their present length. */
    ghost var blocks: seq<Block>

    /** The blocks are pairwise disjoint and inside the used part of a chunk; the chunks are
        disjoint; a user buffer is the last of them. */
    ghost predicate Valid()
      reads this
    {
      && Laid(chunks, memory.Length) && Disjoint(blocks) && AllHoused(blocks, chunks)
      && (userBuffer.Some? ==> chunks != [] && chunks[|chunks| - 1].base == userBuffer.value)
    }

    /** The base allocator returns unused memory for a chunk of the given capacity. */
    ghost predicate Grants(grant: Option<nat>, capacity: nat)
      reads this
    {
      grant.Some? ==>
        && 0 < grant.value && grant.value + HEADER + capacity <= memory.Length
        && forall c :: c in chunks ==> ChunksApart(Chunk(grant.value, capacity, 0), c)
    }

    constructor (m: array<bv8>, capacity: nat)
      ensures Valid() && memory == m && chunkCapacity == capacity && blocks == [] && chunks == []
    {
      memory, chunkCapacity := m, capacity;
      chunks, userBuffer, blocks := [], None, [];
    }

    constructor WithBuffer(m: array<bv8>, buffer: nat, size: nat, capacity: nat)
      requires buffer > 0 && size > SIZEOF_HEADER && buffer + size <= m.Length
      ensures Valid() && memory == m && chunkCapacity == capacity && blocks == []
      ensures chunks == [Chunk(buffer, size - SIZEOF_HEADER, 0)] && userBuffer == Some(buffer)
    {
      memory, chunkCapacity := m, capacity;
      chunks, userBuffer, blocks := [Chunk(buffer, size - SIZEOF_HEADER, 0)], Some(buffer), [];
    }

    method AddChunk(capacity: nat, grant: Option<nat>) returns (ok: bool)
      requires Valid() && Grants(grant, capacity)
      modifies this`chunks
      ensures Valid() && ok == grant.Some?
      ensures chunks == if ok then [Chunk(grant.value, capacity, 0)] + old(chunks) else old(chunks)
    {
      if grant.None? { return false; }
      AddedHouses(blocks, chunks, Chunk(grant.value, capacity, 0), memory.Length);
      chunks := [Chunk(grant.value, capacity, 0)] + chunks;
      return true;
    }

    /** The capacity that Malloc asks for if it needs a chunk. */
    function Wanted(size: nat): nat
    {
      if chunkCapacity > Align(size) then chunkCapacity else Align(size)
    }

    /** A new block of the aligned size, apart from all others; no byte changes. */
    method Malloc(size: nat, grant: Option<nat>) returns (p: nat)
      requires Valid() && Grants(grant, Wanted(size))
      modifies this`chunks, this`blocks
      ensures Valid()
      ensures p == 0 <==> blocks == old(blocks)
      ensures p != 0 ==> size > 0 && blocks == old(blocks) + [Block(p, Align(size))]
      ensures p == 0 ==> chunks == old(chunks) && (size == 0 || grant.None?)
      ensures p != 0 ==>
        var fits := old(chunks) != [] && old(chunks)[0].size + Align(size) <= old(chunks)[0].capacity;
        && (!fits ==> grant.Some?)
        && (var cs := if fits then old(chunks) else [Chunk(grant.value, Wanted(size), 0)] + old(chunks);
            chunks == Grown(cs, Align(size)) && p == Data(cs[0]) + cs[0].size)
    {
      hide Align, Laid, Disjoint, AllHoused;
      if size == 0 { return 0; }
      AlignBounds(size);
      var n := Align(size);
      if chunks == [] || chunks[0].size + n > chunks[0].capacity {
        var ok := AddChunk(if chunkCapacity > n then chunkCapacity else n, grant);
        if !ok { return 0; }
      }
      p := Data(chunks[0]) + chunks[0].size;
      ghost var b := Block(p, n);
      UnusedIsFree(blocks, chunks, memory.Length, b);
      GrownHouses(blocks, chunks, n, memory.Length);
      NewBlock(blocks, b, Grown(chunks, n));
      chunks := Grown(chunks, n);
      blocks := blocks + [b];
    }

    /** Makes the block at p longer, in place or by moving its bytes; p may be null. */
    method Realloc(p: nat, originalSize: nat, newSize: nat, grant: Option<nat>, ghost i: nat) returns (q: nat)
      requires Valid() && Grants(grant, Wanted(newSize))
      requires p != 0 ==> i < |blocks| && blocks[i].addr == p && Align(originalSize) <= blocks[i].len
      modifies this`chunks, this`blocks, memory
      ensures Valid()
      // the first bytes are kept, and no byte of any block changes
      ensures p != 0 && q != 0 ==>
        var n := Min(Align(originalSize), Align(newSize));
        q + n <= memory.Length && p + n <= memory.Length && memory[q..q + n] == old(memory[p..p + n])
      ensures Untouched(old(memory[..]), memory[..], old(blocks))
      // what becomes of the blocks
      ensures q == 0 ==> blocks == old(blocks) && (newSize == 0 || grant.None?)
      ensures q != 0 && q == p ==>
        blocks == if Align(originalSize) >= Align(newSize) then old(blocks)
                  else old(blocks)[i := Block(p, Align(newSize))]
      ensures q != 0 && q != p ==> blocks == old(blocks) + [Block(q, Align(newSize))]
      // only the last block of the head chunk is extended in place
      ensures q != 0 && q == p && Align(originalSize) < Align(newSize) ==>
        && old(chunks) != [] && p + Align(originalSize) == Data(old(chunks)[0]) + old(chunks)[0].size
        && chunks == Grown(old(chunks), Align(newSize) - Align(originalSize))
    {
      hide Align, Laid, Disjoint, AllHoused, Untouched;
      BlockFits(blocks, chunks, memory.Length);
      SameUntouched(memory[..], blocks);
      if p == 0 {
        q := Malloc(newSize, grant);
        return;
      }
      if newSize == 0 { return 0; }
      var oldLen, newLen := Align(originalSize), Align(newSize);
      if oldLen >= newLen { return p; }
      SomeChunk(blocks, chunks, i);
      if p + oldLen == Data(chunks[0]) + chunks[0].size {
        var increment := newLen - oldLen;
        if chunks[0].size + increment <= chunks[0].capacity {
          LastBlock(blocks, chunks, memory.Length, i, oldLen);
          Extended(blocks, chunks, memory.Length, i, increment);
          chunks := Grown(chunks, increment);
          blocks := blocks[i := Block(p, newLen)];
          return p;
        }
      }
      AlignTwice(newSize);
      q := MoveBlock(p, oldLen, newLen, grant, i);
    }

    /** The end of Realloc: allocate and copy, without freeing the original block. */
    method MoveBlock(p: nat, oldLen: nat, newLen: nat, grant: Option<nat>, ghost i: nat) returns (q: nat)
      requires Valid() && Grants(grant, Wanted(newLen)) && Align(newLen) == newLen && oldLen < newLen
      requires i < |blocks| && blocks[i].addr == p && oldLen <= blocks[i].len
      modifies this`chunks, this`blocks, memory
      ensures Valid() && q != p
      ensures q == 0 ==> blocks == old(blocks) && grant.None?
      ensures q != 0 ==> blocks == old(blocks) + [Block(q, newLen)]
      ensures q != 0 ==> q + oldLen <= memory.Length && p + oldLen <= memory.Length
      ensures q != 0 ==> memory[q..q + oldLen] == old(memory[p..p + oldLen])
      ensures Untouched(old(memory[..]), memory[..], old(blocks))
    {
      hide Align, Laid, Disjoint, AllHoused, Untouched, Grown;
      BlockFits(blocks, chunks, memory.Length);
      SameUntouched(memory[..], blocks);
      ghost var bs := blocks;
      HousedAbove(blocks, chunks, memory.Length, i);
      q := Malloc(newLen, grant);
      if q != 0 {
        BlockFits(blocks, chunks, memory.Length);
        ghost var b := Block(q, newLen);
        Newest(bs, b);
        assert b in blocks && Apart(bs[i], b);
        Copy(p, q, oldLen);
        CopyUntouched(old(memory[..]), memory[..], bs, b, oldLen);
      }
    }

    /** memcpy between two ranges that do not meet. */
    method Copy(from: nat, to: nat, len: nat)
      requires from + len <= memory.Length && to + len <= memory.Length
      requires Apart(Block(from, len), Block(to, len))
      modifies memory
      ensures memory[to..to + len] == old(memory[from..from + len])
      ensures memory[..to] == old(memory[..to]) && memory[to + len..] == old(memory[to + len..])
    {
      for k := 0 to len
        invariant memory[to..to + k] == old(memory[from..from + k])
        invariant memory[..to] == old(memory[..to]) && memory[to + k..] == old(memory[to + k..])
      {
        assert memory[from + k] == old(memory[from + k]) by {
          if from + k < to {
            assert memory[..to][from + k] == old(memory[..to])[from + k];
          } else {
            assert memory[to + k..][from - to] == old(memory[to + k..])[from - to];
          }
        }
        memory[to + k] := memory[from + k];
      }
    }

    /** Deallocates every chunk but the user's buffer, which is empty afterwards. */
    method Clear()
      requires Valid()
      modifies this`chunks, this`blocks
      ensures Valid() && blocks == []
      ensures userBuffer.None? ==> chunks == []
      ensures userBuffer.Some? ==> chunks == [old(chunks)[|old(chunks)| - 1].(size := 0)]
    {
      hide Disjoint, AllHoused, Laid;
      ghost var cs := chunks;
      LaidBases(cs, memory.Length);
      while chunks != [] && Some(chunks[0].base) != userBuffer
        invariant Suffix(chunks, cs)
        invariant userBuffer.Some? ==> chunks != []
        decreases |chunks|
      {
        chunks := chunks[1..];
      }
      blocks := [];
      if chunks != [] {
        LastOnly(chunks, cs);
        chunks := [chunks[0].(size := 0)] + chunks[1..];
      }
      CleanSlate(cs, chunks, memory.Length);
    }

    method Capacity() returns (n: nat)
      requires Valid()
      ensures n == SumCapacity(chunks)
    {
      n := 0;
      for i := 0 to |chunks|
        invariant n == SumCapacity(chunks[..i])
      {
        n := n + chunks[i].capacity;
        assert chunks[..i + 1][..i] == chunks[..i];
      }
      assert chunks[..|chunks|] == chunks;
    }

    /** Never more than the capacity. */
    method Size() returns (n: nat)
      requires Valid()
      ensures n == SumSize(chunks) <= SumCapacity(chunks)
    {
      n := 0;
      for i := 0 to |chunks|
        invariant n == SumSize(chunks[..i])
      {
        n := n + chunks[i].size;
        assert chunks[..i + 1][..i] == chunks[..i];
      }
      assert chunks[..|chunks|] == chunks;
      SizeWithinCapacity(chunks);
    }
  }

  lemma AlignBounds(n: nat)
    ensures n <= Align(n) < n + 8 && Align(n) % 8 == 0
  {
  }

  lemma {:induction false} NewBlock(bs: seq<Block>, b: Block, cs: seq<Chunk>)
    requires Disjoint(bs) && AllHoused(bs, cs) && (forall a :: a in bs ==> Apart(a, b))
    requires cs != [] && Within(b, cs[0])
    ensures Disjoint(bs + [b]) && AllHoused(bs + [b], cs)
  {
    assert cs[0] in cs;
    forall a | a in bs + [b] ensures Housed(a, cs) {
      assert a in bs || a == b;
    }
  }

  lemma AlignTwice(n: nat)
    ensures Align(Align(n)) == Align(n) && (n > 0 ==> Align(n) > 0)
  {
  }

  lemma {:induction false} BlockFits(bs: seq<Block>, cs: seq<Chunk>, memory: nat)
    requires Laid(cs, memory) && AllHoused(bs, cs)
    ensures forall b :: b in bs ==> b.len > 0 && b.addr + b.len <= memory
  {
    forall b | b in bs ensures b.len > 0 && b.addr + b.len <= memory {
      assert Housed(b, cs);
    }
  }

  lemma {:induction false} SomeChunk(bs: seq<Block>, cs: seq<Chunk>, i: nat)
    requires AllHoused(bs, cs) && i < |bs|
    ensures cs != []
  {
    assert Housed(bs[i], cs);
  }

  ghost predicate Suffix(s: seq<Chunk>, t: seq<Chunk>) {
    |s| <= |t| && s == t[|t| - |s|..]
  }

  ghost predicate DistinctBases(cs: seq<Chunk>) {
    forall i, j :: 0 <= i < j < |cs| ==> cs[i].base != cs[j].base
  }

  lemma LaidBases(cs: seq<Chunk>, memory: nat)
    requires Laid(cs, memory)
    ensures DistinctBases(cs)
  {
  }

  /** A suffix that begins with the base of the last chunk is that chunk. */
  lemma LastOnly(s: seq<Chunk>, t: seq<Chunk>)
    requires s != [] && Suffix(s, t) && DistinctBases(t) && s[0].base == t[|t| - 1].base
    ensures s == [t[|t| - 1]]
  {
    assert s[0] == t[|t| - |s|];
  }

  lemma CleanSlate(cs: seq<Chunk>, ds: seq<Chunk>, memory: nat)
    requires Laid(cs, memory) && (ds == [] || (cs != [] && ds == [cs[|cs| - 1].(size := 0)]))
    ensures Laid(ds, memory) && Disjoint([]) && AllHoused([], ds)
  {
  }

  lemma SameUntouched(m: seq<bv8>, bs: seq<Block>)
    requires forall b :: b in bs ==> b.addr + b.len <= |m|
    ensures Untouched(m, m, bs)
  {
  }

  lemma {:induction false} HousedAbove(bs: seq<Block>, cs: seq<Chunk>, memory: nat, i: nat)
    requires Laid(cs, memory) && AllHoused(bs, cs) && i < |bs|
    ensures bs[i].addr > 0
  {
    assert Housed(bs[i], cs);
  }

  lemma Newest(bs: seq<Block>, b: Block)
    requires Disjoint(bs + [b])
    ensures forall a :: a in bs ==> Apart(a, b)
  {
    forall a | a in bs ensures Apart(a, b) {
      var i :| 0 <= i < |bs| && bs[i] == a;
      assert (bs + [b])[i] == a && (bs + [b])[|bs|] == b;
    }
  }

  /** A block that ends where the head chunk's used part ends is the whole last block. */
  lemma {:induction false} LastBlock(bs: seq<Block>, cs: seq<Chunk>, memory: nat, i: nat, len: nat)
    requires cs != [] && Laid(cs, memory) && AllHoused(bs, cs)
    requires i < |bs| && len <= bs[i].len && bs[i].addr + len == Data(cs[0]) + cs[0].size
    ensures len == bs[i].len && Within(bs[i], cs[0])
  {
    assert Housed(bs[i], cs);
    var j :| 0 <= j < |cs| && Within(bs[i], cs[j]);
  }

  lemma {:induction false} Extended(bs: seq<Block>, cs: seq<Chunk>, memory: nat, i: nat, extra: nat)
    requires cs != [] && Laid(cs, memory) && AllHoused(bs, cs) && Disjoint(bs)
    requires i < |bs| && Within(bs[i], cs[0]) && bs[i].addr + bs[i].len == Data(cs[0]) + cs[0].size
    requires cs[0].size + extra <= cs[0].capacity
    ensures var bs' := bs[i := Block(bs[i].addr, bs[i].len + extra)];
      Laid(Grown(cs, extra), memory) && AllHoused(bs', Grown(cs, extra)) && Disjoint(bs')
  {
    hide Laid, Housed;
    var bs' := bs[i := Block(bs[i].addr, bs[i].len + extra)];
    GrownHouses(bs, cs, extra, memory);
    UnusedIsFree(bs, cs, memory, Block(bs[i].addr + bs[i].len, extra));
    assert Housed(bs'[i], Grown(cs, extra)) by { HeadHouses(bs'[i], Grown(cs, extra)); }
    forall b | b in bs' ensures Housed(b, Grown(cs, extra)) {
      assert b in bs || b == bs'[i];
    }
    BlockFits(bs, cs, memory);
    forall j | 0 <= j < |bs| && j != i ensures Apart(bs[j], bs'[i]) && Apart(bs'[i], bs[j]) {
      assert bs[j] in bs && bs[j].len > 0;
      assert if j < i then Apart(bs[j], bs[i]) else Apart(bs[i], bs[j]);
    }
  }

  lemma HeadHouses(b: Block, cs: seq<Chunk>)
    requires cs != [] && Within(b, cs[0])
    ensures Housed(b, cs)
  {
    assert cs[0] in cs;
  }
}
