/**
 The Hadoop LZ4 framing of a Parquet page (TryDecompressLZ4Hadoop in
 src/duckdb/extension/parquet/column_reader.cpp): blocks with a big-endian uncompressed size, each made of
 chunks with a big-endian compressed size.

 The raw LZ4 block decoder is a parameter: given a chunk and the room left it fails or gives bytes that fit.
*/
module Lz4Hadoop {
  import opened Wrappers

  type Byte = x: nat | x < 256

  type Decoder = (seq<Byte>, nat) -> Option<seq<Byte>>

  /** All that is known of the raw decoder: it never writes past the room it was given. */
  ghost predicate StaysInRoom(raw: Decoder) {
    forall chunk, room :: raw(chunk, room).Some? ==> |raw(chunk, room).value| <= room
  }

  // ---------------------------------------------------------------- numbers

  const WORD: nat := 4
  const TWO_TO_32 := 0x1_0000_0000
  const INT32_MAX := 0x7FFF_FFFF

  /** The big-endian 32-bit number at a position. */
  function Load(src: seq<Byte>, at: nat): (n: nat)
    requires at + WORD <= |src|
    ensures n < TWO_TO_32
  {
    var b0: nat, b1: nat, b2: nat, b3: nat := src[at], src[at + 1], src[at + 2], src[at + 3];
    b0 * 0x100_0000 + b1 * 0x1_0000 + b2 * 0x100 + b3
  }

  function Store(n: nat): (bytes: seq<Byte>)
    requires n < TWO_TO_32
    ensures |bytes| == WORD
  {
    [n / 0x100_0000, n / 0x1_0000 % 256, n / 0x100 % 256, n % 256]
  }

  /** Dropping the last byte of a number. */
  lemma LastByte(q: nat, b: nat)
    requires b < 256
    ensures (q * 256 + b) / 256 == q && (q * 256 + b) % 256 == b
  {
  }

  lemma BytesOf(b0: nat, b1: nat, b2: nat, b3: nat, n: nat)
    requires b1 < 256 && b2 < 256 && b3 < 256 && n == b0 * 0x100_0000 + b1 * 0x1_0000 + b2 * 0x100 + b3
    ensures n / 0x100_0000 == b0 && n / 0x1_0000 % 256 == b1 && n / 0x100 % 256 == b2 && n % 256 == b3
  {
    var q2 := b0 * 256 + b1;
    var q1 := q2 * 256 + b2;
    assert n == q1 * 256 + b3;
    LastByte(q1, b3);
    LastByte(q2, b2);
    LastByte(b0, b1);
    assert n / 0x100 == q1 && n / 0x1_0000 == q1 / 256 && n / 0x100_0000 == q2 / 256;
  }

  lemma OfBytes(n: nat)
    ensures n == n / 0x100_0000 * 0x100_0000 + n / 0x1_0000 % 256 * 0x1_0000 + n / 0x100 % 256 * 0x100 + n % 256
  {
    var (q1, q2, q3) := (n / 0x100, n / 0x1_0000, n / 0x100_0000);
    assert q2 == q1 / 256 && q3 == q2 / 256;
    assert n == q1 * 256 + n % 256 && q1 == q2 * 256 + q1 % 256 && q2 == q3 * 256 + q2 % 256;
  }

  /** The four bytes of a number, and the number of four bytes. */
  lemma Digits(n: nat, b0: nat, b1: nat, b2: nat, b3: nat)
    requires b0 < 256 && b1 < 256 && b2 < 256 && b3 < 256
    ensures n == b0 * 0x100_0000 + b1 * 0x1_0000 + b2 * 0x100 + b3 <==>
            n / 0x100_0000 == b0 && n / 0x1_0000 % 256 == b1 && n / 0x100 % 256 == b2 && n % 256 == b3
  {
    if n == b0 * 0x100_0000 + b1 * 0x1_0000 + b2 * 0x100 + b3 {
      BytesOf(b0, b1, b2, b3, n);
    } else {
      OfBytes(n);
    }
  }

  /** The bytes at a position are the number stored there, and no other number. */
  lemma LoadStore(src: seq<Byte>, at: nat, n: nat)
    requires at + WORD <= |src| && n < TWO_TO_32
    ensures src[at..at + WORD] == Store(n) <==> Load(src, at) == n
  {
    Digits(n, src[at], src[at + 1], src[at + 2], src[at + 3]);
    assert src[at..at + WORD] == [src[at], src[at + 1], src[at + 2], src[at + 3]];
  }

  // ---------------------------------------------------------------- decoding

  /** Where the chunks that fill `remaining` bytes end, and their content behind what was written before. */
  function DecodeChunks(raw: Decoder, src: seq<Byte>, at: nat, remaining: nat, written: seq<Byte>)
    : (r: Option<(nat, seq<Byte>)>)
    requires StaysInRoom(raw) && at <= |src|
    ensures r.Some? ==> at <= r.value.0 <= |src| && |r.value.1| == |written| + remaining
    decreases |src| - at
  {
    if remaining == 0 then Some((at, written))
    else if |src| - at < WORD then None
    else
      var (size, start) := (Load(src, at), at + WORD);
      if size == 0 || size > |src| - start then None
      else
        var content := raw(src[start..start + size], remaining);
        if content.None? || content.value == [] then None
        else DecodeChunks(raw, src, start + size, remaining - |content.value|, written + content.value)
  }

  /** The content of the blocks behind what was written before, when they fill exactly the room left. */
  function DecodeBlocks(raw: Decoder, src: seq<Byte>, at: nat, room: nat, written: seq<Byte>): (r: Option<seq<Byte>>)
    requires StaysInRoom(raw) && at <= |src|
    ensures r.Some? ==> |r.value| == |written| + room
    decreases |src| - at
  {
    if at == |src| then if room == 0 then Some(written) else None
    else if |src| - at < WORD then None
    else
      var (size, start) := (Load(src, at), at + WORD);
      if size > room then None
      else if size == 0 then if start == |src| && room == 0 then Some(written) else None
      else
        var block := DecodeChunks(raw, src, start, size, written);
        if block.None? then None else DecodeBlocks(raw, src, block.value.0, room - size, block.value.1)
  }

  /** What a framing of `size` bytes decodes to. */
  function Decode(raw: Decoder, src: seq<Byte>, size: nat): Option<seq<Byte>>
    requires StaysInRoom(raw)
  {
    DecodeBlocks(raw, src, 0, size, [])
  }

  // ---------------------------------------------------------------- the method

  /** Whether the source is a framing of exactly as many bytes as the destination holds; if so, it holds them. */
  method TryDecompressLz4Hadoop(raw: Decoder, src: seq<Byte>, dst: array<Byte>) returns (ok: bool)
    requires StaysInRoom(raw) && |src| <= INT32_MAX && dst.Length <= INT32_MAX
    modifies dst
    ensures ok <==> Decode(raw, src, dst.Length).Some?
    ensures ok ==> dst[..] == Decode(raw, src, dst.Length).value
  {
    var at, dstAt := 0, 0;
    assert dst[..0] == [];
    while at < |src|
      invariant 0 <= at <= |src| && 0 <= dstAt <= dst.Length
      invariant Decode(raw, src, dst.Length) == DecodeBlocks(raw, src, at, dst.Length - dstAt, dst[..dstAt])
      decreases |src| - at
    {
      var verdict: Option<bool>;
      verdict, at, dstAt := DecompressBlock(raw, src, dst, at, dstAt);
      if verdict.Some? {
        return verdict.value;
      }
    }
    ok := DestinationFilled(dst, dstAt);
  }

  method DestinationFilled(dst: array<Byte>, dstAt: nat) returns (ok: bool)
    requires dstAt <= dst.Length
    ensures ok <==> dstAt == dst.Length
    ensures ok ==> dst[..dstAt] == dst[..]
  {
    return dstAt == dst.Length;
  }

  /** One block; there is a verdict if it ends the decoding. */
  method DecompressBlock(raw: Decoder, src: seq<Byte>, dst: array<Byte>, at: nat, dstAt: nat)
    returns (verdict: Option<bool>, atNext: nat, dstNext: nat)
    requires StaysInRoom(raw) && at < |src| && dstAt <= dst.Length
    modifies dst
    ensures verdict == Some(false) ==> DecodeBlocks(raw, src, at, dst.Length - dstAt, old(dst[..dstAt])).None?
    ensures verdict == Some(true) ==>
              DecodeBlocks(raw, src, at, dst.Length - dstAt, old(dst[..dstAt])) == Some(dst[..])
    ensures verdict == None ==>
              && at < atNext <= |src| && dstAt <= dstNext <= dst.Length
              && DecodeBlocks(raw, src, at, dst.Length - dstAt, old(dst[..dstAt])) ==
                 DecodeBlocks(raw, src, atNext, dst.Length - dstNext, dst[..dstNext])
  {
    atNext, dstNext := at, dstAt;
    if |src| - at < WORD {
      return Some(false), at, dstAt;
    }
    var blockSize := Load(src, at);
    var start := at + WORD;
    if blockSize > dst.Length - dstAt {
      return Some(false), at, dstAt;
    }
    if blockSize == 0 {
      var filled := DestinationFilled(dst, dstAt);
      return Some(start == |src| && filled), at, dstAt;
    }
    var done: bool;
    done, atNext := DecompressChunks(raw, src, dst, start, dstAt, blockSize);
    return if done then None else Some(false), atNext, dstAt + blockSize;
  }

  /** The chunks of one block. */
  method DecompressChunks(raw: Decoder, src: seq<Byte>, dst: array<Byte>, at: nat, dstAt: nat, blockSize: nat)
    returns (ok: bool, end: nat)
    requires StaysInRoom(raw) && at <= |src| && dstAt + blockSize <= dst.Length
    modifies dst
    ensures ok <==> DecodeChunks(raw, src, at, blockSize, old(dst[..dstAt])).Some?
    ensures ok ==> DecodeChunks(raw, src, at, blockSize, old(dst[..dstAt])) == Some((end, dst[..dstAt + blockSize]))
  {
    end := at;
    var dstEnd, remaining: nat := dstAt, blockSize;
    ghost var goal := DecodeChunks(raw, src, at, blockSize, dst[..dstAt]);
    while remaining > 0
      invariant end <= |src| && dstEnd + remaining == dstAt + blockSize
      invariant goal == DecodeChunks(raw, src, end, remaining, dst[..dstEnd])
    {
      var size;
      size, end := DecompressChunk(raw, src, dst, end, dstEnd, remaining);
      if size == 0 {
        return false, end;
      }
      dstEnd := dstEnd + size;
      remaining := remaining - size;
    }
    return true, end;
  }

  /** One chunk: how many bytes it gives; none if it cannot be decoded. */
  method DecompressChunk(raw: Decoder, src: seq<Byte>, dst: array<Byte>, at: nat, dstAt: nat, remaining: nat)
    returns (size: nat, end: nat)
    requires StaysInRoom(raw) && at <= |src| && 0 < remaining && dstAt + remaining <= dst.Length
    modifies dst
    ensures size == 0 ==> DecodeChunks(raw, src, at, remaining, old(dst[..dstAt])).None?
    ensures size > 0 ==>
              && size <= remaining && at < end <= |src|
              && DecodeChunks(raw, src, at, remaining, old(dst[..dstAt])) ==
                 DecodeChunks(raw, src, end, remaining - size, dst[..dstAt + size])
  {
    end := at;
    if |src| - end < WORD {
      return 0, end;
    }
    var compressedSize := Load(src, end);
    end := end + WORD;
    if compressedSize == 0 || compressedSize > |src| - end {
      return 0, end;
    }
    var content := raw(src[end..end + compressedSize], remaining);
    if content.None? || content.value == [] {
      return 0, end;
    }
    Copy(content.value, dst, dstAt);
    return |content.value|, end + compressedSize;
  }

  method Copy(bytes: seq<Byte>, dst: array<Byte>, at: nat)
    requires at + |bytes| <= dst.Length
    modifies dst
    ensures dst[..at + |bytes|] == old(dst[..at]) + bytes
  {
    for i := 0 to |bytes|
      invariant forall k :: 0 <= k < i ==> dst[at + k] == bytes[k]
      invariant forall k :: 0 <= k < dst.Length && !(at <= k < at + i) ==> dst[k] == old(dst[k])
    {
      dst[at + i] := bytes[i];
    }
  }

  // ---------------------------------------------------------------- framings

  datatype List<T> = Nil | Cons(head: T, tail: List<T>)

  datatype Chunk = Chunk(compressed: seq<Byte>, content: seq<Byte>)

  type Block = List<Chunk>

  /** The content of chunks, behind what came before them. */
  function ChunksContent(before: seq<Byte>, chunks: Block): (content: seq<Byte>)
    ensures |content| == |before| + BlockSize(chunks)
    decreases chunks
  {
    if chunks.Nil? then before else ChunksContent(before + chunks.head.content, chunks.tail)
  }

  function BlockSize(chunks: Block): nat {
    if chunks.Nil? then 0 else |chunks.head.content| + BlockSize(chunks.tail)
  }

  /** The content of blocks, behind what came before them. */
  function BlocksContent(before: seq<Byte>, blocks: List<Block>): (content: seq<Byte>)
    ensures |content| == |before| + BlocksSize(blocks)
    decreases blocks
  {
    if blocks.Nil? then before else BlocksContent(ChunksContent(before, blocks.head), blocks.tail)
  }

  function BlocksSize(blocks: List<Block>): nat {
    if blocks.Nil? then 0 else BlockSize(blocks.head) + BlocksSize(blocks.tail)
  }

  /** Chunks that decode, one after the other, to exactly `remaining` bytes. */
  predicate GoodChunks(raw: Decoder, chunks: Block, remaining: nat) {
    if chunks.Nil? then remaining == 0
    else
      && 0 < |chunks.head.compressed| < TWO_TO_32
      && 0 < |chunks.head.content| <= remaining
      && raw(chunks.head.compressed, remaining) == Some(chunks.head.content)
      && GoodChunks(raw, chunks.tail, remaining - |chunks.head.content|)
  }

  predicate GoodBlocks(raw: Decoder, blocks: List<Block>) {
    blocks.Nil? ||
    (0 < BlockSize(blocks.head) < TWO_TO_32
     && GoodChunks(raw, blocks.head, BlockSize(blocks.head))
     && GoodBlocks(raw, blocks.tail))
  }

  /** Where the chunks that start at a position end, each behind its compressed size. */
  function ChunksEnd(at: nat, chunks: Block): (end: nat)
    ensures at <= end
    decreases chunks
  {
    if chunks.Nil? then at else ChunksEnd(at + WORD + |chunks.head.compressed|, chunks.tail)
  }

  /** The chunks, each behind its compressed size, lie in the source at a position. */
  predicate ChunksAt(src: seq<Byte>, at: nat, chunks: Block)
    decreases chunks
  {
    chunks.Cons? ==>
      && ChunkAt(src, at, chunks.head.compressed)
      && ChunksAt(src, at + WORD + |chunks.head.compressed|, chunks.tail)
  }

  predicate ChunkAt(src: seq<Byte>, at: nat, compressed: seq<Byte>) {
    && at + WORD + |compressed| <= |src|
    && Load(src, at) == |compressed|
    && src[at + WORD..at + WORD + |compressed|] == compressed
  }

  /** The blocks, each behind its size, lie in the source from a position to its end, or to a last size of zero. */
  predicate BlocksAt(src: seq<Byte>, at: nat, blocks: List<Block>, terminated: bool)
    decreases blocks
  {
    if blocks.Nil? then
      if terminated then at + WORD == |src| && Load(src, at) == 0 else at == |src|
    else
      && ChunksEnd(at + WORD, blocks.head) <= |src|
      && Load(src, at) == BlockSize(blocks.head)
      && ChunksAt(src, at + WORD, blocks.head)
      && BlocksAt(src, ChunksEnd(at + WORD, blocks.head), blocks.tail, terminated)
  }

  /** The source is a framing of the content. */
  ghost predicate IsFraming(raw: Decoder, src: seq<Byte>, content: seq<Byte>) {
    exists blocks, terminated ::
      GoodBlocks(raw, blocks) && BlocksAt(src, 0, blocks, terminated) && content == BlocksContent([], blocks)
  }

  /** A chunk that lies in the source and decodes within the bytes that remain. */
  predicate FitsAt(raw: Decoder, src: seq<Byte>, at: nat, remaining: nat, chunk: Chunk) {
    && ChunkAt(src, at, chunk.compressed)
    && 0 < |chunk.compressed| < TWO_TO_32 && 0 < |chunk.content| <= remaining
    && raw(chunk.compressed, remaining) == Some(chunk.content)
  }

  /** Decoding takes the chunk that is there. */
  lemma TakesChunk(raw: Decoder, src: seq<Byte>, at: nat, remaining: nat, written: seq<Byte>, chunk: Chunk)
    requires StaysInRoom(raw) && FitsAt(raw, src, at, remaining, chunk)
    ensures DecodeChunks(raw, src, at, remaining, written) ==
            DecodeChunks(raw, src, at + WORD + |chunk.compressed|, remaining - |chunk.content|, written + chunk.content)
  {
  }

  /** A chunk in front of good chunks. */
  lemma PutInFront(raw: Decoder, src: seq<Byte>, at: nat, remaining: nat, written: seq<Byte>, c: Chunk, rest: Block)
    requires FitsAt(raw, src, at, remaining, c)
    requires GoodChunks(raw, rest, remaining - |c.content|) && ChunksAt(src, at + WORD + |c.compressed|, rest)
    ensures GoodChunks(raw, Cons(c, rest), remaining) && ChunksAt(src, at, Cons(c, rest))
    ensures var end := at + WORD + |c.compressed|;
            && ChunksEnd(at, Cons(c, rest)) == ChunksEnd(end, rest)
            && ChunksContent(written, Cons(c, rest)) == ChunksContent(written + c.content, rest)
            && BlockSize(Cons(c, rest)) == |c.content| + BlockSize(rest)
  {
  }

  lemma {:induction false} GoodChunksDecode(raw: Decoder, src: seq<Byte>, at: nat, chunks: Block, remaining: nat,
                                            written: seq<Byte>)
    requires StaysInRoom(raw) && ChunksEnd(at, chunks) <= |src|
    requires GoodChunks(raw, chunks, remaining) && ChunksAt(src, at, chunks)
    ensures DecodeChunks(raw, src, at, remaining, written) ==
            Some((ChunksEnd(at, chunks), ChunksContent(written, chunks)))
    decreases chunks
  {
    if chunks.Cons? {
      var c := chunks.head;
      TakesChunk(raw, src, at, remaining, written, c);
      GoodChunksDecode(raw, src, at + WORD + |c.compressed|, chunks.tail, remaining - |c.content|, written + c.content);
    }
  }

  lemma {:induction false} GoodBlocksDecode(raw: Decoder, src: seq<Byte>, at: nat, blocks: List<Block>,
                                            terminated: bool, written: seq<Byte>)
    requires StaysInRoom(raw) && at <= |src| && GoodBlocks(raw, blocks) && BlocksAt(src, at, blocks, terminated)
    ensures DecodeBlocks(raw, src, at, BlocksSize(blocks), written) == Some(BlocksContent(written, blocks))
    decreases blocks
  {
    if blocks.Cons? {
      var block := blocks.head;
      GoodChunksDecode(raw, src, at + WORD, block, BlockSize(block), written);
      var end, more := ChunksEnd(at + WORD, block), ChunksContent(written, block);
      assert DecodeBlocks(raw, src, at, BlocksSize(blocks), written) ==
             DecodeBlocks(raw, src, end, BlocksSize(blocks.tail), more);
      GoodBlocksDecode(raw, src, end, blocks.tail, terminated, more);
    }
  }

  /** What is decoded begins with a chunk. */
  lemma FirstChunk(raw: Decoder, src: seq<Byte>, at: nat, remaining: nat, written: seq<Byte>) returns (chunk: Chunk)
    requires StaysInRoom(raw) && at <= |src| && remaining > 0 && DecodeChunks(raw, src, at, remaining, written).Some?
    ensures FitsAt(raw, src, at, remaining, chunk)
  {
    var size, start := Load(src, at), at + WORD;
    var compressed := src[start..start + size];
    chunk := Chunk(compressed, raw(compressed, remaining).value);
  }

  lemma {:induction false} DecodedChunksAreGood(raw: Decoder, src: seq<Byte>, at: nat, remaining: nat,
                                                written: seq<Byte>)
    returns (chunks: Block)
    requires StaysInRoom(raw) && at <= |src| && DecodeChunks(raw, src, at, remaining, written).Some?
    ensures GoodChunks(raw, chunks, remaining) && BlockSize(chunks) == remaining && ChunksAt(src, at, chunks)
    ensures DecodeChunks(raw, src, at, remaining, written) ==
            Some((ChunksEnd(at, chunks), ChunksContent(written, chunks)))
    decreases |src| - at
  {
    if remaining == 0 {
      chunks := Nil;
    } else {
      var c := FirstChunk(raw, src, at, remaining, written);
      TakesChunk(raw, src, at, remaining, written, c);
      var end := at + WORD + |c.compressed|;
      var rest := DecodedChunksAreGood(raw, src, end, remaining - |c.content|, written + c.content);
      PutInFront(raw, src, at, remaining, written, c, rest);
      chunks := Cons(c, rest);
    }
  }

  lemma {:induction false} DecodedBlocksAreGood(raw: Decoder, src: seq<Byte>, at: nat, room: nat, written: seq<Byte>)
    returns (blocks: List<Block>, terminated: bool)
    requires StaysInRoom(raw) && at <= |src| && DecodeBlocks(raw, src, at, room, written).Some?
    ensures GoodBlocks(raw, blocks) && BlocksAt(src, at, blocks, terminated)
    ensures DecodeBlocks(raw, src, at, room, written) == Some(BlocksContent(written, blocks))
    decreases |src| - at
  {
    if at == |src| || Load(src, at) == 0 {
      blocks, terminated := Nil, at < |src|;
    } else {
      var size := Load(src, at);
      var block := DecodedChunksAreGood(raw, src, at + WORD, size, written);
      var end, more := ChunksEnd(at + WORD, block), ChunksContent(written, block);
      assert DecodeBlocks(raw, src, at, room, written) == DecodeBlocks(raw, src, end, room - size, more);
      var rest;
      rest, terminated := DecodedBlocksAreGood(raw, src, end, room - size, more);
      blocks := Cons(block, rest);
    }
  }

  /** The decoder accepts exactly the framings of as many bytes as it was told, and gives their content. */
  lemma DecodesExactlyFramings(raw: Decoder, src: seq<Byte>, size: nat, content: seq<Byte>)
    requires StaysInRoom(raw)
    ensures Decode(raw, src, size) == Some(content) <==> |content| == size && IsFraming(raw, src, content)
  {
    if Decode(raw, src, size) == Some(content) {
      var blocks, terminated := DecodedBlocksAreGood(raw, src, 0, size, []);
    }
    if |content| == size && IsFraming(raw, src, content) {
      var blocks, terminated :|
        GoodBlocks(raw, blocks) && BlocksAt(src, 0, blocks, terminated) && content == BlocksContent([], blocks);
      GoodBlocksDecode(raw, src, 0, blocks, terminated, []);
    }
  }

  // ---------------------------------------------------------------- round trip

  predicate SmallChunks(chunks: Block) {
    chunks.Cons? ==> |chunks.head.compressed| < TWO_TO_32 && SmallChunks(chunks.tail)
  }

  predicate SmallBlocks(blocks: List<Block>) {
    blocks.Cons? ==> BlockSize(blocks.head) < TWO_TO_32 && SmallChunks(blocks.head) && SmallBlocks(blocks.tail)
  }

  /** Writes chunks behind what came before them. */
  function FrameChunks(before: seq<Byte>, chunks: Block): (bytes: seq<Byte>)
    requires SmallChunks(chunks)
    ensures before <= bytes
    decreases chunks
  {
    if chunks.Nil? then before
    else FrameChunks(before + Store(|chunks.head.compressed|) + chunks.head.compressed, chunks.tail)
  }

  /** Writes blocks behind what came before them, and a size of zero behind the last if so asked. */
  function Frame(before: seq<Byte>, blocks: List<Block>, terminated: bool): (bytes: seq<Byte>)
    requires SmallBlocks(blocks)
    ensures before <= bytes
    decreases blocks
  {
    if blocks.Nil? then if terminated then before + Store(0) else before
    else Frame(FrameChunks(before + Store(BlockSize(blocks.head)), blocks.head), blocks.tail, terminated)
  }

  /** What was written at the end of a prefix of the source is found there. */
  lemma StoredAt(src: seq<Byte>, before: seq<Byte>, n: nat)
    requires n < TWO_TO_32 && before + Store(n) <= src
    ensures Load(src, |before|) == n
  {
    assert src[|before|..|before| + WORD] == (before + Store(n))[|before|..];
    LoadStore(src, |before|, n);
  }

  lemma {:induction false} FramedChunksAt(src: seq<Byte>, before: seq<Byte>, chunks: Block)
    requires SmallChunks(chunks) && FrameChunks(before, chunks) <= src
    ensures ChunksEnd(|before|, chunks) == |FrameChunks(before, chunks)|
    ensures ChunksAt(src, |before|, chunks)
    decreases chunks
  {
    if chunks.Cons? {
      var c := chunks.head.compressed;
      var sized := before + Store(|c|);
      var next := sized + c;
      FramedChunksAt(src, next, chunks.tail);
      assert next <= src && sized <= next;
      StoredAt(src, before, |c|);
      assert src[|sized|..|next|] == next[|sized|..];
    }
  }

  lemma {:induction false} FramedBlocksAt(src: seq<Byte>, before: seq<Byte>, blocks: List<Block>, terminated: bool)
    requires SmallBlocks(blocks) && src == Frame(before, blocks, terminated)
    ensures BlocksAt(src, |before|, blocks, terminated)
    decreases blocks
  {
    if blocks.Nil? {
      if terminated {
        StoredAt(src, before, 0);
      }
    } else {
      var sized := before + Store(BlockSize(blocks.head));
      var next := FrameChunks(sized, blocks.head);
      FramedBlocksAt(src, next, blocks.tail, terminated);
      assert sized <= next <= src;
      StoredAt(src, before, BlockSize(blocks.head));
      FramedChunksAt(src, sized, blocks.head);
    }
  }

  lemma {:induction false} GoodChunksAreSmall(raw: Decoder, chunks: Block, remaining: nat)
    requires GoodChunks(raw, chunks, remaining)
    ensures SmallChunks(chunks)
  {
    if chunks.Cons? {
      GoodChunksAreSmall(raw, chunks.tail, remaining - |chunks.head.content|);
    }
  }

  lemma {:induction false} GoodBlocksAreSmall(raw: Decoder, blocks: List<Block>)
    requires GoodBlocks(raw, blocks)
    ensures SmallBlocks(blocks)
  {
    if blocks.Cons? {
      GoodChunksAreSmall(raw, blocks.head, BlockSize(blocks.head));
      GoodBlocksAreSmall(raw, blocks.tail);
    }
  }

  /** Whatever way bytes are cut into blocks and chunks, their framing decodes to them. */
  lemma RoundTrip(raw: Decoder, blocks: List<Block>, terminated: bool)
    requires StaysInRoom(raw) && GoodBlocks(raw, blocks)
    ensures SmallBlocks(blocks)
    ensures Decode(raw, Frame([], blocks, terminated), BlocksSize(blocks)) == Some(BlocksContent([], blocks))
  {
    GoodBlocksAreSmall(raw, blocks);
    var src := Frame([], blocks, terminated);
    FramedBlocksAt(src, [], blocks, terminated);
    GoodBlocksDecode(raw, src, 0, blocks, terminated, []);
  }

  // ---------------------------------------------------------------- the codec

  /** What a page under the legacy LZ4 codec decodes to: a framing if it is one, a raw LZ4 block otherwise. */
  function DecodePage(raw: Decoder, src: seq<Byte>, size: nat): Option<seq<Byte>>
    requires StaysInRoom(raw)
  {
    if Decode(raw, src, size).Some? then Decode(raw, src, size)
    else if raw(src, size).Some? && |raw(src, size).value| == size then raw(src, size)
    else None
  }

  /** Fails rather than leave a destination that is not filled. */
  method DecompressLz4(raw: Decoder, src: seq<Byte>, dst: array<Byte>) returns (ok: bool)
    requires StaysInRoom(raw) && |src| <= INT32_MAX && dst.Length <= INT32_MAX
    modifies dst
    ensures ok <==> DecodePage(raw, src, dst.Length).Some?
    ensures ok ==> dst[..] == DecodePage(raw, src, dst.Length).value
  {
    ok := TryDecompressLz4Hadoop(raw, src, dst);
    if ok {
      return;
    }
    var content := raw(src, dst.Length);
    ok := content.Some? && |content.value| == dst.Length;
    if ok {
      Copy(content.value, dst, 0);
      assert dst[..dst.Length] == content.value;
    }
  }
}
