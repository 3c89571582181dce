/** Reading WIM resources through the one-chunk cache (src/wim.c, src/wim.h). */
module Wim {
  import opened Bytes
  import opened Memory
  import Inflate
  import Lz
  import LzxBits
  import LzxDecoder

  const CHUNK_LEN := 32768
  const ZLEN_RANGE := 0x100_0000_0000_0000

  /** The bytes of a file; reads past its length see whatever lies there. */
  type Image = Source

  /** A resource header; `zlen` is the low 56 bits of zlen__flags, `flags` the top byte. */
  datatype Resource = Resource(flags: byte, zlen: nat, offset: nat, len: nat)

  /** WIM_RESHDR_COMPRESSED or WIM_RESHDR_PACKED_STREAMS */
  predicate Compressed(res: Resource) {
    res.flags / 4 % 2 == 1 || res.flags / 16 % 2 == 1
  }

  predicate IsMetadata(res: Resource) {
    res.flags / 2 % 2 == 1
  }

  type Codec = Inflate.Codec

  function CodecOf(flags: nat): Codec {
    if flags / 0x40000 % 2 == 1 then Inflate.Lzx else if flags / 0x20000 % 2 == 1 then Inflate.Xca else Inflate.Unknown
  }

  /** Of the header flags, bit 18 chooses LZX and otherwise bit 17 chooses XCA, whatever the other bits are. */
  lemma CodecBits(high: nat, lzx: nat, xpress: nat, low: nat)
    requires lzx < 2 && xpress < 2 && low < 131072
    ensures CodecOf(524288 * high + 262144 * lzx + 131072 * xpress + low) ==
            if lzx == 1 then Inflate.Lzx else if xpress == 1 then Inflate.Xca else Inflate.Unknown
  {
    var flags := 524288 * high + 262144 * lzx + 131072 * xpress + low;
    BitAt18(flags, 2 * high + lzx, 131072 * xpress + low);
    BitAt17(flags, 4 * high + 2 * lzx + xpress, low);
    Parity(high, lzx);
    Parity(2 * high + lzx, xpress);
  }

  lemma BitAt18(n: nat, q: nat, r: nat)
    requires n == 262144 * q + r && r < 262144
    ensures n / 0x40000 == q
  {
  }

  lemma BitAt17(n: nat, q: nat, r: nat)
    requires n == 131072 * q + r && r < 131072
    ensures n / 0x20000 == q
  {
  }

  lemma Parity(k: nat, b: nat)
    requires b < 2
    ensures (2 * k + b) % 2 == b
  {
  }

  /** Of the flags of a resource, bits 2 and 4 mean that it is in chunks and bit 1 that it is metadata. */
  lemma ResourceBits(res: Resource, b0: nat, b1: nat, b2: nat, b3: nat, b4: nat, high: nat)
    requires b0 < 2 && b1 < 2 && b2 < 2 && b3 < 2 && b4 < 2
    requires res.flags == b0 + 2 * b1 + 4 * b2 + 8 * b3 + 16 * b4 + 32 * high
    ensures Compressed(res) <==> b2 == 1 || b4 == 1
    ensures IsMetadata(res) <==> b1 == 1
  {
    assert res.flags / 2 == b1 + 2 * b2 + 4 * b3 + 8 * b4 + 16 * high;
    assert res.flags / 4 == b2 + 2 * b3 + 4 * b4 + 8 * high;
    assert res.flags / 16 == b4 + 2 * high;
  }

  /** A decompressor gives the decompressed bytes or fails. */
  type Decompressor = (Codec, seq<byte>) -> Option<seq<byte>>

  /** The decompressors of the program. */
  ghost const INFLATE: Decompressor := (codec: Codec, z: seq<byte>) => Inflate.Inflated(codec, z)

  // ---------------------------------------------------------------- what a resource contains

  function Chunks(res: Resource): nat {
    (res.len + CHUNK_LEN - 1) / CHUNK_LEN
  }

  function OffsetLen(res: Resource): nat {
    if res.len > 0xffff_ffff then 8 else 4
  }

  function TableLen(res: Resource): nat
    requires res.len > 0
  {
    if res.len > 0xffff_ffff then 8 * (Chunks(res) - 1) else 4 * (Chunks(res) - 1)
  }

  /** wim_chunk_offset */
  function ChunkOffset(img: Image, res: Resource, k: nat): Option<nat> {
    if res.len == 0 then Some(0)
    else if TableLen(res) > res.zlen then None
    else if k == 0 then Some(TableLen(res))
    else if k >= Chunks(res) then Some(res.zlen)
    else
      var at := res.offset + (if res.len > 0xffff_ffff then 8 * (k - 1) else 4 * (k - 1));
      var offset := TableLen(res) + FromLE(Slice(img, at, OffsetLen(res)));
      if offset > res.zlen then None else Some(offset)
  }

  /** Uncompressed length of chunk `k`. */
  function ChunkLen(res: Resource, k: nat): nat {
    if k + 1 < Chunks(res) || res.len % CHUNK_LEN == 0 then CHUNK_LEN else res.len % CHUNK_LEN
  }

  /** The uncompressed bytes of chunk `k`: stored raw when it did not compress. */
  function ChunkData(dec: Decompressor, img: Image, codec: Codec, res: Resource, k: nat): (r: Option<seq<byte>>)
    ensures r.Some? ==> |r.value| == ChunkLen(res, k)
  {
    var from, to := ChunkOffset(img, res, k), ChunkOffset(img, res, k + 1);
    if from.None? || to.None? || to.value < from.value then None
    else
      var stored := Slice(img, res.offset + from.value, to.value - from.value);
      if |stored| == ChunkLen(res, k) then Some(stored)
      else if codec.Unknown? then None
      else
        var out := dec(codec, stored);
        if out.Some? && |out.value| == ChunkLen(res, k) then out else None
  }

  /** The stored bytes of chunk `k` where they go through a decompressor. */
  function Compact(img: Image, codec: Codec, res: Resource, k: nat): Option<seq<byte>> {
    var from, to := ChunkOffset(img, res, k), ChunkOffset(img, res, k + 1);
    if from.None? || to.None? || to.value < from.value || to.value - from.value == ChunkLen(res, k) || codec.Unknown? then None
    else Some(Slice(img, res.offset + from.value, to.value - from.value))
  }

  /** The decompressor keeps to its tables and, where it is run into the buffer, to the buffer. */
  ghost predicate Harmless(img: Image, codec: Codec, res: Resource, k: nat, after: Source) {
    var z := Compact(img, codec, res, k);
    z.Some? ==>
      && Inflate.Defined(codec, z.value)
      && (Inflate.Reported(codec, z.value, after) == ChunkLen(res, k) ==> Inflate.Fits(codec, z.value, after, CHUNK_LEN))
  }

  /** The chunk's stored bytes alone determine whether it is accepted and its contents, inside the buffer. */
  ghost predicate SteadyChunk(img: Image, codec: Codec, res: Resource, k: nat) {
    var z := Compact(img, codec, res, k);
    (z.Some? ==> Inflate.SteadyFor(codec, z.value, ChunkLen(res, k))) && Harmless(img, codec, res, k, Inflate.NOTHING)
  }

  lemma SteadyIsHarmless(img: Image, codec: Codec, res: Resource, k: nat, after: Source)
    requires SteadyChunk(img, codec, res, k)
    ensures Harmless(img, codec, res, k, after)
  {
    hide Inflate.Steady, Inflate.Reported, Inflate.Extent, Inflate.Inflated, ChunkLen, Compact;
    var z := Compact(img, codec, res, k);
    if z.Some? && Inflate.Steady(codec, z.value) { Inflate.SteadyReport(codec, z.value, after); }
  }

  /** How far into the buffer an accepted chunk is written. */
  ghost function Reach(img: Image, codec: Codec, res: Resource, k: nat, after: Source): nat {
    var z := Compact(img, codec, res, k);
    if z.Some? then Inflate.Extent(codec, z.value, after) else ChunkLen(res, k)
  }

  function Min(a: nat, b: nat): nat {
    if a < b then a else b
  }

  /** The bytes [offset, offset + len) of a compressed resource, chunk by chunk. */
  function ReadChunks(dec: Decompressor, img: Image, codec: Codec, res: Resource, offset: nat, len: nat): Option<seq<byte>>
    requires offset + len <= res.len
    decreases len
  {
    if len == 0 then Some([])
    else
      var chunk := ChunkData(dec, img, codec, res, offset / CHUNK_LEN);
      var skip := offset % CHUNK_LEN;
      var n := Min(CHUNK_LEN - skip, len);
      if chunk.None? then None
      else
        var rest := ReadChunks(dec, img, codec, res, offset + n, len - n);
        FragmentInside(res, offset, len);
        if rest.None? then None else Some(chunk.value[skip..skip + n] + rest.value)
  }

  /** A fragment never reaches past its chunk, nor into the stale end of the buffer after the last chunk. */
  lemma FragmentInside(res: Resource, offset: nat, len: nat)
    requires 0 < len && offset + len <= res.len
    ensures var skip := offset % CHUNK_LEN; skip + Min(CHUNK_LEN - skip, len) <= ChunkLen(res, offset / CHUNK_LEN)
    ensures offset / CHUNK_LEN < Chunks(res)
  {
  }

  /** wim_read without a cache. */
  function ReadResource(dec: Decompressor, img: Image, size: nat, codec: Codec, res: Resource, offset: nat, len: nat): Option<seq<byte>> {
    if offset + len > res.len || res.offset + res.zlen > size then None
    else if !Compressed(res) then Some(Slice(img, res.offset + offset, len))
    else ReadChunks(dec, img, codec, res, offset, len)
  }

  /** The whole resource, by concatenating its chunks from `k` on. */
  function ChunksFrom(dec: Decompressor, img: Image, codec: Codec, res: Resource, k: nat): Option<seq<byte>>
    requires k <= Chunks(res)
    decreases Chunks(res) - k
  {
    if k == Chunks(res) then Some([])
    else
      var chunk, rest := ChunkData(dec, img, codec, res, k), ChunksFrom(dec, img, codec, res, k + 1);
      if chunk.None? || rest.None? then None else Some(chunk.value + rest.value)
  }

  function Contents(dec: Decompressor, img: Image, codec: Codec, res: Resource): Option<seq<byte>> {
    if !Compressed(res) then Some(Slice(img, res.offset, res.len)) else ChunksFrom(dec, img, codec, res, 0)
  }

  lemma ChunkSpan(res: Resource, k: nat)
    requires k < Chunks(res)
    ensures (k + 1 < Chunks(res) ==> ChunkLen(res, k) == CHUNK_LEN) && k * CHUNK_LEN < res.len
    ensures k + 1 == Chunks(res) ==> k * CHUNK_LEN + ChunkLen(res, k) == res.len
    ensures (k + 1) * CHUNK_LEN == k * CHUNK_LEN + CHUNK_LEN && ChunkLen(res, k) <= CHUNK_LEN
  {
  }

  lemma {:induction false} ChunksFromLength(dec: Decompressor, img: Image, codec: Codec, res: Resource, k: nat)
    requires k <= Chunks(res) && ChunksFrom(dec, img, codec, res, k).Some?
    ensures k < Chunks(res) ==> |ChunksFrom(dec, img, codec, res, k).value| == res.len - k * CHUNK_LEN
    decreases Chunks(res) - k
  {
    hide ChunkLen, ChunkData;
    if k < Chunks(res) {
      ChunkSpan(res, k);
      ChunksFromLength(dec, img, codec, res, k + 1);
    }
  }

  lemma ChunkPosition(k: nat, skip: nat)
    requires skip < CHUNK_LEN
    ensures (k * CHUNK_LEN + skip) / CHUNK_LEN == k && (k * CHUNK_LEN + skip) % CHUNK_LEN == skip
  {
  }

  lemma SliceAcross(a: seq<byte>, b: seq<byte>, skip: nat, n: nat, len: nat)
    requires skip + n == |a| && n <= len <= n + |b|
    ensures (a + b)[skip..skip + len] == a[skip..skip + n] + b[0..0 + (len - n)]
  {
  }

  lemma SliceInFirst(a: seq<byte>, b: seq<byte>, skip: nat, len: nat)
    requires skip + len <= |a|
    ensures (a + b)[skip..skip + len] == a[skip..skip + len] + []
  {
  }

  /** Reading a range chunk by chunk is cutting the range out of the concatenated chunks. */
  lemma {:induction false} ReadIsSlice(dec: Decompressor, img: Image, codec: Codec, res: Resource, k: nat, skip: nat, len: nat)
    requires k < Chunks(res) && skip < CHUNK_LEN && k * CHUNK_LEN + skip + len <= res.len
    requires ChunksFrom(dec, img, codec, res, k).Some?
    ensures skip + len <= |ChunksFrom(dec, img, codec, res, k).value|
    ensures ReadChunks(dec, img, codec, res, k * CHUNK_LEN + skip, len) == Some(ChunksFrom(dec, img, codec, res, k).value[skip..skip + len])
    decreases len
  {
    hide ChunkLen, ChunkData, Chunks, ReadChunks;
    ChunkSpan(res, k);
    ChunksFromLength(dec, img, codec, res, k);
    if len == 0 {
      ReadNothing(dec, img, codec, res, k * CHUNK_LEN + skip);
      assert ChunksFrom(dec, img, codec, res, k).value[skip..skip] == [];
    } else {
      var offset, n := k * CHUNK_LEN + skip, Min(CHUNK_LEN - skip, len);
      ChunkPosition(k, skip);
      ReadStep(dec, img, codec, res, offset, len);
      var chunk, rest := ChunkData(dec, img, codec, res, k).value, ChunksFrom(dec, img, codec, res, k + 1).value;
      if n < len {
        assert k + 1 < Chunks(res);
        ReadIsSlice(dec, img, codec, res, k + 1, 0, len - n);
        SliceAcross(chunk, rest, skip, n, len);
      } else {
        ReadNothing(dec, img, codec, res, offset + n);
        SliceInFirst(chunk, rest, skip, len);
      }
    }
  }

  /** A successful read of an intact resource returns exactly the requested slice of its contents. */
  lemma ReadReturnsSlice(dec: Decompressor, img: Image, size: nat, codec: Codec, res: Resource, offset: nat, len: nat)
    requires offset + len <= res.len && res.offset + res.zlen <= size && Contents(dec, img, codec, res).Some?
    ensures |Contents(dec, img, codec, res).value| == res.len
    ensures ReadResource(dec, img, size, codec, res, offset, len) == Some(Contents(dec, img, codec, res).value[offset..offset + len])
  {
    hide ReadChunks, ChunksFrom, Chunks, Compressed, Slice;
    if !Compressed(res) {
      SliceOfSlice(img, res.offset, res.len, offset, len);
    } else {
      WholeLength(dec, img, codec, res);
      if len > 0 {
        ReadFromStart(dec, img, codec, res, 0, offset, len);
      } else {
        ReadNothing(dec, img, codec, res, offset);
        assert Contents(dec, img, codec, res).value[offset..offset] == [];
      }
    }
  }

  lemma SliceOfSlice(img: Image, at: nat, n: nat, offset: nat, len: nat)
    requires offset + len <= n
    ensures Slice(img, at + offset, len) == Slice(img, at, n)[offset..offset + len]
  {
  }

  lemma WholeLength(dec: Decompressor, img: Image, codec: Codec, res: Resource)
    requires ChunksFrom(dec, img, codec, res, 0).Some?
    ensures |ChunksFrom(dec, img, codec, res, 0).value| == res.len && (res.len > 0 ==> Chunks(res) > 0)
  {
    ChunksFromLength(dec, img, codec, res, 0);
  }

  lemma ReadNothing(dec: Decompressor, img: Image, codec: Codec, res: Resource, offset: nat)
    requires offset <= res.len
    ensures ReadChunks(dec, img, codec, res, offset, 0) == Some([])
  {
  }

  lemma {:induction false} ReadFromStart(dec: Decompressor, img: Image, codec: Codec, res: Resource, k: nat, at: nat, len: nat)
    requires k < Chunks(res) && len > 0 && k * CHUNK_LEN + at + len <= res.len && ChunksFrom(dec, img, codec, res, k).Some?
    ensures at + len <= |ChunksFrom(dec, img, codec, res, k).value|
    ensures ReadChunks(dec, img, codec, res, k * CHUNK_LEN + at, len) == Some(ChunksFrom(dec, img, codec, res, k).value[at..at + len])
    decreases at
  {
    hide ChunkLen, ChunkData, Chunks, ReadChunks;
    ChunkSpan(res, k);
    ChunksFromLength(dec, img, codec, res, k);
    if at < CHUNK_LEN {
      ReadIsSlice(dec, img, codec, res, k, at, len);
    } else {
      assert k + 1 < Chunks(res);
      var chunk, rest := ChunkData(dec, img, codec, res, k).value, ChunksFrom(dec, img, codec, res, k + 1).value;
      ReadFromStart(dec, img, codec, res, k + 1, at - CHUNK_LEN, len);
      assert (chunk + rest)[at..at + len] == rest[at - CHUNK_LEN..at - CHUNK_LEN + len];
    }
  }

  // ---------------------------------------------------------------- the cache

  /** A virtual file: an object, because the cache compares file pointers. */
  class File {
    const img: Image
    const size: nat

    constructor (img: Image, size: nat)
      ensures this.img == img && this.size == size
    {
      this.img, this.size := img, size;
    }
  }

  /** What the header and lookup table say about the compressed resource at an offset of a file. */
  type Catalogue = map<(File, nat), (Codec, Resource)>

  datatype Call = Call(file: File, codec: Codec, res: Resource, offset: nat, len: nat)

  /** Compressed resources are told apart by file and offset, and their chunks by their stored bytes. */
  ghost predicate Listed(cat: Catalogue, file: File, codec: Codec, res: Resource) {
    Compressed(res) ==>
      && (file, res.offset) in cat && cat[(file, res.offset)] == (codec, res)
      && forall k :: 0 <= k < Chunks(res) ==> SteadyChunk(file.img, codec, res, k)
  }

  class Reader {
    ghost const dec: Decompressor := INFLATE
    const buffer: array<byte>
    var cachedFile: File?
    var cachedOffset: nat
    var cachedChunk: nat
    /** Whatever lies after the compressed bytes and below the buffer; anyone may change it. */
    var after: Source
    var below: Lz.Below

    constructor (after: Source, below: Lz.Below)
      ensures forall cat :: Valid(cat)
      ensures fresh(buffer)
    {
      this.after, this.below := after, below;
      buffer := new byte[CHUNK_LEN](_ => 0);
      cachedFile := null;
      cachedOffset, cachedChunk := 0, 0;
    }

    /** If something is cached, the buffer starts with that chunk of the catalogued resource. */
    ghost predicate Valid(cat: Catalogue)
      reads this, buffer
    {
      buffer.Length == CHUNK_LEN &&
      (cachedFile != null ==>
        (cachedFile, cachedOffset) in cat &&
        var (codec, res) := cat[(cachedFile, cachedOffset)];
        var chunk := ChunkData(dec, cachedFile.img, codec, res, cachedChunk);
        chunk.Some? && |chunk.value| <= CHUNK_LEN && buffer[..|chunk.value|] == chunk.value)
    }

    /** A chunk is accepted if it is stored raw or the length pass reports its length. */
    ghost predicate Accepts(file: File, codec: Codec, res: Resource, k: nat)
      reads this
    {
      var from, to, z := ChunkOffset(file.img, res, k), ChunkOffset(file.img, res, k + 1), Compact(file.img, codec, res, k);
      && from.Some? && to.Some? && from.value <= to.value
      && (to.value - from.value == ChunkLen(res, k) || (z.Some? && Inflate.Reported(codec, z.value, after) == ChunkLen(res, k)))
    }

    /**
     * wim_chunk: the decompressor runs once for the length and once more into the buffer. On success
     * the buffer starts with what that run makes of its surroundings, which is the chunk if the
     * chunk's bytes determine it, and is otherwise untouched; on failure all of it is.
     */
    method ReadChunk(file: File, codec: Codec, res: Resource, k: nat) returns (ok: bool)
      requires k < Chunks(res) && buffer.Length == CHUNK_LEN && Harmless(file.img, codec, res, k, after)
      modifies buffer
      ensures ok <==> Accepts(file, codec, res, k)
      ensures SteadyChunk(file.img, codec, res, k) ==> (ok <==> ChunkData(dec, file.img, codec, res, k).Some?)
      ensures ok && SteadyChunk(file.img, codec, res, k) ==> var chunk := ChunkData(dec, file.img, codec, res, k).value;
        |chunk| <= CHUNK_LEN && buffer[..|chunk|] == chunk
      ensures ok && Compact(file.img, codec, res, k).Some? ==> var z := Compact(file.img, codec, res, k).value;
        Unpacked(codec, z, ChunkLen(res, k), buffer[..], old(buffer[..]))
      ensures ok ==> var n := Reach(file.img, codec, res, k, after); n <= CHUNK_LEN && buffer[n..] == old(buffer[n..])
      ensures !ok ==> buffer[..] == old(buffer[..])
    {
      hide Inflate.Inflated, Inflate.SteadyFor, Inflate.Defined, Inflate.Reported, Inflate.Extent, ChunkOffset, Unpacked;
      var from, to := ChunkOffset(file.img, res, k), ChunkOffset(file.img, res, k + 1);
      if from.None? || to.None? || to.value < from.value { return false; }
      var len := to.value - from.value;
      var chunks := (res.len + CHUNK_LEN - 1) / CHUNK_LEN;
      var expected := CHUNK_LEN;
      if k >= chunks - 1 {
        expected := expected - (CHUNK_LEN - res.len % CHUNK_LEN) % CHUNK_LEN;
      }
      assert expected == ChunkLen(res, k);
      var stored := Slice(file.img, res.offset + from.value, len);
      if len == expected {
        Blit(buffer, 0, stored);
        return true;
      }
      if codec.Unknown? { return false; }
      ok := Unpack(codec, stored, expected);
    }

    /** The buffer after a successful call, all of it where the format is LZX. */
    ghost predicate Unpacked(codec: Codec, z: seq<byte>, n: nat, now: seq<byte>, before: seq<byte>)
      reads this
    {
      && n <= |now| && Inflate.Fits(codec, z, after, |before|)
      && Inflate.Output(codec, z, Inflate.Surroundings(after, below, before)) == Some(now[..n])
      && (codec.Lzx? ==> LzxBits.Even(|z|) && now == LzxDecoder.BufferAfter(z, before))
    }

    /** The two passes: the result of the second is not looked at. */
    method Unpack(codec: Codec, z: seq<byte>, expected: nat) returns (ok: bool)
      requires buffer.Length == CHUNK_LEN >= expected && Inflate.Defined(codec, z)
      requires Inflate.Reported(codec, z, after) == expected ==> Inflate.Fits(codec, z, after, CHUNK_LEN)
      modifies buffer
      ensures ok <==> Inflate.Reported(codec, z, after) == expected
      ensures Inflate.SteadyFor(codec, z, expected) ==>
        (ok <==> Inflate.Inflated(codec, z).Some? && |Inflate.Inflated(codec, z).value| == expected)
      ensures ok && Inflate.SteadyFor(codec, z, expected) ==> buffer[..expected] == Inflate.Inflated(codec, z).value
      ensures ok ==> Unpacked(codec, z, expected, buffer[..], old(buffer[..]))
      ensures ok ==> var n := Inflate.Extent(codec, z, after); n <= CHUNK_LEN && buffer[n..] == old(buffer[n..])
      ensures !ok ==> buffer[..] == old(buffer[..])
    {
      hide Inflate.Inflated, Inflate.SteadyFor, Inflate.Defined, LzxDecoder.BufferAfter, Inflate.Reported, Inflate.Extent, Inflate.Output;
      ghost var u := Inflate.Surroundings(after, below, buffer[..]);
      if Inflate.SteadyFor(codec, z, expected) { Inflate.SteadyAccepted(codec, z, expected, u); }
      var n := Inflate.Decompress(codec, z, after, null, below);
      if n < 0 || n != expected { return false; }
      LzxIsEven(codec, z, after);
      n := Inflate.Decompress(codec, z, after, buffer, below);
      if Inflate.SteadyFor(codec, z, expected) { Inflate.InflatedLength(codec, z); }
      assert buffer[..][..expected] == buffer[..expected];
      return true;
    }

    /** wim_read: the same answer as an uncached read, whatever the cache holds. */
    method Read(ghost cat: Catalogue, file: File, codec: Codec, res: Resource, offset: nat, len: nat) returns (r: Option<seq<byte>>)
      requires Valid(cat) && Listed(cat, file, codec, res)
      modifies this`cachedFile, this`cachedOffset, this`cachedChunk, buffer
      ensures Valid(cat)
      ensures r == ReadResource(dec, file.img, file.size, codec, res, offset, len)
      ensures offset + len > res.len || res.offset + res.zlen > file.size ==> r == None
      ensures offset + len <= res.len && res.offset + res.zlen <= file.size && !Compressed(res) ==>
        r == Some(Slice(file.img, res.offset + offset, len))
    {
      if offset + len > res.len || res.offset + res.zlen > file.size { return None; }
      if !Compressed(res) { return Some(Slice(file.img, res.offset + offset, len)); }
      r := ReadCompressed(cat, file, codec, res, offset, len);
    }

    /** The chunk loop of wim_read. */
    method ReadCompressed(ghost cat: Catalogue, file: File, codec: Codec, res: Resource, offset: nat, len: nat)
      returns (r: Option<seq<byte>>)
      requires Valid(cat) && Compressed(res) && Listed(cat, file, codec, res) && offset + len <= res.len
      modifies this`cachedFile, this`cachedOffset, this`cachedChunk, buffer
      ensures Valid(cat)
      ensures r == ReadChunks(dec, file.img, codec, res, offset, len)
    {
      hide ReadChunks, Valid, Listed, Compressed;
      var data: seq<byte> := [];
      var at, left := offset, len;
      PrependNothing(ReadChunks(dec, file.img, codec, res, offset, len));
      while left > 0
        invariant Valid(cat) && 0 <= left && 0 <= at && at + left == offset + len
        invariant ReadChunks(dec, file.img, codec, res, offset, len) ==
          Prepend(data, ReadChunks(dec, file.img, codec, res, at, left))
      {
        var ok, part := ReadFragment(cat, file, codec, res, at, left);
        if !ok { return None; }
        PrependAssoc(data, part, ReadChunks(dec, file.img, codec, res, at + |part|, left - |part|));
        data := data + part;
        at, left := at + |part|, left - |part|;
      }
      ReadNothing(dec, file.img, codec, res, at);
      assert data + [] == data;
      return Some(data);
    }

    /** One turn of the loop of wim_read: the part of the range that lies in one chunk. */
    method ReadFragment(ghost cat: Catalogue, file: File, codec: Codec, res: Resource, at: nat, left: nat)
      returns (ok: bool, part: seq<byte>)
      requires Valid(cat) && Compressed(res) && Listed(cat, file, codec, res) && 0 < left && at + left <= res.len
      modifies this`cachedFile, this`cachedOffset, this`cachedChunk, buffer
      ensures Valid(cat)
      ensures !ok ==> ReadChunks(dec, file.img, codec, res, at, left) == None
      ensures ok ==> 0 < |part| <= left
      ensures ok ==> ReadChunks(dec, file.img, codec, res, at, left) ==
                     Prepend(part, ReadChunks(dec, file.img, codec, res, at + |part|, left - |part|))
    {
      hide ChunkData, ChunkLen, Valid, Chunks, ReadChunks;
      FragmentInside(res, at, left);
      ReadStep(dec, file.img, codec, res, at, left);
      ok := CacheChunk(cat, file, codec, res, at / CHUNK_LEN);
      part := [];
      if ok {
        var skip := at % CHUNK_LEN;
        var n := CHUNK_LEN - skip;
        if n > left { n := left; }
        part := CopyOut(ChunkData(dec, file.img, codec, res, at / CHUNK_LEN).value, skip, n);
      }
    }

    /** Copy a fragment out of the buffer, which starts with `bytes`. */
    method CopyOut(ghost bytes: seq<byte>, skip: nat, n: nat) returns (part: seq<byte>)
      requires |bytes| <= buffer.Length && buffer[..|bytes|] == bytes && skip + n <= |bytes|
      ensures part == bytes[skip..skip + n]
    {
      part := buffer[skip..skip + n];
      assert buffer[..|bytes|][skip..skip + n] == buffer[skip..skip + n];
    }

    /** Make sure that the buffer holds the chunk, reading it unless it is already there. */
    method CacheChunk(ghost cat: Catalogue, file: File, codec: Codec, res: Resource, chunk: nat) returns (ok: bool)
      requires Valid(cat) && Compressed(res) && Listed(cat, file, codec, res) && chunk < Chunks(res)
      modifies this`cachedFile, this`cachedOffset, this`cachedChunk, buffer
      ensures Valid(cat)
      ensures ok <==> ChunkData(dec, file.img, codec, res, chunk).Some?
      ensures ok ==> var bytes := ChunkData(dec, file.img, codec, res, chunk).value;
        |bytes| <= buffer.Length && buffer[..|bytes|] == bytes
    {
      hide ChunkData, ChunkLen, SteadyChunk, Harmless, Compact, Unpacked, Reach;
      SteadyIsHarmless(file.img, codec, res, chunk, after);
      ok := true;
      if file != cachedFile || res.offset != cachedOffset || chunk != cachedChunk {
        ok := ReadChunk(file, codec, res, chunk);
        if ok {
          cachedFile, cachedOffset, cachedChunk := file, res.offset, chunk;
        }
      }
    }

    /** Cache transparency over whole runs: every call, in any order and after any failures, answers as if there were no cache. */
    method Run(ghost cat: Catalogue, calls: seq<Call>) returns (rs: seq<Option<seq<byte>>>)
      requires Valid(cat)
      requires forall i :: 0 <= i < |calls| ==> Listed(cat, calls[i].file, calls[i].codec, calls[i].res)
      modifies this`cachedFile, this`cachedOffset, this`cachedChunk, buffer
      ensures Valid(cat) && |rs| == |calls|
      ensures forall i :: 0 <= i < |calls| ==> rs[i] == ReadResource(dec, calls[i].file.img, calls[i].file.size,
        calls[i].codec, calls[i].res, calls[i].offset, calls[i].len)
    {
      rs := [];
      for i := 0 to |calls|
        invariant Valid(cat) && |rs| == i
        invariant forall j :: 0 <= j < i ==> rs[j] == ReadResource(dec, calls[j].file.img, calls[j].file.size,
          calls[j].codec, calls[j].res, calls[j].offset, calls[j].len)
      {
        var r := Read(cat, calls[i].file, calls[i].codec, calls[i].res, calls[i].offset, calls[i].len);
        rs := rs + [r];
      }
    }
  }

  function Prepend(data: seq<byte>, r: Option<seq<byte>>): Option<seq<byte>> {
    if r.None? then None else Some(data + r.value)
  }

  lemma PrependNothing(r: Option<seq<byte>>)
    ensures Prepend([], r) == r
  {
    if r.Some? { assert [] + r.value == r.value; }
  }

  lemma PrependAssoc(a: seq<byte>, b: seq<byte>, r: Option<seq<byte>>)
    ensures Prepend(a, Prepend(b, r)) == Prepend(a + b, r)
  {
    if r.Some? { assert a + (b + r.value) == a + b + r.value; }
  }

  lemma ReadStep(dec: Decompressor, img: Image, codec: Codec, res: Resource, offset: nat, len: nat)
    requires 0 < len && offset + len <= res.len
    ensures var chunk, skip := ChunkData(dec, img, codec, res, offset / CHUNK_LEN), offset % CHUNK_LEN;
      var n := Min(CHUNK_LEN - skip, len);
      if chunk.None? then ReadChunks(dec, img, codec, res, offset, len) == None
      else
        && skip + n <= |chunk.value|
        && ReadChunks(dec, img, codec, res, offset, len) ==
           Prepend(chunk.value[skip..skip + n], ReadChunks(dec, img, codec, res, offset + n, len - n))
  {
    hide ChunkData;
    FragmentInside(res, offset, len);
  }

  lemma LzxIsEven(codec: Codec, z: seq<byte>, after: Source)
    ensures codec.Lzx? && Inflate.Reported(codec, z, after) >= 0 ==> LzxBits.Even(|z|)
  {
  }
}
