/** Writing compressed WIM resources: an image that holds what is written reads back as what was meant (src/wim.c). */
module WimWriter {
  import opened Bytes
  import opened Memory
  import opened Wim
  import Inflate
  import LzxJumps

  // ---------------------------------------------------------------- the layout of a resource

  /** The contents cut into pieces of 32kB. */
  function Pieces(data: seq<byte>): seq<seq<byte>> {
    if data == [] then []
    else if |data| <= 32768 then [data]
    else [data[..32768]] + Pieces(data[32768..])
  }

  function Joined(xs: seq<seq<byte>>): seq<byte> {
    if xs == [] then [] else xs[0] + Joined(xs[1..])
  }

  /** The distances of all stored chunks but the first from the end of the table, the first of them being at `at`. */
  function Distances(stored: seq<seq<byte>>, at: nat, width: nat): seq<byte> {
    if |stored| <= 1 then [] else LE(at + |stored[0]|, width) + Distances(stored[1..], at + |stored[0]|, width)
  }

  /** Entries of the table take four bytes, eight where the contents are 4GB or more. */
  function Width(len: nat): nat {
    if len >= 0x1_0000_0000 then 8 else 4
  }

  /** The bytes of the resource: the table and then the chunks. */
  function Written(data: seq<byte>, stored: seq<seq<byte>>): seq<byte> {
    Distances(stored, 0, Width(|data|)) + Joined(stored)
  }

  /** A chunk is stored as it is, or as compressed bytes of another length. */
  predicate StoredAs(dec: Decompressor, codec: Codec, piece: seq<byte>, chunk: seq<byte>) {
    chunk == piece || (|chunk| != |piece| && !codec.Unknown? && dec(codec, chunk) == Some(piece))
  }

  predicate Stores(dec: Decompressor, codec: Codec, pieces: seq<seq<byte>>, stored: seq<seq<byte>>) {
    |stored| == |pieces| && forall k :: 0 <= k < |stored| ==> StoredAs(dec, codec, pieces[k], stored[k])
  }

  /** Every distance fits its entry. */
  predicate DistancesFit(data: seq<byte>, stored: seq<seq<byte>>) {
    forall k :: 0 < k < |stored| ==>
      |Joined(stored[..k])| < (if |data| >= 0x1_0000_0000 then 0x1_0000_0000_0000_0000 else 0x1_0000_0000)
  }

  /** The image holds the resource where its header says, with the lengths the header says. */
  ghost predicate Holds(img: Image, res: Resource, data: seq<byte>, stored: seq<seq<byte>>) {
    && Compressed(res) && res.len == |data| && res.zlen == |Written(data, stored)|
    && HoldsAt(img, res.offset, Written(data, stored))
  }

  // ---------------------------------------------------------------- pieces

  lemma {:induction false} PiecesJoined(data: seq<byte>)
    ensures Joined(Pieces(data)) == data
  {
    if |data| > 32768 {
      PiecesJoined(data[32768..]);
      assert Pieces(data)[1..] == Pieces(data[32768..]);
      assert data[..32768] + data[32768..] == data;
    } else if data != [] {
      assert Pieces(data)[1..] == [];
      assert data + [] == data;
    }
  }

  lemma {:induction false} PiecesSized(data: seq<byte>)
    ensures |Pieces(data)| == (|data| + 32767) / 32768
    ensures forall k :: 0 <= k < |Pieces(data)| ==>
              0 < |Pieces(data)[k]| == if 32768 * (k + 1) <= |data| then 32768 else |data| - 32768 * k
    decreases |data|
  {
    var xs := Pieces(data);
    if |data| > 32768 {
      PiecesSized(data[32768..]);
      forall k | 0 <= k < |xs| ensures 0 < |xs[k]| == if 32768 * (k + 1) <= |data| then 32768 else |data| - 32768 * k {
        if k > 0 { assert xs[k] == Pieces(data[32768..])[k - 1]; }
      }
    }
  }

  /** The reader expects every chunk to be as long as its piece. */
  lemma PieceLengths(data: seq<byte>, res: Resource)
    requires res.len == |data|
    ensures Chunks(res) == |Pieces(data)|
    ensures forall k :: 0 <= k < |Pieces(data)| ==> 0 < |Pieces(data)[k]| == ChunkLen(res, k)
  {
    PiecesSized(data);
    forall k | 0 <= k < |Pieces(data)| ensures 0 < |Pieces(data)[k]| == ChunkLen(res, k) { LastPiece(res, k); }
  }

  lemma LastPiece(res: Resource, k: nat)
    requires k < Chunks(res)
    ensures ChunkLen(res, k) == if 32768 * (k + 1) <= res.len then 32768 else res.len - 32768 * k
  {
    var q, r := res.len / CHUNK_LEN, res.len % CHUNK_LEN;
    assert res.len == CHUNK_LEN * q + r;
    assert Chunks(res) == if r == 0 then q else q + 1;
  }

  lemma {:induction false} JoinedPrefix(xs: seq<seq<byte>>, k: nat)
    requires k <= |xs|
    ensures Joined(xs) == Joined(xs[..k]) + Joined(xs[k..])
  {
    if k == 0 {
      assert xs[..0] == [] && xs[0..] == xs;
    } else {
      JoinedPrefix(xs[1..], k - 1);
      assert xs[..k][1..] == xs[1..][..k - 1] && xs[1..][k - 1..] == xs[k..];
      Regroup(xs[0], Joined(xs[1..][..k - 1]), Joined(xs[k..]));
    }
  }

  lemma Regroup(a: seq<byte>, b: seq<byte>, c: seq<byte>)
    ensures a + (b + c) == a + b + c
  {
  }

  /** Chunk `k` stands between the chunks before and after it. */
  lemma JoinedAround(xs: seq<seq<byte>>, k: nat)
    requires k < |xs|
    ensures Joined(xs) == Joined(xs[..k]) + (xs[k] + Joined(xs[k + 1..]))
    ensures |Joined(xs[..k + 1])| == |Joined(xs[..k])| + |xs[k]|
  {
    JoinedPrefix(xs, k);
    assert xs[k..][1..] == xs[k + 1..];
    JoinedPrefix(xs[..k + 1], k);
    assert xs[..k + 1][..k] == xs[..k] && xs[..k + 1][k..] == [xs[k]];
    JoinedOne(xs[k]);
  }

  lemma JoinedOne(x: seq<byte>)
    ensures Joined([x]) == x
  {
    var none: seq<seq<byte>> := [x][1..];
    assert none == [] && x + [] == x;
  }

  // ---------------------------------------------------------------- the table

  lemma DistancesLength(stored: seq<seq<byte>>, at: nat, width: nat)
    requires width == 4 || width == 8
    ensures |Distances(stored, at, width)| == if stored == [] then 0 else width * (|stored| - 1)
  {
    hide Distances;
    if width == 4 { NarrowLength(stored, at); } else { WideLength(stored, at); }
  }

  lemma {:induction false} NarrowLength(stored: seq<seq<byte>>, at: nat)
    ensures |Distances(stored, at, 4)| == if stored == [] then 0 else 4 * (|stored| - 1)
  {
    hide LE;
    if |stored| > 1 { NarrowLength(stored[1..], at + |stored[0]|); }
  }

  lemma {:induction false} WideLength(stored: seq<seq<byte>>, at: nat)
    ensures |Distances(stored, at, 8)| == if stored == [] then 0 else 8 * (|stored| - 1)
  {
    hide LE;
    if |stored| > 1 { WideLength(stored[1..], at + |stored[0]|); }
  }

  lemma {:induction false} DistanceAt(stored: seq<seq<byte>>, at: nat, width: nat, k: nat)
    requires 0 < k < |stored| && (width == 4 || width == 8)
    ensures 0 <= width * (k - 1) <= width * k <= |Distances(stored, at, width)|
    ensures Distances(stored, at, width)[width * (k - 1)..width * k] == LE(at + |Joined(stored[..k])|, width)
    decreases k
  {
    hide LE;
    DistancesLength(stored, at, width);
    Widths(width, k, |stored|);
    var head, rest := LE(at + |stored[0]|, width), Distances(stored[1..], at + |stored[0]|, width);
    assert stored[..k][1..] == stored[1..k];
    if k == 1 {
      assert Joined(stored[1..1]) == [];
      assert (head + rest)[0..width] == head;
    } else {
      DistanceAt(stored[1..], at + |stored[0]|, width, k - 1);
      assert stored[1..][..k - 1] == stored[1..k];
      Widths(width, k - 1, |stored| - 1);
      AfterHead(head, rest, width * (k - 2), width * (k - 1));
    }
  }

  lemma Widths(width: nat, k: nat, n: nat)
    requires 0 < k < n && (width == 4 || width == 8)
    ensures 0 <= width * (k - 1) && width * k == width * (k - 1) + width && width * k <= width * (n - 1)
  {
    if width == 4 {
      assert 4 * k <= 4 * (n - 1);
    } else {
      assert 8 * k <= 8 * (n - 1);
    }
  }

  lemma AfterHead(head: seq<byte>, rest: seq<byte>, i: nat, j: nat)
    requires i <= j <= |rest|
    ensures (head + rest)[|head| + i..|head| + j] == rest[i..j]
  {
  }

  // ---------------------------------------------------------------- reading what was written

  lemma HeldSlice(img: Image, at: nat, s: seq<byte>, i: nat, j: nat)
    requires i <= j <= |s| && HoldsAt(img, at, s)
    ensures Slice(img, at + i, j - i) == s[i..j]
  {
    assert Slice(img, at, |s|)[i..j] == s[i..j];
    assert Slice(img, at, |s|)[i..j] == Slice(img, at + i, j - i);
  }

  lemma TableLengths(res: Resource, data: seq<byte>, stored: seq<seq<byte>>)
    requires data != [] && res.len == |data| && |stored| == |Pieces(data)|
    ensures |Distances(stored, 0, Width(|data|))| == TableLen(res) == Width(|data|) * (|stored| - 1) && stored != []
    ensures OffsetLen(res) == Width(|data|)
  {
    PieceLengths(data, res);
    DistancesLength(stored, 0, Width(|data|));
  }

  /** The reader finds the start of every chunk, and the end of the last. */
  lemma OffsetRead(img: Image, res: Resource, data: seq<byte>, stored: seq<seq<byte>>, k: nat)
    requires data != [] && Holds(img, res, data, stored) && |stored| == |Pieces(data)| && DistancesFit(data, stored) && k <= |stored|
    ensures ChunkOffset(img, res, k) == Some(TableLen(res) + |Joined(stored[..k])|)
  {
    hide Pieces, Joined, LE, FromLE, HoldsAt, Slice, Compressed, Chunks, OffsetLen;
    TableLengths(res, data, stored);
    PieceLengths(data, res);
    var width, table := Width(|data|), Distances(stored, 0, Width(|data|));
    JoinedPrefix(stored, k);
    if k == |stored| {
      assert stored[..k] == stored;
    } else if k == 0 {
      NothingJoined(stored);
    } else {
      DistanceAt(stored, 0, width, k);
      HeldSlice(img, res.offset, Written(data, stored), width * (k - 1), width * k);
      assert Written(data, stored)[width * (k - 1)..width * k] == table[width * (k - 1)..width * k];
      Widths(width, k, |stored|);
      DistanceFits(data, stored, k);
      LERoundTrip(|Joined(stored[..k])|, width);
    }
  }

  lemma NothingJoined(stored: seq<seq<byte>>)
    ensures Joined(stored[..0]) == []
  {
  }

  lemma DistanceFits(data: seq<byte>, stored: seq<seq<byte>>, k: nat)
    requires DistancesFit(data, stored) && 0 < k < |stored|
    ensures |Joined(stored[..k])| < Range(Width(|data|))
  {
    hide Joined;
    RangeValues();
  }

  lemma ChunkRead(dec: Decompressor, img: Image, codec: Codec, res: Resource, data: seq<byte>, stored: seq<seq<byte>>, k: nat)
    requires Holds(img, res, data, stored) && Stores(dec, codec, Pieces(data), stored) && DistancesFit(data, stored) && k < |stored|
    ensures ChunkData(dec, img, codec, res, k) == Some(Pieces(data)[k])
    ensures Compact(img, codec, res, k) == if stored[k] == Pieces(data)[k] || codec.Unknown? then None else Some(stored[k])
  {
    hide Pieces, Joined, HoldsAt, Slice, Compressed, ChunkOffset, ChunkLen;
    assert data != [] by { NoPieces(data); }
    PieceLengths(data, res);
    OffsetRead(img, res, data, stored, k);
    OffsetRead(img, res, data, stored, k + 1);
    ChunkHeld(img, res, data, stored, k);
    assert StoredAs(dec, codec, Pieces(data)[k], stored[k]);
  }

  lemma NoPieces(data: seq<byte>)
    ensures data == [] ==> Pieces(data) == []
  {
  }

  /** The chunk is in the image where its distance says. */
  lemma ChunkHeld(img: Image, res: Resource, data: seq<byte>, stored: seq<seq<byte>>, k: nat)
    requires data != [] && Holds(img, res, data, stored) && |stored| == |Pieces(data)| && k < |stored|
    ensures |Joined(stored[..k + 1])| == |Joined(stored[..k])| + |stored[k]|
    ensures Slice(img, res.offset + (TableLen(res) + |Joined(stored[..k])|), |stored[k]|) == stored[k]
  {
    hide Pieces, Joined, HoldsAt, Slice, Compressed, TableLen;
    TableLengths(res, data, stored);
    JoinedAround(stored, k);
    var table, before, after := Distances(stored, 0, Width(|data|)), Joined(stored[..k]), Joined(stored[k + 1..]);
    var at := |table| + |before|;
    HeldSlice(img, res.offset, Written(data, stored), at, at + |stored[k]|);
    Middle(table, before, stored[k], after);
  }

  lemma Middle(a: seq<byte>, b: seq<byte>, c: seq<byte>, d: seq<byte>)
    ensures (a + (b + (c + d)))[|a| + |b|..|a| + |b| + |c|] == c
  {
  }

  lemma {:induction false} ChunksRead(dec: Decompressor, img: Image, codec: Codec, res: Resource, data: seq<byte>, stored: seq<seq<byte>>, k: nat)
    requires Holds(img, res, data, stored) && Stores(dec, codec, Pieces(data), stored) && DistancesFit(data, stored) && k <= |stored|
    ensures k <= Chunks(res) && ChunksFrom(dec, img, codec, res, k) == Some(Joined(Pieces(data)[k..]))
    decreases |stored| - k
  {
    hide Pieces, ChunkData, Holds, Stores, DistancesFit, Compact;
    assert |stored| == |Pieces(data)| == Chunks(res) by { StoredCount(dec, img, codec, res, data, stored); }
    if k < |stored| {
      ChunkRead(dec, img, codec, res, data, stored, k);
      ChunksRead(dec, img, codec, res, data, stored, k + 1);
      assert Pieces(data)[k..][1..] == Pieces(data)[k + 1..];
    }
  }

  lemma StoredCount(dec: Decompressor, img: Image, codec: Codec, res: Resource, data: seq<byte>, stored: seq<seq<byte>>)
    requires Holds(img, res, data, stored) && Stores(dec, codec, Pieces(data), stored)
    ensures |stored| == |Pieces(data)| == Chunks(res)
  {
    hide Pieces, Written, StoredAs, Compressed;
    PieceLengths(data, res);
  }

  /**
   * The reader inverts the writer: where an image holds a table of distances and chunks that are stored
   * as they are or decompress to their pieces, the contents of the resource are the pieces joined.
   */
  lemma WriterReads(dec: Decompressor, img: Image, codec: Codec, res: Resource, data: seq<byte>, stored: seq<seq<byte>>)
    requires Holds(img, res, data, stored) && Stores(dec, codec, Pieces(data), stored) && DistancesFit(data, stored)
    ensures Contents(dec, img, codec, res) == Some(data)
  {
    ChunksRead(dec, img, codec, res, data, stored, 0);
    PiecesJoined(data);
    assert Pieces(data)[0..] == Pieces(data);
  }

  // ---------------------------------------------------------------- every byte string is stored by some resource

  /** A chunk that the cached reader can do with: its bytes determine its piece, inside the chunk buffer. */
  ghost predicate Sturdy(codec: Codec, piece: seq<byte>, chunk: seq<byte>) {
    chunk == piece
    || (|chunk| != |piece| && !codec.Unknown? && Inflate.Defined(codec, chunk) && Inflate.Steady(codec, chunk)
        && Inflate.Fits(codec, chunk, Inflate.NOTHING, 32768) && Inflate.Inflated(codec, chunk) == Some(piece))
  }

  ghost predicate AllSturdy(codec: Codec, pieces: seq<seq<byte>>, stored: seq<seq<byte>>) {
    |stored| == |pieces| && forall k :: 0 <= k < |stored| ==> Sturdy(codec, pieces[k], stored[k])
  }

  lemma SturdyStores(codec: Codec, pieces: seq<seq<byte>>, stored: seq<seq<byte>>)
    requires AllSturdy(codec, pieces, stored)
    ensures Stores(INFLATE, codec, pieces, stored)
  {
    hide Inflate.Defined, Inflate.Steady, Inflate.Fits, Inflate.Inflated;
    forall k | 0 <= k < |stored| ensures StoredAs(INFLATE, codec, pieces[k], stored[k]) {
      assert Sturdy(codec, pieces[k], stored[k]);
    }
  }

  lemma CompressedPiece(codec: Codec, piece: seq<byte>) returns (z: seq<byte>)
    requires !codec.Unknown? && 0 < |piece| <= 32768
    ensures Sturdy(codec, piece, z) && |z| > |piece|
  {
    hide Inflate.Defined, Inflate.Steady, Inflate.Reported;
    z := Inflate.EveryTextInflates(codec, piece);
  }

  /** Chunks that store some pieces, those before the first `raw` of them as they are and the others compressed. */
  lemma {:induction false} Pack(codec: Codec, pieces: seq<seq<byte>>, raw: nat) returns (stored: seq<seq<byte>>)
    requires !codec.Unknown? && forall k :: 0 <= k < |pieces| ==> 0 < |pieces[k]| <= 32768
    ensures AllSturdy(codec, pieces, stored)
    ensures forall k :: 0 <= k < |stored| ==> if k < raw then stored[k] == pieces[k] else |stored[k]| > |pieces[k]|
    decreases |pieces|
  {
    hide Sturdy;
    if pieces == [] {
      stored := [];
    } else {
      var n := |pieces| - 1;
      var before := Pack(codec, pieces[..n], raw);
      var last := pieces[n];
      if n >= raw { last := CompressedPiece(codec, pieces[n]); }
      assert Sturdy(codec, pieces[n], last) by { Itself(codec, last); }
      stored := before + [last];
      forall k | 0 <= k < |stored| ensures Sturdy(codec, pieces[k], stored[k]) {
        if k < n { assert pieces[k] == pieces[..n][k] && stored[k] == before[k]; }
      }
    }
  }

  lemma Itself(codec: Codec, piece: seq<byte>)
    ensures Sturdy(codec, piece, piece)
  {
  }

  lemma RawDistances(data: seq<byte>, stored: seq<seq<byte>>)
    requires |data| < 0x1_0000_0000_0000_0000 && |stored| == |Pieces(data)|
    requires forall k :: 0 <= k < |stored| - 1 ==> stored[k] == Pieces(data)[k]
    ensures DistancesFit(data, stored)
  {
    hide Pieces, Joined;
    PiecesJoined(data);
    forall k | 0 < k < |stored| ensures |Joined(stored[..k])| <= |data| {
      assert stored[..k] == Pieces(data)[..k];
      JoinedPrefix(Pieces(data), k);
    }
  }

  /**
   * Every byte string shorter than 2^64 is the contents of some compressed resource, in either format, with
   * its last chunk compressed and the others stored as they are.
   */
  lemma EveryStringStored(codec: Codec, data: seq<byte>) returns (stored: seq<seq<byte>>)
    requires !codec.Unknown? && |data| < 0x1_0000_0000_0000_0000
    ensures AllSturdy(codec, Pieces(data), stored) && DistancesFit(data, stored)
    ensures data != [] ==> |stored| > 0 && |stored[|stored| - 1]| > |Pieces(data)[|stored| - 1]|
  {
    hide Pieces, Sturdy, DistancesFit;
    PiecesSized(data);
    var n := |Pieces(data)|;
    stored := Pack(codec, Pieces(data), if n == 0 then 0 else n - 1);
    RawDistances(data, stored);
  }

  /** What was so stored is read back through the cache: any range of the byte string. */
  lemma StoredReads(cat: Catalogue, file: File, codec: Codec, res: Resource, data: seq<byte>, stored: seq<seq<byte>>, offset: nat, len: nat)
    requires Holds(file.img, res, data, stored) && AllSturdy(codec, Pieces(data), stored) && DistancesFit(data, stored)
    requires (file, res.offset) in cat && cat[(file, res.offset)] == (codec, res) && res.offset + res.zlen <= file.size
    requires offset + len <= |data|
    ensures Listed(cat, file, codec, res)
    ensures ReadResource(INFLATE, file.img, file.size, codec, res, offset, len) == Some(data[offset..offset + len])
  {
    hide Pieces, Holds, AllSturdy, DistancesFit, SteadyChunk, ReadChunks, ChunksFrom, Compressed, Stores;
    SturdyStores(codec, Pieces(data), stored);
    WriterReads(INFLATE, file.img, codec, res, data, stored);
    StoredCount(INFLATE, file.img, codec, res, data, stored);
    forall k | 0 <= k < Chunks(res) ensures SteadyChunk(file.img, codec, res, k) {
      SturdyChunk(file.img, codec, res, data, stored, k);
    }
    IsCompressed(file.img, res, data, stored);
    ReadReturnsSlice(INFLATE, file.img, file.size, codec, res, offset, len);
  }

  lemma IsCompressed(img: Image, res: Resource, data: seq<byte>, stored: seq<seq<byte>>)
    requires Holds(img, res, data, stored)
    ensures Compressed(res) && res.len == |data|
  {
    hide Compressed, Written;
  }

  lemma SturdyChunk(img: Image, codec: Codec, res: Resource, data: seq<byte>, stored: seq<seq<byte>>, k: nat)
    requires Holds(img, res, data, stored) && AllSturdy(codec, Pieces(data), stored) && DistancesFit(data, stored) && k < |stored|
    ensures SteadyChunk(img, codec, res, k)
  {
    hide Pieces, Holds, DistancesFit, ChunkLen, Compact, ChunkData, Inflate.Defined, Inflate.Steady, Inflate.Fits, Inflate.Inflated, Inflate.Reported;
    SturdyStores(codec, Pieces(data), stored);
    ChunkRead(INFLATE, img, codec, res, data, stored, k);
    assert Sturdy(codec, Pieces(data)[k], stored[k]);
  }
}
