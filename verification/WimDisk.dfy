/** Opening an injected file through the virtual disk: a FAT reader and a WIM reader together (src/vdisk.c, src/wimpatch.c, src/wim.c). */
module WimDisk {
  import opened Bytes
  import opened Memory
  import opened Wim
  import opened WimDir
  import opened VdiskDir
  import opened Vdisk
  import opened FatDriver
  import opened WimPatch
  import opened WimPatched
  import opened WimWalk
  import opened WimInjected
  import Sha1

  // ---------------------------------------------------------------- what a read of a resource depends on

  /** Images that hold the same first `n` bytes hold the same ranges of them. */
  lemma SliceWithin(a: Image, b: Image, n: nat, at: nat, len: nat)
    requires Alike(a, b, n) && at + len <= n
    ensures Slice(a, at, len) == Slice(b, at, len)
  {
  }

  /** A resource lies inside the file; an uncompressed one is stored in full. */
  predicate Inside(res: Resource, size: nat) {
    res.offset + res.zlen <= size && (!Compressed(res) ==> res.len <= res.zlen)
  }

  lemma OffsetWithin(a: Image, b: Image, size: nat, res: Resource, k: nat)
    requires Alike(a, b, size) && res.offset + res.zlen <= size
    ensures ChunkOffset(a, res, k) == ChunkOffset(b, res, k)
    ensures ChunkOffset(a, res, k).Some? && res.len > 0 ==> ChunkOffset(a, res, k).value <= res.zlen
  {
    hide Slice, FromLE, Alike;
    if res.len > 0 && TableLen(res) <= res.zlen && 0 < k < Chunks(res) {
      SliceWithin(a, b, size, res.offset + (if res.len > 0xffff_ffff then 8 * (k - 1) else 4 * (k - 1)), OffsetLen(res));
    }
  }

  lemma ChunkWithin(dec: Decompressor, a: Image, b: Image, size: nat, codec: Codec, res: Resource, k: nat)
    requires Alike(a, b, size) && res.offset + res.zlen <= size && res.len > 0
    ensures ChunkData(dec, a, codec, res, k) == ChunkData(dec, b, codec, res, k)
  {
    hide ChunkOffset, Slice, ChunkLen, Alike;
    OffsetWithin(a, b, size, res, k);
    OffsetWithin(a, b, size, res, k + 1);
    var from, to := ChunkOffset(a, res, k), ChunkOffset(a, res, k + 1);
    if from.Some? && to.Some? && from.value <= to.value {
      SliceWithin(a, b, size, res.offset + from.value, to.value - from.value);
    }
  }

  lemma {:induction false} ChunksWithin(dec: Decompressor, a: Image, b: Image, size: nat, codec: Codec, res: Resource, offset: nat, len: nat)
    requires Alike(a, b, size) && res.offset + res.zlen <= size && offset + len <= res.len
    ensures ReadChunks(dec, a, codec, res, offset, len) == ReadChunks(dec, b, codec, res, offset, len)
    decreases len
  {
    hide ChunkData, ReadChunks, Alike;
    if len == 0 {
      ReadNothing(dec, a, codec, res, offset);
      ReadNothing(dec, b, codec, res, offset);
    } else {
      var n := Min(CHUNK_LEN - offset % CHUNK_LEN, len);
      ReadStep(dec, a, codec, res, offset, len);
      ReadStep(dec, b, codec, res, offset, len);
      ChunkWithin(dec, a, b, size, codec, res, offset / CHUNK_LEN);
      ChunksWithin(dec, a, b, size, codec, res, offset + n, len - n);
    }
  }

  /** A read of a resource depends on no byte past the end of the file. */
  lemma ReadWithin(dec: Decompressor, a: Image, b: Image, size: nat, codec: Codec, res: Resource)
    requires Alike(a, b, size) && Inside(res, size)
    ensures forall o: nat, n: nat :: ReadResource(dec, a, size, codec, res, o, n) == ReadResource(dec, b, size, codec, res, o, n)
    ensures SameReading(ReadingIn(dec, a, size, codec, res), ReadingIn(dec, b, size, codec, res))
  {
    hide ReadChunks, Slice, Alike, Compressed;
    forall o: nat, n: nat ensures ReadResource(dec, a, size, codec, res, o, n) == ReadResource(dec, b, size, codec, res, o, n) {
      if o + n <= res.len {
        if Compressed(res) { ChunksWithin(dec, a, b, size, codec, res, o, n); } else { SliceWithin(a, b, size, res.offset + o, n); }
      }
    }
  }

  // ---------------------------------------------------------------- the patched file on the disk

  /** Some region of the patch covers the byte. */
  predicate Covered(c: Case, p: nat)
    requires ValidCase(c)
  {
    exists s :: 0 <= s < |Layout(c.plan)| && Covers(Layout(c.plan)[s], p)
  }

  /** What the patch method writes, by file offset. */
  function PatchOverlay(c: Case): map<nat, byte>
    requires ValidCase(c)
  {
    map p: nat | 0 <= p < End(c.plan) && Covered(c, p) :: PatchedImage(c)(p)
  }

  /** The file table once file `i` carries the patch. */
  function Installed(c: Case, i: nat): seq<VFile>
    requires ValidCase(c) && i < MAX_FILES
  {
    c.plan.files[i := c.plan.files[i].(xlen := End(c.plan), overlay := PatchOverlay(c))]
  }

  /** The patch is one of file `i`. */
  predicate PatchOf(c: Case, i: nat)
    requires ValidCase(c) && i < MAX_FILES
  {
    var f := c.plan.files[i];
    f.present && |f.data| == c.plan.size && forall p :: 0 <= p < |f.data| ==> c.img(p) == f.data[p]
  }

  /** Below the patched length, the disk shows the patched image. */
  lemma PatchShown(c: Case, i: nat, p: nat)
    requires ValidCase(c) && i < MAX_FILES && PatchOf(c, i) && p < End(c.plan)
    ensures FileByte(Installed(c, i)[i], p) == PatchedImage(c)(p)
  {
    hide Layout, End;
    if !Covered(c, p) {
      OverlayUntouched(Layout(c.plan), Content(c), |Layout(c.plan)|, p, Base(c)(p));
    }
  }

  /** The bytes of a chain as an image; past its clusters there is nothing. */
  function ChainImage(disk: Disk, v: Volume, cs: seq<nat>): Image
    requires forall k :: 0 <= k < |cs| ==> cs[k] >= 2
  {
    (p: nat) => match ChainByte(disk, v, cs, p) case Some(b) => b case None => 0
  }

  /** The chain of the patched file, as a reader of sectors finds it. */
  function ImageOn(files: seq<VFile>, i: nat): Image
    requires Table(files) && i < MAX_FILES
  {
    ChainImage(DiskOf(files), VOLUME, Run(FileCluster(i), ClustersFor(files[i].xlen)))
  }

  lemma InstalledTable(c: Case, i: nat)
    requires ValidCase(c) && i < MAX_FILES && c.plan.files[i].present
    ensures |c.plan.files| == MAX_FILES && Table(Installed(c, i))
    ensures var f := Installed(c, i)[i]; f.present && f.xlen == End(c.plan) && f.name == c.plan.files[i].name
    ensures Sizes(c.plan.files) && End(c.plan) < 0x1_0000_0000 ==> Sizes(Installed(c, i))
  {
    hide End, PatchOverlay;
  }

  /** Along its chain, the disk shows the patched image. */
  lemma ImageShown(c: Case, i: nat)
    requires ValidCase(c) && i < MAX_FILES && PatchOf(c, i) && Sizes(c.plan.files) && End(c.plan) < 0x1_0000_0000
    ensures Table(Installed(c, i)) && Alike(PatchedImage(c), ImageOn(Installed(c, i), i), End(c.plan))
  {
    hide PatchedImage, End, FileByte, ChainByte, ClustersFor, Run, Installed, DiskOf, ValidCase, Table, Sizes;
    InstalledTable(c, i);
    var files := Installed(c, i);
    forall p: nat | p < End(c.plan) ensures PatchedImage(c)(p) == ImageOn(files, i)(p) {
      PatchShown(c, i, p);
      ContentsOfChain(files, i, p);
    }
  }

  // ---------------------------------------------------------------- the main result

  /** What a WIM reader opens by path in an image: its header, boot metadata, lookup table and file contents. */
  function Opened(dec: Decompressor, img: Image, size: nat, path: seq<nat>): Option<seq<byte>> {
    var h := HeaderAt(Slice(img, 0, HEADER_LEN));
    var codec := CodecIn(h);
    var res := FindFile(ReadingIn(dec, img, size, codec, h.boot), h.boot.len, ReadingIn(dec, img, size, codec, h.lookup), h.lookup.len, path);
    if res.None? then None else ReadResource(dec, img, size, codec, res.value, 0, res.value.len)
  }

  lemma SameFile(a: Reading, b: Reading, limit: nat, x: Reading, y: Reading, len: nat, path: seq<nat>)
    requires SameReading(a, b) && SameReading(x, y)
    ensures FindFile(a, limit, x, len, path) == FindFile(b, limit, y, len, path)
  {
    hide FindPath, FindHash, SameReading;
    SamePath(a, b, limit, path);
    var f := FindPath(a, limit, path);
    if f.Some? { SameHash(x, y, len, 0, f.value.entry[64..84]); }
  }

  /** What opens in one image opens in another with the same bytes. */
  lemma OpensWithin(dec: Decompressor, a: Image, b: Image, size: nat, path: seq<nat>)
    requires Alike(a, b, size) && HEADER_LEN <= size && Opened(dec, a, size, path).Some?
    requires var h := HeaderAt(Slice(a, 0, HEADER_LEN)); Inside(h.boot, size) && Inside(h.lookup, size)
    requires var h := HeaderAt(Slice(a, 0, HEADER_LEN)); var codec := CodecIn(h);
             var res := FindFile(ReadingIn(dec, a, size, codec, h.boot), h.boot.len, ReadingIn(dec, a, size, codec, h.lookup), h.lookup.len, path);
             res.Some? ==> res.value.zlen == res.value.len
    ensures Opened(dec, b, size, path) == Opened(dec, a, size, path)
  {
    hide FindFile, ReadingIn, Alike, Slice, HeaderAt, CodecIn, SameReading, Compressed, ReadChunks;
    SliceWithin(a, b, size, 0, HEADER_LEN);
    var h := HeaderAt(Slice(a, 0, HEADER_LEN));
    var codec := CodecIn(h);
    ReadWithin(dec, a, b, size, codec, h.boot);
    ReadWithin(dec, a, b, size, codec, h.lookup);
    var boot, lookup := ReadingIn(dec, a, size, codec, h.boot), ReadingIn(dec, a, size, codec, h.lookup);
    SameFile(boot, ReadingIn(dec, b, size, codec, h.boot), h.boot.len, lookup, ReadingIn(dec, b, size, codec, h.lookup), h.lookup.len, path);
    var res := FindFile(boot, h.boot.len, lookup, h.lookup.len, path);
    ReadWithin(dec, a, b, size, codec, res.value);
  }

  /** The patched image opens by its own header. */
  lemma OpensByHeader(dec: Decompressor, c: Case, j: nat)
    requires PatchedCase(c) && j < MAX_FILES && Openable(c, j)
    ensures HEADER_LEN <= End(c.plan)
    ensures var img, size, path := PatchedImage(c), End(c.plan), InjectedPath(c.plan.files[j].name);
            var h := HeaderAt(Slice(img, 0, HEADER_LEN)); var codec := CodecIn(h);
            var res := FindFile(ReadingIn(dec, img, size, codec, h.boot), h.boot.len, ReadingIn(dec, img, size, codec, h.lookup), h.lookup.len, path);
            && Inside(h.boot, size) && Inside(h.lookup, size) && res.Some? && res.value.zlen == res.value.len
            && Opened(dec, img, size, path) == Some(c.plan.files[j].data)
  {
    hide PatchedImage, HeaderAt, Slice, CodecIn, FindFile, ReadingIn, ReadResource, InjectedPath, Openable, LookupAt, LookupLen, BootAt, Images;
    PatchedResources(c.plan);
    HeaderShown(c);
    InjectedFileOpens(dec, c, CodecIn(c.header), j);
    HeaderFits(c.plan);
  }

  lemma HeaderFits(p: Plan)
    requires ValidPlan(p)
    ensures HEADER_LEN <= End(p)
  {
    hide Injected, InjectedBytes;
  }

  /**
   * A reader that sees only sectors mounts the volume, finds the patched WIM file in any directory with its patched
   * length, follows its one chain, and in the image along it opens every injected file by its path.
   */
  lemma OpensThroughDisk(dec: Decompressor, c: Case, i: nat, j: nat, d: nat, cs: seq<nat>)
    requires PatchedCase(c) && i < MAX_FILES && PatchOf(c, i) && Sizes(c.plan.files) && End(c.plan) < 0x1_0000_0000
    requires d < 7 && j < MAX_FILES && Openable(c, j)
    ensures Table(Installed(c, i)) && Mount(DiskOf(Installed(c, i))) == VOLUME
    ensures ReadDirectory(DiskOf(Installed(c, i)), FirstSector(VOLUME, ROOT_CLUSTER + d) + 1 + i) ==
      [ListedOf(DirEntry(c.plan.files[i].name, End(c.plan), 0x01, FileCluster(i)))]
    ensures IsChain(DiskOf(Installed(c, i)), VOLUME, cs) && cs[0] == FileCluster(i) <==>
      cs == Run(FileCluster(i), ClustersFor(End(c.plan)))
    ensures Opened(dec, ChainImage(DiskOf(Installed(c, i)), VOLUME, Run(FileCluster(i), ClustersFor(End(c.plan)))), End(c.plan),
                   InjectedPath(c.plan.files[j].name)) == Some(c.plan.files[j].data)
  {
    hide PatchedImage, End, DiskOf, Mount, ReadDirectory, IsChain, ClustersFor, Openable, Opened, Inside, Alike, FindFile, PatchOverlay, Table, Sizes, ValidCase;
    InstalledTable(c, i);
    var files := Installed(c, i);
    OpensByHeader(dec, c, j);
    EndToEnd(files, i, d, cs, 0);
    ImageShown(c, i);
    OpensWithin(dec, PatchedImage(c), ImageOn(files, i), End(c.plan), InjectedPath(c.plan.files[j].name));
  }
}
