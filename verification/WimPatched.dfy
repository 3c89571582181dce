/** What a WIM reader finds in a patched file (src/wimpatch.c, src/wim.c). */
module WimPatched {
  import opened Bytes
  import opened Memory
  import opened Wim
  import opened WimDir
  import opened VdiskDir
  import opened Vdisk
  import opened WimPatch
  import Sha1

  // ---------------------------------------------------------------- the patched image

  /** Everything the patch callbacks draw on: the layout, the patched header, and the original lookup table and metadata. */
  datatype Case = Case(img: Image, plan: Plan, header: WimHeader, lookup: seq<byte>, meta: seq<byte>, dirOffset: nat)

  predicate ValidCase(c: Case) {
    && ValidPlan(c.plan) && Table(c.plan.files) && |c.header.raw| == HEADER_LEN
    && |c.lookup| == c.plan.lookupLen && |c.meta| == c.plan.bootLen
    && c.dirOffset + c.plan.dirLen + 8 <= |c.meta|
    && End(c.plan) < ZLEN_RANGE
  }

  /** wim_patch_lookup_file */
  function FileEntry(c: Case, i: nat): (r: seq<byte>)
    requires ValidCase(c) && i < MAX_FILES
    ensures |r| == ENTRY_LEN
  {
    var n := |c.plan.files[i].data|;
    ResourceBytes(Resource(0, n, FileAt(c.plan, i), n)) + [0, 0] + LE(1, 4) + Sha1.Hash(c.plan.files[i].data)
  }

  /** wim_patch_lookup_boot */
  function BootEntry(c: Case): (r: seq<byte>)
    ensures |r| == ENTRY_LEN
  {
    ResourceBytes(c.header.boot) + Zeros(26)
  }

  function NameBytes(name: seq<byte>): (r: seq<byte>)
    ensures |r| == 2 * |name|
  {
    if name == [] then [] else LE(Unit(name[0]), 2) + NameBytes(name[1..])
  }

  const MAGIC_TIME := 0x1a7b83d2ad93000

  /** wim_patch_dir_file */
  function DirFileEntry(f: VFile): (r: seq<byte>)
    requires ValidName(f.name)
    ensures |r| == DIR_FILE_LEN
  {
    LE(DIR_STRIDE, 8) + LE(0x80, 4) + LE(0xffff_ffff, 4) + Zeros(8) + Zeros(16)
    + LE(MAGIC_TIME, 8) + LE(MAGIC_TIME, 8) + LE(MAGIC_TIME, 8) + Sha1.Hash(f.data) + Zeros(12) + Zeros(4)
    + LE(2 * |f.name|, 2) + NameBytes(f.name) + Zeros(64 - 2 * |f.name|)
  }

  function SubdirValue(c: Case): nat {
    DirAt(c.plan) - BootAt(c.plan)
  }

  /** The bytes each region's callback copies from. */
  function ContentOf(c: Case, part: Part): seq<byte>
    requires ValidCase(c)
  {
    match part
    case Header => HeaderBytes(c.header)
    case FileData(i) => if i < MAX_FILES then c.plan.files[i].data else []
    case LookupCopy => c.lookup
    case LookupBoot => BootEntry(c)
    case LookupFile(i) => if i < MAX_FILES then FileEntry(c, i) else []
    case BootCopy => c.meta
    case Subdir => LE(SubdirValue(c), 8)
    case DirCopy => c.meta[c.dirOffset..c.dirOffset + c.plan.dirLen]
    case DirFile(i) => if i < MAX_FILES then DirFileEntry(c.plan.files[i]) else []
  }

  function Content(c: Case): Part -> seq<byte>
    requires ValidCase(c)
  {
    (part: Part) => ContentOf(c, part)
  }

  function BaseByte(c: Case, at: nat): byte {
    if at < c.plan.size then c.img(at) else 0
  }

  /** The unpatched file, followed by the zero padding of the virtual disk. */
  function Base(c: Case): Image {
    (at: nat) => BaseByte(c, at)
  }

  function PatchedImage(c: Case): Image
    requires ValidCase(c)
  {
    (at: nat) => Overlay(Layout(c.plan), Content(c), |Layout(c.plan)|, at, Base(c)(at))
  }

  /** The patch callbacks copy exactly the part of the region that remains after clipping. */
  lemma ContentFits(c: Case, s: nat)
    requires ValidCase(c) && s < SLOTS
    ensures var r := Layout(c.plan)[s]; r.Region? ==> r.part == PartOf(s) && |Content(c)(r.part)| == r.len == |ContentOf(c, r.part)|
  {
    hide FileEntry, BootEntry, DirFileEntry, HeaderBytes, Injected, InjectedBytes, Injects;
    InStretch(c.plan, PartOf(s));
  }

  predicate ValidPart(part: Part) {
    part.FileData? || part.LookupFile? || part.DirFile? ==> part.i < MAX_FILES
  }

  function SlotOf(part: Part): (s: nat)
    requires ValidPart(part)
    ensures s < SLOTS && PartOf(s) == part
  {
    match part
    case Header => 0
    case FileData(i) => 1 + i
    case LookupCopy => 64
    case LookupBoot => 65
    case LookupFile(i) => 66 + i
    case BootCopy => 129
    case Subdir => 130
    case DirCopy => 131
    case DirFile(i) => 132 + i
  }

  lemma PartInjective(s: nat, t: nat)
    requires s < SLOTS && t < SLOTS && s != t
    ensures PartOf(s) != PartOf(t)
  {
  }

  lemma LayoutAt(p: Plan, s: nat)
    requires |p.files| == MAX_FILES && s < SLOTS
    ensures Layout(p)[s] == RegionOf(p, PartOf(s))
  {
    hide RegionOf;
  }

  /** Each byte comes from the one region that covers it; only the subdirectory field covers part of another region. */
  lemma ByteFrom(c: Case, part: Part, at: nat)
    requires ValidCase(c) && ValidPart(part) && Covers(RegionOf(c.plan, part), at)
    requires part == BootCopy ==> !Covers(RegionOf(c.plan, Subdir), at)
    ensures at - RegionOf(c.plan, part).offset < |ContentOf(c, part)|
    ensures PatchedImage(c)(at) == ContentOf(c, part)[at - RegionOf(c.plan, part).offset]
  {
    hide RegionOf, ContentOf, Layout, Covers, Overlay, PartOf;
    var s, regions := SlotOf(part), Layout(c.plan);
    LayoutAt(c.plan, s);
    ContentFits(c, s);
    CoversInside(RegionOf(c.plan, part), at);
    forall t | s < t < |regions| ensures !Covers(regions[t], at) {
      LayoutAt(c.plan, t);
      PartInjective(s, t);
      if {part, PartOf(t)} != {BootCopy, Subdir} {
        RegionsDisjoint(c.plan, part, PartOf(t), at);
      } else {
        AfterSubdir(t, part);
      }
    }
    OverlayDecided(regions, Content(c), |regions|, at, Base(c)(at), s);
  }

  lemma CoversInside(r: Region, at: nat)
    requires Covers(r, at)
    ensures r.Region? && r.offset <= at < r.offset + r.len
  {
  }

  lemma AfterSubdir(t: nat, part: Part)
    requires ValidPart(part) && SlotOf(part) < t < SLOTS && {part, PartOf(t)} == {BootCopy, Subdir}
    ensures part == BootCopy && PartOf(t) == Subdir
  {
    assert part in {BootCopy, Subdir} && PartOf(t) in {BootCopy, Subdir};
    assert BootCopy in {part, PartOf(t)};
  }

  /** A byte that no region covers is that of the zero-padded file. */
  lemma ByteBetween(c: Case, at: nat)
    requires ValidCase(c) && forall s :: 0 <= s < SLOTS ==> !Covers(RegionOf(c.plan, PartOf(s)), at)
    ensures PatchedImage(c)(at) == Base(c)(at)
  {
    hide RegionOf, ContentOf, Layout, Covers, Overlay, PartOf;
    var regions := Layout(c.plan);
    forall t | 0 <= t < |regions| ensures !Covers(regions[t], at) { LayoutAt(c.plan, t); }
    OverlayUntouched(regions, Content(c), |regions|, at, Base(c)(at));
  }

  /** A region other than the metadata copy shows its whole content. */
  lemma RegionShows(c: Case, part: Part)
    requires ValidCase(c) && ValidPart(part) && part != BootCopy && RegionOf(c.plan, part).Region?
    ensures var r := RegionOf(c.plan, part); Slice(PatchedImage(c), r.offset, r.len) == ContentOf(c, part)
  {
    hide RegionOf, ContentOf, PatchedImage;
    var r := RegionOf(c.plan, part);
    LayoutAt(c.plan, SlotOf(part));
    ContentFits(c, SlotOf(part));
    forall i | 0 <= i < r.len ensures PatchedImage(c)(r.offset + i) == ContentOf(c, part)[i] {
      ByteFrom(c, part, r.offset + i);
    }
  }

  lemma RegionShowsAt(c: Case, part: Part, at: nat, n: nat, bytes: seq<byte>)
    requires ValidCase(c) && ValidPart(part) && part != BootCopy
    requires RegionOf(c.plan, part) == Region(part, at, n) && ContentOf(c, part) == bytes
    ensures Slice(PatchedImage(c), at, n) == bytes
  {
    hide RegionOf, ContentOf, PatchedImage, Slice;
    RegionShows(c, part);
  }

  // ---------------------------------------------------------------- the patched lookup table

  /** The lookup entries of the injected files among the first `i`. */
  function FileEntries(c: Case, i: nat): (r: seq<byte>)
    requires ValidCase(c) && i <= MAX_FILES
    ensures |r| == ENTRY_LEN * Injected(c.plan.files, i)
  {
    if i == 0 then [] else FileEntries(c, i - 1) + if Injects(c.plan.files[i - 1]) then FileEntry(c, i - 1) else []
  }

  /** The lookup table a reader of the patched file should see. */
  function PatchedLookup(c: Case): (r: seq<byte>)
    requires ValidCase(c)
    ensures |r| == LookupLen(c.plan)
  {
    c.lookup + BootEntry(c) + FileEntries(c, MAX_FILES)
  }

  lemma SliceSplit(img: Image, at: nat, m: nat, n: nat)
    ensures Slice(img, at, m + n) == Slice(img, at, m) + Slice(img, at + m, n)
  {
  }

  lemma {:induction false} LookupFilesShown(c: Case, i: nat)
    requires ValidCase(c) && i <= MAX_FILES
    ensures Slice(PatchedImage(c), LookupAt(c.plan) + c.plan.lookupLen + ENTRY_LEN, ENTRY_LEN * Injected(c.plan.files, i)) == FileEntries(c, i)
  {
    hide PatchedImage, FileEntry, Injects, LookupAt, Slice;
    var at := LookupAt(c.plan) + c.plan.lookupLen + ENTRY_LEN;
    if i == 0 {
      assert Slice(PatchedImage(c), at, 0) == [];
    } else {
      LookupFilesShown(c, i - 1);
      SliceSplit(PatchedImage(c), at, ENTRY_LEN * Injected(c.plan.files, i - 1), ENTRY_LEN);
      if Injects(c.plan.files[i - 1]) { FileEntryShown(c, i - 1); }
    }
  }

  lemma FileRegions(p: Plan, i: nat)
    requires |p.files| == MAX_FILES && i < MAX_FILES && Injects(p.files[i])
    ensures RegionOf(p, FileData(i)) == Region(FileData(i), FileAt(p, i), |p.files[i].data|)
    ensures RegionOf(p, LookupFile(i)) == Region(LookupFile(i),
      LookupAt(p) + p.lookupLen + ENTRY_LEN + ENTRY_LEN * Injected(p.files, i), ENTRY_LEN)
    ensures RegionOf(p, DirFile(i)) == Region(DirFile(i), DirAt(p) + DIR_STRIDE * Injected(p.files, i), DIR_FILE_LEN)
  {
    hide Injects, LookupAt, Injected, InjectedBytes, DirAt;
  }

  lemma FileContents(c: Case, i: nat)
    requires ValidCase(c) && i < MAX_FILES
    ensures ContentOf(c, FileData(i)) == c.plan.files[i].data && ContentOf(c, LookupFile(i)) == FileEntry(c, i)
    ensures ContentOf(c, DirFile(i)) == DirFileEntry(c.plan.files[i])
  {
    hide FileEntry, DirFileEntry;
  }

  lemma FileEntryShown(c: Case, i: nat)
    requires ValidCase(c) && i < MAX_FILES && Injects(c.plan.files[i])
    ensures Slice(PatchedImage(c), LookupAt(c.plan) + c.plan.lookupLen + ENTRY_LEN + ENTRY_LEN * Injected(c.plan.files, i), ENTRY_LEN) == FileEntry(c, i)
  {
    hide PatchedImage, FileEntry, Injects, LookupAt, Slice, Injected, ContentOf, RegionOf, FileAt, DirAt;
    FileRegions(c.plan, i);
    FileContents(c, i);
    RegionShowsAt(c, LookupFile(i), LookupAt(c.plan) + c.plan.lookupLen + ENTRY_LEN + ENTRY_LEN * Injected(c.plan.files, i), ENTRY_LEN, FileEntry(c, i));
  }

  lemma LookupHeadShown(c: Case)
    requires ValidCase(c)
    ensures Slice(PatchedImage(c), LookupAt(c.plan), c.plan.lookupLen) == c.lookup
    ensures Slice(PatchedImage(c), LookupAt(c.plan) + c.plan.lookupLen, ENTRY_LEN) == BootEntry(c)
  {
    hide PatchedImage, BootEntry, LookupAt, Slice, Injected;
    RegionShows(c, LookupCopy);
    RegionShows(c, LookupBoot);
  }

  /** The bytes of the patched lookup resource are the original table, the boot entry and the injected files' entries. */
  lemma LookupShown(c: Case)
    requires ValidCase(c)
    ensures Slice(PatchedImage(c), LookupAt(c.plan), LookupLen(c.plan)) == PatchedLookup(c)
  {
    hide PatchedImage, FileEntries, BootEntry, LookupAt, Injected, Slice;
    var img, p := PatchedImage(c), c.plan;
    LookupHeadShown(c);
    LookupFilesShown(c, |p.files|);
    SliceSplit(img, LookupAt(p), p.lookupLen, ENTRY_LEN + ENTRY_LEN * Total(p));
    SliceSplit(img, LookupAt(p) + p.lookupLen, ENTRY_LEN, ENTRY_LEN * Total(p));
  }

  /** A reader of an uncompressed resource sees its bytes. */
  lemma PlainReading(dec: Decompressor, img: Image, size: nat, codec: Codec, res: Resource, o: nat, n: nat)
    requires !Compressed(res) && res.offset + res.zlen <= size
    ensures Get(ReadingIn(dec, img, size, codec, res), o, n) == Get(ReadingSeq(Slice(img, res.offset, res.len)), o, n)
  {
    if o + n <= res.len {
      assert Slice(img, res.offset + o, n) == Slice(img, res.offset, res.len)[o..o + n];
    }
  }

  ghost predicate SameReading(a: Reading, b: Reading) {
    forall o: nat, n: nat :: Get(a, o, n) == Get(b, o, n)
  }

  lemma {:induction false} SameCount(a: Reading, b: Reading, len: nat, at: nat)
    requires SameReading(a, b)
    ensures CountImages(a, len, at) == CountImages(b, len, at)
    decreases len - at
  {
    hide Get;
    if at + ENTRY_LEN <= len {
      assert Get(a, at, ENTRY_LEN) == Get(b, at, ENTRY_LEN);
      SameCount(a, b, len, at + ENTRY_LEN);
    }
  }

  lemma {:induction false} SameMetadata(a: Reading, b: Reading, len: nat, at: nat, index: nat)
    requires SameReading(a, b) && index > 0
    ensures FindMetadata(a, len, at, index) == FindMetadata(b, len, at, index)
    decreases len - at
  {
    hide Get;
    if at + ENTRY_LEN <= len {
      assert Get(a, at, ENTRY_LEN) == Get(b, at, ENTRY_LEN);
      SameMetadata(a, b, len, at + ENTRY_LEN, index);
      if index > 1 { SameMetadata(a, b, len, at + ENTRY_LEN, index - 1); }
    }
  }

  /** Reading an entry of a table of whole entries. */
  lemma EntryOf(a: seq<byte>, e: seq<byte>, b: seq<byte>)
    requires |e| == ENTRY_LEN
    ensures Get(ReadingSeq(a + e + b), |a|, ENTRY_LEN) == Some(e)
  {
    assert (a + e + b)[|a|..|a| + ENTRY_LEN] == e;
  }

  /** Number of images in a table of whole entries. */
  function Images(t: seq<byte>): nat
    decreases |t|
  {
    if |t| < ENTRY_LEN then 0
    else (if IsMetadata(ResourceAt(t[..ENTRY_LEN], 0)) then 1 else 0) + Images(t[ENTRY_LEN..])
  }

  lemma {:induction false} CountIsImages(a: seq<byte>, t: seq<byte>)
    ensures CountImages(ReadingSeq(a + t), |a + t|, |a|) == Some(Images(t))
    decreases |t|
  {
    hide IsMetadata, ResourceAt;
    if |t| >= ENTRY_LEN {
      var e, rest := t[..ENTRY_LEN], t[ENTRY_LEN..];
      EntryOf(a, e, rest);
      assert a + t == a + e + rest == (a + e) + rest;
      CountIsImages(a + e, rest);
    }
  }

  lemma {:induction false} ImagesSplit(a: seq<byte>, b: seq<byte>)
    requires |a| % ENTRY_LEN == 0
    ensures Images(a + b) == Images(a) + Images(b)
    decreases |a|
  {
    hide IsMetadata, ResourceAt;
    if |a| < ENTRY_LEN {
      assert a == [] && a + b == b;
    } else {
      assert (a + b)[..ENTRY_LEN] == a[..ENTRY_LEN] && (a + b)[ENTRY_LEN..] == a[ENTRY_LEN..] + b;
      ImagesSplit(a[ENTRY_LEN..], b);
    }
  }

  /** In a table of whole entries, the metadata entry after all those of `a` is the one that follows `a`. */
  lemma {:induction false} MetadataAfter(pre: seq<byte>, a: seq<byte>, e: seq<byte>, b: seq<byte>)
    requires |a| % ENTRY_LEN == 0 && |e| == ENTRY_LEN && IsMetadata(ResourceAt(e, 0))
    ensures var t := pre + a + e + b;
      FindMetadata(ReadingSeq(t), |t|, |pre|, Images(a) + 1) == Some(ResourceAt(e, 0))
    decreases |a|
  {
    hide IsMetadata, ResourceAt, ReadingSeq, Get;
    var t := pre + a + e + b;
    if |a| < ENTRY_LEN {
      assert a == [] && t == pre + e + b;
      EntryOf(pre, e, b);
    } else {
      var x, rest := a[..ENTRY_LEN], a[ENTRY_LEN..];
      assert t == pre + x + (rest + e + b) == (pre + x) + rest + e + b;
      EntryOf(pre, x, rest + e + b);
      MetadataAfter(pre + x, rest, e, b);
    }
  }

  lemma BootEntryReads(c: Case)
    requires ValidCase(c) && ValidResource(c.header.boot)
    ensures ResourceAt(BootEntry(c), 0) == c.header.boot
  {
    hide ResourceBytes;
    assert BootEntry(c)[0..0 + 24] == ResourceBytes(c.header.boot);
    ResourceRoundTrip(c.header.boot, BootEntry(c), 0);
  }

  /** The lookup entry of an injected file reads back as the place of its data, and its hash. */
  lemma FileEntryReads(c: Case, i: nat)
    requires ValidCase(c) && i < MAX_FILES && Injects(c.plan.files[i])
    ensures var n := |c.plan.files[i].data|;
      ResourceAt(FileEntry(c, i), 0) == Resource(0, n, FileAt(c.plan, i), n)
    ensures FileEntry(c, i)[30..50] == Sha1.Hash(c.plan.files[i].data)
    ensures !IsMetadata(ResourceAt(FileEntry(c, i), 0))
  {
    hide ResourceBytes, Sha1.Hash, LE, Injects, Injected, InjectedBytes;
    var n := |c.plan.files[i].data|;
    var res := Resource(0, n, FileAt(c.plan, i), n);
    InStretch(c.plan, FileData(i));
    StretchMonotone(c.plan, 1, 7);
    assert FileEntry(c, i)[0..0 + 24] == ResourceBytes(res);
    ResourceRoundTrip(res, FileEntry(c, i), 0);
  }

  lemma {:induction false} FileEntriesHaveNoImages(c: Case, i: nat)
    requires ValidCase(c) && i <= MAX_FILES
    ensures Images(FileEntries(c, i)) == 0
  {
    hide FileEntry, Injects, IsMetadata, ResourceAt, Images, Injected;
    if i == 0 {
      NoEntries();
    } else {
      FileEntriesHaveNoImages(c, i - 1);
      if Injects(c.plan.files[i - 1]) {
        FileEntryReads(c, i - 1);
        WholeEntries(Injected(c.plan.files, i - 1));
        ImagesSplit(FileEntries(c, i - 1), FileEntry(c, i - 1));
        OneEntry(FileEntry(c, i - 1));
      } else {
        assert FileEntries(c, i - 1) + [] == FileEntries(c, i - 1);
      }
    }
  }

  lemma NoEntries()
    ensures Images([]) == 0
  {
  }

  lemma WholeEntries(k: nat)
    ensures (ENTRY_LEN * k) % ENTRY_LEN == 0
  {
  }

  lemma OneEntry(e: seq<byte>)
    requires |e| == ENTRY_LEN
    ensures Images(e) == if IsMetadata(ResourceAt(e, 0)) then 1 else 0
  {
    hide IsMetadata, ResourceAt;
    assert e[..ENTRY_LEN] == e && Images(e[ENTRY_LEN..]) == 0;
  }

  /** The patched table has one image more than the original, and that image is the patched boot metadata. */
  lemma PatchedLookupImages(c: Case)
    requires ValidCase(c) && |c.lookup| % ENTRY_LEN == 0 && ValidResource(c.header.boot) && IsMetadata(c.header.boot)
    ensures var t := PatchedLookup(c);
      && CountImages(ReadingSeq(t), |t|, 0) == Some(Images(c.lookup) + 1)
      && FindMetadata(ReadingSeq(t), |t|, 0, Images(c.lookup) + 1) == Some(c.header.boot)
  {
    hide FileEntries, BootEntry, IsMetadata, ResourceAt, Images, CountImages, FindMetadata;
    var t, files := PatchedLookup(c), FileEntries(c, MAX_FILES);
    BootEntryReads(c);
    FileEntriesHaveNoImages(c, |c.plan.files|);
    OneEntry(BootEntry(c));
    ImagesSplit(c.lookup, BootEntry(c) + files);
    ImagesSplit(BootEntry(c), files);
    assert [] + t == t && t == c.lookup + (BootEntry(c) + files) && [] + c.lookup + BootEntry(c) + files == t;
    CountIsImages([], t);
    MetadataAfter([], c.lookup, BootEntry(c), files);
  }

  // ---------------------------------------------------------------- from a constructed patch

  /** The original lookup table and metadata can be read in full. */
  predicate Intact(dec: Decompressor, file: File, f: Findings) {
    var h := OriginalHeader(file);
    && h.lookup.offset + h.lookup.zlen <= file.size && Contents(dec, file.img, CodecIn(h), h.lookup).Some?
    && f.boot.offset + f.boot.zlen <= file.size && Contents(dec, file.img, CodecIn(h), f.boot).Some?
  }

  function LookupBytes(dec: Decompressor, file: File, f: Findings): seq<byte>
    requires Intact(dec, file, f)
  {
    Contents(dec, file.img, CodecIn(OriginalHeader(file)), OriginalHeader(file).lookup).value
  }

  function MetaBytes(dec: Decompressor, file: File, f: Findings): seq<byte>
    requires Intact(dec, file, f)
  {
    Contents(dec, file.img, CodecIn(OriginalHeader(file)), f.boot).value
  }

  function CaseOf(dec: Decompressor, file: File, files: seq<VFile>, f: Findings): Case
    requires Intact(dec, file, f)
  {
    var p := PlanFor(file, files, f);
    Case(file.img, p, PatchedHeader(file, f, p), LookupBytes(dec, file, f), MetaBytes(dec, file, f), f.dirOffset)
  }

  lemma IntactReading(dec: Decompressor, img: Image, size: nat, codec: Codec, res: Resource)
    requires res.offset + res.zlen <= size && Contents(dec, img, codec, res).Some?
    ensures |Contents(dec, img, codec, res).value| == res.len
    ensures SameReading(ReadingIn(dec, img, size, codec, res), ReadingSeq(Contents(dec, img, codec, res).value))
  {
    hide Contents, ReadResource;
    var all := Contents(dec, img, codec, res).value;
    ReadReturnsSlice(dec, img, size, codec, res, 0, 0);
    forall o: nat, n: nat ensures Get(ReadingIn(dec, img, size, codec, res), o, n) == Get(ReadingSeq(all), o, n) {
      if o + n <= res.len {
        ReadReturnsSlice(dec, img, size, codec, res, o, n);
      } else {
        ReadOutside(dec, img, size, codec, res, o, n);
      }
    }
  }

  lemma ReadOutside(dec: Decompressor, img: Image, size: nat, codec: Codec, res: Resource, o: nat, n: nat)
    requires o + n > res.len
    ensures ReadResource(dec, img, size, codec, res, o, n) == None
  {
  }

  lemma {:induction false} SameDirLen(a: Reading, b: Reading, limit: nat, at: nat)
    requires SameReading(a, b)
    ensures DirLen(a, limit, at) == DirLen(b, limit, at)
    decreases limit - at
  {
    hide Get, FromLE;
    if at + 8 <= limit {
      assert Get(a, at, 8) == Get(b, at, 8);
      if Get(a, at, 8).Some? && FromLE(Get(a, at, 8).value) != 0 { SameDirLen(a, b, limit, at + FromLE(Get(a, at, 8).value)); }
    }
  }

  lemma SameLook(a: Reading, b: Reading, name: seq<nat>, at: nat)
    requires SameReading(a, b)
    ensures LookAt(a, name, at) == LookAt(b, name, at)
  {
    hide Get, FromLE, NameMatches;
    assert Get(a, at, 8) == Get(b, at, 8) && Get(a, at, DIRENTRY_LEN) == Get(b, at, DIRENTRY_LEN);
    assert Get(a, at + DIRENTRY_LEN, 2 * (|name| + 1)) == Get(b, at + DIRENTRY_LEN, 2 * (|name| + 1));
  }

  lemma {:induction false} SameEntry(a: Reading, b: Reading, limit: nat, name: seq<nat>, at: nat)
    requires SameReading(a, b)
    ensures FindEntry(a, limit, name, at) == FindEntry(b, limit, name, at)
    decreases limit - at
  {
    hide LookAt, SameReading;
    if at + 8 <= limit {
      SameLook(a, b, name, at);
      match LookAt(a, name, at)
      case Fail =>
      case Here(e) =>
      case Skip(n) => SameEntry(a, b, limit, name, at + n);
    }
  }

  lemma {:induction false} SameWalk(a: Reading, b: Reading, limit: nat, names: seq<seq<nat>>, dir: nat)
    requires SameReading(a, b) && names != []
    ensures Walk(a, limit, names, dir) == Walk(b, limit, names, dir)
    decreases |names|
  {
    hide FindEntry, SameReading, FromLE;
    SameEntry(a, b, limit, names[0], dir);
    var f := FindEntry(a, limit, names[0], dir);
    if f.Some? && |f.value.entry| == DIRENTRY_LEN && |names| > 1 {
      SameWalk(a, b, limit, names[1..], SubdirOf(f.value.entry));
    }
  }

  lemma SamePath(a: Reading, b: Reading, limit: nat, path: seq<nat>)
    requires SameReading(a, b)
    ensures FindPath(a, limit, path) == FindPath(b, limit, path)
  {
    hide Walk, Get, FromLE, Components;
    assert Get(a, 0, 8) == Get(b, 0, 8);
    if Get(a, 0, 8).Some? { SameWalk(a, b, limit, Components(path), Align8(FromLE(Get(a, 0, 8).value[0..4]))); }
  }

  /** What was found when the patch was built, in terms of the original table and metadata bytes. */
  lemma FoundInBytes(dec: Decompressor, file: File, index: nat, f: Findings)
    requires Find(dec, file, index) == Some(f) && Intact(dec, file, f)
    ensures var l, m := LookupBytes(dec, file, f), MetaBytes(dec, file, f);
      && |l| == OriginalHeader(file).lookup.len && |m| == f.boot.len && f.count == Images(l)
      && DirLen(ReadingSeq(m), |m|, f.dirOffset) == Some(f.dirLen)
    ensures var found := FindPath(ReadingSeq(MetaBytes(dec, file, f)), f.boot.len, INJECT_DIR);
      found.Some? && found.value.offset == f.parent && SubdirOf(found.value.entry) == f.dirOffset
  {
    hide Contents, CountImages, FindPath, DirLen, SameReading, FromLE, OriginalHeader;
    var h := OriginalHeader(file);
    var l, m := LookupBytes(dec, file, f), MetaBytes(dec, file, f);
    IntactReading(dec, file.img, file.size, CodecIn(h), h.lookup);
    IntactReading(dec, file.img, file.size, CodecIn(h), f.boot);
    SameCount(LookupReading(dec, file), ReadingSeq(l), h.lookup.len, 0);
    assert [] + l == l;
    CountIsImages([], l);
    SamePath(MetaReading(dec, file, f.boot), ReadingSeq(m), f.boot.len, INJECT_DIR);
    SameDirLen(MetaReading(dec, file, f.boot), ReadingSeq(m), f.boot.len, f.dirOffset);
  }

  lemma HeaderFields(h: WimHeader)
    requires |h.raw| == HEADER_LEN && ValidResource(h.lookup) && ValidResource(h.boot)
    requires h.images < 0x1_0000_0000 && h.bootIndex < 0x1_0000_0000
    ensures var r := HeaderAt(HeaderBytes(h));
      r.images == h.images && r.lookup == h.lookup && r.boot == h.boot && r.bootIndex == h.bootIndex && CodecIn(r) == CodecIn(h)
  {
    hide LE, ResourceBytes, FromLE, ResourceAt;
    var b := HeaderBytes(h);
    assert b[44..48] == LE(h.images, 4) && b[120..124] == LE(h.bootIndex, 4) && b[16..20] == h.raw[16..20];
    assert b[48..48 + 24] == ResourceBytes(h.lookup) && b[96..96 + 24] == ResourceBytes(h.boot);
    RangeValues();
    LERoundTrip(h.images, 4);
    LERoundTrip(h.bootIndex, 4);
    ResourceRoundTrip(h.lookup, b, 48);
    ResourceRoundTrip(h.boot, b, 96);
  }

  lemma {:induction false} DirLenInside(rd: Reading, limit: nat, at: nat)
    requires DirLen(rd, limit, at).Some?
    ensures at + DirLen(rd, limit, at).value + 8 <= limit
    decreases limit - at
  {
    hide Get, FromLE;
    var l := Get(rd, at, 8);
    if FromLE(l.value) != 0 { DirLenInside(rd, limit, at + FromLE(l.value)); }
  }

  lemma {:induction false} EntryInside(m: seq<byte>, name: seq<nat>, at: nat)
    requires FindEntry(ReadingSeq(m), |m|, name, at).Some?
    ensures FindEntry(ReadingSeq(m), |m|, name, at).value.offset + DIRENTRY_LEN <= |m|
    decreases |m| - at
  {
    hide FromLE, NameMatches;
    match LookAt(ReadingSeq(m), name, at)
    case Here(e) =>
    case Skip(n) => EntryInside(m, name, at + n);
  }

  lemma {:induction false} WalkInside(m: seq<byte>, names: seq<seq<nat>>, dir: nat)
    requires names != [] && Walk(ReadingSeq(m), |m|, names, dir).Some?
    ensures Walk(ReadingSeq(m), |m|, names, dir).value.offset + DIRENTRY_LEN <= |m|
    decreases |names|
  {
    hide FindEntry, FromLE;
    var f := FindEntry(ReadingSeq(m), |m|, names[0], dir);
    if |names| == 1 { EntryInside(m, names[0], dir); } else { WalkInside(m, names[1..], SubdirOf(f.value.entry)); }
  }

  /** A constructed patch satisfies everything the callbacks rely on. */
  lemma CaseIsValid(dec: Decompressor, file: File, files: seq<VFile>, index: nat, f: Findings)
    requires Find(dec, file, index) == Some(f) && Intact(dec, file, f) && Table(files) && file.size >= HEADER_LEN
    requires End(PlanFor(file, files, f)) < ZLEN_RANGE
    ensures ValidCase(CaseOf(dec, file, files, f))
    ensures f.parent + DIRENTRY_LEN <= f.boot.len
  {
    hide Find, Contents, Walk, DirLen, End, FromLE, Components, OriginalHeader;
    assert |OriginalHeader(file).raw| == HEADER_LEN;
    FoundInBytes(dec, file, index, f);
    var m := MetaBytes(dec, file, f);
    WalkInside(m, Components(INJECT_DIR), Align8(FromLE(Get(ReadingSeq(m), 0, 8).value[0..4])));
    DirLenInside(ReadingSeq(m), |m|, f.dirOffset);
  }

  predicate Indexable(f: Findings) {
    f.count + 1 < 0x1_0000_0000
  }

  /** A reader of the patched file finds the patched header fields. */
  lemma HeaderShown(c: Case)
    requires ValidCase(c) && ValidResource(c.header.lookup) && ValidResource(c.header.boot)
    requires c.header.images < 0x1_0000_0000 && c.header.bootIndex < 0x1_0000_0000
    ensures var r := HeaderAt(Slice(PatchedImage(c), 0, HEADER_LEN));
      && r.images == c.header.images && r.lookup == c.header.lookup && r.boot == c.header.boot
      && r.bootIndex == c.header.bootIndex && CodecIn(r) == CodecIn(c.header)
  {
    hide PatchedImage, HeaderBytes, HeaderAt, Slice, CodecIn;
    RegionShows(c, Header);
    HeaderFields(c.header);
  }

  lemma PatchedResources(p: Plan)
    requires ValidPlan(p) && End(p) < ZLEN_RANGE
    ensures LookupAt(p) + LookupLen(p) <= End(p) && BootAt(p) <= End(p)
    ensures ValidResource(Resource(0, LookupLen(p), LookupAt(p), LookupLen(p)))
    ensures ValidResource(Resource(2, End(p) - BootAt(p), BootAt(p), End(p) - BootAt(p)))
  {
    hide Injected, InjectedBytes;
  }

  /** A reader of `img` finds in its header that image `n` is the boot image, counts `n` images in the lookup table,
      and finds the metadata of image `n` to be the header's boot metadata. */
  predicate DescribesImage(dec: Decompressor, img: Image, size: nat, n: nat) {
    var h := HeaderAt(Slice(img, 0, HEADER_LEN));
    var table := ReadingIn(dec, img, size, CodecIn(h), h.lookup);
    && h.images == h.bootIndex == n > 0
    && CountImages(table, h.lookup.len, 0) == Some(n)
    && FindMetadata(table, h.lookup.len, 0, n) == Some(h.boot)
  }

  /** Patched lookup coherence: the patched header, lookup table and image count describe one image, the injected one. */
  lemma LookupCoherence(dec: Decompressor, file: File, files: seq<VFile>, index: nat, f: Findings)
    requires Find(dec, file, index) == Some(f) && Intact(dec, file, f) && Table(files) && file.size >= HEADER_LEN
    requires End(PlanFor(file, files, f)) < ZLEN_RANGE && Indexable(f)
    requires OriginalHeader(file).lookup.len % ENTRY_LEN == 0
    ensures ValidCase(CaseOf(dec, file, files, f))
    ensures DescribesImage(dec, PatchedImage(CaseOf(dec, file, files, f)), End(PlanFor(file, files, f)), f.count + 1)
  {
    hide Find, PatchedImage, DescribesImage, PatchedCase, CaseOf, Images, OriginalHeader, End, Intact;
    CaseIsPatched(dec, file, files, index, f);
    TableCoherence(dec, CaseOf(dec, file, files, f));
  }

  lemma CaseIsPatched(dec: Decompressor, file: File, files: seq<VFile>, index: nat, f: Findings)
    requires Find(dec, file, index) == Some(f) && Intact(dec, file, f) && Table(files) && file.size >= HEADER_LEN
    requires End(PlanFor(file, files, f)) < ZLEN_RANGE && Indexable(f)
    ensures var c := CaseOf(dec, file, files, f);
      && PatchedCase(c) && c.plan == PlanFor(file, files, f) && Images(c.lookup) == f.count
      && |c.lookup| == OriginalHeader(file).lookup.len && ValidCase(c)
  {
    hide Find, Images, OriginalHeader, LookupAt, BootAt, LookupLen, End, Contents, DirLen, FindPath;
    CaseIsValid(dec, file, files, index, f);
    FoundInBytes(dec, file, index, f);
  }

  /** The header of a case is the patched one. */
  predicate PatchedCase(c: Case) {
    && ValidCase(c)
    && c.header.lookup == Resource(0, LookupLen(c.plan), LookupAt(c.plan), LookupLen(c.plan))
    && c.header.boot == Resource(2, End(c.plan) - BootAt(c.plan), BootAt(c.plan), End(c.plan) - BootAt(c.plan))
    && c.header.images == c.header.bootIndex == Images(c.lookup) + 1 < 0x1_0000_0000
  }

  lemma TableCoherence(dec: Decompressor, c: Case)
    requires PatchedCase(c) && |c.lookup| % ENTRY_LEN == 0
    ensures DescribesImage(dec, PatchedImage(c), End(c.plan), Images(c.lookup) + 1)
  {
    hide PatchedImage, HeaderAt, Slice, CodecIn, CountImages, FindMetadata, Images, PatchedLookup;
    hide LookupAt, BootAt, LookupLen, End, ReadingIn, ReadingSeq, SameReading;
    PatchedResources(c.plan);
    HeaderShown(c);
    LookupShown(c);
    PatchedLookupImages(c);
    var h := HeaderAt(Slice(PatchedImage(c), 0, HEADER_LEN));
    TableReads(dec, c, CodecIn(h));
    var table := ReadingIn(dec, PatchedImage(c), End(c.plan), CodecIn(h), h.lookup);
    SameCount(table, ReadingSeq(PatchedLookup(c)), h.lookup.len, 0);
    SameMetadata(table, ReadingSeq(PatchedLookup(c)), h.lookup.len, 0, h.bootIndex);
  }

  /** Reading the patched lookup resource is reading the patched table. */
  lemma TableReads(dec: Decompressor, c: Case, codec: Codec)
    requires PatchedCase(c)
    ensures |PatchedLookup(c)| == c.header.lookup.len
    ensures SameReading(ReadingIn(dec, PatchedImage(c), End(c.plan), codec, c.header.lookup), ReadingSeq(PatchedLookup(c)))
  {
    hide PatchedImage, Slice, PatchedLookup, LookupAt, BootAt, LookupLen, End, ReadingIn, ReadingSeq, SameReading, Images;
    PatchedResources(c.plan);
    LookupShown(c);
    PlainSame(dec, PatchedImage(c), End(c.plan), codec, c.header.lookup);
  }

  lemma PlainSame(dec: Decompressor, img: Image, size: nat, codec: Codec, res: Resource)
    requires !Compressed(res) && res.offset + res.zlen <= size
    ensures SameReading(ReadingIn(dec, img, size, codec, res), ReadingSeq(Slice(img, res.offset, res.len)))
  {
    hide Slice, Get;
    forall o: nat, n: nat
      ensures Get(ReadingIn(dec, img, size, codec, res), o, n) == Get(ReadingSeq(Slice(img, res.offset, res.len)), o, n)
    {
      PlainReading(dec, img, size, codec, res, o, n);
    }
  }
}
