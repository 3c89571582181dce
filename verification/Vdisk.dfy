/** The virtual FAT32 disk: geometry, file allocation table, sectors and ranged reads (src/vdisk.c, src/vdisk.h). */
module Vdisk {
  import opened Bytes
  import opened VdiskDir

  // ---------------------------------------------------------------- geometry

  const SECTOR_SIZE := 512
  const PARTITION_LBA := 128
  const CLUSTER_COUNT := 64
  const CLUSTER_SIZE := 32768
  const CLUSTERS := 0x03ffc000
  const MAX_FILES := 63
  const FILE_COUNT := 0x800000
  const FILE_CLUSTERS := 131072
  const SECTORS_PER_FAT := (CLUSTERS * 4 + CLUSTER_SIZE - 1) / CLUSTER_SIZE * CLUSTER_COUNT
  const RESERVED_COUNT := 64
  const FAT_LBA := PARTITION_LBA + RESERVED_COUNT
  const FIRST_FILE_CLUSTER := (FILE_COUNT - PARTITION_LBA - RESERVED_COUNT - SECTORS_PER_FAT) / CLUSTER_COUNT + 2
  const PARTITION_COUNT := RESERVED_COUNT + SECTORS_PER_FAT + CLUSTERS * CLUSTER_COUNT
  const ROOT_LBA := FAT_LBA + SECTORS_PER_FAT
  const ROOT_CLUSTER := 2
  const END_MARKER := 0x0ffffff8
  const SIZE_RANGE := 0x1_0000_0000_0000_0000

  function FileLba(i: nat): nat {
    (i + 1) * FILE_COUNT
  }

  function FileCluster(i: nat): nat {
    FIRST_FILE_CLUSTER + i * FILE_CLUSTERS
  }

  /** First sector of a data cluster, counted from the start of the disk. */
  function ClusterLba(c: nat): nat
    requires c >= 2
  {
    PARTITION_LBA + RESERVED_COUNT + SECTORS_PER_FAT + (c - 2) * CLUSTER_COUNT
  }

  /** The cluster and sector numberings of file `i` meet. */
  lemma GeometryAgrees(i: nat)
    ensures ClusterLba(FileCluster(i)) == FileLba(i)
    ensures FIRST_FILE_CLUSTER == 122881 && SECTORS_PER_FAT == 524160 && ROOT_LBA == 524352
  {
  }

  // ---------------------------------------------------------------- the file table

  /** A virtual file: `data` is what its read method returns, `overlay` what its patch method writes, by file offset. */
  datatype VFile = VFile(present: bool, name: seq<byte>, data: seq<byte>, xlen: nat, overlay: map<nat, byte>)

  const ABSENT := VFile(false, [], [], 0, map[])

  predicate Table(files: seq<VFile>) {
    && |files| == MAX_FILES
    && forall i :: 0 <= i < MAX_FILES ==>
      && ValidName(files[i].name) && files[i].xlen < SIZE_RANGE
      && (!files[i].present ==> files[i] == ABSENT)
  }

  /** Byte `p` of a file as the disk shows it: patched, then original, then zero padding. */
  function FileByte(f: VFile, p: nat): byte {
    if p < f.xlen && p in f.overlay then f.overlay[p] else if p < |f.data| then f.data[p] else 0
  }

  // ---------------------------------------------------------------- sectors

  /** The cluster whose table entry ends file `i`, in the source's arithmetic: 64-bit lengths, 32-bit clusters. */
  function Marker(i: nat, xlen: nat): nat
    requires xlen < SIZE_RANGE
  {
    (FileCluster(i) + (xlen + SIZE_RANGE - 1) % SIZE_RANGE / CLUSTER_SIZE) % 0x1_0000_0000
  }

  predicate Ends(files: seq<VFile>, i: nat, c: nat)
    requires Table(files) && i < MAX_FILES
  {
    files[i].present && Marker(i, files[i].xlen) == c
  }

  /** One of the first `n` files ends at cluster `c`. */
  predicate EndedBefore(files: seq<VFile>, n: nat, c: nat)
    requires Table(files) && n <= MAX_FILES
  {
    exists i :: 0 <= i < n && Ends(files, i, c)
  }

  function FatEntry(files: seq<VFile>, c: nat): nat
    requires Table(files)
  {
    if EndedBefore(files, MAX_FILES, c) then END_MARKER
    else if c < 128 then END_MARKER
    else c + 1
  }

  function FatWindow(files: seq<VFile>, start: nat, n: nat): (r: seq<nat>)
    requires Table(files)
    ensures |r| == n
  {
    seq<nat>(n, k requires 0 <= k => FatEntry(files, start + k))
  }

  function WordBytes(ws: seq<nat>): (r: seq<byte>)
    ensures |r| == 4 * |ws|
  {
    if ws == [] then [] else LE(ws[0], 4) + WordBytes(ws[1..])
  }

  function Flat(es: seq<seq<byte>>): (r: seq<byte>)
    requires SizedEntries(es)
    ensures |r| == DIRENT_SIZE * |es|
  {
    if es == [] then [] else es[0] + Flat(es[1..])
  }

  const BOOT: seq<byte> := [66, 79, 79, 84]
  const SOURCES: seq<byte> := [83, 79, 85, 82, 67, 69, 83]
  const EFI: seq<byte> := [69, 70, 73]
  const FONTS: seq<byte> := [70, 79, 78, 84, 83]
  const RESOURCES: seq<byte> := [82, 69, 83, 79, 85, 82, 67, 69, 83]
  const MICROSOFT: seq<byte> := [77, 73, 67, 82, 79, 83, 79, 70, 84]

  /** Subdirectories of directory `d`, counted from the root: root, boot, sources, fonts, resources, EFI, Microsoft. */
  function SubdirList(d: nat): seq<DirEntry> {
    if d == 0 then [Subdir(BOOT, 3), Subdir(SOURCES, 4), Subdir(EFI, 7)]
    else if d == 1 then [Subdir(FONTS, 5), Subdir(RESOURCES, 6)]
    else if d == 5 then [Subdir(BOOT, 3), Subdir(MICROSOFT, 8)]
    else if d == 6 then [Subdir(BOOT, 3)]
    else []
  }

  function Subdir(name: seq<byte>, cluster: nat): DirEntry {
    DirEntry(name, 0, 0x10, cluster)
  }

  /** The one entry of the directory sector of file `i`, if there is such a file. */
  function FileList(files: seq<VFile>, i: nat): seq<DirEntry>
    requires Table(files) && i < MAX_FILES
  {
    if files[i].present then [DirEntry(files[i].name, files[i].xlen % 0x1_0000_0000, 0x01, FileCluster(i))] else []
  }

  lemma SubdirsFit(d: nat)
    ensures Fits(SubdirList(d))
  {
    hide Tail, DosEntry, LfnPiece;
    var ds := SubdirList(d);
    if ds != [] { PlaceSmall(ds); }
  }

  lemma FilesFit(files: seq<VFile>, i: nat)
    requires Table(files) && i < MAX_FILES
    ensures Fits(FileList(files, i))
  {
    PlaceSmall(FileList(files, i));
  }

  lemma {:induction false} PlaceSmall(ds: seq<DirEntry>)
    requires |ds| <= 4 && forall i :: 0 <= i < |ds| ==> ValidEntry(ds[i])
    ensures |Place(ds)| <= 4 * |ds|
  {
    hide Tail;
    if ds != [] {
      assert ValidEntry(ds[|ds| - 1]);
      PlaceSmall(ds[..|ds| - 1]);
    }
  }

  function DirSector(ds: seq<DirEntry>): (r: seq<byte>)
    requires Fits(ds)
    ensures |r| == SECTOR_SIZE
  {
    DirectoryRoundTrip(ds);
    Flat(DirEntries(ds))
  }

  function MbrSector(): (r: seq<byte>)
    ensures |r| == SECTOR_SIZE
  {
    Put(Put(Put(Put(Put(Put(Zeros(SECTOR_SIZE), 446, [0x80]), 450, [0x0c]), 454, LE(PARTITION_LBA, 4)),
                    458, LE(PARTITION_COUNT, 4)), 440, LE(0xc0ffeeee, 4)), 510, LE(0xaa55, 2))
  }

  const OEMID: seq<byte> := [119, 105, 109, 98, 111, 111, 116, 0]
  const LABEL: seq<byte> := [119, 105, 109, 98, 111, 111, 116, 32, 32, 32, 32]
  const SYSTEM: seq<byte> := [70, 65, 84, 51, 50, 32, 32, 32]

  function VbrSector(): (r: seq<byte>)
    ensures |r| == SECTOR_SIZE
  {
    var a := Put(Put(Put(Zeros(SECTOR_SIZE), 0, [0xe9]), 3, OEMID), 11, LE(SECTOR_SIZE, 2));
    var b := Put(Put(Put(Put(a, 13, [CLUSTER_COUNT]), 14, LE(RESERVED_COUNT, 2)), 16, [1]), 21, [0xf8]);
    var c := Put(Put(Put(Put(b, 24, LE(63, 2)), 26, LE(255, 2)), 28, LE(PARTITION_LBA, 4)), 32, LE(PARTITION_COUNT, 4));
    var d := Put(Put(Put(Put(c, 36, LE(SECTORS_PER_FAT, 4)), 44, LE(ROOT_CLUSTER, 4)), 48, LE(1, 2)), 50, LE(6, 2));
    Put(Put(Put(Put(Put(d, 66, [0x29]), 67, LE(0xf00df00d, 4)), 71, LABEL), 82, SYSTEM), 510, LE(0xaa55, 2))
  }

  function FsinfoSector(): (r: seq<byte>)
    ensures |r| == SECTOR_SIZE
  {
    Put(Put(Put(Put(Zeros(SECTOR_SIZE), 0, LE(0x41615252, 4)), 484, LE(0x61417272, 4)), 492, LE(0xffffffff, 4)),
        508, LE(0xaa550000, 4))
  }

  /** What owns a sector below the first file. */
  datatype Kind = Empty | Mbr | Vbr | Fsinfo | Fat | Subdirs(d: nat) | DirFiles

  function KindAt(lba: nat): Kind {
    if lba == 0 then Mbr
    else if lba == PARTITION_LBA || lba == PARTITION_LBA + 6 then Vbr
    else if lba == PARTITION_LBA + 1 then Fsinfo
    else if FAT_LBA <= lba < ROOT_LBA then Fat
    else if ROOT_LBA <= lba < ROOT_LBA + 7 * CLUSTER_COUNT then
      if lba % CLUSTER_COUNT == 0 then Subdirs((lba - ROOT_LBA) / CLUSTER_COUNT) else DirFiles
    else Empty
  }

  function FileSector(f: VFile, offset: nat): (r: seq<byte>)
    ensures |r| == SECTOR_SIZE
  {
    seq<byte>(SECTOR_SIZE, j requires 0 <= j => FileByte(f, offset + j))
  }

  /** VDISK_FILE_DIRENT_IDX */
  function DirentIndex(lba: nat): nat
    requires lba > 0
  {
    (lba - 1) % CLUSTER_COUNT
  }

  function SystemSector(files: seq<VFile>, lba: nat, kind: Kind): (r: seq<byte>)
    requires Table(files)
    requires kind.Fat? ==> lba >= FAT_LBA
    requires kind.DirFiles? ==> lba > 0 && DirentIndex(lba) < MAX_FILES
    ensures |r| == SECTOR_SIZE
  {
    match kind
    case Empty => Zeros(SECTOR_SIZE)
    case Mbr => MbrSector()
    case Vbr => VbrSector()
    case Fsinfo => FsinfoSector()
    case Fat => WordBytes(FatWindow(files, (lba - FAT_LBA) * 128, 128))
    case Subdirs(d) => SubdirsFit(d); DirSector(SubdirList(d))
    case DirFiles => FilesFit(files, DirentIndex(lba)); DirSector(FileList(files, DirentIndex(lba)))
  }

  /** Every sector of the disk, from the file table. */
  function Sector(files: seq<VFile>, lba: nat): (r: seq<byte>)
    requires Table(files)
    ensures |r| == SECTOR_SIZE
  {
    if lba < FILE_COUNT then SystemSector(files, lba, KindAt(lba))
    else if lba / FILE_COUNT - 1 < MAX_FILES then FileSector(files[lba / FILE_COUNT - 1], lba % FILE_COUNT * SECTOR_SIZE)
    else Zeros(SECTOR_SIZE)
  }

  function Sectors(files: seq<VFile>, lba: nat, count: nat): (r: seq<byte>)
    requires Table(files)
    ensures |r| == SECTOR_SIZE * count
    decreases count
  {
    if count == 0 then [] else Sector(files, lba) + Sectors(files, lba + 1, count - 1)
  }

  lemma {:induction false} SectorsSplit(files: seq<VFile>, lba: nat, m: nat, n: nat)
    requires Table(files)
    ensures Sectors(files, lba, m + n) == Sectors(files, lba, m) + Sectors(files, lba + m, n)
    decreases m
  {
    hide Sector;
    if m > 0 { SectorsSplit(files, lba + 1, m - 1, n); }
  }
}
