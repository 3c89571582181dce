/** Ranged reads of the virtual disk: the region builders and the fragment loop (src/vdisk.c). */
module VdiskRead {
  import opened Bytes
  import opened VdiskDir
  import opened Vdisk

  // ---------------------------------------------------------------- what a range read delivers

  /** A range that starts below the first file and ends beyond its first sector. */
  predicate Crosses(lba: nat, count: nat) {
    lba < FILE_COUNT < lba + count
  }

  /** The delivered bytes: the sectors of the range, except that a range that crosses into the first file
      is zero from there on. */
  function Delivered(files: seq<VFile>, lba: nat, count: nat): seq<byte>
    requires Table(files)
  {
    if Crosses(lba, count)
    then Sectors(files, lba, FILE_COUNT - lba) + Zeros(SECTOR_SIZE * (lba + count - FILE_COUNT))
    else Sectors(files, lba, count)
  }

  /** Reading a range is reading its sectors exactly when it does not cross into sectors that hold data. */
  lemma DeliveredExactly(files: seq<VFile>, lba: nat, count: nat)
    requires Table(files)
    ensures Delivered(files, lba, count) == Sectors(files, lba, count) <==>
      !Crosses(lba, count) ||
      Sectors(files, FILE_COUNT, lba + count - FILE_COUNT) == Zeros(SECTOR_SIZE * (lba + count - FILE_COUNT))
  {
    hide Sectors;
    if Crosses(lba, count) {
      var m, n := FILE_COUNT - lba, lba + count - FILE_COUNT;
      SectorsSplit(files, lba, m, n);
      var all, part := Sectors(files, lba, count), Delivered(files, lba, count);
      assert all[SECTOR_SIZE * m..] == Sectors(files, FILE_COUNT, n) && part[SECTOR_SIZE * m..] == Zeros(SECTOR_SIZE * n);
    }
  }

  /** The smallest crossing read hides the first byte of a file: the read is not the sectors. */
  lemma CrossingHidesData(files: seq<VFile>)
    requires Table(files) && files[0].data != [] && files[0].data[0] != 0 && files[0].overlay == map[]
    ensures Delivered(files, FILE_COUNT - 1, 2) != Sectors(files, FILE_COUNT - 1, 2)
  {
    DeliveredExactly(files, FILE_COUNT - 1, 2);
    assert Sectors(files, FILE_COUNT + 1, 0) == [];
    assert Sectors(files, FILE_COUNT, 1)[0] == Sector(files, FILE_COUNT)[0] == FileByte(files[0], 0);
  }

  // ---------------------------------------------------------------- regions

  datatype Region = Region(lba: nat, count: nat, kind: Kind)

  const REGIONS := 19

  /** vdisk_regions, in table order. */
  function RegionOf(i: nat): Region
    requires i < REGIONS
  {
    if i == 0 then Region(0, 1, Mbr)
    else if i == 1 then Region(PARTITION_LBA, 1, Vbr)
    else if i == 2 then Region(PARTITION_LBA + 1, 1, Fsinfo)
    else if i == 3 then Region(PARTITION_LBA + 6, 1, Vbr)
    else if i == 4 then Region(FAT_LBA, SECTORS_PER_FAT, Fat)
    else
      var d := (i - 5) / 2;
      if (i - 5) % 2 == 0 then Region(ROOT_LBA + d * CLUSTER_COUNT, 1, Subdirs(d))
      else Region(ROOT_LBA + d * CLUSTER_COUNT + 1, CLUSTER_COUNT - 1, DirFiles)
  }

  predicate Owns(i: nat, lba: nat)
    requires i < REGIONS
  {
    RegionOf(i).lba <= lba < RegionOf(i).lba + RegionOf(i).count
  }

  lemma OwnerKind(i: nat, lba: nat)
    requires i < REGIONS && Owns(i, lba)
    ensures KindAt(lba) == RegionOf(i).kind && lba < FILE_COUNT
  {
  }

  /** No sector is owned by two regions. */
  lemma OwnerUnique(i: nat, j: nat, lba: nat)
    requires i < REGIONS && j < REGIONS && Owns(i, lba) && Owns(j, lba)
    ensures i == j
  {
    if i >= 5 && j >= 5 {
      var d, e := (i - 5) / 2, (j - 5) / 2;
      assert ROOT_LBA + d * CLUSTER_COUNT <= lba < ROOT_LBA + (d + 1) * CLUSTER_COUNT;
      assert ROOT_LBA + e * CLUSTER_COUNT <= lba < ROOT_LBA + (e + 1) * CLUSTER_COUNT;
    }
  }

  lemma OwnerExists(lba: nat)
    requires lba < FILE_COUNT && KindAt(lba) != Empty
    ensures exists i :: 0 <= i < REGIONS && Owns(i, lba)
  {
    if lba == 0 { assert Owns(0, lba); }
    else if lba == PARTITION_LBA { assert Owns(1, lba); }
    else if lba == PARTITION_LBA + 1 { assert Owns(2, lba); }
    else if lba == PARTITION_LBA + 6 { assert Owns(3, lba); }
    else if lba < ROOT_LBA { assert Owns(4, lba); }
    else {
      var d := (lba - ROOT_LBA) / CLUSTER_COUNT;
      if lba % CLUSTER_COUNT == 0 { assert Owns(5 + 2 * d, lba); } else { assert Owns(6 + 2 * d, lba); }
    }
  }

  /** Every sector of the fragment has the same owner. */
  ghost predicate Uniform(from: nat, to: nat, kind: Kind) {
    forall l :: from <= l < to && (kind != Empty || l < FILE_COUNT) ==> l < FILE_COUNT && KindAt(l) == kind
  }

  /** The region loop of vdisk_read: cut the fragment at region boundaries and name its owner. */
  method NextFragment(fragStart: nat, end: nat) returns (fragEnd: nat, kind: Kind)
    requires fragStart <= end && fragStart < FILE_COUNT
    ensures fragStart <= fragEnd <= end && (fragStart < end ==> fragStart < fragEnd)
    ensures Uniform(fragStart, fragEnd, kind)
    ensures kind.Mbr? || kind.Vbr? || kind.Fsinfo? || kind.Subdirs? ==> fragEnd == fragStart + 1
    ensures fragEnd >= FILE_COUNT ==> fragEnd == end
    ensures kind == Empty || fragStart == fragEnd || KindAt(fragStart) == kind
  {
    fragEnd, kind := end, Empty;
    for i := 0 to REGIONS
      invariant fragStart <= fragEnd <= end && (fragStart < end ==> fragStart < fragEnd)
      invariant fragEnd >= FILE_COUNT ==> fragEnd == end
      invariant forall j, l :: 0 <= j < i && fragStart <= l < fragEnd ==> !Owns(j, l)
    {
      var region := RegionOf(i);
      var regionEnd := region.lba + region.count;
      if fragStart < region.lba < fragEnd {
        fragEnd := region.lba;
      }
      if fragStart >= regionEnd || fragEnd <= region.lba {
        continue;
      }
      if fragEnd > regionEnd {
        fragEnd := regionEnd;
      }
      forall l | fragStart <= l < fragEnd ensures l < FILE_COUNT && KindAt(l) == region.kind {
        OwnerKind(i, l);
      }
      return fragEnd, region.kind;
    }
    forall l | fragStart <= l < fragEnd && l < FILE_COUNT ensures KindAt(l) == Empty {
      if KindAt(l) != Empty { OwnerExists(l); }
    }
  }

  // ---------------------------------------------------------------- builders

  lemma {:induction false} WordBytesSplit(a: seq<nat>, b: seq<nat>)
    ensures WordBytes(a + b) == WordBytes(a) + WordBytes(b)
  {
    hide LE;
    if a == [] {
      assert a + b == b;
    } else {
      WordBytesSplit(a[1..], b);
      assert (a + b)[1..] == a[1..] + b;
    }
  }

  lemma FatSector(files: seq<VFile>, lba: nat)
    requires Table(files) && FAT_LBA <= lba < ROOT_LBA
    ensures Sector(files, lba) == WordBytes(FatWindow(files, (lba - FAT_LBA) * 128, 128))
  {
    hide WordBytes;
  }

  lemma {:induction false} FatSectors(files: seq<VFile>, lba: nat, count: nat)
    requires Table(files) && FAT_LBA <= lba && lba + count <= ROOT_LBA
    ensures WordBytes(FatWindow(files, (lba - FAT_LBA) * 128, count * 128)) == Sectors(files, lba, count)
    decreases count
  {
    hide Sector, WordBytes, FatEntry;
    if count > 0 {
      FatSector(files, lba);
      FatSectors(files, lba + 1, count - 1);
      var start := (lba - FAT_LBA) * 128;
      var a, b := FatWindow(files, start, 128), FatWindow(files, start + 128, count * 128 - 128);
      assert FatWindow(files, start, count * 128) == a + b;
      WordBytesSplit(a, b);
    }
  }

  /** vdisk_fat: chain every cluster to the next, close the system clusters, then close each file. */
  method BuildFat(files: seq<VFile>, lba: nat, count: nat) returns (next: array<nat>)
    requires Table(files) && FAT_LBA <= lba && lba + count <= ROOT_LBA && count > 0
    ensures fresh(next) && next[..] == FatWindow(files, (lba - FAT_LBA) * 128, count * 128)
  {
    hide Marker;
    var start := (lba - FAT_LBA) * 128;
    var end := start + count * 128;
    next := new nat[count * 128](k requires 0 <= k => 0);
    for i := start to end
      invariant forall k :: 0 <= k < i - start ==> next[k] == start + k + 1
    {
      next[i - start] := i + 1;
    }
    if start == 0 {
      next[0] := END_MARKER / 256 * 256 + 0xf8;
      for i := 1 to 128
        invariant forall k :: 0 <= k < next.Length ==> next[k] == if k < i then END_MARKER else k + 1
      {
        next[i] := END_MARKER;
      }
    }
    CloseFiles(files, start, next);
  }

  /** The end markers of the files that end inside the window. */
  method CloseFiles(files: seq<VFile>, start: nat, next: array<nat>)
    requires Table(files)
    requires forall k :: 0 <= k < next.Length ==> next[k] == if start + k < 128 then END_MARKER else start + k + 1
    modifies next
    ensures next[..] == FatWindow(files, start, next.Length)
  {
    hide Marker;
    for i := 0 to MAX_FILES
      invariant forall k :: 0 <= k < next.Length ==>
        next[k] == if EndedBefore(files, i, start + k) || start + k < 128 then END_MARKER else start + k + 1
    {
      var marker := if files[i].present then Marker(i, files[i].xlen) else 0;
      if files[i].present && start <= marker < start + next.Length {
        next[marker - start] := END_MARKER;
      }
      forall k | 0 <= k < next.Length
        ensures next[k] == if EndedBefore(files, i + 1, start + k) || start + k < 128 then END_MARKER else start + k + 1
      {
        EndedStep(files, i, start + k);
      }
    }
    ghost var window := FatWindow(files, start, next.Length);
    forall k | 0 <= k < next.Length ensures next[k] == window[k] {
      assert window[k] == FatEntry(files, start + k);
    }
  }

  lemma EndedStep(files: seq<VFile>, i: nat, c: nat)
    requires Table(files) && i < MAX_FILES
    ensures EndedBefore(files, i + 1, c) <==> EndedBefore(files, i, c) || Ends(files, i, c)
  {
  }

  /** vdisk_file: initialised data, zero padding, then the patch. */
  method BuildFile(f: VFile, offset: nat, len: nat) returns (data: array<byte>)
    ensures fresh(data) && data.Length == len && forall j :: 0 <= j < len ==> data[j] == FileByte(f, offset + j)
  {
    data := new byte[len](_ => 0xff);
    var copyLen := if offset < |f.data| then |f.data| - offset else 0;
    if copyLen > len { copyLen := len; }
    for j := 0 to copyLen
      invariant forall k :: 0 <= k < j ==> data[k] == f.data[offset + k]
    {
      data[j] := f.data[offset + j];
    }
    for j := copyLen to len
      invariant forall k :: 0 <= k < j ==> data[k] == if k < copyLen then f.data[offset + k] else 0
    {
      data[j] := 0;
    }
    var patchLen := if offset < f.xlen then f.xlen - offset else 0;
    if patchLen > len { patchLen := len; }
    for j := 0 to patchLen
      invariant forall k :: 0 <= k < j ==> data[k] == FileByte(f, offset + k)
      invariant forall k :: j <= k < len ==> data[k] == if offset + k < |f.data| then f.data[offset + k] else 0
    {
      if offset + j in f.overlay { data[j] := f.overlay[offset + j]; }
    }
  }

  lemma FileSectorIs(files: seq<VFile>, lba: nat, bytes: seq<byte>)
    requires Table(files) && |bytes| == SECTOR_SIZE && FILE_COUNT <= lba && lba / FILE_COUNT - 1 < MAX_FILES
    requires forall j :: 0 <= j < SECTOR_SIZE ==>
      bytes[j] == FileByte(files[lba / FILE_COUNT - 1], lba % FILE_COUNT * SECTOR_SIZE + j)
    ensures bytes == Sector(files, lba)
  {
    hide FileByte;
  }

  lemma {:induction false} FileSectors(files: seq<VFile>, lba: nat, count: nat, bytes: seq<byte>)
    requires Table(files) && |bytes| == SECTOR_SIZE * count
    requires FILE_COUNT <= lba && lba / FILE_COUNT - 1 < MAX_FILES && lba % FILE_COUNT + count <= FILE_COUNT
    requires forall j :: 0 <= j < |bytes| ==>
      bytes[j] == FileByte(files[lba / FILE_COUNT - 1], lba % FILE_COUNT * SECTOR_SIZE + j)
    ensures bytes == Sectors(files, lba, count)
    decreases count
  {
    hide Sector, FileByte;
    if count > 0 {
      FileSectorIs(files, lba, bytes[..SECTOR_SIZE]);
      if count > 1 {
        assert (lba + 1) / FILE_COUNT == lba / FILE_COUNT && (lba + 1) % FILE_COUNT == lba % FILE_COUNT + 1;
        FileSectors(files, lba + 1, count - 1, bytes[SECTOR_SIZE..]);
      }
      assert bytes == bytes[..SECTOR_SIZE] + bytes[SECTOR_SIZE..];
    }
  }

  lemma {:induction false} ZeroSectors(files: seq<VFile>, lba: nat, count: nat)
    requires Table(files)
    requires forall l :: lba <= l < lba + count ==> Sector(files, l) == Zeros(SECTOR_SIZE)
    ensures Sectors(files, lba, count) == Zeros(SECTOR_SIZE * count)
    decreases count
  {
    hide Sector;
    if count > 0 {
      ZeroSectors(files, lba + 1, count - 1);
      assert Sector(files, lba) == Zeros(SECTOR_SIZE);
    }
  }

  /** The builder of one system fragment; directory sectors are built one at a time. */
  method BuildSystem(files: seq<VFile>, lba: nat, count: nat, kind: Kind) returns (bytes: seq<byte>)
    requires Table(files) && kind != Empty && Uniform(lba, lba + count, kind)
    requires kind.Mbr? || kind.Vbr? || kind.Fsinfo? || kind.Subdirs? ==> count == 1
    ensures bytes == Sectors(files, lba, count)
  {
    if count == 0 { return []; }
    assert KindAt(lba) == kind && KindAt(lba + count - 1) == kind;
    assert count == 1 ==> Sectors(files, lba, count) == Sector(files, lba) by { assert Sectors(files, lba + 1, 0) == []; }
    match kind
    case Mbr => bytes := MbrSector();
    case Vbr => bytes := VbrSector();
    case Fsinfo => bytes := FsinfoSector();
    case Fat =>
      var next := BuildFat(files, lba, count);
      FatSectors(files, lba, count);
      bytes := WordBytes(next[..]);
    case Subdirs(d) =>
      SubdirsFit(d);
      var dir := BuildDirectory(SubdirList(d));
      DirectoryRoundTrip(SubdirList(d));
      bytes := Flat(dir[..]);
    case DirFiles =>
      bytes := BuildDirFiles(files, lba, count);
  }

  lemma NoSectors(files: seq<VFile>, lba: nat)
    requires Table(files)
    ensures Sectors(files, lba, 0) == []
  {
  }

  lemma OneSector(files: seq<VFile>, lba: nat)
    requires Table(files)
    ensures Sectors(files, lba, 1) == Sector(files, lba)
  {
    hide Sector;
    NoSectors(files, lba + 1);
  }

  lemma DirFilesIs(files: seq<VFile>, lba: nat)
    requires Table(files) && lba < FILE_COUNT && KindAt(lba) == DirFiles && Fits(FileList(files, DirentIndex(lba)))
    ensures Sector(files, lba) == DirSector(FileList(files, DirentIndex(lba)))
  {
    hide Fits, FileList, DirSector;
  }

  lemma DirFilesSector(files: seq<VFile>, lba: nat)
    requires Table(files) && lba < FILE_COUNT && KindAt(lba) == DirFiles
    ensures DirentIndex(lba) < MAX_FILES && Fits(FileList(files, DirentIndex(lba)))
    ensures SizedEntries(DirEntries(FileList(files, DirentIndex(lba))))
    ensures Sectors(files, lba, 1) == Flat(DirEntries(FileList(files, DirentIndex(lba))))
  {
    hide Flat, DirEntries, Fits, FileList, Sectors, Sector;
    var i := DirentIndex(lba);
    OneSector(files, lba);
    FilesFit(files, i);
    DirectoryRoundTrip(FileList(files, i));
    DirFilesIs(files, lba);
  }

  /** vdisk_dir_files */
  method BuildDirFiles(files: seq<VFile>, lba: nat, count: nat) returns (bytes: seq<byte>)
    requires Table(files) && Uniform(lba, lba + count, DirFiles)
    ensures bytes == Sectors(files, lba, count)
  {
    hide Sectors, Flat, Fits, SystemSector;
    bytes := [];
    assert Sectors(files, lba, 0) == [] by { NoSectors(files, lba); }
    for i := 0 to count
      invariant bytes == Sectors(files, lba, i)
    {
      assert KindAt(lba + i) == DirFiles;
      var idx := DirentIndex(lba + i);
      DirFilesSector(files, lba + i);
      var dir := BuildDirectory(FileList(files, idx));
      SectorsSplit(files, lba, i, 1);
      bytes := bytes + Flat(dir[..]);
    }
  }

  // ---------------------------------------------------------------- the disk

  /** Where the fragment loop stands once the sectors below `at` have been delivered. */
  ghost predicate Progress(files: seq<VFile>, lba: nat, end: nat, at: nat, got: seq<byte>)
    requires Table(files) && lba <= at <= end
  {
    got == Delivered(files, lba, at - lba) && (Crosses(lba, at - lba) ==> at == end)
  }

  /** Adding the next fragment: its own sectors, or zeros over space that belongs to no region. */
  lemma ProgressStep(files: seq<VFile>, lba: nat, end: nat, at: nat, to: nat, got: seq<byte>, bytes: seq<byte>)
    requires Table(files) && lba <= at <= to <= end && Progress(files, lba, end, at, got) && (at < end || at == to)
    requires Crosses(lba, to - lba) ==> to == end && at < FILE_COUNT
    requires bytes == (if at < FILE_COUNT < to then Sectors(files, at, FILE_COUNT - at) + Zeros(SECTOR_SIZE * (to - FILE_COUNT))
                       else Sectors(files, at, to - at))
    ensures Progress(files, lba, end, to, got + bytes)
  {
    hide Sectors;
    if at == to {
      NoSectors(files, at);
      assert got + [] == got;
    } else if at < FILE_COUNT < to {
      SectorsSplit(files, lba, at - lba, FILE_COUNT - at);
    } else {
      SectorsSplit(files, lba, at - lba, to - at);
    }
  }

  lemma EmptyFragment(files: seq<VFile>, from: nat, to: nat)
    requires Table(files) && from <= to && from < FILE_COUNT && Uniform(from, to, Empty)
    ensures Zeros(SECTOR_SIZE * (to - from)) ==
      if FILE_COUNT < to then Sectors(files, from, FILE_COUNT - from) + Zeros(SECTOR_SIZE * (to - FILE_COUNT))
      else Sectors(files, from, to - from)
  {
    ZeroSectors(files, from, (if FILE_COUNT < to then FILE_COUNT else to) - from);
  }

  lemma BeyondFiles(files: seq<VFile>, from: nat, to: nat)
    requires Table(files) && FileLba(MAX_FILES) <= from <= to
    ensures Sectors(files, from, to - from) == Zeros(SECTOR_SIZE * (to - from))
  {
    ZeroSectors(files, from, to - from);
  }

  class VirtualDisk {
    var files: seq<VFile>
    var index: nat

    ghost predicate Valid()
      reads this
    {
      Table(files) && index <= MAX_FILES && forall i :: index <= i < MAX_FILES ==> files[i] == ABSENT
    }

    constructor ()
      ensures Valid() && index == 0
    {
      files := seq(MAX_FILES, _ => ABSENT);
      index := 0;
    }

    /** vdisk_add_file: takes the next slot, or stops when the table is full. */
    method AddFile(name: seq<byte>, data: seq<byte>) returns (ok: bool)
      requires Valid() && |data| < SIZE_RANGE && forall i :: 0 <= i < |name| ==> name[i] != 0
      modifies this
      ensures Valid() && (ok <==> old(index) < MAX_FILES)
      ensures !ok ==> files == old(files) && index == old(index)
      ensures ok ==> index == old(index) + 1 && files == old(files)[old(index) :=
        VFile(true, if |name| <= MAX_NAME then name else name[..MAX_NAME], data, |data|, map[])]
    {
      ok := index < MAX_FILES;
      if ok {
        var stored := if |name| <= MAX_NAME then name else name[..MAX_NAME];
        files := files[index := VFile(true, stored, data, |data|, map[])];
        index := index + 1;
      }
    }

    /** vdisk_patch_file with a slice-consistent patch, which may change the length the disk shows. */
    method PatchFile(i: nat, xlen: nat, overlay: map<nat, byte>)
      requires Valid() && i < index && files[i].present && xlen < SIZE_RANGE
      modifies this`files
      ensures Valid() && files == old(files)[i := old(files)[i].(xlen := xlen, overlay := overlay)]
    {
      files := files[i := files[i].(xlen := xlen, overlay := overlay)];
    }

    /** vdisk_read: cut the range into fragments, build each and store it. */
    method Read(lba: nat, count: nat, data: array<byte>)
      requires Valid() && lba + count <= 0x40_0000_0000_0000 && SECTOR_SIZE * count <= data.Length
      modifies data
      ensures data[..SECTOR_SIZE * count] == Delivered(files, lba, count)
      ensures data[SECTOR_SIZE * count..] == old(data[SECTOR_SIZE * count..])
    {
      hide Sectors, Delivered;
      var end := lba + count;
      var fragStart := lba;
      assert Progress(files, lba, end, lba, []) by { ProgressStart(files, lba, end); }
      while true
        invariant Valid() && files == old(files)
        invariant lba <= fragStart <= end && (lba < FILE_COUNT ==> fragStart < FILE_COUNT)
        invariant fragStart == lba || fragStart < end
        invariant Progress(files, lba, end, fragStart, data[..SECTOR_SIZE * (fragStart - lba)])
        invariant data[SECTOR_SIZE * count..] == old(data[SECTOR_SIZE * count..])
        decreases end - fragStart
      {
        var fragEnd, bytes := Fragment(fragStart, end);
        assert Crosses(lba, fragEnd - lba) ==> fragEnd == end && fragStart < FILE_COUNT;
        ProgressStep(files, lba, end, fragStart, fragEnd, data[..SECTOR_SIZE * (fragStart - lba)], bytes);
        Blit(data, SECTOR_SIZE * (fragStart - lba), bytes);
        fragStart := fragEnd;
        if fragStart == end { break; }
      }
    }

    /** One turn of the fragment loop. */
    method Fragment(fragStart: nat, end: nat) returns (fragEnd: nat, bytes: seq<byte>)
      requires Valid() && fragStart <= end
      ensures fragStart <= fragEnd <= end && (fragStart < end ==> fragStart < fragEnd)
      ensures fragStart < FILE_COUNT <= fragEnd ==> fragEnd == end
      ensures bytes == if fragStart < FILE_COUNT < fragEnd
        then Sectors(files, fragStart, FILE_COUNT - fragStart) + Zeros(SECTOR_SIZE * (fragEnd - FILE_COUNT))
        else Sectors(files, fragStart, fragEnd - fragStart)
    {
      hide Sectors;
      if fragStart >= FILE_COUNT {
        var i := fragStart / FILE_COUNT - 1;
        fragEnd := end;
        var fileEnd := FileLba(i + 1);
        if fragEnd > fileEnd { fragEnd := fileEnd; }
        if i < MAX_FILES {
          var part := BuildFile(files[i], fragStart % FILE_COUNT * SECTOR_SIZE, (fragEnd - fragStart) * SECTOR_SIZE);
          FileSectors(files, fragStart, fragEnd - fragStart, part[..]);
          bytes := part[..];
        } else {
          BeyondFiles(files, fragStart, fragEnd);
          bytes := Zeros(SECTOR_SIZE * (fragEnd - fragStart));
        }
      } else {
        var kind;
        fragEnd, kind := NextFragment(fragStart, end);
        if kind != Empty {
          assert fragStart < fragEnd ==> KindAt(fragEnd - 1) == kind;
          bytes := BuildSystem(files, fragStart, fragEnd - fragStart, kind);
        } else {
          EmptyFragment(files, fragStart, fragEnd);
          bytes := Zeros(SECTOR_SIZE * (fragEnd - fragStart));
        }
      }
    }
  }

  lemma ProgressStart(files: seq<VFile>, lba: nat, end: nat)
    requires Table(files) && lba <= end
    ensures Progress(files, lba, end, lba, [])
  {
    NoSectors(files, lba);
  }
}
