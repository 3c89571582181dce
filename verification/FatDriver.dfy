/** A FAT32 reader that sees only sectors, and what it finds on the virtual disk (src/vdisk.c, src/vdisk.h). */
module FatDriver {
  import opened Bytes
  import opened VdiskDir
  import opened Vdisk
  import opened VdiskRead

  // ---------------------------------------------------------------- the reader

  type Disk = nat -> seq<byte>

  datatype Volume = Volume(start: nat, perCluster: nat, reserved: nat, perFat: nat, root: nat)

  /** A little-endian field of a sector; fields beyond the sector read as zero. */
  function Field(sector: seq<byte>, at: nat, n: nat): nat {
    if at + n <= |sector| then FromLE(sector[at..at + n]) else 0
  }

  /** The partition table, then the volume boot record of the first partition. */
  function Mount(disk: Disk): Volume {
    var start := Field(disk(0), 454, 4);
    var vbr := disk(start);
    Volume(start, Field(vbr, 13, 1), Field(vbr, 14, 2), Field(vbr, 16, 1) * Field(vbr, 36, 4), Field(vbr, 44, 4))
  }

  /** The allocation table entry of a cluster: the low 28 bits of a 32-bit word. */
  function Next(disk: Disk, v: Volume, c: nat): nat {
    Field(disk(v.start + v.reserved + c / 128), c % 128 * 4, 4) % 0x1000_0000
  }

  predicate IsEnd(entry: nat) {
    entry >= 0x0fff_fff8
  }

  /** `cs` is the cluster chain that starts at its first element. */
  ghost predicate IsChain(disk: Disk, v: Volume, cs: seq<nat>) {
    && cs != [] && IsEnd(Next(disk, v, cs[|cs| - 1]))
    && forall k :: 0 <= k < |cs| - 1 ==> !IsEnd(Next(disk, v, cs[k])) && cs[k + 1] == Next(disk, v, cs[k])
  }

  function FirstSector(v: Volume, c: nat): nat
    requires c >= 2
  {
    v.start + v.reserved + v.perFat + (c - 2) * v.perCluster
  }

  /** Byte `p` of the concatenated clusters of a chain, for a volume with 64 sectors per cluster. */
  function ChainByte(disk: Disk, v: Volume, cs: seq<nat>, p: nat): Option<byte>
    requires forall k :: 0 <= k < |cs| ==> cs[k] >= 2
  {
    if p / CLUSTER_SIZE >= |cs| then None
    else
      var sector := disk(FirstSector(v, cs[p / CLUSTER_SIZE]) + p % CLUSTER_SIZE / SECTOR_SIZE);
      if p % SECTOR_SIZE < |sector| then Some(sector[p % SECTOR_SIZE]) else None
  }

  /** The records of one sector of a directory. */
  function Records(sector: seq<byte>): (es: seq<seq<byte>>)
    ensures SizedEntries(es)
  {
    if |sector| < DIRENT_SIZE then [] else [sector[..DIRENT_SIZE]] + Records(sector[DIRENT_SIZE..])
  }

  function ReadDirectory(disk: Disk, lba: nat): seq<Listed> {
    Parse(Records(disk(lba)), Nothing)
  }

  // ---------------------------------------------------------------- the virtual disk

  function DiskOf(files: seq<VFile>): Disk
    requires Table(files)
  {
    lba => Sector(files, lba)
  }

  /** The reader's sectors are what single-sector reads deliver. */
  lemma DiskIsRead(files: seq<VFile>, lba: nat)
    requires Table(files)
    ensures DiskOf(files)(lba) == Delivered(files, lba, 1)
  {
    NoSectors(files, lba + 1);
  }

  const VOLUME := Volume(PARTITION_LBA, CLUSTER_COUNT, RESERVED_COUNT, SECTORS_PER_FAT, ROOT_CLUSTER)

  lemma PutField(s: seq<byte>, at: nat, n: nat, k: nat)
    requires at + k <= |s| && n < Range(k)
    ensures Field(Put(s, at, LE(n, k)), at, k) == n
  {
    LERoundTrip(n, k);
    assert Put(s, at, LE(n, k))[at..at + k] == LE(n, k);
  }

  lemma PutKeeps(s: seq<byte>, at: nat, b: seq<byte>, f: nat, n: nat)
    requires at + |b| <= |s| && f + n <= |s| && (f + n <= at || at + |b| <= f)
    ensures Field(Put(s, at, b), f, n) == Field(s, f, n)
  {
    assert Put(s, at, b)[f..f + n] == s[f..f + n];
  }

  lemma MbrStart()
    ensures Field(MbrSector(), 454, 4) == PARTITION_LBA
  {
    hide Put, LE, Field;
    var a := Put(Put(Zeros(SECTOR_SIZE), 446, [0x80]), 450, [0x0c]);
    var b := Put(a, 454, LE(PARTITION_LBA, 4));
    var c := Put(b, 458, LE(PARTITION_COUNT, 4));
    var d := Put(c, 440, LE(0xc0ffeeee, 4));
    RangeValues();
    PutField(a, 454, PARTITION_LBA, 4);
    PutKeeps(b, 458, LE(PARTITION_COUNT, 4), 454, 4);
    PutKeeps(c, 440, LE(0xc0ffeeee, 4), 454, 4);
    PutKeeps(d, 510, LE(0xaa55, 2), 454, 4);
  }

  lemma ByteField(s: seq<byte>, at: nat)
    requires at < |s|
    ensures Field(s, at, 1) == s[at]
  {
    assert s[at..at + 1] == [s[at]];
    assert FromLE([s[at]]) == s[at] + 256 * FromLE([]);
  }

  lemma VbrBytes()
    ensures VbrSector()[13] == CLUSTER_COUNT && VbrSector()[16] == 1
    ensures VbrSector()[14..16] == LE(RESERVED_COUNT, 2)
    ensures VbrSector()[36..40] == LE(SECTORS_PER_FAT, 4) && VbrSector()[44..48] == LE(ROOT_CLUSTER, 4)
  {
    hide LE;
  }

  lemma VbrFields()
    ensures Field(VbrSector(), 13, 1) == CLUSTER_COUNT && Field(VbrSector(), 14, 2) == RESERVED_COUNT
    ensures Field(VbrSector(), 16, 1) == 1 && Field(VbrSector(), 36, 4) == SECTORS_PER_FAT
    ensures Field(VbrSector(), 44, 4) == ROOT_CLUSTER
  {
    hide VbrSector, LE;
    VbrBytes();
    ByteField(VbrSector(), 13);
    ByteField(VbrSector(), 16);
    RangeValues();
    LERoundTrip(RESERVED_COUNT, 2);
    LERoundTrip(SECTORS_PER_FAT, 4);
    LERoundTrip(ROOT_CLUSTER, 4);
  }

  /** The boot records lead the reader to the geometry the other sectors are generated with. */
  lemma MountsVolume(files: seq<VFile>)
    requires Table(files)
    ensures Mount(DiskOf(files)) == VOLUME
  {
    hide MbrSector, VbrSector, Field;
    MbrStart();
    VbrFields();
    assert DiskOf(files)(0) == MbrSector() && DiskOf(files)(PARTITION_LBA) == VbrSector();
  }

  lemma {:induction false} WordAt(ws: seq<nat>, k: nat)
    requires k < |ws|
    ensures WordBytes(ws)[4 * k..4 * k + 4] == LE(ws[k], 4)
  {
    hide LE;
    if k > 0 {
      WordAt(ws[1..], k - 1);
      assert WordBytes(ws)[4 * k..4 * k + 4] == WordBytes(ws[1..])[4 * (k - 1)..4 * (k - 1) + 4];
    }
  }

  /** The table entry the reader sees is the one generated for the cluster. */
  lemma NextIsEntry(files: seq<VFile>, c: nat)
    requires Table(files) && c < CLUSTERS
    ensures Next(DiskOf(files), VOLUME, c) == FatEntry(files, c)
  {
    hide WordBytes, Sector, FatEntry, DiskOf, FromLE, LE, FatWindow;
    var q, r := c / 128, c % 128;
    EntryPlace(files, c, q, r);
    EntrySmall(files, c);
    assert 0x1000_0000 < Range(4) by { RangeValues(); }
    LERoundTrip(FatEntry(files, c), 4);
  }

  lemma EntrySmall(files: seq<VFile>, c: nat)
    requires Table(files) && c < CLUSTERS
    ensures FatEntry(files, c) < 0x1000_0000
  {
  }

  lemma EntryPlace(files: seq<VFile>, c: nat, q: nat, r: nat)
    requires Table(files) && c < CLUSTERS && c == 128 * q + r && r < 128
    ensures var sector := DiskOf(files)(FAT_LBA + q); |sector| == 512 && sector[4 * r..4 * r + 4] == LE(FatEntry(files, c), 4)
  {
    hide WordBytes, Sector, FatEntry, LE;
    FatSector(files, FAT_LBA + q);
    var ws := FatWindow(files, q * 128, 128);
    WordAt(ws, r);
    assert ws[r] == FatEntry(files, q * 128 + r);
  }

  predicate Sizes(files: seq<VFile>)
    requires Table(files)
  {
    forall i :: 0 <= i < MAX_FILES ==> files[i].xlen <= 0x1_0000_0000
  }

  /** Number of clusters that hold `xlen` bytes. */
  function ClustersFor(xlen: nat): nat {
    (xlen + CLUSTER_SIZE - 1) / CLUSTER_SIZE
  }

  lemma MarkerOf(i: nat, xlen: nat)
    requires i < MAX_FILES && xlen <= 0x1_0000_0000
    ensures Marker(i, xlen) == if xlen == 0 then FileCluster(i) - 1 else FileCluster(i) + ClustersFor(xlen) - 1
    ensures xlen > 0 ==> 1 <= ClustersFor(xlen) <= FILE_CLUSTERS
  {
    if xlen > 0 {
      assert (xlen + SIZE_RANGE - 1) % SIZE_RANGE == xlen - 1;
      assert (xlen - 1) / CLUSTER_SIZE == ClustersFor(xlen) - 1;
    } else {
      assert (SIZE_RANGE - 1) / CLUSTER_SIZE == 0x1_0000_0000 * 0x2_0000 - 1;
      assert (FileCluster(i) - 1 + 0x1_0000_0000 * 0x2_0000) % 0x1_0000_0000 == FileCluster(i) - 1;
    }
  }

  /** The first cluster closed by the files from index `k` on. */
  function Stop(files: seq<VFile>, k: nat): Option<nat>
    requires Table(files) && k <= MAX_FILES
    decreases MAX_FILES - k
  {
    if k == MAX_FILES then None
    else if files[k].present then Some(Marker(k, files[k].xlen))
    else Stop(files, k + 1)
  }

  /** Where the chain of file `i` ends: an empty file closes no cluster of its own, so its chain runs on. */
  function ChainEnd(files: seq<VFile>, i: nat): Option<nat>
    requires Table(files) && i < MAX_FILES
  {
    if files[i].xlen > 0 then Some(Marker(i, files[i].xlen)) else Stop(files, i + 1)
  }

  /** No file from index `k` on closes a cluster before the first one closed. */
  lemma {:induction false} StopIsFirst(files: seq<VFile>, k: nat, j: nat)
    requires Table(files) && Sizes(files) && k <= j < MAX_FILES && files[j].present
    ensures Stop(files, k).Some? && Stop(files, k).value <= Marker(j, files[j].xlen)
    ensures FileCluster(k) - 1 <= Stop(files, k).value < FileCluster(MAX_FILES)
    decreases MAX_FILES - k
  {
    hide Marker, ClustersFor;
    MarkerOf(k, files[k].xlen);
    MarkerOf(j, files[j].xlen);
    if !files[k].present { StopIsFirst(files, k + 1, j); }
  }

  lemma {:induction false} StopIsMarker(files: seq<VFile>, k: nat) returns (j: nat)
    requires Table(files) && k <= MAX_FILES && Stop(files, k).Some?
    ensures k <= j < MAX_FILES && files[j].present && Stop(files, k).value == Marker(j, files[j].xlen)
    ensures forall m :: k <= m < j ==> !files[m].present
    decreases MAX_FILES - k
  {
    hide Marker;
    j := k;
    if !files[k].present { j := StopIsMarker(files, k + 1); }
  }

  lemma EndBounds(files: seq<VFile>, i: nat)
    requires Table(files) && Sizes(files) && i < MAX_FILES && ChainEnd(files, i).Some?
    ensures FileCluster(i) <= ChainEnd(files, i).value < FileCluster(MAX_FILES) < CLUSTERS
    ensures files[i].xlen == 0 ==> ChainEnd(files, i).value + 1 >= FileCluster(i) + FILE_CLUSTERS
    ensures files[i].xlen > 0 ==> ChainEnd(files, i).value == FileCluster(i) + ClustersFor(files[i].xlen) - 1
  {
    hide Marker, ClustersFor;
    MarkerOf(i, files[i].xlen);
    if files[i].xlen == 0 {
      var j := StopIsMarker(files, i + 1);
      StopIsFirst(files, i + 1, j);
    }
  }

  /** From a file's first cluster on, the first closed cluster is the end of its chain. */
  lemma EntriesOnward(files: seq<VFile>, i: nat, c: nat)
    requires Table(files) && Sizes(files) && i < MAX_FILES && files[i].present && FileCluster(i) <= c < CLUSTERS
    requires ChainEnd(files, i).Some? ==> c <= ChainEnd(files, i).value
    ensures FatEntry(files, c) == if ChainEnd(files, i) == Some(c) then END_MARKER else c + 1
  {
    hide Marker, ClustersFor, Stop;
    MarkerOf(i, files[i].xlen);
    if ChainEnd(files, i) == Some(c) {
      if files[i].xlen > 0 {
        assert Ends(files, i, c);
      } else {
        var j := StopIsMarker(files, i + 1);
        assert Ends(files, j, c);
      }
    } else {
      forall j | 0 <= j < MAX_FILES ensures !Ends(files, j, c) {
        NotEnded(files, i, j, c);
      }
    }
  }

  lemma NotEnded(files: seq<VFile>, i: nat, j: nat, c: nat)
    requires Table(files) && Sizes(files) && i < MAX_FILES && j < MAX_FILES && files[i].present && FileCluster(i) <= c
    requires ChainEnd(files, i).Some? ==> c < ChainEnd(files, i).value
    ensures !Ends(files, j, c)
  {
    hide Marker, ClustersFor, Stop;
    MarkerOf(i, files[i].xlen);
    MarkerOf(j, files[j].xlen);
    if files[j].present && j > i && files[i].xlen == 0 { StopIsFirst(files, i + 1, j); }
  }

  /** Every chain from the start cluster of file `i` runs through consecutive clusters. */
  lemma {:induction false} ChainPrefix(files: seq<VFile>, i: nat, cs: seq<nat>, k: nat)
    requires Table(files) && Sizes(files) && i < MAX_FILES && files[i].present
    requires IsChain(DiskOf(files), VOLUME, cs) && cs[0] == FileCluster(i) && k < |cs|
    requires ChainEnd(files, i).None? ==> forall m :: 0 <= m < k ==> cs[m] < CLUSTERS
    ensures cs[k] == FileCluster(i) + k && (ChainEnd(files, i).Some? ==> cs[k] <= ChainEnd(files, i).value)
  {
    hide FatEntry, Next, ChainEnd, DiskOf;
    if ChainEnd(files, i).Some? { EndBounds(files, i); }
    if k > 0 {
      ChainPrefix(files, i, cs, k - 1);
      EntriesOnward(files, i, FileCluster(i) + k - 1);
      NextIsEntry(files, FileCluster(i) + k - 1);
      hide FileCluster, Sizes, Table;
    }
  }

  function Run(start: nat, n: nat): (r: seq<nat>)
    ensures |r| == n && forall k :: 0 <= k < n ==> r[k] == start + k
  {
    seq<nat>(n, (k: int) requires 0 <= k => start + k)
  }

  /** The clusters from a file's first to the end of its chain. */
  function Course(files: seq<VFile>, i: nat): (r: seq<nat>)
    requires Table(files) && Sizes(files) && i < MAX_FILES && ChainEnd(files, i).Some?
  {
    EndBounds(files, i);
    Run(FileCluster(i), ChainEnd(files, i).value + 1 - FileCluster(i))
  }

  lemma CourseIsChain(files: seq<VFile>, i: nat)
    requires Table(files) && Sizes(files) && i < MAX_FILES && files[i].present && ChainEnd(files, i).Some?
    ensures IsChain(DiskOf(files), VOLUME, Course(files, i)) && Course(files, i)[0] == FileCluster(i)
  {
    hide FatEntry, Next, ChainEnd;
    EndBounds(files, i);
    var run := Course(files, i);
    forall k | 0 <= k < |run|
      ensures run[k] < CLUSTERS
      ensures Next(DiskOf(files), VOLUME, run[k]) == if k + 1 == |run| then END_MARKER else run[k] + 1
    {
      EntriesOnward(files, i, run[k]);
      NextIsEntry(files, run[k]);
    }
  }

  lemma ChainStops(files: seq<VFile>, i: nat, cs: seq<nat>)
    requires Table(files) && Sizes(files) && i < MAX_FILES && files[i].present && ChainEnd(files, i).Some?
    requires IsChain(DiskOf(files), VOLUME, cs) && cs[0] == FileCluster(i)
    ensures cs == Course(files, i)
  {
    hide FatEntry, Next, ChainEnd;
    EndBounds(files, i);
    var last := |cs| - 1;
    forall k | 0 <= k < |cs| ensures cs[k] == FileCluster(i) + k { ChainPrefix(files, i, cs, k); }
    ChainPrefix(files, i, cs, last);
    EntriesOnward(files, i, cs[last]);
    NextIsEntry(files, cs[last]);
  }

  /** The chain of any file, empty ones included, is its course, if anything closes one. */
  lemma ChainIsCourse(files: seq<VFile>, i: nat, cs: seq<nat>)
    requires Table(files) && Sizes(files) && i < MAX_FILES && files[i].present && ChainEnd(files, i).Some?
    ensures IsChain(DiskOf(files), VOLUME, cs) && cs[0] == FileCluster(i) <==> cs == Course(files, i)
  {
    hide Next, ChainEnd, Course;
    CourseIsChain(files, i);
    if IsChain(DiskOf(files), VOLUME, cs) && cs[0] == FileCluster(i) { ChainStops(files, i, cs); }
  }

  /** The chain of an empty file with no file after it never ends inside the volume. */
  lemma ChainEndless(files: seq<VFile>, i: nat, cs: seq<nat>)
    requires Table(files) && Sizes(files) && i < MAX_FILES && files[i].present && ChainEnd(files, i).None?
    requires forall k :: 0 <= k < |cs| ==> cs[k] < CLUSTERS
    ensures !(IsChain(DiskOf(files), VOLUME, cs) && cs[0] == FileCluster(i))
  {
    hide FatEntry, Next, ChainEnd;
    if IsChain(DiskOf(files), VOLUME, cs) && cs[0] == FileCluster(i) {
      var last := |cs| - 1;
      ChainPrefix(files, i, cs, last);
      EntriesOnward(files, i, cs[last]);
      NextIsEntry(files, cs[last]);
    }
  }

  /** Following the table from the start cluster of a file with bytes visits exactly the clusters that hold them. */
  lemma ChainIs(files: seq<VFile>, i: nat, cs: seq<nat>)
    requires Table(files) && Sizes(files) && i < MAX_FILES && files[i].present && files[i].xlen > 0
    ensures IsChain(DiskOf(files), VOLUME, cs) && cs[0] == FileCluster(i) <==>
      cs == Run(FileCluster(i), ClustersFor(files[i].xlen))
  {
    hide IsChain, ClustersFor;
    EndBounds(files, i);
    ChainIsCourse(files, i, cs);
  }

  /**
   * An empty file runs through the whole of its slot and on into the next file, if that one has bytes:
   * every cluster of the slot chains to its successor, the chain ends where that file's does, and the
   * two share its clusters.
   */
  lemma EmptyRunsOn(files: seq<VFile>, i: nat, k: nat)
    requires Table(files) && Sizes(files) && i + 1 < MAX_FILES && k < FILE_CLUSTERS
    requires files[i].present && files[i].xlen == 0 && files[i + 1].present && files[i + 1].xlen > 0
    ensures FatEntry(files, FileCluster(i) + k) == FileCluster(i) + k + 1
    ensures var n := ClustersFor(files[i + 1].xlen);
            && n > 0 && IsChain(DiskOf(files), VOLUME, Run(FileCluster(i), FILE_CLUSTERS + n))
            && IsChain(DiskOf(files), VOLUME, Run(FileCluster(i + 1), n))
            && FileCluster(i + 1) in Run(FileCluster(i), FILE_CLUSTERS + n) && FileCluster(i + 1) in Run(FileCluster(i + 1), n)
  {
    hide IsChain, ClustersFor, FatEntry, ChainEnd;
    var n := ClustersFor(files[i + 1].xlen);
    EmptyEnd(files, i);
    EntriesOnward(files, i, FileCluster(i) + k);
    CourseIsChain(files, i);
    ChainIs(files, i + 1, Run(FileCluster(i + 1), n));
    RunHolds(FileCluster(i), FILE_CLUSTERS + n, FILE_CLUSTERS);
    RunHolds(FileCluster(i + 1), n, 0);
  }

  lemma EmptyEnd(files: seq<VFile>, i: nat)
    requires Table(files) && Sizes(files) && i + 1 < MAX_FILES
    requires files[i].xlen == 0 && files[i + 1].present && files[i + 1].xlen > 0
    ensures var n := ClustersFor(files[i + 1].xlen);
            && n > 0 && ChainEnd(files, i) == Some(FileCluster(i) + FILE_CLUSTERS + n - 1)
            && FileCluster(i) + FILE_CLUSTERS + n < CLUSTERS && Course(files, i) == Run(FileCluster(i), FILE_CLUSTERS + n)
            && FileCluster(i + 1) == FileCluster(i) + FILE_CLUSTERS
  {
    hide ClustersFor, Marker;
    MarkerOf(i + 1, files[i + 1].xlen);
  }

  lemma RunHolds(start: nat, n: nat, k: nat)
    requires k < n
    ensures start + k in Run(start, n)
  {
    assert Run(start, n)[k] == start + k;
  }

  /** The chain of a file has as many clusters as its bytes need exactly if it has bytes; otherwise it fills its slot at least. */
  lemma ChainCountExact(files: seq<VFile>, i: nat, cs: seq<nat>)
    requires Table(files) && Sizes(files) && i < MAX_FILES && files[i].present && ChainEnd(files, i).Some?
    requires IsChain(DiskOf(files), VOLUME, cs) && cs[0] == FileCluster(i)
    ensures |cs| == ClustersFor(files[i].xlen) <==> files[i].xlen > 0
    ensures files[i].xlen == 0 ==> |cs| >= FILE_CLUSTERS
  {
    hide IsChain, Marker;
    EndBounds(files, i);
    ChainStops(files, i, cs);
    assert ClustersFor(0) == 0;
  }

  /** File `i` is empty and the next file after it is `j`, which is not. */
  predicate RunsInto(files: seq<VFile>, i: nat, j: nat)
    requires Table(files) && i < j < MAX_FILES
  {
    files[i].xlen == 0 && files[j].xlen > 0 && forall k :: i < k < j ==> !files[k].present
  }

  /** The chains of two files share a cluster exactly if the first is empty and runs into the second. */
  lemma ChainsDisjoint(files: seq<VFile>, i: nat, j: nat, a: seq<nat>, b: seq<nat>)
    requires Table(files) && Sizes(files) && i < j < MAX_FILES && files[i].present && files[j].present
    requires IsChain(DiskOf(files), VOLUME, a) && a[0] == FileCluster(i)
    requires IsChain(DiskOf(files), VOLUME, b) && b[0] == FileCluster(j) && ChainEnd(files, j).Some?
    ensures ChainEnd(files, i).Some?
    ensures (forall c :: !(c in a && c in b)) <==> !RunsInto(files, i, j)
  {
    hide IsChain, Marker, ClustersFor;
    if files[i].xlen == 0 { StopIsFirst(files, i + 1, j); }
    ChainStops(files, i, a);
    ChainStops(files, j, b);
    EndBounds(files, i);
    EndBounds(files, j);
    MarkerOf(j, files[j].xlen);
    if RunsInto(files, i, j) {
      StopBetween(files, i + 1, j);
      assert a[FileCluster(j) - FileCluster(i)] == FileCluster(j) == b[0];
      assert FileCluster(j) in a && FileCluster(j) in b;
    } else {
      if files[i].xlen == 0 { StopBefore(files, i, j); }
      MarkerOf(i, files[i].xlen);
      CourseWithin(files, i);
      CourseWithin(files, j);
    }
  }

  lemma CourseWithin(files: seq<VFile>, i: nat)
    requires Table(files) && Sizes(files) && i < MAX_FILES && ChainEnd(files, i).Some?
    ensures forall c :: c in Course(files, i) ==> FileCluster(i) <= c <= ChainEnd(files, i).value
  {
    hide ChainEnd;
    EndBounds(files, i);
  }

  lemma {:induction false} StopBetween(files: seq<VFile>, k: nat, j: nat)
    requires Table(files) && k <= j < MAX_FILES && files[j].present && forall m :: k <= m < j ==> !files[m].present
    ensures Stop(files, k) == Some(Marker(j, files[j].xlen))
    decreases j - k
  {
    hide Marker;
    if k < j { StopBetween(files, k + 1, j); }
  }

  lemma StopBefore(files: seq<VFile>, i: nat, j: nat)
    requires Table(files) && Sizes(files) && i < j < MAX_FILES && files[j].present && files[i].xlen == 0 && !RunsInto(files, i, j)
    ensures Stop(files, i + 1).Some? && Stop(files, i + 1).value < FileCluster(j)
  {
    hide Marker, ClustersFor, Stop;
    StopIsFirst(files, i + 1, j);
    var m := StopIsMarker(files, i + 1);
    MarkerOf(m, files[m].xlen);
  }

  // ---------------------------------------------------------------- directories and contents

  lemma {:induction false} RecordsOfFlat(es: seq<seq<byte>>)
    requires SizedEntries(es)
    ensures Records(Flat(es)) == es
  {
    if es != [] {
      RecordsOfFlat(es[1..]);
      assert Flat(es)[..DIRENT_SIZE] == es[0] && Flat(es)[DIRENT_SIZE..] == Flat(es[1..]);
    }
  }

  lemma FileDirentAt(d: nat, i: nat)
    requires d < 7 && i < MAX_FILES
    ensures var lba := FirstSector(VOLUME, ROOT_CLUSTER + d) + 1 + i;
      lba < FILE_COUNT && KindAt(lba) == DirFiles && DirentIndex(lba) == i
  {
    assert FirstSector(VOLUME, ROOT_CLUSTER + d) + 1 + i == ROOT_LBA + d * CLUSTER_COUNT + 1 + i;
  }

  /** Sector `i + 1` of every directory lists file `i`: its long name, size and start cluster. */
  lemma DirectoryShowsFile(files: seq<VFile>, d: nat, i: nat)
    requires Table(files) && d < 7 && i < MAX_FILES
    ensures ReadDirectory(DiskOf(files), FirstSector(VOLUME, ROOT_CLUSTER + d) + 1 + i) == Listing(FileList(files, i))
    ensures files[i].present && files[i].xlen < 0x1_0000_0000 ==>
      ReadDirectory(DiskOf(files), FirstSector(VOLUME, ROOT_CLUSTER + d) + 1 + i) ==
      [ListedOf(DirEntry(files[i].name, files[i].xlen, 0x01, FileCluster(i)))]
  {
    hide Parse, Records, Fits, DirEntries, FirstSector, DiskOf, Listing;
    FileRecords(files, d, i);
    DirectoryRoundTrip(FileList(files, i));
    OneListing(FileList(files, i));
  }

  lemma OneListing(ds: seq<DirEntry>)
    ensures |ds| == 1 ==> Listing(ds) == [ListedOf(ds[0])]
  {
    if |ds| == 1 { assert ds[..0] == []; }
  }

  /** The first sector of directory `d` lists its subdirectories. */
  lemma DirectoryShowsSubdirs(files: seq<VFile>, d: nat)
    requires Table(files) && d < 7
    ensures ReadDirectory(DiskOf(files), FirstSector(VOLUME, ROOT_CLUSTER + d)) == Listing(SubdirList(d))
    ensures FatEntry(files, ROOT_CLUSTER + d) == END_MARKER
  {
    hide Parse, Records, Fits, DirEntries, SubdirList, EndedBefore, FirstSector, DiskOf;
    SubdirRecords(files, d);
    DirectoryRoundTrip(SubdirList(d));
  }

  /** The records of some consecutive sectors. */
  function RecordsFrom(disk: Disk, lba: nat, n: nat): (es: seq<seq<byte>>)
    ensures SizedEntries(es)
    decreases n
  {
    if n == 0 then [] else Records(disk(lba)) + RecordsFrom(disk, lba + 1, n - 1)
  }

  /** A directory of one cluster, read from its first sector to its last. */
  function ReadCluster(disk: Disk, v: Volume, c: nat): seq<Listed>
    requires c >= 2
  {
    Parse(RecordsFrom(disk, FirstSector(v, c), v.perCluster), Nothing)
  }

  /** One entry for each present file from index `i` on. */
  function Listings(files: seq<VFile>, i: nat): seq<Listed>
    requires Table(files) && i <= MAX_FILES
    decreases MAX_FILES - i
  {
    if i == MAX_FILES then [] else Listing(FileList(files, i)) + Listings(files, i + 1)
  }

  lemma FileRecords(files: seq<VFile>, d: nat, i: nat)
    requires Table(files) && d < 7 && i < MAX_FILES
    ensures Fits(FileList(files, i))
    ensures Records(DiskOf(files)(FirstSector(VOLUME, ROOT_CLUSTER + d) + 1 + i)) == DirEntries(FileList(files, i))
  {
    hide Records, Fits, DirEntries, Flat;
    FileDirentAt(d, i);
    hide KindAt, DirentIndex;
    FilesFit(files, i);
    DirectoryRoundTrip(FileList(files, i));
    RecordsOfFlat(DirEntries(FileList(files, i)));
  }

  lemma {:induction false} FileSectorsListed(files: seq<VFile>, d: nat, i: nat)
    requires Table(files) && d < 7 && i <= MAX_FILES
    ensures Parse(RecordsFrom(DiskOf(files), FirstSector(VOLUME, ROOT_CLUSTER + d) + 1 + i, MAX_FILES - i), Nothing) == Listings(files, i)
    decreases MAX_FILES - i
  {
    hide Parse, Records, RecordsFrom, Listing, FileList, DirEntries, Fits, FirstSector, DiskOf, SizedEntries;
    var lba, n := FirstSector(VOLUME, ROOT_CLUSTER + d) + 1 + i, MAX_FILES - i;
    RecordsStep(DiskOf(files), lba, n);
    if i == MAX_FILES {
      NoRecords();
    } else {
      FileRecords(files, d, i);
      FileSectorsListed(files, d, i + 1);
      DirectoryThen(FileList(files, i), RecordsFrom(DiskOf(files), lba + 1, n - 1));
    }
  }

  lemma RecordsStep(disk: Disk, lba: nat, n: nat)
    ensures n == 0 ==> RecordsFrom(disk, lba, n) == []
    ensures n > 0 ==> RecordsFrom(disk, lba, n) == Records(disk(lba)) + RecordsFrom(disk, lba + 1, n - 1)
  {
  }

  lemma NoRecords()
    ensures Parse([], Nothing) == []
  {
  }

  /** A directory read as a whole lists its subdirectories and then every present file, in table order. */
  lemma DirectoryShowsAll(files: seq<VFile>, d: nat)
    requires Table(files) && d < 7
    ensures ReadCluster(DiskOf(files), VOLUME, ROOT_CLUSTER + d) == Listing(SubdirList(d)) + Listings(files, 0)
  {
    hide Parse, Records, RecordsFrom, Listing, SubdirList, FileList, DirEntries, Fits, Listings, FirstSector, DiskOf, SizedEntries;
    var lba, n := FirstSector(VOLUME, ROOT_CLUSTER + d), CLUSTER_COUNT;
    RecordsStep(DiskOf(files), lba, n);
    SubdirRecords(files, d);
    FileSectorsListed(files, d, 0);
    DirectoryThen(SubdirList(d), RecordsFrom(DiskOf(files), lba + 1, n - 1));
  }

  lemma SubdirRecords(files: seq<VFile>, d: nat)
    requires Table(files) && d < 7
    ensures Fits(SubdirList(d)) && Records(DiskOf(files)(FirstSector(VOLUME, ROOT_CLUSTER + d))) == DirEntries(SubdirList(d))
  {
    hide Records, Fits, DirEntries, SubdirList, Flat, KindAt, FirstSector, Sector;
    SubdirAt(d);
    SubdirsFit(d);
    SubdirSector(files, FirstSector(VOLUME, ROOT_CLUSTER + d), d);
    DirectoryRoundTrip(SubdirList(d));
    RecordsOfFlat(DirEntries(SubdirList(d)));
  }

  lemma SubdirAt(d: nat)
    requires d < 7
    ensures var lba := FirstSector(VOLUME, ROOT_CLUSTER + d); lba < FILE_COUNT && KindAt(lba) == Subdirs(d)
  {
    assert FirstSector(VOLUME, ROOT_CLUSTER + d) == ROOT_LBA + d * CLUSTER_COUNT;
  }

  lemma SubdirSector(files: seq<VFile>, lba: nat, d: nat)
    requires Table(files) && lba < FILE_COUNT && KindAt(lba) == Subdirs(d) && Fits(SubdirList(d))
    ensures Sector(files, lba) == DirSector(SubdirList(d))
  {
    hide KindAt, DirSector, SubdirList, Fits;
  }

  /** Byte `p` of the clusters of a file's chain is byte `p` of the file. */
  lemma ContentsOfChain(files: seq<VFile>, i: nat, p: nat)
    requires Table(files) && Sizes(files) && i < MAX_FILES && p < files[i].xlen
    ensures ChainByte(DiskOf(files), VOLUME, Run(FileCluster(i), ClustersFor(files[i].xlen)), p) == Some(FileByte(files[i], p))
  {
    hide FileByte, ClustersFor, FirstSector, FileLba, FileCluster, DiskOf;
    var k, o := p / CLUSTER_SIZE, p % CLUSTER_SIZE;
    assert k < ClustersFor(files[i].xlen) <= FILE_CLUSTERS by { ClusterOf(i, files[i].xlen, p); }
    ClusterSector(i, k, o);
    OffsetParts(p);
    var s := k * CLUSTER_COUNT + o / SECTOR_SIZE;
    LocateSector(i, s);
    assert FileLba(i) >= FILE_COUNT by { FileLbaBound(i); }
    SectorByte(files, i, s, p % SECTOR_SIZE);
  }

  lemma ClusterOf(i: nat, xlen: nat, p: nat)
    requires i < MAX_FILES && p < xlen <= 0x1_0000_0000
    ensures p / CLUSTER_SIZE < ClustersFor(xlen) <= FILE_CLUSTERS
  {
    hide Marker;
    MarkerOf(i, xlen);
  }

  lemma FileLbaBound(i: nat)
    ensures FileLba(i) >= FILE_COUNT
  {
  }

  lemma ClusterSector(i: nat, k: nat, o: nat)
    requires k < FILE_CLUSTERS && o < CLUSTER_SIZE
    ensures FileCluster(i) + k >= 2
    ensures FirstSector(VOLUME, FileCluster(i) + k) + o / SECTOR_SIZE == FileLba(i) + (k * CLUSTER_COUNT + o / SECTOR_SIZE)
    ensures k * CLUSTER_COUNT + o / SECTOR_SIZE < FILE_COUNT
  {
    GeometryAgrees(i);
  }

  lemma OffsetParts(p: nat)
    ensures (p / CLUSTER_SIZE * CLUSTER_COUNT + p % CLUSTER_SIZE / SECTOR_SIZE) * SECTOR_SIZE + p % SECTOR_SIZE == p
  {
  }

  lemma SectorByte(files: seq<VFile>, i: nat, s: nat, r: nat)
    requires Table(files) && i < MAX_FILES && s < FILE_COUNT && r < SECTOR_SIZE && FileLba(i) >= FILE_COUNT
    requires (FileLba(i) + s) / FILE_COUNT - 1 == i && (FileLba(i) + s) % FILE_COUNT == s
    ensures |DiskOf(files)(FileLba(i) + s)| == SECTOR_SIZE
    ensures DiskOf(files)(FileLba(i) + s)[r] == FileByte(files[i], s * SECTOR_SIZE + r)
  {
    hide FileByte, FileLba, SystemSector, KindAt;
  }

  lemma LocateSector(i: nat, s: nat)
    requires s < FILE_COUNT
    ensures (FileLba(i) + s) / FILE_COUNT - 1 == i && (FileLba(i) + s) % FILE_COUNT == s
  {
  }

  /** A reader that sees only sectors finds every file: where the volume is, the file's entry in any directory,
      its one cluster chain, and its padded, patched bytes along the chain. */
  lemma EndToEnd(files: seq<VFile>, i: nat, d: nat, cs: seq<nat>, p: nat)
    requires Table(files) && Sizes(files) && i < MAX_FILES && d < 7
    requires files[i].present && 0 < files[i].xlen < 0x1_0000_0000
    ensures Mount(DiskOf(files)) == VOLUME
    ensures ReadDirectory(DiskOf(files), FirstSector(VOLUME, ROOT_CLUSTER + d) + 1 + i) ==
      [ListedOf(DirEntry(files[i].name, files[i].xlen, 0x01, FileCluster(i)))]
    ensures IsChain(DiskOf(files), VOLUME, cs) && cs[0] == FileCluster(i) <==>
      cs == Run(FileCluster(i), ClustersFor(files[i].xlen))
    ensures p < files[i].xlen ==>
      ChainByte(DiskOf(files), VOLUME, Run(FileCluster(i), ClustersFor(files[i].xlen)), p) == Some(FileByte(files[i], p))
  {
    hide Mount, Parse, Records, ChainByte, FileByte, ClustersFor, Next, Sector;
    MountsVolume(files);
    DirectoryShowsFile(files, d, i);
    ChainIs(files, i, cs);
    if p < files[i].xlen { ContentsOfChain(files, i, p); }
  }

  // ---------------------------------------------------------------- boot records and the directory tree

  /** Bytes at an offset. */
  predicate Two(b: seq<byte>, at: nat, p: byte, q: byte) {
    at + 2 <= |b| && b[at] == p && b[at + 1] == q
  }

  predicate Four(b: seq<byte>, at: nat, p: byte, q: byte, r: byte, s: byte) {
    Two(b, at, p, q) && Two(b, at + 2, r, s)
  }

  predicate Empty(b: seq<byte>, i: nat, j: nat) {
    j <= |b| && forall k :: i <= k < j ==> b[k] == 0
  }

  /** A partition table with one bootable FAT32 partition from sector 128 on. */
  predicate PartitionTable(mbr: seq<byte>) {
    && |mbr| == 512 && mbr[446] == 0x80 && mbr[450] == 0x0c && Two(mbr, 510, 0x55, 0xaa)
    && Four(mbr, 454, 0x80, 0, 0, 0) && Four(mbr, 458, 0xc0, 0xff, 0xf7, 0xff)
    && Four(mbr, 440, 0xee, 0xee, 0xff, 0xc0) && Empty(mbr, 462, 510)
  }

  /** The layout of a FAT32 boot record: 512-byte sectors, one table, no FAT16 sizes, FSInfo and a backup at 1 and 6. */
  predicate BootRecord(vbr: seq<byte>) {
    && |vbr| == 512 && vbr[0] == 0xe9 && Two(vbr, 11, 0, 2) && vbr[16] == 1
    && Empty(vbr, 17, 21) && vbr[21] == 0xf8 && Empty(vbr, 22, 24)
    && Two(vbr, 24, 63, 0) && Two(vbr, 26, 255, 0) && Four(vbr, 28, 0x80, 0, 0, 0) && Four(vbr, 32, 0xc0, 0xff, 0xf7, 0xff)
    && Empty(vbr, 40, 44) && Two(vbr, 48, 1, 0) && Two(vbr, 50, 6, 0) && vbr[66] == 0x29 && Four(vbr, 67, 0x0d, 0xf0, 0x0d, 0xf0)
    && Two(vbr, 510, 0x55, 0xaa)
  }

  /** The names a boot record carries. */
  predicate BootNames(vbr: seq<byte>) {
    |vbr| == 512 && Spells(vbr[3..10], "wimboot") && Spells(vbr[71..82], "wimboot    ") && Spells(vbr[82..90], "FAT32   ")
  }

  predicate Spells(b: seq<byte>, text: string) {
    |b| == |text| && forall i :: 0 <= i < |b| ==> b[i] == text[i] as int
  }

  /** The three signatures of an FSInfo sector, which knows of no free cluster. */
  predicate InfoSector(info: seq<byte>) {
    && |info| == 512 && Spells(info[0..4], "RRaA") && Spells(info[484..488], "rrAa") && Four(info, 508, 0, 0, 0x55, 0xaa)
    && Four(info, 492, 0xff, 0xff, 0xff, 0xff)
  }

  lemma FourOf(n: nat, p: byte, q: byte, r: byte, s: byte)
    requires n == p + 0x100 * q + 0x1_0000 * r + 0x100_0000 * s
    ensures LE(n, 4) == [p, q, r, s]
  {
    ByteOff(n, p, q + 0x100 * r + 0x1_0000 * s, 3);
    ByteOff(q + 0x100 * r + 0x1_0000 * s, q, r + 0x100 * s, 2);
    ByteOff(r + 0x100 * s, r, s, 1);
    ByteOff(s, s, 0, 0);
    hide LE;
    NoBytes(0);
  }

  lemma TwoOf(n: nat, p: byte, q: byte)
    requires n == p + 0x100 * q
    ensures LE(n, 2) == [p, q]
  {
    ByteOff(n, p, q, 1);
    ByteOff(q, q, 0, 0);
    hide LE;
    NoBytes(0);
  }

  lemma ByteOff(n: nat, low: byte, high: nat, k: nat)
    requires n == low + 0x100 * high
    ensures LE(n, k + 1) == [low] + LE(high, k)
  {
    assert n % 256 == low && n / 256 == high;
  }

  lemma NoBytes(n: nat)
    ensures LE(n, 0) == []
  {
  }

  lemma TableBytes()
    ensures PartitionTable(MbrSector())
  {
    hide LE;
    FourOf(128, 0x80, 0, 0, 0);
    FourOf(PARTITION_COUNT, 0xc0, 0xff, 0xf7, 0xff);
    FourOf(0xc0ffeeee, 0xee, 0xee, 0xff, 0xc0);
    TwoOf(0xaa55, 0x55, 0xaa);
  }

  lemma RecordBytes()
    ensures BootRecord(VbrSector())
  {
    RecordSizes();
    RecordPlaces();
    RecordRest();
    hide VbrSector;
  }

  lemma RecordSizes()
    ensures var b := VbrSector();
      && Two(b, 11, 0, 2) && Two(b, 24, 63, 0) && Two(b, 26, 255, 0) && Two(b, 510, 0x55, 0xaa) && Two(b, 48, 1, 0) && Two(b, 50, 6, 0)
  {
    hide LE;
    var b := VbrSector();
    TwoOf(SECTOR_SIZE, 0, 2);
    assert b[11] == LE(SECTOR_SIZE, 2)[0] && b[12] == LE(SECTOR_SIZE, 2)[1];
    TwoOf(63, 63, 0);
    TwoOf(255, 255, 0);
    TwoOf(0xaa55, 0x55, 0xaa);
    TwoOf(1, 1, 0);
    TwoOf(6, 6, 0);
  }

  lemma RecordPlaces()
    ensures var b := VbrSector();
      && Four(b, 28, 0x80, 0, 0, 0) && Four(b, 32, 0xc0, 0xff, 0xf7, 0xff) && Four(b, 67, 0x0d, 0xf0, 0x0d, 0xf0)
  {
    hide LE;
    FourOf(128, 0x80, 0, 0, 0);
    FourOf(PARTITION_COUNT, 0xc0, 0xff, 0xf7, 0xff);
    FourOf(0xf00df00d, 0x0d, 0xf0, 0x0d, 0xf0);
  }

  lemma RecordRest()
    ensures var b := VbrSector(); Empty(b, 17, 21) && b[21] == 0xf8 && Empty(b, 22, 24) && Empty(b, 40, 44)
    ensures var b := VbrSector(); b[0] == 0xe9 && b[16] == 1 && b[66] == 0x29
  {
    hide LE;
  }

  lemma RecordNames()
    ensures BootNames(VbrSector())
  {
    NamesPut();
    hide VbrSector, Spells;
    SpelledIn(VbrSector(), 3, OEMID[..7], "wimboot") by { NamesSpelled(); }
    SpelledIn(VbrSector(), 71, LABEL, "wimboot    ") by { NamesSpelled(); }
    SpelledIn(VbrSector(), 82, SYSTEM, "FAT32   ") by { NamesSpelled(); }
  }

  lemma NamesSpelled()
    ensures Spells(OEMID[..7], "wimboot") && Spells(LABEL, "wimboot    ") && Spells(SYSTEM, "FAT32   ")
  {
  }

  lemma SpelledIn(b: seq<byte>, at: nat, name: seq<byte>, text: string)
    requires at + |name| <= |b| && Spells(name, text) && forall i :: 0 <= i < |name| ==> b[at + i] == name[i]
    ensures Spells(b[at..at + |name|], text)
  {
  }

  lemma NamesPut()
    ensures var b := VbrSector();
      && (forall i :: 0 <= i < 7 ==> b[3 + i] == OEMID[i]) && (forall i :: 0 <= i < 11 ==> b[71 + i] == LABEL[i])
      && (forall i :: 0 <= i < 8 ==> b[82 + i] == SYSTEM[i])
  {
    hide LE;
  }

  lemma InfoBytes()
    ensures InfoSector(FsinfoSector())
  {
    FourOf(0x41615252, 0x52, 0x52, 0x61, 0x41);
    FourOf(0x61417272, 0x72, 0x72, 0x41, 0x61);
    FourOf(0xffffffff, 0xff, 0xff, 0xff, 0xff);
    FourOf(0xaa550000, 0, 0, 0x55, 0xaa);
    hide LE;
  }

  /** The boot records of the disk are those of a bootable FAT32 volume, with a second copy of its boot record. */
  lemma VolumeIsFat32(files: seq<VFile>)
    requires Table(files)
    ensures var disk := DiskOf(files);
      && PartitionTable(disk(0)) && BootRecord(disk(128)) && BootNames(disk(128)) && InfoSector(disk(128 + 1))
      && disk(128 + 6) == disk(128)
  {
    hide PartitionTable, BootRecord, BootNames, InfoSector, MbrSector, VbrSector, FsinfoSector;
    TableBytes();
    RecordBytes();
    RecordNames();
    InfoBytes();
    assert KindAt(0) == Mbr && KindAt(128) == Vbr && KindAt(134) == Vbr && KindAt(129) == Fsinfo;
  }

  datatype Link = Link(name: seq<nat>, cluster: nat)

  /** The directories among the entries of a listing. */
  function Links(ls: seq<Listed>): seq<Link> {
    if ls == [] then []
    else (if ls[0].attr / 16 % 2 == 1 then [Link(ls[0].name, ls[0].cluster)] else []) + Links(ls[1..])
  }

  function Letters(text: string): seq<nat> {
    seq<nat>(|text|, (i: int) requires 0 <= i < |text| => text[i] as int)
  }

  lemma {:induction false} LinksAppend(a: seq<Listed>, b: seq<Listed>)
    ensures Links(a + b) == Links(a) + Links(b)
  {
    if a == [] {
      assert a + b == b;
    } else {
      assert (a + b)[1..] == a[1..] + b;
      LinksAppend(a[1..], b);
    }
  }

  /** No file is a directory. */
  lemma {:induction false} FilesNotLinks(files: seq<VFile>, i: nat)
    requires Table(files) && i <= MAX_FILES
    ensures Links(Listings(files, i)) == []
    decreases MAX_FILES - i
  {
    hide ListedOf;
    if i < MAX_FILES {
      FileNotLink(files, i);
      FilesNotLinks(files, i + 1);
      LinksAppend(Listing(FileList(files, i)), Listings(files, i + 1));
    }
  }

  lemma FileNotLink(files: seq<VFile>, i: nat)
    requires Table(files) && i < MAX_FILES
    ensures Links(Listing(FileList(files, i))) == []
  {
    var ds := FileList(files, i);
    if ds != [] {
      assert ds[..0] == [];
      assert Listing(ds) == [ListedOf(ds[0])];
      assert Listing(ds)[1..] == [];
    }
  }

  lemma SubdirLink(name: seq<byte>, cluster: nat)
    ensures forall k :: 0 <= k < |name| && name[k] < 128 ==> ListedOf(Subdir(name, cluster)).name[k] == name[k]
    ensures var l := ListedOf(Subdir(name, cluster)); |l.name| == |name| && l.attr == 0x10 && l.cluster == cluster
  {
  }

  lemma OneLink(name: seq<byte>, cluster: nat, text: string)
    requires Spells(name, text) && forall i :: 0 <= i < |name| ==> name[i] < 128
    ensures Links([ListedOf(Subdir(name, cluster))]) == [Link(Letters(text), cluster)]
  {
    var l := ListedOf(Subdir(name, cluster));
    SubdirLink(name, cluster);
    assert l.name == Letters(text);
    var none: seq<Listed> := [l][1..];
    assert none == [] && Links(none) == [];
  }

  /** The directories in the list of directory `d`, last built first. */
  lemma {:induction false} ListLinks(ds: seq<DirEntry>, links: seq<Link>)
    requires |links| == |ds|
    requires forall i :: 0 <= i < |ds| ==> Links([ListedOf(ds[i])]) == [links[|ds| - 1 - i]]
    ensures Links(Listing(ds)) == links
  {
    hide ListedOf;
    if ds != [] {
      var n := |ds| - 1;
      ListLinks(ds[..n], links[1..]);
      LinksAppend([ListedOf(ds[n])], Listing(ds[..n]));
      assert [links[0]] + links[1..] == links;
    } else {
      assert links == [];
    }
  }

  /** The directories a reader finds in the cluster `c`. */
  function DirectoriesIn(disk: Disk, c: nat): seq<Link>
    requires c >= 2
  {
    Links(ReadCluster(disk, VOLUME, c))
  }

  lemma DirectoriesAre(files: seq<VFile>, d: nat)
    requires Table(files) && d < 7
    ensures DirectoriesIn(DiskOf(files), 2 + d) == Links(Listing(SubdirList(d)))
  {
    hide ReadCluster, Listing, SubdirList, Listings, Links, DiskOf;
    DirectoryShowsAll(files, d);
    LinksAppend(Listing(SubdirList(d)), Listings(files, 0));
    FilesNotLinks(files, 0);
    assert Links(Listing(SubdirList(d))) + [] == Links(Listing(SubdirList(d)));
  }

  /** The whole tree of directories that a reader finds from the root on. */
  lemma TreeOnDisk(files: seq<VFile>)
    requires Table(files)
    ensures DirectoriesIn(DiskOf(files), 2) == [Link(Letters("EFI"), 7), Link(Letters("SOURCES"), 4), Link(Letters("BOOT"), 3)]
    ensures DirectoriesIn(DiskOf(files), 3) == [Link(Letters("RESOURCES"), 6), Link(Letters("FONTS"), 5)]
    ensures DirectoriesIn(DiskOf(files), 7) == [Link(Letters("MICROSOFT"), 8), Link(Letters("BOOT"), 3)]
    ensures DirectoriesIn(DiskOf(files), 8) == [Link(Letters("BOOT"), 3)]
    ensures DirectoriesIn(DiskOf(files), 4) == DirectoriesIn(DiskOf(files), 5) == DirectoriesIn(DiskOf(files), 6) == []
  {
    hide DirectoriesIn, Links, Listing, Letters, ListedOf, DiskOf;
    forall d: nat | d < 7 ensures DirectoriesIn(DiskOf(files), 2 + d) == Links(Listing(SubdirList(d))) { DirectoriesAre(files, d); }
    AllLinks();
    ListLinks(SubdirList(0), [Link(Letters("EFI"), 7), Link(Letters("SOURCES"), 4), Link(Letters("BOOT"), 3)]);
    ListLinks(SubdirList(1), [Link(Letters("RESOURCES"), 6), Link(Letters("FONTS"), 5)]);
    ListLinks(SubdirList(5), [Link(Letters("MICROSOFT"), 8), Link(Letters("BOOT"), 3)]);
    ListLinks(SubdirList(6), [Link(Letters("BOOT"), 3)]);
    ListLinks(SubdirList(2), []);
    ListLinks(SubdirList(3), []);
    ListLinks(SubdirList(4), []);
  }

  lemma AllLinks()
    ensures Links([ListedOf(Subdir(BOOT, 3))]) == [Link(Letters("BOOT"), 3)]
    ensures Links([ListedOf(Subdir(SOURCES, 4))]) == [Link(Letters("SOURCES"), 4)]
    ensures Links([ListedOf(Subdir(EFI, 7))]) == [Link(Letters("EFI"), 7)]
    ensures Links([ListedOf(Subdir(FONTS, 5))]) == [Link(Letters("FONTS"), 5)]
    ensures Links([ListedOf(Subdir(RESOURCES, 6))]) == [Link(Letters("RESOURCES"), 6)]
    ensures Links([ListedOf(Subdir(MICROSOFT, 8))]) == [Link(Letters("MICROSOFT"), 8)]
  {
    hide Links, ListedOf, Letters;
    OneLink(BOOT, 3, "BOOT");
    OneLink(SOURCES, 4, "SOURCES");
    OneLink(EFI, 7, "EFI");
    OneLink(FONTS, 5, "FONTS");
    OneLink(RESOURCES, 6, "RESOURCES");
    OneLink(MICROSOFT, 8, "MICROSOFT");
  }
}
