/** The dynamic WIM patch: region layout, construction and overlay (src/wimpatch.c). */
module WimPatch {
  import opened Bytes
  import opened Memory
  import opened Wim
  import opened WimDir
  import opened Vdisk

  // ---------------------------------------------------------------- which files are injected

  function Ascii(s: string): (r: seq<byte>)
    ensures |r| == |s|
  {
    seq<byte>(|s|, (i: int) requires 0 <= i < |s| => (s[i] as int) % 256)
  }

  /** strcasecmp of NUL-free strings. */
  predicate SameName(a: seq<byte>, b: seq<byte>) {
    |a| == |b| && forall i :: 0 <= i < |a| ==> Upper(a[i]) == Upper(b[i])
  }

  /** wim_inject_file */
  predicate Injects(f: VFile) {
    var ext := if |f.name| > 4 then f.name[|f.name| - 4..] else [];
    && f.present
    && !SameName(f.name, Ascii("wimboot")) && !SameName(f.name, Ascii("bootmgr"))
    && !SameName(f.name, Ascii("bootmgr.exe")) && !SameName(f.name, Ascii("BCD")) && !SameName(f.name, Ascii("boot.stl"))
    && !SameName(ext, Ascii(".wim")) && !SameName(ext, Ascii(".sdi")) && !SameName(ext, Ascii(".efi"))
    && !SameName(ext, Ascii(".ttf"))
  }

  /** The text in small letters, as the name spells it in letters of any case. */
  predicate Spells(name: seq<byte>, text: string) {
    |name| == |text| && forall i :: 0 <= i < |text| ==> text[i] as int == if 65 <= name[i] <= 90 then name[i] + 32 else name[i]
  }

  predicate SpecialName(name: seq<byte>) {
    || Spells(name, "wimboot") || Spells(name, "bootmgr") || Spells(name, "bootmgr.exe") || Spells(name, "bcd")
    || Spells(name, "boot.stl")
  }

  predicate SpecialEnd(name: seq<byte>) {
    |name| > 4 &&
    var end := name[|name| - 4..];
    Spells(end, ".wim") || Spells(end, ".sdi") || Spells(end, ".efi") || Spells(end, ".ttf")
  }

  lemma SpellsSame(name: seq<byte>, text: string, form: string)
    requires |form| == |text| && forall i :: 0 <= i < |text| ==>
      text[i] as int < 128 && !(65 <= text[i] as int <= 90) && (form[i] == text[i] || form[i] as int == text[i] as int - 32 >= 65)
    requires forall i :: 0 <= i < |text| && form[i] != text[i] ==> 97 <= text[i] as int <= 122
    ensures Spells(name, text) <==> SameName(name, Ascii(form))
  {
    if |name| == |text| {
      forall i | 0 <= i < |text|
        ensures text[i] as int == (if 65 <= name[i] <= 90 then name[i] + 32 else name[i]) <==> Upper(name[i]) == Upper(Ascii(form)[i])
      {
      }
    }
  }

  /**
   * Every file there is goes into the image but wimboot itself, the boot manager and its store, and files whose names
   * end in .wim, .sdi, .efi or .ttf after something, in letters of any case.
   */
  lemma KeptOut(f: VFile)
    ensures Injects(f) <==> f.present && !SpecialName(f.name) && !SpecialEnd(f.name)
  {
    hide Spells, SameName, Ascii;
    SpellsSame(f.name, "wimboot", "wimboot");
    SpellsSame(f.name, "bootmgr", "bootmgr");
    SpellsSame(f.name, "bootmgr.exe", "bootmgr.exe");
    SpellsSame(f.name, "bcd", "BCD");
    SpellsSame(f.name, "boot.stl", "boot.stl");
    var ext := if |f.name| > 4 then f.name[|f.name| - 4..] else [];
    SpellsSame(ext, ".wim", ".wim");
    SpellsSame(ext, ".sdi", ".sdi");
    SpellsSame(ext, ".efi", ".efi");
    SpellsSame(ext, ".ttf", ".ttf");
    if |f.name| <= 4 {
      NotEmpty(".wim");
      NotEmpty(".sdi");
      NotEmpty(".efi");
      NotEmpty(".ttf");
    }
  }

  lemma NotEmpty(form: string)
    requires form != ""
    ensures !SameName([], Ascii(form))
  {
  }

  // ---------------------------------------------------------------- where the regions go

  const HEADER_LEN := 208
  const DIR_FILE_LEN := 166
  const DIR_STRIDE := 168

  /** The sizes that determine the layout of a patched file. */
  datatype Plan = Plan(size: nat, files: seq<VFile>, lookupLen: nat, bootLen: nat, dirLen: nat, parent: nat)

  predicate ValidPlan(p: Plan) {
    |p.files| == MAX_FILES && p.size >= HEADER_LEN && p.parent + 24 <= p.bootLen
  }

  /** Number of injected files among the first `i`. */
  function Injected(files: seq<VFile>, i: nat): nat
    requires i <= |files|
  {
    if i == 0 then 0 else Injected(files, i - 1) + if Injects(files[i - 1]) then 1 else 0
  }

  /** Total size of the injected files among the first `i`. */
  function InjectedBytes(files: seq<VFile>, i: nat): nat
    requires i <= |files|
  {
    if i == 0 then 0 else InjectedBytes(files, i - 1) + if Injects(files[i - 1]) then |files[i - 1].data| else 0
  }

  function FileAt(p: Plan, i: nat): nat
    requires i <= |p.files|
  {
    p.size + InjectedBytes(p.files, i)
  }

  function Total(p: Plan): nat {
    Injected(p.files, |p.files|)
  }

  function LookupAt(p: Plan): nat {
    Align8(FileAt(p, |p.files|))
  }

  function LookupLen(p: Plan): nat {
    p.lookupLen + ENTRY_LEN + ENTRY_LEN * Total(p)
  }

  function BootAt(p: Plan): nat {
    Align8(LookupAt(p) + LookupLen(p))
  }

  /** Where the injected directory starts. */
  function DirAt(p: Plan): nat {
    Align8(BootAt(p) + p.bootLen)
  }

  function DirCopyAt(p: Plan): nat {
    DirAt(p) + DIR_STRIDE * Total(p)
  }

  /** The new lookup table, metadata and directory start at the first multiple of eight after what comes before them. */
  lemma PartsAligned(p: Plan)
    ensures LookupAt(p) % 8 == BootAt(p) % 8 == DirAt(p) % 8 == 0
    ensures FileAt(p, |p.files|) <= LookupAt(p) < FileAt(p, |p.files|) + 8
    ensures LookupAt(p) + LookupLen(p) <= BootAt(p) < LookupAt(p) + LookupLen(p) + 8
    ensures BootAt(p) + p.bootLen <= DirAt(p) < BootAt(p) + p.bootLen + 8
  {
    hide Injected, InjectedBytes;
  }

  function End(p: Plan): nat {
    DirCopyAt(p) + p.dirLen + 8
  }

  datatype Part = Header | FileData(i: nat) | LookupCopy | LookupBoot | LookupFile(i: nat) | BootCopy | Subdir | DirCopy | DirFile(i: nat)

  datatype Region = Unused | Region(part: Part, offset: nat, len: nat)

  const SLOTS := 195

  /** The regions in the order of the source's structure. */
  function PartOf(s: nat): (r: Part)
    requires s < SLOTS
    ensures r.FileData? || r.LookupFile? || r.DirFile? ==> r.i < MAX_FILES
  {
    if s == 0 then Header
    else if s < 64 then FileData(s - 1)
    else if s == 64 then LookupCopy
    else if s == 65 then LookupBoot
    else if s < 129 then LookupFile(s - 66)
    else if s == 129 then BootCopy
    else if s == 130 then Subdir
    else if s == 131 then DirCopy
    else DirFile(s - 132)
  }

  function FileSlot(files: seq<VFile>, size: nat, i: nat): Region
    requires i < |files|
  {
    if Injects(files[i]) then Region(FileData(i), size + InjectedBytes(files, i), |files[i].data|) else Unused
  }

  function LookupSlot(files: seq<VFile>, start: nat, i: nat): Region
    requires i < |files|
  {
    if Injects(files[i]) then Region(LookupFile(i), start + ENTRY_LEN * Injected(files, i), ENTRY_LEN) else Unused
  }

  function DirSlot(files: seq<VFile>, start: nat, i: nat): Region
    requires i < |files|
  {
    if Injects(files[i]) then Region(DirFile(i), start + DIR_STRIDE * Injected(files, i), DIR_FILE_LEN) else Unused
  }

  function RegionOf(p: Plan, part: Part): Region
    requires |p.files| == MAX_FILES && (part.FileData? || part.LookupFile? || part.DirFile? ==> part.i < MAX_FILES)
  {
    match part
    case Header => Region(part, 0, HEADER_LEN)
    case FileData(i) => FileSlot(p.files, p.size, i)
    case LookupCopy => Region(part, LookupAt(p), p.lookupLen)
    case LookupBoot => Region(part, LookupAt(p) + p.lookupLen, ENTRY_LEN)
    case LookupFile(i) => LookupSlot(p.files, LookupAt(p) + p.lookupLen + ENTRY_LEN, i)
    case BootCopy => Region(part, BootAt(p), p.bootLen)
    case Subdir => Region(part, BootAt(p) + p.parent + 16, 8)
    case DirCopy => Region(part, DirCopyAt(p), p.dirLen)
    case DirFile(i) => DirSlot(p.files, DirAt(p), i)
  }

  function Layout(p: Plan): (r: seq<Region>)
    requires |p.files| == MAX_FILES
    ensures |r| == SLOTS
  {
    seq<Region>(SLOTS, (s: int) requires 0 <= s < SLOTS => RegionOf(p, PartOf(s)))
  }

  predicate Covers(r: Region, at: nat) {
    r.Region? && r.offset <= at < r.offset + r.len
  }

  lemma {:induction false} InjectedMonotone(files: seq<VFile>, i: nat, j: nat)
    requires i <= j <= |files|
    ensures Injected(files, i) <= Injected(files, j) && InjectedBytes(files, i) <= InjectedBytes(files, j)
    ensures i < j && Injects(files[i]) ==> Injected(files, i) + 1 <= Injected(files, j)
    ensures i < j && Injects(files[i]) ==> InjectedBytes(files, i) + |files[i].data| <= InjectedBytes(files, j)
    decreases j
  {
    hide Injects;
    if i < j { InjectedMonotone(files, i, j - 1); }
  }

  /** The stretch of the file that each family of regions keeps to, in increasing order. */
  function Stretch(part: Part): nat {
    match part
    case Header => 0
    case FileData(_) => 1
    case LookupCopy => 2
    case LookupBoot => 3
    case LookupFile(_) => 4
    case BootCopy => 5
    case Subdir => 5
    case DirFile(_) => 6
    case DirCopy => 7
  }

  function StretchEnd(p: Plan, k: nat): nat {
    if k == 0 then p.size
    else if k == 1 then FileAt(p, |p.files|)
    else if k == 2 then LookupAt(p) + p.lookupLen
    else if k == 3 then LookupAt(p) + p.lookupLen + ENTRY_LEN
    else if k == 4 then LookupAt(p) + LookupLen(p)
    else if k == 5 then BootAt(p) + p.bootLen
    else if k == 6 then DirCopyAt(p)
    else DirCopyAt(p) + p.dirLen
  }

  /** Every region lies in its stretch. */
  lemma InStretch(p: Plan, part: Part)
    requires ValidPlan(p) && (part.FileData? || part.LookupFile? || part.DirFile? ==> part.i < MAX_FILES)
    ensures var r := RegionOf(p, part); r.Region? ==>
      && r.part == part && r.offset + r.len <= StretchEnd(p, Stretch(part))
      && (Stretch(part) > 0 ==> StretchEnd(p, Stretch(part) - 1) <= r.offset)
  {
    hide Injects, Injected, InjectedBytes;
    if part.FileData? || part.LookupFile? || part.DirFile? {
      InjectedMonotone(p.files, part.i, |p.files|);
    }
  }

  lemma StretchMonotone(p: Plan, j: nat, k: nat)
    requires ValidPlan(p) && j <= k <= 7
    ensures StretchEnd(p, j) <= StretchEnd(p, k)
  {
    hide Injected, InjectedBytes;
  }

  /** All regions are disjoint, except that the subdirectory field lies inside the metadata copy. */
  lemma RegionsDisjoint(p: Plan, a: Part, b: Part, at: nat)
    requires ValidPlan(p) && a != b
    requires (a.FileData? || a.LookupFile? || a.DirFile? ==> a.i < MAX_FILES) && (b.FileData? || b.LookupFile? || b.DirFile? ==> b.i < MAX_FILES)
    requires {a, b} != {BootCopy, Subdir}
    ensures !(Covers(RegionOf(p, a), at) && Covers(RegionOf(p, b), at))
  {
    hide Injects, Injected, InjectedBytes, StretchEnd;
    InStretch(p, a);
    InStretch(p, b);
    if Stretch(a) < Stretch(b) {
      StretchMonotone(p, Stretch(a), Stretch(b) - 1);
    } else if Stretch(b) < Stretch(a) {
      StretchMonotone(p, Stretch(b), Stretch(a) - 1);
    } else if a.FileData? || a.LookupFile? || a.DirFile? {
      if a.i < b.i { InjectedMonotone(p.files, a.i, b.i); } else { InjectedMonotone(p.files, b.i, a.i); }
    }
  }

  // ---------------------------------------------------------------- overlay

  /** The byte at `at` after the first `n` regions have been patched over `b`: the last region that covers it decides. */
  function Overlay(regions: seq<Region>, content: Part -> seq<byte>, n: nat, at: nat, b: byte): byte
    requires n <= |regions|
  {
    if n == 0 then b
    else
      var r := regions[n - 1];
      if Covers(r, at) && at - r.offset < |content(r.part)| then content(r.part)[at - r.offset]
      else Overlay(regions, content, n - 1, at, b)
  }

  /** A region that is the last to cover `at` decides the byte. */
  lemma {:induction false} OverlayDecided(regions: seq<Region>, content: Part -> seq<byte>, n: nat, at: nat, b: byte, s: nat)
    requires s < n <= |regions| && Covers(regions[s], at) && at - regions[s].offset < |content(regions[s].part)|
    requires forall t :: s < t < n ==> !Covers(regions[t], at)
    ensures Overlay(regions, content, n, at, b) == content(regions[s].part)[at - regions[s].offset]
  {
    if s < n - 1 {
      assert !Covers(regions[n - 1], at);
      OverlayDecided(regions, content, n - 1, at, b, s);
    }
  }

  lemma {:induction false} OverlayUntouched(regions: seq<Region>, content: Part -> seq<byte>, n: nat, at: nat, b: byte)
    requires n <= |regions| && forall t :: 0 <= t < n ==> !Covers(regions[t], at)
    ensures Overlay(regions, content, n, at, b) == b
  {
    if n > 0 {
      assert !Covers(regions[n - 1], at);
      OverlayUntouched(regions, content, n - 1, at, b);
    }
  }

  /** wim_patch_region: clip the fragment to the region and patch what is left of it. */
  method PatchRegion(r: Region, content: seq<byte>, data: array<byte>, offset: nat)
    requires r.Region? ==> r.len == |content|
    modifies data
    ensures forall j :: 0 <= j < data.Length ==>
      data[j] == if Covers(r, offset + j) then content[offset + j - r.offset] else old(data[j])
  {
    if r.Unused? { return; }
    var len := data.Length;
    var skip := if r.offset > offset then r.offset - offset else 0;
    if skip >= len { return; }
    var rel := offset + skip - r.offset;
    len := len - skip;
    if rel >= r.len { return; }
    if len > r.len - rel { len := r.len - rel; }
    assert rel < r.len && len <= r.len - rel;
    for i := 0 to len
      invariant forall j :: 0 <= j < data.Length ==>
        data[j] == if skip <= j < skip + i then content[rel + (j - skip)] else old(data[j])
    {
      data[skip + i] := content[rel + i];
    }
  }

  /** The region loop of patch_wim: whatever the fragment, each byte is the overlay byte of its own position. */
  method PatchFragment(regions: seq<Region>, content: Part -> seq<byte>, data: array<byte>, offset: nat)
    requires forall s :: 0 <= s < |regions| && regions[s].Region? ==> |content(regions[s].part)| == regions[s].len
    modifies data
    ensures forall j :: 0 <= j < data.Length ==>
      data[j] == Overlay(regions, content, |regions|, offset + j, old(data[j]))
  {
    for s := 0 to |regions|
      invariant forall j :: 0 <= j < data.Length ==> data[j] == Overlay(regions, content, s, offset + j, old(data[j]))
    {
      var bytes := if regions[s].Region? then content(regions[s].part) else [];
      PatchRegion(regions[s], bytes, data, offset);
    }
  }

  // ---------------------------------------------------------------- construction

  /** A WIM header: the bytes read from the file and the fields that may be changed. */
  datatype WimHeader = WimHeader(raw: seq<byte>, images: nat, lookup: Resource, boot: Resource, bootIndex: nat)

  function HeaderAt(b: seq<byte>): (h: WimHeader)
    requires |b| == HEADER_LEN
    ensures |h.raw| == HEADER_LEN
  {
    WimHeader(b, FromLE(b[44..48]), ResourceAt(b, 48), ResourceAt(b, 96), FromLE(b[120..124]))
  }

  function HeaderBytes(h: WimHeader): (r: seq<byte>)
    requires |h.raw| == HEADER_LEN
    ensures |r| == HEADER_LEN
  {
    Put(Put(Put(Put(h.raw, 44, LE(h.images, 4)), 48, ResourceBytes(h.lookup)), 96, ResourceBytes(h.boot)), 120, LE(h.bootIndex, 4))
  }

  function CodecIn(h: WimHeader): Codec
    requires |h.raw| == HEADER_LEN
  {
    CodecOf(FromLE(h.raw[16..20]))
  }

  function Wide(s: seq<byte>): (r: seq<nat>)
    ensures |r| == |s|
  {
    seq<nat>(|s|, (i: int) requires 0 <= i < |s| => s[i])
  }

  const INJECT_DIR: seq<nat> := Wide(Ascii("\\Windows\\System32"))

  /** The original header, lookup table and metadata that a patch is built from. */
  function OriginalHeader(file: File): (h: WimHeader)
    ensures |h.raw| == HEADER_LEN
  {
    HeaderAt(Slice(file.img, 0, HEADER_LEN))
  }

  function LookupReading(dec: Decompressor, file: File): Reading {
    var h := OriginalHeader(file);
    ReadingOf(dec, file, CodecIn(h), h.lookup)
  }

  function BootResource(dec: Decompressor, file: File, index: nat): Option<Resource> {
    var h := OriginalHeader(file);
    if index == 0 then Some(h.boot) else FindMetadata(LookupReading(dec, file), h.lookup.len, 0, index)
  }

  function MetaReading(dec: Decompressor, file: File, boot: Resource): Reading {
    ReadingOf(dec, file, CodecIn(OriginalHeader(file)), boot)
  }

  method PlaceFiles(size: nat, files: seq<VFile>) returns (slots: seq<Region>, offset: nat, injected: nat)
    ensures |slots| == |files| && offset == size + InjectedBytes(files, |files|) && injected == Injected(files, |files|)
    ensures forall i :: 0 <= i < |files| ==> slots[i] == FileSlot(files, size, i)
  {
    hide Injects;
    slots, offset, injected := [], size, 0;
    for i := 0 to |files|
      invariant |slots| == i && offset == size + InjectedBytes(files, i) && injected == Injected(files, i)
      invariant forall k :: 0 <= k < i ==> slots[k] == FileSlot(files, size, k)
    {
      if Injects(files[i]) {
        slots := slots + [Region(FileData(i), offset, |files[i].data|)];
        offset := offset + |files[i].data|;
        injected := injected + 1;
      } else {
        slots := slots + [Unused];
      }
    }
  }

  method PlaceLookup(files: seq<VFile>, rfile: seq<Region>, start: nat) returns (slots: seq<Region>, offset: nat)
    requires |rfile| == |files| && forall i :: 0 <= i < |files| ==> (rfile[i].Region? <==> Injects(files[i]))
    ensures |slots| == |files| && offset == start + ENTRY_LEN * Injected(files, |files|)
    ensures forall i :: 0 <= i < |files| ==> slots[i] == LookupSlot(files, start, i)
  {
    hide Injects;
    slots, offset := [], start;
    for i := 0 to |files|
      invariant |slots| == i && offset == start + ENTRY_LEN * Injected(files, i)
      invariant forall k :: 0 <= k < i ==> slots[k] == LookupSlot(files, start, k)
    {
      if rfile[i].Region? {
        slots := slots + [Region(LookupFile(i), offset, ENTRY_LEN)];
        offset := offset + ENTRY_LEN;
      } else {
        slots := slots + [Unused];
      }
    }
  }

  /** The entry loop of wim_construct_dir: every entry starts on a multiple of eight. */
  method PlaceDir(files: seq<VFile>, rfile: seq<Region>, start: nat) returns (slots: seq<Region>, offset: nat)
    requires start % 8 == 0
    requires |rfile| == |files| && forall i :: 0 <= i < |files| ==> (rfile[i].Region? <==> Injects(files[i]))
    ensures |slots| == |files| && offset == start + DIR_STRIDE * Injected(files, |files|)
    ensures forall i :: 0 <= i < |files| ==> slots[i] == DirSlot(files, start, i)
  {
    hide Injects;
    slots, offset := [], start;
    for i := 0 to |files|
      invariant |slots| == i && offset == start + DIR_STRIDE * Injected(files, i)
      invariant forall k :: 0 <= k < i ==> slots[k] == DirSlot(files, start, k)
    {
      if rfile[i].Region? {
        slots := slots + [Region(DirFile(i), offset, DIR_FILE_LEN)];
        StrideAligned(start, Injected(files, i));
        offset := Align8(offset + DIR_FILE_LEN);
      } else {
        slots := slots + [Unused];
      }
    }
  }

  lemma StrideAligned(start: nat, n: nat)
    requires start % 8 == 0
    ensures Align8(start + DIR_STRIDE * n + DIR_FILE_LEN) == start + DIR_STRIDE * n + DIR_STRIDE
  {
  }

  function HeaderOnly(): seq<Region> {
    [Region(Header, 0, HEADER_LEN)] + seq<Region>(SLOTS - 1, _ => Unused)
  }

  /** What construction finds in the original file when files are injected. */
  datatype Findings = Findings(boot: Resource, count: nat, parent: nat, dirOffset: nat, dirLen: nat)

  function Find(dec: Decompressor, file: File, index: nat): Option<Findings> {
    var h, boot := OriginalHeader(file), BootResource(dec, file, index);
    if boot.None? then None
    else
      var count := CountImages(LookupReading(dec, file), h.lookup.len, 0);
      var meta := MetaReading(dec, file, boot.value);
      var entry := FindPath(meta, boot.value.len, INJECT_DIR);
      if count.None? || entry.None? then None
      else
        var len := DirLen(meta, boot.value.len, SubdirOf(entry.value.entry));
        if len.None? then None
        else Some(Findings(boot.value, count.value, entry.value.offset, SubdirOf(entry.value.entry), len.value))
  }

  /** The resources that construction reads can be read through the cache. */
  ghost predicate Readable(cat: Catalogue, dec: Decompressor, file: File, index: nat, injecting: bool) {
    var codec, boot := CodecIn(OriginalHeader(file)), BootResource(dec, file, index);
    file.size >= HEADER_LEN ==>
      && (index > 0 || injecting ==> Listed(cat, file, codec, OriginalHeader(file).lookup))
      && (injecting && boot.Some? ==> Listed(cat, file, codec, boot.value))
  }

  function PlanFor(file: File, files: seq<VFile>, f: Findings): Plan {
    Plan(file.size, files, OriginalHeader(file).lookup.len, f.boot.len, f.dirLen, f.parent)
  }

  function SelectedHeader(file: File, index: nat, boot: Resource): WimHeader {
    var h := OriginalHeader(file);
    if index == 0 then h else h.(boot := boot, bootIndex := index)
  }

  function PatchedHeader(file: File, f: Findings, p: Plan): WimHeader {
    OriginalHeader(file).(
      images := f.count + 1, bootIndex := f.count + 1,
      lookup := Resource(0, LookupLen(p), LookupAt(p), LookupLen(p)),
      boot := Resource(2, End(p) - BootAt(p), BootAt(p), End(p) - BootAt(p)))
  }

  lemma FindBoot(dec: Decompressor, file: File, index: nat)
    ensures var f := Find(dec, file, index); f.Some? ==> BootResource(dec, file, index) == Some(f.value.boot)
  {
    hide BootResource, LookupReading, MetaReading, CountImages, FindPath, DirLen, OriginalHeader;
  }

  /** The searches of wim_construct_patch: image count, injection directory and its length. */
  method Search(reader: Reader, ghost cat: Catalogue, file: File, index: nat, lookup: Resource, boot: Resource) returns (r: Option<Findings>)
    requires reader.Valid(cat) && file.size >= HEADER_LEN && Readable(cat, reader.dec, file, index, true)
    requires lookup == OriginalHeader(file).lookup && BootResource(reader.dec, file, index) == Some(boot)
    modifies reader`cachedFile, reader`cachedOffset, reader`cachedChunk, reader.buffer
    ensures reader.Valid(cat)
    ensures r == Find(reader.dec, file, index)
  {
    hide FindPath, DirLen, CountImages, OriginalHeader, Reader.Valid, Listed, ReadingOf, BootResource;
    var codec := CodecIn(OriginalHeader(file));
    var count := WimCount(reader, cat, file, codec, lookup);
    if count.None? { return None; }
    var entry := WimPath(reader, cat, file, codec, boot, INJECT_DIR);
    if entry.None? { return None; }
    var dirOffset := SubdirOf(entry.value.entry);
    var len := WimDirLen(reader, cat, file, codec, boot, dirOffset);
    if len.None? { return None; }
    return Some(Findings(boot, count.value, entry.value.offset, dirOffset, len.value));
  }

  class Patch {
    var header: WimHeader
    var lookup: Resource
    var boot: Resource
    var bootIndex: nat
    var parent: nat
    var dirOffset: nat
    var dirLen: nat
    var subdir: nat
    var regions: seq<Region>
    var xlen: nat

    /** wim_construct_patch: what it reads goes through the chunk cache. */
    method Construct(reader: Reader, ghost cat: Catalogue, file: File, files: seq<VFile>, index: nat, inject: bool) returns (ok: bool)
      requires |files| == MAX_FILES && reader.Valid(cat)
      requires Readable(cat, reader.dec, file, index, inject && Injected(files, |files|) > 0)
      modifies this, reader`cachedFile, reader`cachedOffset, reader`cachedChunk, reader.buffer
      ensures reader.Valid(cat)
      ensures ok <==> (file.size >= HEADER_LEN && BootResource(reader.dec, file, index).Some? &&
                       (inject && Injected(files, |files|) > 0 ==> Find(reader.dec, file, index).Some?))
      ensures ok && !(inject && Injected(files, |files|) > 0) ==>
        regions == HeaderOnly() && xlen == file.size && header == SelectedHeader(file, index, BootResource(reader.dec, file, index).value)
      ensures ok && inject && Injected(files, |files|) > 0 ==>
        var f := Find(reader.dec, file, index).value; var p := PlanFor(file, files, f);
        && regions == Layout(p) && xlen == End(p) && header == PatchedHeader(file, f, p)
        && lookup == OriginalHeader(file).lookup && boot == f.boot && parent == f.parent
        && dirOffset == f.dirOffset && dirLen == f.dirLen && subdir == DirAt(p) - BootAt(p)
    {
      hide Injects, Injected, InjectedBytes, FindPath, DirLen, CountImages, FindMetadata, ReadingOf, FromLE, Reader.Valid, Listed, Find, PatchedHeader, Layout, End, BootAt, DirAt, PlanFor;
      xlen := file.size;
      if HEADER_LEN > file.size { return false; }
      header := OriginalHeader(file);
      var codec := CodecIn(header);
      regions := HeaderOnly();
      lookup := header.lookup;
      var meta := WimMetadata(reader, cat, file, codec, lookup, header.boot, index);
      if meta.None? { return false; }
      boot := meta.value;
      if index != 0 { header := header.(boot := boot); }
      bootIndex := header.bootIndex;
      if index != 0 { header := header.(bootIndex := index); }
      if !inject { return true; }
      var fileSlots, offset, injected := PlaceFiles(file.size, files);
      if injected == 0 { return true; }
      hide HeaderOnly, SelectedHeader;
      ok := ConstructInjected(reader, cat, file, files, index, fileSlots, offset);
    }

    /** The rest of wim_construct_patch, once there are files to inject. */
    method ConstructInjected(reader: Reader, ghost cat: Catalogue, file: File, files: seq<VFile>, index: nat, fileSlots: seq<Region>, filesEnd: nat)
      returns (ok: bool)
      requires |files| == MAX_FILES == |fileSlots| && BootResource(reader.dec, file, index) == Some(boot) && file.size >= HEADER_LEN
      requires reader.Valid(cat) && Readable(cat, reader.dec, file, index, true)
      requires filesEnd == file.size + InjectedBytes(files, |files|)
      requires forall i :: 0 <= i < MAX_FILES ==> fileSlots[i] == FileSlot(files, file.size, i)
      requires lookup == OriginalHeader(file).lookup
      requires header.(boot := lookup, bootIndex := 0) == OriginalHeader(file).(boot := lookup, bootIndex := 0)
      modifies this, reader`cachedFile, reader`cachedOffset, reader`cachedChunk, reader.buffer
      ensures reader.Valid(cat)
      ensures ok <==> Find(reader.dec, file, index).Some?
      ensures ok ==> var f := Find(reader.dec, file, index).value; var p := PlanFor(file, files, f);
        && regions == Layout(p) && xlen == End(p) && header == PatchedHeader(file, f, p)
        && lookup == OriginalHeader(file).lookup && boot == f.boot && parent == f.parent
        && dirOffset == f.dirOffset && dirLen == f.dirLen && subdir == DirAt(p) - BootAt(p)
    {
      hide Injected, InjectedBytes, Layout, OriginalHeader, Reader.Valid, Readable, Find, BootResource, LookupAt, LookupLen, BootAt, DirAt, End, FileSlot;
      var found := Search(reader, cat, file, index, lookup, boot);
      FindBoot(reader.dec, file, index);
      if found.None? { return false; }
      Install(file, files, found.value, fileSlots, filesEnd);
      return true;
    }

    /** The new image: its header, regions and length. */
    method Install(ghost file: File, files: seq<VFile>, f: Findings, fileSlots: seq<Region>, filesEnd: nat)
      requires |files| == MAX_FILES == |fileSlots| && boot == f.boot && filesEnd == file.size + InjectedBytes(files, |files|)
      requires forall i :: 0 <= i < MAX_FILES ==> fileSlots[i] == FileSlot(files, file.size, i)
      requires lookup == OriginalHeader(file).lookup
      requires header.(boot := lookup, bootIndex := 0) == OriginalHeader(file).(boot := lookup, bootIndex := 0)
      modifies this
      ensures var p := PlanFor(file, files, f);
        && regions == Layout(p) && xlen == End(p) && header == PatchedHeader(file, f, p)
        && lookup == old(lookup) && boot == old(boot) && parent == f.parent
        && dirOffset == f.dirOffset && dirLen == f.dirLen && subdir == DirAt(p) - BootAt(p)
    {
      hide Injected, InjectedBytes, Layout, OriginalHeader, LookupAt, LookupLen, BootAt, DirAt, End, FileSlot;
      header := header.(images := f.count + 1, bootIndex := f.count + 1);
      parent, dirOffset, dirLen := f.parent, f.dirOffset, f.dirLen;
      ghost var p := PlanFor(file, files, f);
      var lookupAt, lookupEnd, bootAt;
      regions, lookupAt, lookupEnd, bootAt, subdir, xlen := LayOut(p, fileSlots, filesEnd, files, lookup.len, boot.len, dirLen, parent);
      header := header.(lookup := Resource(0, lookupEnd - lookupAt, lookupAt, lookupEnd - lookupAt));
      header := header.(boot := Resource(2, xlen - bootAt, bootAt, xlen - bootAt));
    }
  }

  /** The running offset of wim_construct_patch and wim_construct_dir, from the end of the injected files on. */
  method LayOut(ghost p: Plan, fileSlots: seq<Region>, filesEnd: nat, files: seq<VFile>, lookupLen: nat, bootLen: nat, dirLen: nat, parent: nat)
    returns (regions: seq<Region>, lookupAt: nat, lookupEnd: nat, bootAt: nat, subdir: nat, xlen: nat)
    requires p == Plan(p.size, files, lookupLen, bootLen, dirLen, parent) && |files| == MAX_FILES == |fileSlots|
    requires filesEnd == FileAt(p, |files|) && forall i :: 0 <= i < MAX_FILES ==> fileSlots[i] == FileSlot(files, p.size, i)
    ensures regions == Layout(p) && lookupAt == LookupAt(p) && lookupEnd == lookupAt + LookupLen(p)
    ensures bootAt == BootAt(p) && subdir == DirAt(p) - bootAt && xlen == End(p) && bootAt <= xlen
  {
    hide Injects, Injected, InjectedBytes, Align8, Layout;
    lookupAt := Align8(filesEnd);
    var lookupSlots, dirSlots, offset;
    lookupSlots, lookupEnd := PlaceLookup(files, fileSlots, lookupAt + lookupLen + ENTRY_LEN);
    bootAt := Align8(lookupEnd);
    var dirAt := Align8(bootAt + bootLen);
    subdir := dirAt - bootAt;
    dirSlots, offset := PlaceDir(files, fileSlots, dirAt);
    xlen := offset + dirLen + 8;
    regions := [Region(Header, 0, HEADER_LEN)] + fileSlots
      + [Region(LookupCopy, lookupAt, lookupLen), Region(LookupBoot, lookupAt + lookupLen, ENTRY_LEN)] + lookupSlots
      + [Region(BootCopy, bootAt, bootLen), Region(Subdir, bootAt + parent + 16, 8), Region(DirCopy, offset, dirLen)] + dirSlots;
    AssembleLayout(p, fileSlots, lookupSlots, dirSlots);
  }

  /** The three families of slots and the single regions, in structure order, are the layout. */
  lemma AssembleLayout(p: Plan, a: seq<Region>, b: seq<Region>, c: seq<Region>)
    requires |p.files| == MAX_FILES == |a| == |b| == |c|
    requires forall i :: 0 <= i < MAX_FILES ==> a[i] == RegionOf(p, FileData(i))
    requires forall i :: 0 <= i < MAX_FILES ==> b[i] == RegionOf(p, LookupFile(i))
    requires forall i :: 0 <= i < MAX_FILES ==> c[i] == RegionOf(p, DirFile(i))
    ensures Layout(p) == [RegionOf(p, Header)] + a + [RegionOf(p, LookupCopy), RegionOf(p, LookupBoot)] + b
      + [RegionOf(p, BootCopy), RegionOf(p, Subdir), RegionOf(p, DirCopy)] + c
  {
    hide RegionOf;
  }
}
