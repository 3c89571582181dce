/** Lookup tables and directories inside WIM resources (src/wim.c, src/wim.h). */
module WimDir {
  import opened Bytes
  import opened Memory
  import opened Wim

  const ENTRY_LEN := 50
  const DIRENTRY_LEN := 102

  /** How the functions below see a resource: any range of it, or a failure. */
  type Reading = (nat, nat) -> Option<seq<byte>>

  function ReadingIn(dec: Decompressor, img: Image, size: nat, codec: Codec, res: Resource): Reading {
    (offset: nat, len: nat) => ReadResource(dec, img, size, codec, res, offset, len)
  }

  function ReadingOf(dec: Decompressor, file: File, codec: Codec, res: Resource): Reading {
    ReadingIn(dec, file.img, file.size, codec, res)
  }

  /** The reading of an intact resource: ranges inside succeed, the others fail. */
  function ReadingSeq(c: seq<byte>): Reading {
    (offset: nat, len: nat) => if offset + len <= |c| then Some(c[offset..offset + len]) else None
  }

  /** A read of exactly `len` bytes. */
  function Get(rd: Reading, offset: nat, len: nat): (r: Option<seq<byte>>)
    ensures r.Some? ==> |r.value| == len
  {
    var r := rd(offset, len);
    if r.Some? && |r.value| == len then r else None
  }

  // ---------------------------------------------------------------- layouts

  function ResourceAt(e: seq<byte>, at: nat): Resource
    requires at + 24 <= |e|
  {
    Resource(e[at + 7], FromLE(e[at..at + 7]), FromLE(e[at + 8..at + 16]), FromLE(e[at + 16..at + 24]))
  }

  function ResourceBytes(res: Resource): (r: seq<byte>)
    ensures |r| == 24
  {
    LE(res.zlen, 7) + [res.flags] + LE(res.offset, 8) + LE(res.len, 8)
  }

  predicate ValidResource(res: Resource) {
    res.zlen < ZLEN_RANGE && res.offset < 0x1_0000_0000_0000_0000 && res.len < 0x1_0000_0000_0000_0000
  }

  lemma SubSlice(e: seq<byte>, at: nat, n: nat, a: nat, b: nat)
    requires at + n <= |e| && a <= b <= n
    ensures e[at..at + n][a..b] == e[at + a..at + b]
  {
    var x, y := e[at..at + n][a..b], e[at + a..at + b];
    assert forall i :: 0 <= i < b - a ==> x[i] == e[at..at + n][a + i] == e[at + a + i] == y[i];
  }

  lemma ResourceRoundTrip(res: Resource, e: seq<byte>, at: nat)
    requires ValidResource(res) && at + 24 <= |e| && e[at..at + 24] == ResourceBytes(res)
    ensures ResourceAt(e, at) == res
  {
    hide LE;
    var b := ResourceBytes(res);
    assert b[..7] == LE(res.zlen, 7) && b[7] == res.flags && b[8..16] == LE(res.offset, 8) && b[16..24] == LE(res.len, 8);
    SubSlice(e, at, 24, 0, 7);
    SubSlice(e, at, 24, 8, 16);
    SubSlice(e, at, 24, 16, 24);
    assert e[at + 7] == e[at..at + 24][7];
    RangeValues();
    assert Range(7) == ZLEN_RANGE by { assert Range(4) == 0x1_0000_0000 && Range(7) == 256 * (256 * (256 * Range(4))); }
    LERoundTrip(res.zlen, 7);
    LERoundTrip(res.offset, 8);
    LERoundTrip(res.len, 8);
  }

  function Upper(u: nat): nat {
    if 97 <= u <= 122 then u - 32 else u
  }

  function Join(low: byte, high: byte): nat {
    low + 256 * high
  }

  function UnitIn(b: seq<byte>, i: nat): nat
    requires 2 * i + 1 < |b|
  {
    Join(b[2 * i], b[2 * i + 1])
  }

  /** wcscasecmp of a name with a buffer of one more unit. */
  predicate NameMatches(name: seq<nat>, b: seq<byte>)
    requires |b| == 2 * (|name| + 1)
  {
    (forall i :: 0 <= i < |name| ==> Upper(name[i]) == Upper(UnitIn(b, i))) && UnitIn(b, |name|) == 0
  }

  // ---------------------------------------------------------------- lookup table

  /** wim_count, from offset `at` on. */
  function CountImages(rd: Reading, len: nat, at: nat): Option<nat>
    decreases len - at
  {
    if at + ENTRY_LEN > len then Some(0)
    else
      var e := Get(rd, at, ENTRY_LEN);
      if e.None? then None
      else
        var rest := CountImages(rd, len, at + ENTRY_LEN);
        if rest.None? then None else Some(rest.value + if IsMetadata(ResourceAt(e.value, 0)) then 1 else 0)
  }

  /** wim_metadata for a positive index: the `index`-th metadata entry from `at` on. */
  function FindMetadata(rd: Reading, len: nat, at: nat, index: nat): Option<Resource>
    requires index > 0
    decreases len - at
  {
    if at + ENTRY_LEN > len then None
    else
      var e := Get(rd, at, ENTRY_LEN);
      if e.None? then None
      else
        var res := ResourceAt(e.value, 0);
        if !IsMetadata(res) then FindMetadata(rd, len, at + ENTRY_LEN, index)
        else if index == 1 then Some(res)
        else FindMetadata(rd, len, at + ENTRY_LEN, index - 1)
  }

  /** The lookup loop of wim_file: the first entry with the hash. */
  function FindHash(rd: Reading, len: nat, at: nat, hash: seq<byte>): Option<Resource>
    decreases len - at
  {
    if at + ENTRY_LEN > len then None
    else
      var e := Get(rd, at, ENTRY_LEN);
      if e.None? then None
      else if e.value[30..50] == hash then Some(ResourceAt(e.value, 0))
      else FindHash(rd, len, at + ENTRY_LEN, hash)
  }

  // ---------------------------------------------------------------- directories

  /** wim_dir_len: bytes of directory entries from `at` up to the terminator. */
  function DirLen(rd: Reading, limit: nat, at: nat): Option<nat>
    decreases limit - at
  {
    if at + 8 > limit then None
    else
      var l := Get(rd, at, 8);
      if l.None? then None
      else if FromLE(l.value) == 0 then Some(0)
      else
        var rest := DirLen(rd, limit, at + FromLE(l.value));
        if rest.None? then None else Some(FromLE(l.value) + rest.value)
  }

  datatype Found = Found(offset: nat, entry: seq<byte>)

  datatype Look = Fail | Here(entry: seq<byte>) | Skip(len: nat)

  /** One turn of the loop of wim_direntry. */
  function LookAt(rd: Reading, name: seq<nat>, at: nat): (r: Look)
    ensures r.Here? ==> |r.entry| == DIRENTRY_LEN
    ensures r.Skip? ==> r.len > 0
  {
    var l := Get(rd, at, 8);
    if l.None? || FromLE(l.value) == 0 then Fail
    else
      var e := Get(rd, at, DIRENTRY_LEN);
      if e.None? then Fail
      else if FromLE(e.value[100..102]) > 2 * (|name| + 1) then
        if FromLE(e.value[0..8]) == 0 then Fail else Skip(FromLE(e.value[0..8]))
      else
        var b := Get(rd, at + DIRENTRY_LEN, 2 * (|name| + 1));
        if b.None? then Fail
        else if NameMatches(name, b.value) then Here(e.value)
        else if FromLE(e.value[0..8]) == 0 then Fail else Skip(FromLE(e.value[0..8]))
  }

  /** wim_direntry */
  function FindEntry(rd: Reading, limit: nat, name: seq<nat>, at: nat): Option<Found>
    decreases limit - at
  {
    if at + 8 > limit then None
    else
      match LookAt(rd, name, at)
      case Fail => None
      case Here(e) => Some(Found(at, e))
      case Skip(n) => FindEntry(rd, limit, name, at + n)
  }

  function SubdirOf(entry: seq<byte>): nat
    requires |entry| == DIRENTRY_LEN
  {
    FromLE(entry[16..24])
  }

  /** The component loop of wim_path. */
  function Walk(rd: Reading, limit: nat, names: seq<seq<nat>>, dir: nat): (r: Option<Found>)
    requires names != []
    ensures r.Some? ==> |r.value.entry| == DIRENTRY_LEN
    decreases |names|
  {
    var f := FindEntry(rd, limit, names[0], dir);
    if f.None? then None
    else if |f.value.entry| != DIRENTRY_LEN then None
    else if |names| == 1 then f
    else Walk(rd, limit, names[1..], SubdirOf(f.value.entry))
  }

  function Align8(n: nat): (r: nat)
    ensures n <= r < n + 8 && r % 8 == 0
  {
    (n + 7) / 8 * 8
  }

  const BACKSLASH := 92

  /** The components of a path, as wcschr cuts it. */
  function Components(path: seq<nat>): (r: seq<seq<nat>>)
    ensures r != []
  {
    if path == [] then [[]]
    else
      var rest := Components(path[1..]);
      if path[0] == BACKSLASH then [[]] + rest else [[path[0]] + rest[0]] + rest[1..]
  }

  /** wim_path: start at the directory after the security data. */
  function FindPath(rd: Reading, limit: nat, path: seq<nat>): (r: Option<Found>)
    ensures r.Some? ==> |r.value.entry| == DIRENTRY_LEN
  {
    var s := Get(rd, 0, 8);
    if s.None? then None else Walk(rd, limit, Components(path), Align8(FromLE(s.value[0..4])))
  }

  /** wim_file: the resource whose hash is that of the directory entry. */
  function FindFile(meta: Reading, limit: nat, lookup: Reading, len: nat, path: seq<nat>): Option<Resource> {
    var f := FindPath(meta, limit, path);
    if f.None? then None else FindHash(lookup, len, 0, f.value.entry[64..84])
  }

  // ---------------------------------------------------------------- the source's loops

  /** Read one lookup table entry. */
  method ReadEntry(reader: Reader, ghost cat: Catalogue, file: File, codec: Codec, lookup: Resource, offset: nat)
    returns (e: Option<seq<byte>>)
    requires reader.Valid(cat) && Listed(cat, file, codec, lookup)
    modifies reader`cachedFile, reader`cachedOffset, reader`cachedChunk, reader.buffer
    ensures reader.Valid(cat) && e == Get(ReadingOf(reader.dec, file, codec, lookup), offset, ENTRY_LEN)
  {
    hide Listed, Reader.Valid, ReadResource;
    e := reader.Read(cat, file, codec, lookup, offset, ENTRY_LEN);
    ReadLength(reader.dec, file, codec, lookup, offset, ENTRY_LEN);
  }

  /** wim_count */
  method WimCount(reader: Reader, ghost cat: Catalogue, file: File, codec: Codec, lookup: Resource) returns (r: Option<nat>)
    requires reader.Valid(cat) && Listed(cat, file, codec, lookup)
    modifies reader`cachedFile, reader`cachedOffset, reader`cachedChunk, reader.buffer
    ensures reader.Valid(cat)
    ensures r == CountImages(ReadingOf(reader.dec, file, codec, lookup), lookup.len, 0)
  {
    hide ReadResource, Listed, ReadingOf, Reader.Valid, FromLE;
    ghost var rd := ReadingOf(reader.dec, file, codec, lookup);
    var offset, count := 0, 0;
    while offset + ENTRY_LEN <= lookup.len
      invariant reader.Valid(cat)
      invariant CountImages(rd, lookup.len, 0) == Plus(count, CountImages(rd, lookup.len, offset))
      decreases lookup.len - offset
    {
      var e := ReadEntry(reader, cat, file, codec, lookup, offset);
      if e.None? { return None; }
      if IsMetadata(ResourceAt(e.value, 0)) { count := count + 1; }
      offset := offset + ENTRY_LEN;
    }
    return Some(count);
  }

  /** wim_metadata; index 0 means the boot metadata of the header. */
  method WimMetadata(reader: Reader, ghost cat: Catalogue, file: File, codec: Codec, lookup: Resource, boot: Resource, index: nat)
    returns (r: Option<Resource>)
    requires reader.Valid(cat) && (index > 0 ==> Listed(cat, file, codec, lookup))
    modifies reader`cachedFile, reader`cachedOffset, reader`cachedChunk, reader.buffer
    ensures reader.Valid(cat)
    ensures r == if index == 0 then Some(boot) else FindMetadata(ReadingOf(reader.dec, file, codec, lookup), lookup.len, 0, index)
  {
    if index == 0 { return Some(boot); }
    r := MetadataLoop(reader, cat, file, codec, lookup, index);
  }

  method MetadataLoop(reader: Reader, ghost cat: Catalogue, file: File, codec: Codec, lookup: Resource, index: nat)
    returns (r: Option<Resource>)
    requires reader.Valid(cat) && Listed(cat, file, codec, lookup) && index > 0
    modifies reader`cachedFile, reader`cachedOffset, reader`cachedChunk, reader.buffer
    ensures reader.Valid(cat)
    ensures r == FindMetadata(ReadingOf(reader.dec, file, codec, lookup), lookup.len, 0, index)
  {
    hide ReadResource, Listed, ReadingOf, Reader.Valid, FromLE, FindMetadata, Get, IsMetadata, ResourceAt;
    ghost var rd := ReadingOf(reader.dec, file, codec, lookup);
    var offset, found := 0, 0;
    while offset + ENTRY_LEN <= lookup.len
      invariant reader.Valid(cat) && found < index
      invariant FindMetadata(rd, lookup.len, 0, index) == FindMetadata(rd, lookup.len, offset, index - found)
      decreases lookup.len - offset
    {
      MetadataStep(rd, lookup.len, offset, index - found);
      var e := ReadEntry(reader, cat, file, codec, lookup, offset);
      if e.None? { return None; }
      if IsMetadata(ResourceAt(e.value, 0)) {
        found := found + 1;
        if found == index { return Some(ResourceAt(e.value, 0)); }
      }
      offset := offset + ENTRY_LEN;
    }
    MetadataEnd(rd, lookup.len, offset, index - found);
    return None;
  }

  lemma MetadataStep(rd: Reading, len: nat, at: nat, index: nat)
    requires index > 0 && at + ENTRY_LEN <= len
    ensures Get(rd, at, ENTRY_LEN).None? ==> FindMetadata(rd, len, at, index) == None
    ensures Get(rd, at, ENTRY_LEN).Some? ==>
      var res := ResourceAt(Get(rd, at, ENTRY_LEN).value, 0);
      FindMetadata(rd, len, at, index) ==
        if !IsMetadata(res) then FindMetadata(rd, len, at + ENTRY_LEN, index)
        else if index == 1 then Some(res)
        else FindMetadata(rd, len, at + ENTRY_LEN, index - 1)
  {
    hide IsMetadata, ResourceAt;
  }

  lemma MetadataEnd(rd: Reading, len: nat, at: nat, index: nat)
    requires index > 0 && at + ENTRY_LEN > len
    ensures FindMetadata(rd, len, at, index) == None
  {
  }

  /** wim_dir_len */
  method WimDirLen(reader: Reader, ghost cat: Catalogue, file: File, codec: Codec, meta: Resource, offset: nat) returns (r: Option<nat>)
    requires reader.Valid(cat) && Listed(cat, file, codec, meta)
    modifies reader`cachedFile, reader`cachedOffset, reader`cachedChunk, reader.buffer
    ensures reader.Valid(cat)
    ensures r == DirLen(ReadingOf(reader.dec, file, codec, meta), meta.len, offset)
  {
    hide Listed, ReadResource, ReadingOf, DirLen, FromLE, Reader.Valid;
    ghost var rd := ReadingOf(reader.dec, file, codec, meta);
    var len := 0;
    assert Plus(0, DirLen(rd, meta.len, offset)) == DirLen(rd, meta.len, offset);
    while true
      invariant reader.Valid(cat)
      invariant DirLen(rd, meta.len, offset) == Plus(len, DirLen(rd, meta.len, offset + len))
      decreases meta.len - (offset + len)
    {
      var l := reader.Read(cat, file, codec, meta, offset + len, 8);
      ReadLength(reader.dec, file, codec, meta, offset + len, 8);
      DirLenStep(rd, meta.len, offset + len);
      if l.None? { return None; }
      if FromLE(l.value) == 0 { return Some(len); }
      len := len + FromLE(l.value);
    }
  }

  /** wim_direntry */
  method WimDirentry(reader: Reader, ghost cat: Catalogue, file: File, codec: Codec, meta: Resource, name: seq<nat>, start: nat)
    returns (r: Option<Found>)
    requires reader.Valid(cat) && Listed(cat, file, codec, meta)
    modifies reader`cachedFile, reader`cachedOffset, reader`cachedChunk, reader.buffer
    ensures reader.Valid(cat)
    ensures r == FindEntry(ReadingOf(reader.dec, file, codec, meta), meta.len, name, start)
  {
    hide ReadResource, Listed, ReadingOf, LookAt, Reader.Valid, FindEntry;
    ghost var rd := ReadingOf(reader.dec, file, codec, meta);
    var offset := start;
    while true
      invariant reader.Valid(cat)
      invariant FindEntry(rd, meta.len, name, start) == FindEntry(rd, meta.len, name, offset)
      decreases meta.len - offset
    {
      FindStep(rd, meta.len, name, offset);
      if offset + 8 > meta.len { return None; }
      var look := LookMethod(reader, cat, file, codec, meta, name, offset);
      match look
      case Fail => return None;
      case Here(e) => return Some(Found(offset, e));
      case Skip(n) => offset := offset + n;
    }
  }

  lemma FindStep(rd: Reading, limit: nat, name: seq<nat>, at: nat)
    ensures var l := LookAt(rd, name, at);
            FindEntry(rd, limit, name, at) ==
            if at + 8 > limit || l.Fail? then None else if l.Here? then Some(Found(at, l.entry)) else FindEntry(rd, limit, name, at + l.len)
  {
    hide LookAt;
  }

  method LookMethod(reader: Reader, ghost cat: Catalogue, file: File, codec: Codec, meta: Resource, name: seq<nat>, offset: nat)
    returns (r: Look)
    requires reader.Valid(cat) && Listed(cat, file, codec, meta)
    modifies reader`cachedFile, reader`cachedOffset, reader`cachedChunk, reader.buffer
    ensures reader.Valid(cat)
    ensures r == LookAt(ReadingOf(reader.dec, file, codec, meta), name, offset)
  {
    hide ReadResource, Listed, ReadingOf, FromLE, Get;
    var l := reader.Read(cat, file, codec, meta, offset, 8);
    ReadLength(reader.dec, file, codec, meta, offset, 8);
    if l.None? || FromLE(l.value) == 0 { return Fail; }
    var e := reader.Read(cat, file, codec, meta, offset, DIRENTRY_LEN);
    ReadLength(reader.dec, file, codec, meta, offset, DIRENTRY_LEN);
    if e.None? { return Fail; }
    var len := FromLE(e.value[0..8]);
    if FromLE(e.value[100..102]) <= 2 * (|name| + 1) {
      var b := reader.Read(cat, file, codec, meta, offset + DIRENTRY_LEN, 2 * (|name| + 1));
      ReadLength(reader.dec, file, codec, meta, offset + DIRENTRY_LEN, 2 * (|name| + 1));
      if b.None? { return Fail; }
      if NameMatches(name, b.value) { return Here(e.value); }
    }
    return if len == 0 then Fail else Skip(len);
  }

  /** The first backslash of a name, or its length. */
  method FindBackslash(name: seq<nat>) returns (i: nat)
    ensures i <= |name| && BACKSLASH !in name[..i] && (i < |name| ==> name[i] == BACKSLASH)
  {
    i := 0;
    while i < |name| && name[i] != BACKSLASH
      invariant i <= |name| && BACKSLASH !in name[..i]
    {
      i := i + 1;
    }
  }

  lemma {:induction false} ComponentsCut(name: seq<nat>, i: nat)
    requires i <= |name| && BACKSLASH !in name[..i] && (i < |name| ==> name[i] == BACKSLASH)
    ensures Components(name) == if i == |name| then [name] else [name[..i]] + Components(name[i + 1..])
  {
    if i > 0 {
      assert name[0] in name[..i];
      ComponentsCut(name[1..], i - 1);
      assert name[1..][..i - 1] == name[1..i] && [name[0]] + name[1..i] == name[..i];
      if i < |name| {
        assert name[1..][i..] == name[i + 1..];
        assert ([name[1..i]] + Components(name[i + 1..]))[1..] == Components(name[i + 1..]);
      } else {
        assert [name[0]] + name[1..] == name;
      }
    }
  }

  /** wim_path */
  method WimPath(reader: Reader, ghost cat: Catalogue, file: File, codec: Codec, meta: Resource, path: seq<nat>)
    returns (r: Option<Found>)
    requires reader.Valid(cat) && Listed(cat, file, codec, meta)
    modifies reader`cachedFile, reader`cachedOffset, reader`cachedChunk, reader.buffer
    ensures reader.Valid(cat)
    ensures r == FindPath(ReadingOf(reader.dec, file, codec, meta), meta.len, path)
  {
    hide ReadResource, Listed, ReadingOf, Reader.Valid, FromLE, Components, FindEntry;
    ghost var rd := ReadingOf(reader.dec, file, codec, meta);
    var security := reader.Read(cat, file, codec, meta, 0, 8);
    ReadLength(reader.dec, file, codec, meta, 0, 8);
    if security.None? { return None; }
    var dir := Align8(FromLE(security.value[0..4]));
    var name := path;
    while true
      invariant reader.Valid(cat)
      invariant FindPath(rd, meta.len, path) == Walk(rd, meta.len, Components(name), dir)
      decreases |name|
    {
      var next := FindBackslash(name);
      ComponentsCut(name, next);
      assert name[..|name|] == name;
      var f := WimDirentry(reader, cat, file, codec, meta, name[..next], dir);
      EntrySized(rd, meta.len, name[..next], dir);
      if f.None? { return None; }
      if next == |name| { return f; }
      assert ([name[..next]] + Components(name[next + 1..]))[1..] == Components(name[next + 1..]);
      dir := SubdirOf(f.value.entry);
      name := name[next + 1..];
    }
  }

  lemma {:induction false} EntrySized(rd: Reading, limit: nat, name: seq<nat>, at: nat)
    ensures FindEntry(rd, limit, name, at).Some? ==> |FindEntry(rd, limit, name, at).value.entry| == DIRENTRY_LEN
    decreases limit - at
  {
    hide LookAt;
    if at + 8 <= limit {
      match LookAt(rd, name, at)
      case Fail =>
      case Here(e) =>
      case Skip(n) => EntrySized(rd, limit, name, at + n);
    }
  }

  function Plus(n: nat, r: Option<nat>): Option<nat> {
    if r.None? then None else Some(n + r.value)
  }

  lemma DirLenStep(rd: Reading, limit: nat, at: nat)
    requires Get(rd, at, 8).Some? ==> at + 8 <= limit
    ensures Get(rd, at, 8).None? ==> DirLen(rd, limit, at) == None
    ensures Get(rd, at, 8).Some? ==>
      var n := FromLE(Get(rd, at, 8).value);
      DirLen(rd, limit, at) == if n == 0 then Some(0) else Plus(n, DirLen(rd, limit, at + n))
  {
  }

  lemma ReadLength(dec: Decompressor, file: File, codec: Codec, res: Resource, offset: nat, len: nat)
    ensures var r := ReadResource(dec, file.img, file.size, codec, res, offset, len);
      r.Some? ==> |r.value| == len && offset + len <= res.len
    ensures ReadResource(dec, file.img, file.size, codec, res, offset, len) == Get(ReadingOf(dec, file, codec, res), offset, len)
  {
    if offset + len <= res.len { ChunksLength(dec, file.img, codec, res, offset, len); }
  }

  lemma {:induction false} ChunksLength(dec: Decompressor, img: Image, codec: Codec, res: Resource, offset: nat, len: nat)
    requires offset + len <= res.len
    ensures var r := ReadChunks(dec, img, codec, res, offset, len); r.Some? ==> |r.value| == len
    decreases len
  {
    hide ChunkData, ChunkLen;
    if len > 0 {
      var n := Min(CHUNK_LEN - offset % CHUNK_LEN, len);
      ReadStep(dec, img, codec, res, offset, len);
      ChunksLength(dec, img, codec, res, offset + n, len - n);
    }
  }
}
