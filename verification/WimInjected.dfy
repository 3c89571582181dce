/** Opening an injected file by its path in a patched WIM image (src/wimpatch.c, src/wim.c). */
module WimInjected {
  import opened Bytes
  import opened Memory
  import opened Wim
  import opened WimDir
  import opened VdiskDir
  import opened Vdisk
  import opened WimPatch
  import opened WimPatched
  import opened WimWalk
  import Sha1

  // ---------------------------------------------------------------- from a constructed patch to a walk

  /** The injection path of a constructed patch is reached, if the metadata is well formed along it. */
  lemma ConstructedReaches(dec: Decompressor, file: File, files: seq<VFile>, index: nat, f: Findings)
    requires Find(dec, file, index) == Some(f) && Intact(dec, file, f) && Table(files) && file.size >= HEADER_LEN
    requires End(PlanFor(file, files, f)) < ZLEN_RANGE && Indexable(f)
    requires |MetaBytes(dec, file, f)| >= 8 ==>
      WalkClear(MetaBytes(dec, file, f), Components(INJECT_DIR), RootAt(MetaBytes(dec, file, f)), f.parent)
    ensures var c := CaseOf(dec, file, files, f);
      && PatchedCase(c) && c.plan.parent + DIRENTRY_LEN <= |c.meta| && Reaches(c, Components(INJECT_DIR))
      && DirLen(ReadingSeq(c.meta), |c.meta|, c.dirOffset) == Some(c.plan.dirLen)
  {
    hide Find, Walk, WalkClear, DirLen, Components, Images, OriginalHeader, LookupAt, BootAt, LookupLen, End, Contents, FindPath;
    CaseIsPatched(dec, file, files, index, f);
    CaseIsValid(dec, file, files, index, f);
    FoundInBytes(dec, file, index, f);
    PathIsWalk(MetaBytes(dec, file, f), INJECT_DIR);
  }

  // ---------------------------------------------------------------- paths

  function WideName(name: seq<byte>): (r: seq<nat>)
    ensures |r| == |name|
  {
    seq<nat>(|name|, (i: int) requires 0 <= i < |name| => Unit(name[i]))
  }

  lemma {:induction false} ComponentsOfName(us: seq<nat>)
    requires BACKSLASH !in us
    ensures Components(us) == [us]
  {
    if us != [] {
      ComponentsOfName(us[1..]);
      assert [us[0]] + us[1..] == us;
    }
  }

  lemma {:induction false} ComponentsAppend(path: seq<nat>, us: seq<nat>)
    requires BACKSLASH !in us
    ensures Components(path + [BACKSLASH] + us) == Components(path) + [us]
  {
    var all := path + [BACKSLASH] + us;
    if path == [] {
      assert all[1..] == us;
      ComponentsOfName(us);
      assert all[0] == BACKSLASH;
    } else {
      ComponentsAppend(path[1..], us);
      assert all[1..] == path[1..] + [BACKSLASH] + us && all[0] == path[0];
      var rest := Components(path[1..]);
      assert (rest + [us])[0] == rest[0] && (rest + [us])[1..] == rest[1..] + [us];
    }
  }

  lemma {:induction false} WalkAppend(rd: Reading, limit: nat, names: seq<seq<nat>>, last: seq<nat>, dir: nat)
    requires names != []
    ensures Walk(rd, limit, names, dir).Some? ==>
      Walk(rd, limit, names + [last], dir) == Walk(rd, limit, [last], SubdirOf(Walk(rd, limit, names, dir).value.entry))
    decreases |names|
  {
    hide FindEntry, FromLE;
    var f := FindEntry(rd, limit, names[0], dir);
    assert (names + [last])[0] == names[0] && (names + [last])[1..] == names[1..] + [last];
    if f.Some? && |f.value.entry| == DIRENTRY_LEN && |names| > 1 {
      WalkAppend(rd, limit, names[1..], last, SubdirOf(f.value.entry));
    } else if |names| == 1 {
      assert names[1..] + [last] == [last];
    }
  }

  // ---------------------------------------------------------------- names in the injected directory

  predicate SameUnits(us: seq<nat>, name: seq<byte>) {
    |us| == |name| && forall q :: 0 <= q < |us| ==> Upper(us[q]) == Upper(Unit(name[q]))
  }

  function PaddedUnit(name: seq<byte>, q: nat): nat {
    if q < |name| then Unit(name[q]) else 0
  }

  lemma {:induction false} NameBytesAt(name: seq<byte>, q: nat)
    requires q < |name|
    ensures NameBytes(name)[2 * q] == Unit(name[q]) % 256 && NameBytes(name)[2 * q + 1] == Unit(name[q]) / 256 % 256
  {
    if q == 0 {
      assert LE(Unit(name[0]), 2) == [Unit(name[0]) % 256] + LE(Unit(name[0]) / 256, 1);
      assert LE(Unit(name[0]) / 256, 1) == [Unit(name[0]) / 256 % 256] + LE(Unit(name[0]) / 256 / 256, 0);
    } else {
      NameBytesAt(name[1..], q - 1);
    }
  }

  lemma NameUnitAt(f: VFile, n: nat, q: nat)
    requires ValidName(f.name) && q < n <= 32
    ensures UnitIn((DirFileEntry(f) + [0, 0])[DIRENTRY_LEN..DIRENTRY_LEN + 2 * n], q) == PaddedUnit(f.name, q)
  {
    hide LE, Sha1.Hash, NameBytes;
    var e := DirFileEntry(f) + [0, 0];
    var b := e[DIRENTRY_LEN..DIRENTRY_LEN + 2 * n];
    assert e[DIRENTRY_LEN..DIRENTRY_LEN + 64] == NameBytes(f.name) + Zeros(64 - 2 * |f.name|);
    assert b[2 * q] == e[DIRENTRY_LEN..DIRENTRY_LEN + 64][2 * q] && b[2 * q + 1] == e[DIRENTRY_LEN..DIRENTRY_LEN + 64][2 * q + 1];
    if q < |f.name| { NameBytesAt(f.name, q); }
  }

  lemma DirFileFields(f: VFile)
    requires ValidName(f.name)
    ensures var e := DirFileEntry(f) + [0, 0];
      FromLE(e[0..8]) == DIR_STRIDE && FromLE(e[100..102]) == 2 * |f.name| && e[64..84] == Sha1.Hash(f.data)
  {
    hide LE, Sha1.Hash, NameBytes, FromLE;
    DirFileLen(f);
    var e := DirFileEntry(f) + [0, 0];
    assert e[100..102] == LE(2 * |f.name|, 2);
    RangeValues();
    LERoundTrip(2 * |f.name|, 2);
  }

  /** The other fields of an injected lookup entry: part 0, and one reference; those of the boot entry are zero. */
  lemma InjectedFields(c: Case, i: nat)
    requires ValidCase(c) && i < MAX_FILES
    ensures var e := FileEntry(c, i); e[24..26] == Zeros(2) && FromLE(e[26..30]) == 1
    ensures BootEntry(c)[24..50] == Zeros(26)
  {
    hide LE, FromLE, Sha1.Hash, ResourceBytes;
    var e := FileEntry(c, i);
    assert e[26..30] == LE(1, 4);
    RangeValues();
    LERoundTrip(1, 4);
  }

  /** The other fields of an injected directory entry: a normal file without security data, and a fixed time. */
  lemma DirFileOthers(f: VFile)
    requires ValidName(f.name)
    ensures var e := DirFileEntry(f);
      && FromLE(e[8..12]) == 0x80 && FromLE(e[12..16]) == 0xffff_ffff && e[16..40] == Zeros(24)
      && FromLE(e[40..48]) == FromLE(e[48..56]) == FromLE(e[56..64]) == 0x01a7_b83d_2ad9_3000 && e[84..100] == Zeros(16)
  {
    hide LE, Sha1.Hash, NameBytes, FromLE;
    var e := DirFileEntry(f);
    assert e[8..12] == LE(0x80, 4) && e[12..16] == LE(0xffff_ffff, 4);
    assert e[40..48] == LE(MAGIC_TIME, 8) && e[48..56] == LE(MAGIC_TIME, 8) && e[56..64] == LE(MAGIC_TIME, 8);
    RangeValues();
    LERoundTrip(0x80, 4);
    LERoundTrip(0xffff_ffff, 4);
    LERoundTrip(MAGIC_TIME, 8);
  }

  lemma NameDecides(f: VFile, us: seq<nat>)
    requires ValidName(f.name) && |us| <= MAX_NAME && (forall q :: 0 <= q < |us| ==> us[q] != 0)
    ensures NameMatches(us, (DirFileEntry(f) + [0, 0])[DIRENTRY_LEN..DIRENTRY_LEN + 2 * (|us| + 1)]) <==> SameUnits(us, f.name)
  {
    hide DirFileEntry, UnitIn;
    var b := (DirFileEntry(f) + [0, 0])[DIRENTRY_LEN..DIRENTRY_LEN + 2 * (|us| + 1)];
    forall q | 0 <= q <= |us| ensures UnitIn(b, q) == PaddedUnit(f.name, q) { NameUnitAt(f, |us| + 1, q); }
    if NameMatches(us, b) {
      assert UnitIn(b, |us|) == 0;
      if |us| > 0 { assert Upper(us[|us| - 1]) == Upper(UnitIn(b, |us| - 1)); }
    }
  }

  /** Looking for a name at the entry of an injected file: found exactly if the names agree up to case. */
  lemma LookInjected(c: Case, j: nat, us: seq<nat>)
    requires ValidCase(c) && j < MAX_FILES && Injects(c.plan.files[j])
    requires |us| <= MAX_NAME && (forall q :: 0 <= q < |us| ==> us[q] != 0)
    ensures LookAt(ReadingSeq(PatchedMeta(c)), us, EntryAt(c, j)) ==
      if SameUnits(us, c.plan.files[j].name) then Here((DirFileEntry(c.plan.files[j]) + [0, 0])[0..DIRENTRY_LEN]) else Skip(DIR_STRIDE)
  {
    hide PatchedMeta, DirFileEntry, Injects, NameMatches, FromLE, Get, ReadingSeq, SameUnits, EntryAt;
    var f := c.plan.files[j];
    var e := DirFileEntry(f) + [0, 0];
    InjectedRanges(c, j, 2 * (|us| + 1));
    SubSlice(e, 0, DIRENTRY_LEN, 0, 8);
    SubSlice(e, 0, DIRENTRY_LEN, 100, 102);
    DirFileFields(f);
    NameDecides(f, us);
    SameLength(us, f.name);
  }

  lemma SameLength(us: seq<nat>, name: seq<byte>)
    ensures SameUnits(us, name) ==> |us| == |name|
  {
  }

  lemma InjectedRanges(c: Case, j: nat, n: nat)
    requires ValidCase(c) && j < MAX_FILES && Injects(c.plan.files[j]) && n <= 64
    ensures var rd, at, e := ReadingSeq(PatchedMeta(c)), EntryAt(c, j), DirFileEntry(c.plan.files[j]) + [0, 0];
      && Get(rd, at, 8) == Some(e[0..8]) && Get(rd, at, DIRENTRY_LEN) == Some(e[0..DIRENTRY_LEN])
      && Get(rd, at + DIRENTRY_LEN, n) == Some(e[DIRENTRY_LEN..DIRENTRY_LEN + n])
  {
    hide PatchedMeta, DirFileEntry, Injects, Get, ReadingSeq, EntryAt;
    var m', at := PatchedMeta(c), EntryAt(c, j);
    InjectedEntryAt(c, j);
    InRange(m', at, 8);
    InRange(m', at, DIRENTRY_LEN);
    InRange(m', at + DIRENTRY_LEN, n);
    SubSlice(m', at, DIR_STRIDE, 0, 8);
    SubSlice(m', at, DIR_STRIDE, 0, DIRENTRY_LEN);
    SubSlice(m', at, DIR_STRIDE, DIRENTRY_LEN, DIRENTRY_LEN + n);
  }

  /** No injected file before `i` has the name `us`, up to case. */
  predicate FirstNamed(c: Case, i: nat, us: seq<nat>)
    requires ValidCase(c) && i < MAX_FILES
  {
    forall j :: 0 <= j < i && Injects(c.plan.files[j]) ==> !SameUnits(us, c.plan.files[j].name)
  }

  /** Searching the injected directory from the entry of file `j` on finds file `i`. */
  lemma {:induction false} FindInjected(c: Case, i: nat, j: nat)
    requires ValidCase(c) && j <= i < MAX_FILES && Injects(c.plan.files[i])
    requires FirstNamed(c, i, WideName(c.plan.files[i].name))
    ensures FindEntry(ReadingSeq(PatchedMeta(c)), |PatchedMeta(c)|, WideName(c.plan.files[i].name), EntryAt(c, j)) ==
      Some(Found(EntryAt(c, i), (DirFileEntry(c.plan.files[i]) + [0, 0])[0..DIRENTRY_LEN]))
    decreases i - j
  {
    hide PatchedMeta, DirFileEntry, Injects, LookAt, ReadingSeq, BootAt;
    var us := WideName(c.plan.files[i].name);
    if Injects(c.plan.files[j]) {
      LookInjected(c, j, us);
      InjectedEntryAt(c, j);
      if j < i { FindInjected(c, i, j + 1); }
    } else {
      FindInjected(c, i, j + 1);
    }
  }

  // ---------------------------------------------------------------- original files

  /** A name that no injected file carries is passed over at every injected entry, however long it is. */
  lemma LookPast(c: Case, j: nat, us: seq<nat>)
    requires ValidCase(c) && j < MAX_FILES && Injects(c.plan.files[j])
    requires (forall q :: 0 <= q < |us| ==> us[q] != 0) && !SameUnits(us, c.plan.files[j].name)
    requires EntryAt(c, j) + DIRENTRY_LEN + 2 * (|us| + 1) <= |PatchedMeta(c)|
    ensures LookAt(ReadingSeq(PatchedMeta(c)), us, EntryAt(c, j)) == Skip(DIR_STRIDE)
  {
    if |us| <= MAX_NAME {
      LookInjected(c, j, us);
    } else {
      LookPastLong(c, j, us);
    }
  }

  lemma LookPastLong(c: Case, j: nat, us: seq<nat>)
    requires ValidCase(c) && j < MAX_FILES && Injects(c.plan.files[j]) && |us| > MAX_NAME
    requires forall q :: 0 <= q < |us| ==> us[q] != 0
    requires EntryAt(c, j) + DIRENTRY_LEN + 2 * (|us| + 1) <= |PatchedMeta(c)|
    ensures LookAt(ReadingSeq(PatchedMeta(c)), us, EntryAt(c, j)) == Skip(DIR_STRIDE)
  {
    hide PatchedMeta, DirFileEntry, Injects, NameMatches, FromLE, Get, ReadingSeq, EntryAt, LookAt, UnitIn, Upper;
    var f, m', at := c.plan.files[j], PatchedMeta(c), EntryAt(c, j);
    var b := m'[at + DIRENTRY_LEN..at + DIRENTRY_LEN + 2 * (|us| + 1)];
    InjectedRanges(c, j, 64);
    InRange(m', at + DIRENTRY_LEN, 64);
    InRange(m', at + DIRENTRY_LEN, 2 * (|us| + 1));
    SubSlice(m', at + DIRENTRY_LEN, 2 * (|us| + 1), 0, 64);
    NameUnitAt(f, 32, |f.name|);
    EndsEarlier(us, b, b[0..64], |f.name|);
    LookSkips(f, ReadingSeq(m'), us, at, b);
  }

  /** An entry of a file whose name does not match is skipped. */
  lemma LookSkips(f: VFile, rd: Reading, us: seq<nat>, at: nat, b: seq<byte>)
    requires ValidName(f.name) && |b| == 2 * (|us| + 1) && !NameMatches(us, b)
    requires var e := DirFileEntry(f) + [0, 0]; Get(rd, at, 8) == Some(e[0..8]) && Get(rd, at, DIRENTRY_LEN) == Some(e[0..DIRENTRY_LEN])
    requires Get(rd, at + DIRENTRY_LEN, |b|) == Some(b)
    ensures LookAt(rd, us, at) == Skip(DIR_STRIDE)
  {
    hide DirFileEntry, NameMatches, FromLE, Get, Sha1.Hash;
    var e := DirFileEntry(f) + [0, 0];
    SubSlice(e, 0, DIRENTRY_LEN, 0, 8);
    SubSlice(e, 0, DIRENTRY_LEN, 100, 102);
    DirFileFields(f);
  }

  lemma EndsEarlier(us: seq<nat>, b: seq<byte>, first: seq<byte>, k: nat)
    requires |b| == 2 * (|us| + 1) && |first| == 64 <= |b| && b[..64] == first && k < 32 && k < |us| && us[k] != 0
    requires UnitIn(first, k) == 0
    ensures !NameMatches(us, b)
  {
    assert b[2 * k] == first[2 * k] && b[2 * k + 1] == first[2 * k + 1];
    assert Upper(us[k]) != Upper(UnitIn(b, k));
  }

  /** Equal directories look the same to a search, as far as the bytes it reads are equal. */
  lemma LookCopied(m: seq<byte>, d: nat, m': seq<byte>, q: nat, n: nat, x: nat, us: seq<nat>)
    requires d + n <= |m| && q + n <= |m'| && m'[q..q + n] == m[d..d + n] && x + DIRENTRY_LEN + 2 * (|us| + 1) <= n
    ensures LookAt(ReadingSeq(m'), us, q + x) == LookAt(ReadingSeq(m), us, d + x)
  {
    hide FromLE, NameMatches, Get, ReadingSeq;
    SameSpan(m, d, m', q, n, x, 8);
    SameSpan(m, d, m', q, n, x, DIRENTRY_LEN);
    SameSpan(m, d, m', q, n, x + DIRENTRY_LEN, 2 * (|us| + 1));
  }

  lemma {:induction false} FoundForward(m: seq<byte>, us: seq<nat>, at: nat)
    requires FindEntry(ReadingSeq(m), |m|, us, at).Some?
    ensures at <= FindEntry(ReadingSeq(m), |m|, us, at).value.offset
    decreases |m| - at
  {
    hide LookAt, ReadingSeq;
    var l := LookAt(ReadingSeq(m), us, at);
    if l.Skip? { FoundForward(m, us, at + l.len); }
  }

  lemma {:induction false} FindCopied(m: seq<byte>, d: nat, m': seq<byte>, q: nat, n: nat, x: nat, us: seq<nat>)
    requires d + n <= |m| && q + n <= |m'| && m'[q..q + n] == m[d..d + n]
    requires var f := FindEntry(ReadingSeq(m), |m|, us, d + x);
             f.Some? && f.value.offset + DIRENTRY_LEN + 2 * (|us| + 1) <= d + n
    ensures var f := FindEntry(ReadingSeq(m), |m|, us, d + x).value;
            f.offset >= d && FindEntry(ReadingSeq(m'), |m'|, us, q + x) == Some(Found(f.offset - d + q, f.entry))
    decreases |m| - (d + x)
  {
    hide LookAt, ReadingSeq;
    FoundForward(m, us, d + x);
    LookCopied(m, d, m', q, n, x, us);
    var l := LookAt(ReadingSeq(m), us, d + x);
    if l.Skip? { FindCopied(m, d, m', q, n, x + l.len, us); }
  }

  /** No injected file carries the name. */
  predicate Unshadowed(c: Case, us: seq<nat>)
    requires ValidCase(c)
  {
    forall j :: 0 <= j < MAX_FILES && Injects(c.plan.files[j]) ==> !SameUnits(us, c.plan.files[j].name)
  }

  /**
   * A name that was found in the original directory and that no injected file carries is still found
   * in the patched one, with the same entry, if what the search reads there lies inside the directory.
   */
  lemma {:induction false} FindOriginal(c: Case, us: seq<nat>, j: nat)
    requires ValidCase(c) && j <= MAX_FILES && DirLen(ReadingSeq(c.meta), |c.meta|, c.dirOffset) == Some(c.plan.dirLen)
    requires (forall q :: 0 <= q < |us| ==> us[q] != 0) && Unshadowed(c, us)
    requires var f := FindEntry(ReadingSeq(c.meta), |c.meta|, us, c.dirOffset);
             f.Some? && f.value.offset + DIRENTRY_LEN + 2 * (|us| + 1) <= c.dirOffset + c.plan.dirLen + 8
    ensures var f := FindEntry(ReadingSeq(c.meta), |c.meta|, us, c.dirOffset).value;
            && f.offset >= c.dirOffset
            && FindEntry(ReadingSeq(PatchedMeta(c)), |PatchedMeta(c)|, us, EntryAt(c, j)) ==
               Some(Found(EntryAt(c, MAX_FILES) + (f.offset - c.dirOffset), f.entry))
    decreases MAX_FILES - j
  {
    hide PatchedMeta, DirFileEntry, Injects, LookAt, ReadingSeq, DirLen, BootAt, DirCopyBytes, SameUnits;
    var m, m', n := c.meta, PatchedMeta(c), c.plan.dirLen + 8;
    FoundForward(m, us, c.dirOffset);
    OriginalEntriesAt(c);
    CopyIsOriginal(c);
    InjectedMonotone(c.plan.files, j, |c.plan.files|);
    if j == MAX_FILES {
      assert m'[EntryAt(c, j)..] == m'[EntryAt(c, j)..EntryAt(c, j) + n];
      FindCopied(m, c.dirOffset, m', EntryAt(c, j), n, 0, us);
    } else {
      FindOriginal(c, us, j + 1);
      if Injects(c.plan.files[j]) {
        LookPast(c, j, us);
        assert EntryAt(c, j + 1) == EntryAt(c, j) + DIR_STRIDE;
      }
    }
  }

  // ---------------------------------------------------------------- hashes in the patched lookup table

  /** No whole entry of the table has the hash. */
  predicate NoHash(t: seq<byte>, hash: seq<byte>)
    decreases |t|
  {
    |t| < ENTRY_LEN || (t[..ENTRY_LEN][30..50] != hash && NoHash(t[ENTRY_LEN..], hash))
  }

  lemma {:induction false} SkipEntries(pre: seq<byte>, a: seq<byte>, b: seq<byte>, hash: seq<byte>)
    requires |a| % ENTRY_LEN == 0 && NoHash(a, hash)
    ensures FindHash(ReadingSeq(pre + a + b), |pre + a + b|, |pre|, hash) == FindHash(ReadingSeq(pre + a + b), |pre + a + b|, |pre + a|, hash)
    decreases |a|
  {
    hide ResourceAt, ReadingSeq, Get;
    if |a| < ENTRY_LEN {
      assert a == [] && pre + a == pre;
    } else {
      var x, rest := a[..ENTRY_LEN], a[ENTRY_LEN..];
      assert pre + a + b == pre + x + (rest + b) == (pre + x) + rest + b && pre + a == pre + x + rest;
      EntryOf(pre, x, rest + b);
      SkipEntries(pre + x, rest, b, hash);
    }
  }

  lemma {:induction false} FileEntriesSplit(c: Case, i: nat, n: nat)
    requires ValidCase(c) && i < n <= MAX_FILES && Injects(c.plan.files[i])
    ensures exists rest :: FileEntries(c, n) == FileEntries(c, i) + FileEntry(c, i) + rest
    decreases n
  {
    hide FileEntry, Injects;
    if i == n - 1 {
      assert FileEntries(c, n) == FileEntries(c, i) + FileEntry(c, i) + [];
    } else {
      FileEntriesSplit(c, i, n - 1);
      var rest :| FileEntries(c, n - 1) == FileEntries(c, i) + FileEntry(c, i) + rest;
      var more := if Injects(c.plan.files[n - 1]) then FileEntry(c, n - 1) else [];
      assert FileEntries(c, n) == FileEntries(c, i) + FileEntry(c, i) + (rest + more);
    }
  }

  /** No injected file before `i` has the hash. */
  predicate FirstHashed(c: Case, i: nat, hash: seq<byte>)
    requires ValidCase(c) && i <= MAX_FILES
  {
    forall j :: 0 <= j < i && Injects(c.plan.files[j]) ==> Sha1.Hash(c.plan.files[j].data) != hash
  }

  /** Every injected file before `i` with the same hash has the same data. */
  predicate HashTells(c: Case, i: nat)
    requires ValidCase(c) && i < MAX_FILES
  {
    forall j :: 0 <= j < i && Injects(c.plan.files[j]) && Sha1.Hash(c.plan.files[j].data) == Sha1.Hash(c.plan.files[i].data) ==>
      c.plan.files[j].data == c.plan.files[i].data
  }

  /** The first of the injected files up to `i` with the hash. */
  lemma {:induction false} FirstWithHash(c: Case, i: nat, hash: seq<byte>) returns (j: nat)
    requires ValidCase(c) && i < MAX_FILES && Injects(c.plan.files[i]) && Sha1.Hash(c.plan.files[i].data) == hash
    ensures j <= i && Injects(c.plan.files[j]) && Sha1.Hash(c.plan.files[j].data) == hash && FirstHashed(c, j, hash)
  {
    hide Injects, Sha1.Hash;
    if k :| 0 <= k < i && Injects(c.plan.files[k]) && Sha1.Hash(c.plan.files[k].data) == hash {
      j := FirstWithHash(c, k, hash);
    } else {
      j := i;
    }
  }

  lemma {:induction false} FileEntriesNoHash(c: Case, i: nat, hash: seq<byte>)
    requires ValidCase(c) && i <= MAX_FILES && FirstHashed(c, i, hash)
    ensures NoHash(FileEntries(c, i), hash)
  {
    hide FileEntry, Injects, Sha1.Hash;
    if i > 0 {
      FileEntriesNoHash(c, i - 1, hash);
      if Injects(c.plan.files[i - 1]) {
        FileEntryReads(c, i - 1);
        WholeEntries(Injected(c.plan.files, i - 1));
        NoHashAppend(FileEntries(c, i - 1), FileEntry(c, i - 1), hash);
      } else {
        assert FileEntries(c, i - 1) + [] == FileEntries(c, i - 1);
      }
    }
  }

  lemma {:induction false} NoHashConcat(a: seq<byte>, b: seq<byte>, hash: seq<byte>)
    requires |a| % ENTRY_LEN == 0 && NoHash(a, hash) && NoHash(b, hash)
    ensures NoHash(a + b, hash)
    decreases |a|
  {
    if |a| < ENTRY_LEN {
      assert a + b == b;
    } else {
      assert (a + b)[..ENTRY_LEN] == a[..ENTRY_LEN] && (a + b)[ENTRY_LEN..] == a[ENTRY_LEN..] + b;
      NoHashConcat(a[ENTRY_LEN..], b, hash);
    }
  }

  lemma NoHashAppend(a: seq<byte>, e: seq<byte>, hash: seq<byte>)
    requires |a| % ENTRY_LEN == 0 && |e| == ENTRY_LEN && NoHash(a, hash) && e[30..50] != hash
    ensures NoHash(a + e, hash)
  {
    assert e[..ENTRY_LEN] == e;
    NoHashConcat(a, e, hash);
  }

  /** In a table whose entries before `e` do not have its hash, the lookup finds `e`. */
  lemma FindFirst(a: seq<byte>, e: seq<byte>, rest: seq<byte>, hash: seq<byte>)
    requires |a| % ENTRY_LEN == 0 && NoHash(a, hash) && |e| == ENTRY_LEN && e[30..50] == hash
    ensures FindHash(ReadingSeq(a + e + rest), |a + e + rest|, 0, hash) == Some(ResourceAt(e, 0))
  {
    hide FindHash, ReadingSeq, ResourceAt, NoHash;
    assert [] + a + (e + rest) == a + e + rest && [] + a == a;
    SkipEntries([], a, e + rest, hash);
    EntryOf(a, e, rest);
    HashHere(a + e + rest, |a|, hash, e);
  }

  /** The first injected file with a hash that the original table does not have is the one the lookup finds. */
  lemma FindInjectedHash(c: Case, i: nat, hash: seq<byte>)
    requires ValidCase(c) && i < MAX_FILES && Injects(c.plan.files[i]) && |c.lookup| % ENTRY_LEN == 0
    requires hash == Sha1.Hash(c.plan.files[i].data) != Zeros(20) && NoHash(c.lookup, hash) && FirstHashed(c, i, hash)
    ensures FindHash(ReadingSeq(PatchedLookup(c)), |PatchedLookup(c)|, 0, hash) ==
      Some(Resource(0, |c.plan.files[i].data|, FileAt(c.plan, i), |c.plan.files[i].data|))
  {
    hide FileEntry, FileEntries, Injects, Sha1.Hash, FindHash, ResourceAt, NoHash, ReadingSeq, FileAt, FirstHashed, BootEntry, Injected, Zeros;
    FileEntriesSplit(c, i, |c.plan.files|);
    var before := FileEntries(c, i);
    var rest :| FileEntries(c, MAX_FILES) == before + FileEntry(c, i) + rest;
    PrefixNoHash(c, i, hash);
    FileEntryReads(c, i);
    FindFirst(c.lookup + BootEntry(c) + before, FileEntry(c, i), rest, hash);
    Regroup(c.lookup, BootEntry(c), before, FileEntry(c, i), rest);
  }

  /** No entry before that of file `i` carries its hash. */
  lemma PrefixNoHash(c: Case, i: nat, hash: seq<byte>)
    requires ValidCase(c) && i < MAX_FILES && Injects(c.plan.files[i]) && |c.lookup| % ENTRY_LEN == 0
    requires hash == Sha1.Hash(c.plan.files[i].data) != Zeros(20) && NoHash(c.lookup, hash) && FirstHashed(c, i, hash)
    ensures var a := c.lookup + BootEntry(c) + FileEntries(c, i); NoHash(a, hash) && |a| % ENTRY_LEN == 0
  {
    hide FileEntry, FileEntries, Injects, Sha1.Hash, NoHash, FirstHashed, BootEntry, Injected, Zeros;
    FileEntriesNoHash(c, i, hash);
    WholeEntries(Injected(c.plan.files, i));
    BootHash(c);
    NoHashThree(c.lookup, BootEntry(c), FileEntries(c, i), hash);
  }

  lemma NoHashThree(a: seq<byte>, e: seq<byte>, b: seq<byte>, hash: seq<byte>)
    requires |a| % ENTRY_LEN == 0 && |e| == ENTRY_LEN && |b| % ENTRY_LEN == 0
    requires NoHash(a, hash) && e[30..50] != hash && NoHash(b, hash)
    ensures NoHash(a + e + b, hash) && |a + e + b| % ENTRY_LEN == 0
  {
    hide NoHash;
    NoHashAppend(a, e, hash);
    assert |a + e| % ENTRY_LEN == 0;
    NoHashConcat(a + e, b, hash);
  }

  lemma Regroup(a: seq<byte>, b: seq<byte>, d: seq<byte>, e: seq<byte>, r: seq<byte>)
    ensures a + b + (d + e + r) == a + b + d + e + r
  {
  }

  lemma BootHash(c: Case)
    ensures BootEntry(c)[30..50] == Zeros(20)
  {
    hide ResourceBytes;
  }

  lemma HashHere(t: seq<byte>, at: nat, hash: seq<byte>, e: seq<byte>)
    requires at + ENTRY_LEN <= |t| && Get(ReadingSeq(t), at, ENTRY_LEN) == Some(e) && |e| == ENTRY_LEN && e[30..50] == hash
    ensures FindHash(ReadingSeq(t), |t|, at, hash) == Some(ResourceAt(e, 0))
  {
    hide ResourceAt;
  }

  // ---------------------------------------------------------------- the main result

  lemma {:induction false} SameHash(a: Reading, b: Reading, len: nat, at: nat, hash: seq<byte>)
    requires SameReading(a, b)
    ensures FindHash(a, len, at, hash) == FindHash(b, len, at, hash)
    decreases len - at
  {
    hide Get, ResourceAt;
    if at + ENTRY_LEN <= len {
      assert Get(a, at, ENTRY_LEN) == Get(b, at, ENTRY_LEN);
      SameHash(a, b, len, at + ENTRY_LEN, hash);
    }
  }

  /** The path of an injected file inside the injection directory. */
  function InjectedPath(name: seq<byte>): seq<nat> {
    INJECT_DIR + [BACKSLASH] + WideName(name)
  }

  /** In the patched metadata, the path of an injected file leads to its entry. */
  lemma PathFindsEntry(c: Case, i: nat)
    requires ValidCase(c) && c.plan.parent + DIRENTRY_LEN <= |c.meta| && Reaches(c, Components(INJECT_DIR))
    requires i < MAX_FILES && Injects(c.plan.files[i]) && BACKSLASH !in WideName(c.plan.files[i].name)
    requires FirstNamed(c, i, WideName(c.plan.files[i].name))
    ensures var r := FindPath(ReadingSeq(PatchedMeta(c)), |PatchedMeta(c)|, InjectedPath(c.plan.files[i].name));
      r.Some? && r.value.entry[64..84] == Sha1.Hash(c.plan.files[i].data)
  {
    hide PatchedMeta, Injects, FindEntry, FindPath, Components, Reaches, DirFileEntry, FromLE, ReadingSeq, FirstNamed, WideName, Sha1.Hash, RootAt, BootAt;
    var m', us, names := PatchedMeta(c), WideName(c.plan.files[i].name), Components(INJECT_DIR);
    ComponentsAppend(INJECT_DIR, us);
    PathIsWalk(m', InjectedPath(c.plan.files[i].name));
    WalkReaches(c, names);
    WalkAppend(ReadingSeq(m'), |m'|, names, us, RootAt(c.meta));
    FindInjected(c, i, 0);
    assert EntryAt(c, 0) == SubdirValue(c);
    var e := DirFileEntry(c.plan.files[i]) + [0, 0];
    DirFileFields(c.plan.files[i]);
    SubSlice(e, 0, DIRENTRY_LEN, 64, 84);
  }

  /** An injected file is where its lookup entry says, and reads back in full. */
  lemma DataShown(dec: Decompressor, c: Case, codec: Codec, i: nat)
    requires PatchedCase(c) && i < MAX_FILES && Injects(c.plan.files[i])
    ensures var f := c.plan.files[i]; var res := Resource(0, |f.data|, FileAt(c.plan, i), |f.data|);
      ReadResource(dec, PatchedImage(c), End(c.plan), codec, res, 0, res.len) == Some(f.data)
  {
    hide PatchedImage, Slice, Injects, ContentOf, RegionOf, Images, Injected, InjectedBytes, FileAt, Sha1.Hash, ReadChunks, Layout;
    FileRegions(c.plan, i);
    FileContents(c, i);
    RegionShowsAt(c, FileData(i), FileAt(c.plan, i), |c.plan.files[i].data|, c.plan.files[i].data);
    InStretch(c.plan, FileData(i));
    StretchMonotone(c.plan, 1, 7);
  }

  /** The injection path is reached, the name of file `i` is one component and the first of its kind up to case, and its
      hash finds its data: the original lookup table does not have it and no earlier injected file has it with other data. */
  ghost predicate Openable(c: Case, i: nat)
    requires ValidCase(c) && i < MAX_FILES
  {
    var f := c.plan.files[i];
    && c.plan.parent + DIRENTRY_LEN <= |c.meta| && Reaches(c, Components(INJECT_DIR)) && |c.lookup| % ENTRY_LEN == 0
    && Injects(f) && BACKSLASH !in WideName(f.name) && FirstNamed(c, i, WideName(f.name))
    && Sha1.Hash(f.data) != Zeros(20) && NoHash(c.lookup, Sha1.Hash(f.data)) && HashTells(c, i)
  }

  /** Opening an injected file by path in the patched image gives back its data. */
  lemma InjectedFileOpens(dec: Decompressor, c: Case, codec: Codec, i: nat)
    requires PatchedCase(c) && i < MAX_FILES && Openable(c, i)
    ensures var img, size := PatchedImage(c), End(c.plan);
      var meta, lookup := ReadingIn(dec, img, size, codec, c.header.boot), ReadingIn(dec, img, size, codec, c.header.lookup);
      var res := FindFile(meta, c.header.boot.len, lookup, c.header.lookup.len, InjectedPath(c.plan.files[i].name));
      && res.Some? && res.value.zlen == res.value.len
      && ReadResource(dec, img, size, codec, res.value, 0, res.value.len) == Some(c.plan.files[i].data)
  {
    hide PatchedImage, PatchedMeta, PatchedLookup, Injects, FindPath, FindHash, ReadingIn, ReadingSeq, ReadResource, InjectedPath, Sha1.Hash;
    hide SameReading, Reaches, Components, FirstNamed, FirstHashed, NoHash, End, LookupAt, LookupLen, BootAt, FileAt, WideName, Images;
    var img, size, path := PatchedImage(c), End(c.plan), InjectedPath(c.plan.files[i].name);
    var meta, lookup := ReadingIn(dec, img, size, codec, c.header.boot), ReadingIn(dec, img, size, codec, c.header.lookup);
    var m', t, hash := PatchedMeta(c), PatchedLookup(c), Sha1.Hash(c.plan.files[i].data);
    MetaReads(dec, c, codec);
    TableReads(dec, c, codec);
    PathFindsEntry(c, i);
    SamePath(meta, ReadingSeq(m'), |m'|, path);
    var j := FirstWithHash(c, i, hash);
    FindInjectedHash(c, j, hash);
    SameHash(lookup, ReadingSeq(t), |t|, 0, hash);
    DataShown(dec, c, codec, j);
  }
}
