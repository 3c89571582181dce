/** The injected directory of a patched WIM image, as a reader walks it (src/wimpatch.c, src/wim.c). */
module WimWalk {
  import opened Bytes
  import opened Memory
  import opened Wim
  import opened WimDir
  import opened VdiskDir
  import opened Vdisk
  import opened WimPatch
  import opened WimPatched
  import Sha1

  // ---------------------------------------------------------------- the patched metadata

  /** The directory entries of the injected files among the first `i`, each padded to the stride. */
  function DirFiles(c: Case, i: nat): (r: seq<byte>)
    requires ValidCase(c) && i <= MAX_FILES
    ensures |r| == DIR_STRIDE * Injected(c.plan.files, i)
  {
    if i == 0 then []
    else DirFiles(c, i - 1) + if Injects(c.plan.files[i - 1]) then DirFileEntry(c.plan.files[i - 1]) + [0, 0] else []
  }

  /** The original metadata with the parent's subdirectory offset replaced. */
  function PatchedCopy(c: Case): (r: seq<byte>)
    requires ValidCase(c)
    ensures |r| == c.plan.bootLen
  {
    Put(c.meta, c.plan.parent + 16, LE(SubdirValue(c), 8))
  }

  function DirCopyBytes(c: Case): (r: seq<byte>)
    requires ValidCase(c)
    ensures |r| == c.plan.dirLen + 8
  {
    c.meta[c.dirOffset..c.dirOffset + c.plan.dirLen] + Zeros(8)
  }

  /** The metadata a reader of the patched image should see. */
  function PatchedMeta(c: Case): (r: seq<byte>)
    requires ValidCase(c)
    ensures |r| == End(c.plan) - BootAt(c.plan)
  {
    PatchedCopy(c) + Zeros(SubdirValue(c) - c.plan.bootLen) + DirFiles(c, MAX_FILES) + DirCopyBytes(c)
  }

  /** Positions that no region covers: beyond every region up to some stretch, and before every later one. */
  lemma GapAfterCopy(c: Case, at: nat)
    requires ValidCase(c) && BootAt(c.plan) + c.plan.bootLen <= at < DirAt(c.plan)
    ensures PatchedImage(c)(at) == 0
  {
    hide PatchedImage, PartOf, Injects, Injected, InjectedBytes;
    var p := c.plan;
    forall s | 0 <= s < SLOTS ensures !Covers(RegionOf(p, PartOf(s)), at) {
      var part := PartOf(s);
      InStretch(p, part);
      if Stretch(part) <= 5 { StretchMonotone(p, Stretch(part), 5); }
    }
    StretchMonotone(p, 0, 5);
    ByteBetween(c, at);
  }

  lemma GapAtEnd(c: Case, at: nat)
    requires ValidCase(c) && DirCopyAt(c.plan) + c.plan.dirLen <= at
    ensures PatchedImage(c)(at) == 0
  {
    hide PatchedImage, PartOf, Injects, Injected, InjectedBytes, RegionOf;
    var p := c.plan;
    forall s | 0 <= s < SLOTS ensures !Covers(RegionOf(p, PartOf(s)), at) {
      var part := PartOf(s);
      InStretch(p, part);
      StretchMonotone(p, Stretch(part), 7);
    }
    StretchMonotone(p, 0, 7);
    ByteBetween(c, at);
  }

  lemma GapAfterEntry(c: Case, i: nat, at: nat)
    requires ValidCase(c) && i < MAX_FILES && Injects(c.plan.files[i])
    requires DirAt(c.plan) + DIR_STRIDE * Injected(c.plan.files, i) + DIR_FILE_LEN <= at
    requires at < DirAt(c.plan) + DIR_STRIDE * Injected(c.plan.files, i) + DIR_STRIDE
    ensures PatchedImage(c)(at) == 0
  {
    hide PatchedImage, PartOf, Injects, Injected, InjectedBytes, BootAt;
    var p := c.plan;
    forall s | 0 <= s < SLOTS ensures !Covers(RegionOf(p, PartOf(s)), at) {
      var part := PartOf(s);
      InStretch(p, part);
      if Stretch(part) <= 5 {
        StretchMonotone(p, Stretch(part), 5);
      } else if part.DirFile? {
        if part.i < i { InjectedMonotone(p.files, part.i, i); } else { InjectedMonotone(p.files, i, part.i); }
      } else {
        InjectedMonotone(p.files, i, |p.files|);
      }
    }
    StretchMonotone(p, 0, 5);
    ByteBetween(c, at);
  }

  lemma ZeroSlice(img: Image, at: nat, n: nat)
    requires forall q :: at <= q < at + n ==> img(q) == 0
    ensures Slice(img, at, n) == Zeros(n)
    ensures n == 2 ==> Slice(img, at, n) == [0, 0]
  {
  }

  lemma EntryGapShown(c: Case, i: nat)
    requires ValidCase(c) && i < MAX_FILES && Injects(c.plan.files[i])
    ensures Slice(PatchedImage(c), DirAt(c.plan) + DIR_STRIDE * Injected(c.plan.files, i) + DIR_FILE_LEN, 2) == [0, 0]
  {
    hide PatchedImage, Injects, DirAt, Injected, Slice;
    var at := DirAt(c.plan) + DIR_STRIDE * Injected(c.plan.files, i) + DIR_FILE_LEN;
    forall q | at <= q < at + 2 ensures PatchedImage(c)(q) == 0 { GapAfterEntry(c, i, q); }
    ZeroSlice(PatchedImage(c), at, 2);
  }

  lemma DirEntryShown(c: Case, i: nat)
    requires ValidCase(c) && i < MAX_FILES && Injects(c.plan.files[i])
    ensures Slice(PatchedImage(c), DirAt(c.plan) + DIR_STRIDE * Injected(c.plan.files, i), DIR_FILE_LEN) == DirFileEntry(c.plan.files[i])
  {
    hide PatchedImage, DirFileEntry, Injects, DirAt, Injected, ContentOf, RegionOf, Slice, FileAt, LookupAt, Sha1.Hash;
    FileRegions(c.plan, i);
    FileContents(c, i);
    RegionShowsAt(c, DirFile(i), DirAt(c.plan) + DIR_STRIDE * Injected(c.plan.files, i), DIR_FILE_LEN, DirFileEntry(c.plan.files[i]));
  }

  lemma DirFileShown(c: Case, i: nat)
    requires ValidCase(c) && i < MAX_FILES && Injects(c.plan.files[i])
    ensures Slice(PatchedImage(c), DirAt(c.plan) + DIR_STRIDE * Injected(c.plan.files, i), DIR_STRIDE) == DirFileEntry(c.plan.files[i]) + [0, 0]
  {
    hide PatchedImage, DirFileEntry, Injects, DirAt, Injected, Slice, ValidPlan, End;
    DirEntryShown(c, i);
    EntryGapShown(c, i);
    SliceSplit(PatchedImage(c), DirAt(c.plan) + DIR_STRIDE * Injected(c.plan.files, i), DIR_FILE_LEN, 2);
  }

  lemma {:induction false} DirFilesShown(c: Case, i: nat)
    requires ValidCase(c) && i <= MAX_FILES
    ensures Slice(PatchedImage(c), DirAt(c.plan), DIR_STRIDE * Injected(c.plan.files, i)) == DirFiles(c, i)
  {
    hide PatchedImage, DirFileEntry, Injects, DirAt, Slice;
    if i == 0 {
      assert Slice(PatchedImage(c), DirAt(c.plan), 0) == [];
    } else {
      DirFilesShown(c, i - 1);
      SliceSplit(PatchedImage(c), DirAt(c.plan), DIR_STRIDE * Injected(c.plan.files, i - 1), DIR_STRIDE);
      if Injects(c.plan.files[i - 1]) { DirFileShown(c, i - 1); }
    }
  }

  lemma MetaRegions(c: Case)
    requires ValidCase(c)
    ensures RegionOf(c.plan, BootCopy) == Region(BootCopy, BootAt(c.plan), c.plan.bootLen) && ContentOf(c, BootCopy) == c.meta
    ensures RegionOf(c.plan, Subdir) == Region(Subdir, BootAt(c.plan) + c.plan.parent + 16, 8)
    ensures ContentOf(c, Subdir) == LE(SubdirValue(c), 8)
    ensures RegionOf(c.plan, DirCopy) == Region(DirCopy, DirCopyAt(c.plan), c.plan.dirLen)
    ensures ContentOf(c, DirCopy) == c.meta[c.dirOffset..c.dirOffset + c.plan.dirLen]
  {
    hide BootAt, Injected, InjectedBytes, LE;
  }

  lemma CopyShown(c: Case)
    requires ValidCase(c)
    ensures Slice(PatchedImage(c), BootAt(c.plan), c.plan.bootLen) == PatchedCopy(c)
  {
    hide PatchedImage, ContentOf, RegionOf, BootAt, LE;
    MetaRegions(c);
    forall i | 0 <= i < c.plan.bootLen ensures PatchedImage(c)(BootAt(c.plan) + i) == PatchedCopy(c)[i] {
      var part := if c.plan.parent + 16 <= i < c.plan.parent + 24 then Subdir else BootCopy;
      ByteFrom(c, part, BootAt(c.plan) + i);
    }
  }

  lemma DirCopyShown(c: Case)
    requires ValidCase(c)
    ensures Slice(PatchedImage(c), DirCopyAt(c.plan), c.plan.dirLen + 8) == DirCopyBytes(c)
  {
    hide PatchedImage, ContentOf, RegionOf, DirCopyAt, Slice;
    MetaRegions(c);
    RegionShows(c, DirCopy);
    SliceSplit(PatchedImage(c), DirCopyAt(c.plan), c.plan.dirLen, 8);
    var at := DirCopyAt(c.plan) + c.plan.dirLen;
    forall q | at <= q < at + 8 ensures PatchedImage(c)(q) == 0 { GapAtEnd(c, q); }
    ZeroSlice(PatchedImage(c), at, 8);
  }

  lemma PadShown(c: Case)
    requires ValidCase(c)
    ensures Slice(PatchedImage(c), BootAt(c.plan) + c.plan.bootLen, SubdirValue(c) - c.plan.bootLen) == Zeros(SubdirValue(c) - c.plan.bootLen)
  {
    hide PatchedImage, BootAt, Slice, Align8;
    var at, n := BootAt(c.plan) + c.plan.bootLen, SubdirValue(c) - c.plan.bootLen;
    forall q | at <= q < at + n ensures PatchedImage(c)(q) == 0 { GapAfterCopy(c, q); }
    ZeroSlice(PatchedImage(c), at, n);
  }

  /** The bytes of the patched boot resource: the edited copy, the injected entries, the original entries, a terminator. */
  lemma MetaShown(c: Case)
    requires ValidCase(c)
    ensures Slice(PatchedImage(c), BootAt(c.plan), End(c.plan) - BootAt(c.plan)) == PatchedMeta(c)
  {
    hide PatchedImage, PatchedCopy, DirFiles, DirCopyBytes, BootAt, Injected, Slice;
    var img, p := PatchedImage(c), c.plan;
    CopyShown(c);
    PadShown(c);
    DirFilesShown(c, |p.files|);
    DirCopyShown(c);
    var pad, files := SubdirValue(c) - p.bootLen, DIR_STRIDE * Total(p);
    SliceSplit(img, BootAt(p), p.bootLen, pad + files + p.dirLen + 8);
    SliceSplit(img, BootAt(p) + p.bootLen, pad, files + p.dirLen + 8);
    SliceSplit(img, DirAt(p), files, p.dirLen + 8);
  }

  lemma MetaReads(dec: Decompressor, c: Case, codec: Codec)
    requires PatchedCase(c)
    ensures |PatchedMeta(c)| == c.header.boot.len
    ensures SameReading(ReadingIn(dec, PatchedImage(c), End(c.plan), codec, c.header.boot), ReadingSeq(PatchedMeta(c)))
  {
    hide PatchedImage, Slice, PatchedMeta, LookupAt, BootAt, LookupLen, End, ReadingIn, ReadingSeq, SameReading, Images;
    PatchedResources(c.plan);
    MetaShown(c);
    PlainSame(dec, PatchedImage(c), End(c.plan), codec, c.header.boot);
  }

  // ---------------------------------------------------------------- the path to the injected directory

  /** `m'` extends `m` and differs from it only in the subdirectory field of the entry at `p`. */
  ghost predicate Edited(m: seq<byte>, m': seq<byte>, p: nat) {
    && |m| <= |m'| && p + DIRENTRY_LEN <= |m|
    && forall i :: 0 <= i < |m| && !(p + 16 <= i < p + 24) ==> m'[i] == m[i]
  }

  /** A directory entry examined for `name` is the edited one, or clear of the edited field. */
  predicate Clear(name: seq<nat>, at: nat, p: nat) {
    at == p || at + DIRENTRY_LEN + 2 * (|name| + 1) <= p + 16 || p + 24 <= at
  }

  /** Every entry examined in the search for `name` is clear. */
  predicate VisitClear(m: seq<byte>, name: seq<nat>, at: nat, p: nat)
    decreases |m| - at
  {
    at + 8 > |m| ||
    (Clear(name, at, p) && match LookAt(ReadingSeq(m), name, at) case Skip(n) => VisitClear(m, name, at + n, p) case _ => true)
  }

  /** Well-formed metadata, as far as a path walk can tell: the entries it examines do not overlap the edited field,
      and it passes through the edited entry only at its end. */
  predicate WalkClear(m: seq<byte>, names: seq<seq<nat>>, dir: nat, p: nat)
    requires names != []
    decreases |names|
  {
    VisitClear(m, names[0], dir, p) &&
    (|names| == 1 ||
     var f := FindEntry(ReadingSeq(m), |m|, names[0], dir);
     f.None? || |f.value.entry| != DIRENTRY_LEN ||
     (f.value.offset != p && WalkClear(m, names[1..], SubdirOf(f.value.entry), p)))
  }

  lemma SameRange(m: seq<byte>, m': seq<byte>, p: nat, o: nat, n: nat)
    requires Edited(m, m', p) && o + n <= |m| && (o + n <= p + 16 || p + 24 <= o)
    ensures Get(ReadingSeq(m'), o, n) == Get(ReadingSeq(m), o, n) == Some(m[o..o + n])
  {
    assert m'[o..o + n] == m[o..o + n];
  }

  lemma InRange(m: seq<byte>, o: nat, n: nat)
    ensures Get(ReadingSeq(m), o, n) == if o + n <= |m| then Some(m[o..o + n]) else None
  {
  }

  /** A successful look at an entry clear of the edit is unchanged. */
  lemma LookUnchanged(m: seq<byte>, m': seq<byte>, p: nat, name: seq<nat>, at: nat)
    requires Edited(m, m', p) && Clear(name, at, p) && at != p && LookAt(ReadingSeq(m), name, at) != Fail
    ensures LookAt(ReadingSeq(m'), name, at) == LookAt(ReadingSeq(m), name, at)
  {
    hide FromLE, NameMatches, Get, ReadingSeq, Edited;
    InRange(m, at, 8);
    InRange(m, at, DIRENTRY_LEN);
    InRange(m, at + DIRENTRY_LEN, 2 * (|name| + 1));
    SameRange(m, m', p, at, 8);
    SameRange(m, m', p, at, DIRENTRY_LEN);
    if at + DIRENTRY_LEN + 2 * (|name| + 1) <= |m| { SameRange(m, m', p, at + DIRENTRY_LEN, 2 * (|name| + 1)); }
  }

  /** A successful look at the edited entry sees the new subdirectory offset and nothing else new. */
  lemma LookEdited(m: seq<byte>, m': seq<byte>, p: nat, name: seq<nat>)
    requires Edited(m, m', p) && LookAt(ReadingSeq(m), name, p) != Fail
    ensures match LookAt(ReadingSeq(m), name, p)
      case Here(e) => LookAt(ReadingSeq(m'), name, p) == Here(Put(e, 16, m'[p + 16..p + 24]))
      case Skip(n) => LookAt(ReadingSeq(m'), name, p) == Skip(n)
      case Fail => true
  {
    hide FromLE, NameMatches, Get, ReadingSeq, Edited;
    InRange(m, p, 8);
    InRange(m, p, DIRENTRY_LEN);
    InRange(m', p, DIRENTRY_LEN);
    InRange(m, p + DIRENTRY_LEN, 2 * (|name| + 1));
    SameRange(m, m', p, p, 8);
    EntryEdited(m, m', p);
    EditedSizes(m, m', p);
    if p + DIRENTRY_LEN + 2 * (|name| + 1) <= |m| { SameRange(m, m', p, p + DIRENTRY_LEN, 2 * (|name| + 1)); }
  }

  lemma EntryEdited(m: seq<byte>, m': seq<byte>, p: nat)
    requires Edited(m, m', p)
    ensures var e, e' := m[p..p + DIRENTRY_LEN], m'[p..p + DIRENTRY_LEN];
      e' == Put(e, 16, m'[p + 16..p + 24]) && e'[0..8] == e[0..8] && e'[100..102] == e[100..102]
  {
    var e, e', f := m[p..p + DIRENTRY_LEN], m'[p..p + DIRENTRY_LEN], m'[p + 16..p + 24];
    forall i | 0 <= i < DIRENTRY_LEN ensures e'[i] == if 16 <= i < 24 then f[i - 16] else e[i] {
      assert e'[i] == m'[p + i] && e[i] == m[p + i];
      if 16 <= i < 24 { assert f[i - 16] == m'[p + 16 + (i - 16)]; }
    }
  }

  function EditedEntry(m': seq<byte>, p: nat, f: Found): Found
    requires p + 24 <= |m'| && |f.entry| == DIRENTRY_LEN
  {
    if f.offset == p then Found(p, Put(f.entry, 16, m'[p + 16..p + 24])) else f
  }

  lemma {:induction false} EntryAfterEdit(m: seq<byte>, m': seq<byte>, p: nat, name: seq<nat>, at: nat)
    requires Edited(m, m', p) && VisitClear(m, name, at, p) && FindEntry(ReadingSeq(m), |m|, name, at).Some?
    ensures |FindEntry(ReadingSeq(m), |m|, name, at).value.entry| == DIRENTRY_LEN
    ensures FindEntry(ReadingSeq(m'), |m'|, name, at) == Some(EditedEntry(m', p, FindEntry(ReadingSeq(m), |m|, name, at).value))
    decreases |m| - at
  {
    hide LookAt, Edited, ReadingSeq, Put;
    assert |m| <= |m'| && p + DIRENTRY_LEN <= |m| by { EditedSizes(m, m', p); }
    if at == p { LookEdited(m, m', p, name); } else { LookUnchanged(m, m', p, name, at); }
    match LookAt(ReadingSeq(m), name, at)
    case Here(e) =>
    case Skip(n) => EntryAfterEdit(m, m', p, name, at + n);
  }

  lemma EditedSizes(m: seq<byte>, m': seq<byte>, p: nat)
    requires Edited(m, m', p)
    ensures |m| <= |m'| && p + DIRENTRY_LEN <= |m|
  {
  }

  lemma {:induction false} WalkAfterEdit(m: seq<byte>, m': seq<byte>, p: nat, names: seq<seq<nat>>, dir: nat)
    requires names != [] && Edited(m, m', p) && WalkClear(m, names, dir, p)
    requires Walk(ReadingSeq(m), |m|, names, dir).Some? && Walk(ReadingSeq(m), |m|, names, dir).value.offset == p
    ensures p + 24 <= |m'|
    ensures Walk(ReadingSeq(m'), |m'|, names, dir) == Some(EditedEntry(m', p, Walk(ReadingSeq(m), |m|, names, dir).value))
    decreases |names|
  {
    hide FindEntry, VisitClear, Edited, ReadingSeq, Put, FromLE;
    EditedSizes(m, m', p);
    EntryAfterEdit(m, m', p, names[0], dir);
    var f := FindEntry(ReadingSeq(m), |m|, names[0], dir).value;
    if |names| > 1 { WalkAfterEdit(m, m', p, names[1..], SubdirOf(f.entry)); }
  }

  /** The root directory's offset, from the security header. */
  function RootAt(m: seq<byte>): nat
    requires |m| >= 8
  {
    Align8(FromLE(m[0..8][0..4]))
  }

  lemma PathIsWalk(m: seq<byte>, path: seq<nat>)
    ensures FindPath(ReadingSeq(m), |m|, path) == if |m| < 8 then None else Walk(ReadingSeq(m), |m|, Components(path), RootAt(m))
  {
    hide Walk, FromLE, Components;
    InRange(m, 0, 8);
  }

  // ---------------------------------------------------------------- the injected directory

  lemma {:induction false} DirFilesAt(c: Case, i: nat, n: nat)
    requires ValidCase(c) && i < n <= MAX_FILES && Injects(c.plan.files[i])
    ensures DIR_STRIDE * Injected(c.plan.files, i) + DIR_STRIDE <= DIR_STRIDE * Injected(c.plan.files, n)
    ensures DirFiles(c, n)[DIR_STRIDE * Injected(c.plan.files, i)..DIR_STRIDE * Injected(c.plan.files, i) + DIR_STRIDE]
         == DirFileEntry(c.plan.files[i]) + [0, 0]
    decreases n
  {
    hide DirFileEntry, Injects;
    var at := DIR_STRIDE * Injected(c.plan.files, i);
    if i < n - 1 {
      DirFilesAt(c, i, n - 1);
      assert DirFiles(c, n)[at..at + DIR_STRIDE] == DirFiles(c, n - 1)[at..at + DIR_STRIDE];
    }
  }

  /** Where the injected entry of file `i` stands in the patched metadata. */
  function EntryAt(c: Case, i: nat): nat
    requires ValidCase(c) && i <= MAX_FILES
  {
    SubdirValue(c) + DIR_STRIDE * Injected(c.plan.files, i)
  }

  lemma MiddleSlice(a: seq<byte>, b: seq<byte>, d: seq<byte>, at: nat, n: nat)
    requires at + n <= |b|
    ensures (a + b + d)[|a| + at..|a| + at + n] == b[at..at + n]
  {
  }

  lemma InjectedEntryAt(c: Case, i: nat)
    requires ValidCase(c) && i < MAX_FILES && Injects(c.plan.files[i])
    ensures EntryAt(c, i) + DIR_STRIDE <= |PatchedMeta(c)|
    ensures PatchedMeta(c)[EntryAt(c, i)..EntryAt(c, i) + DIR_STRIDE] == DirFileEntry(c.plan.files[i]) + [0, 0]
  {
    hide DirFileEntry, Injects, DirFiles, PatchedCopy, DirCopyBytes, BootAt, Injected;
    DirFilesAt(c, i, |c.plan.files|);
    var a := PatchedCopy(c) + Zeros(SubdirValue(c) - c.plan.bootLen);
    MiddleSlice(a, DirFiles(c, MAX_FILES), DirCopyBytes(c), DIR_STRIDE * Injected(c.plan.files, i), DIR_STRIDE);
  }

  lemma OriginalEntriesAt(c: Case)
    requires ValidCase(c)
    ensures EntryAt(c, MAX_FILES) + |DirCopyBytes(c)| == |PatchedMeta(c)|
    ensures PatchedMeta(c)[EntryAt(c, MAX_FILES)..] == DirCopyBytes(c)
  {
    hide DirFileEntry, Injects, DirFiles, PatchedCopy, DirCopyBytes, BootAt, Injected;
  }

  lemma DirFileLen(f: VFile)
    requires ValidName(f.name)
    ensures (DirFileEntry(f) + [0, 0])[0..8] == LE(DIR_STRIDE, 8) && FromLE(LE(DIR_STRIDE, 8)) == DIR_STRIDE
  {
    hide LE, Sha1.Hash, NameBytes;
    RangeValues();
    LERoundTrip(DIR_STRIDE, 8);
  }

  lemma {:induction false} ZeroBytes(b: seq<byte>)
    requires FromLE(b) == 0
    ensures b == Zeros(|b|)
  {
    if b != [] { ZeroBytes(b[1..]); }
  }

  lemma {:induction false} DirLenTerminator(m: seq<byte>, d: nat)
    requires DirLen(ReadingSeq(m), |m|, d).Some?
    ensures var n := DirLen(ReadingSeq(m), |m|, d).value; d + n + 8 <= |m| && m[d + n..d + n + 8] == Zeros(8)
    decreases |m| - d
  {
    hide FromLE;
    InRange(m, d, 8);
    if FromLE(m[d..d + 8]) == 0 { ZeroBytes(m[d..d + 8]); } else { DirLenTerminator(m, d + FromLE(m[d..d + 8])); }
  }

  /** Equal directories, wherever they stand, have equal lengths. */
  lemma {:induction false} DirLenCopy(m: seq<byte>, d: nat, m': seq<byte>, q: nat, n: nat, x: nat)
    requires d + n + 8 <= |m| && q + n + 8 <= |m'| && m'[q..q + n + 8] == m[d..d + n + 8] && x <= n
    requires DirLen(ReadingSeq(m), |m|, d + x) == Some(n - x)
    ensures DirLen(ReadingSeq(m'), |m'|, q + x) == Some(n - x)
    decreases n - x
  {
    hide FromLE;
    InRange(m, d + x, 8);
    InRange(m', q + x, 8);
    SubSlice(m, d, n + 8, x, x + 8);
    SubSlice(m', q, n + 8, x, x + 8);
    assert m'[q + x..q + x + 8] == m[d + x..d + x + 8];
    var l := FromLE(m[d + x..d + x + 8]);
    if l != 0 { DirLenCopy(m, d, m', q, n, x + l); }
  }

  lemma CopyIsOriginal(c: Case)
    requires ValidCase(c) && DirLen(ReadingSeq(c.meta), |c.meta|, c.dirOffset) == Some(c.plan.dirLen)
    ensures DirCopyBytes(c) == c.meta[c.dirOffset..c.dirOffset + c.plan.dirLen + 8]
  {
    hide DirLen;
    DirLenTerminator(c.meta, c.dirOffset);
  }

  /** From the entry of file `i` on, the directory holds the remaining injected entries and then the original ones. */
  lemma {:induction false} DirLenFrom(c: Case, i: nat)
    requires ValidCase(c) && i <= MAX_FILES && DirLen(ReadingSeq(c.meta), |c.meta|, c.dirOffset) == Some(c.plan.dirLen)
    ensures Injected(c.plan.files, i) <= Total(c.plan)
    ensures DirLen(ReadingSeq(PatchedMeta(c)), |PatchedMeta(c)|, EntryAt(c, i))
         == Some(DIR_STRIDE * (Total(c.plan) - Injected(c.plan.files, i)) + c.plan.dirLen)
    decreases MAX_FILES - i
  {
    hide Injects, DirFileEntry, PatchedMeta, DirLen, BootAt, FromLE, LE;
    var m, m', at := c.meta, PatchedMeta(c), EntryAt(c, i);
    InjectedMonotone(c.plan.files, i, |c.plan.files|);
    if i == MAX_FILES {
      OriginalEntriesAt(c);
      CopyIsOriginal(c);
      assert m'[at..] == m'[at..at + c.plan.dirLen + 8];
      DirLenCopy(m, c.dirOffset, m', at, c.plan.dirLen, 0);
    } else {
      DirLenFrom(c, i + 1);
      if Injects(c.plan.files[i]) {
        InjectedEntryAt(c, i);
        DirFileLen(c.plan.files[i]);
        SubSlice(m', at, DIR_STRIDE, 0, 8);
        InRange(m', at, 8);
        DirLenStep(ReadingSeq(m'), |m'|, at);
      }
    }
  }

  // ---------------------------------------------------------------- the entries visited

  /** The entries of a directory, each with all its bytes, up to the terminator. */
  function Visited(rd: Reading, limit: nat, at: nat): Option<seq<seq<byte>>>
    decreases limit - at
  {
    if at + 8 > limit then None
    else
      var l := Get(rd, at, 8);
      if l.None? then None
      else if FromLE(l.value) == 0 then Some([])
      else
        var e, rest := Get(rd, at, FromLE(l.value)), Visited(rd, limit, at + FromLE(l.value));
        if e.None? || rest.None? then None else Some([e.value] + rest.value)
  }

  lemma {:induction false} SameVisited(a: Reading, b: Reading, limit: nat, at: nat)
    requires SameReading(a, b)
    ensures Visited(a, limit, at) == Visited(b, limit, at)
    decreases limit - at
  {
    hide FromLE;
    if at + 8 <= limit {
      assert Get(a, at, 8) == Get(b, at, 8);
      var l := Get(a, at, 8);
      if l.Some? && FromLE(l.value) != 0 {
        assert Get(a, at, FromLE(l.value)) == Get(b, at, FromLE(l.value));
        SameVisited(a, b, limit, at + FromLE(l.value));
      }
    }
  }

  /** Where a directory has a length, its entries can be visited. */
  lemma {:induction false} LengthVisited(m: seq<byte>, d: nat)
    requires DirLen(ReadingSeq(m), |m|, d).Some?
    ensures Visited(ReadingSeq(m), |m|, d).Some?
    decreases |m| - d
  {
    hide FromLE;
    InRange(m, d, 8);
    var l := FromLE(m[d..d + 8]);
    if l != 0 {
      InRange(m, d, l);
      LengthVisited(m, d + l);
    }
  }

  lemma VisitedStep(m: seq<byte>, at: nat)
    requires at + 8 <= |m|
    ensures var l, v := FromLE(m[at..at + 8]), Visited(ReadingSeq(m), |m|, at);
            && (l == 0 ==> v == Some([]))
            && (l > 0 && at + l <= |m| ==>
                  var rest := Visited(ReadingSeq(m), |m|, at + l);
                  v == if rest.None? then None else Some([m[at..at + l]] + rest.value))
  {
    hide FromLE;
    InRange(m, at, 8);
    InRange(m, at, FromLE(m[at..at + 8]));
  }

  lemma DirLenParts(m: seq<byte>, at: nat, k: nat)
    requires DirLen(ReadingSeq(m), |m|, at) == Some(k)
    ensures at + 8 <= |m|
    ensures var l := FromLE(m[at..at + 8]); l > 0 ==> l <= k && DirLen(ReadingSeq(m), |m|, at + l) == Some(k - l)
  {
    hide FromLE;
    InRange(m, at, 8);
  }

  lemma SpanOf(m: seq<byte>, d: nat, m': seq<byte>, q: nat, n: nat, x: nat, k: nat)
    requires d + n <= |m| && q + n <= |m'| && m'[q..q + n] == m[d..d + n] && x + k <= n
    ensures m'[q + x..q + x + k] == m[d + x..d + x + k]
  {
    SubSlice(m, d, n, x, x + k);
    SubSlice(m', q, n, x, x + k);
  }

  lemma SameSpan(m: seq<byte>, d: nat, m': seq<byte>, q: nat, n: nat, x: nat, k: nat)
    requires d + n <= |m| && q + n <= |m'| && m'[q..q + n] == m[d..d + n] && x + k <= n
    ensures Get(ReadingSeq(m'), q + x, k) == Get(ReadingSeq(m), d + x, k)
  {
    InRange(m, d + x, k);
    InRange(m', q + x, k);
    SpanOf(m, d, m', q, n, x, k);
  }

  /** Equal directories, wherever they stand, have equal entries. */
  lemma {:induction false} VisitedCopy(m: seq<byte>, d: nat, m': seq<byte>, q: nat, n: nat, x: nat)
    requires d + n + 8 <= |m| && q + n + 8 <= |m'| && m'[q..q + n + 8] == m[d..d + n + 8] && x <= n
    requires DirLen(ReadingSeq(m), |m|, d + x) == Some(n - x)
    ensures Visited(ReadingSeq(m'), |m'|, q + x) == Visited(ReadingSeq(m), |m|, d + x)
    decreases n - x
  {
    hide FromLE, DirLen, Visited, ReadingSeq;
    DirLenParts(m, d + x, n - x);
    SpanOf(m, d, m', q, n + 8, x, 8);
    VisitedStep(m, d + x);
    VisitedStep(m', q + x);
    var l := FromLE(m[d + x..d + x + 8]);
    if l > 0 {
      SpanOf(m, d, m', q, n + 8, x, l);
      VisitedCopy(m, d, m', q, n, x + l);
    }
  }

  /** The entries of the injected files from index `i` on. */
  function InjectedEntries(c: Case, i: nat): seq<seq<byte>>
    requires ValidCase(c) && i <= MAX_FILES
    decreases MAX_FILES - i
  {
    if i == MAX_FILES then []
    else (if Injects(c.plan.files[i]) then [DirFileEntry(c.plan.files[i]) + [0, 0]] else []) + InjectedEntries(c, i + 1)
  }

  /** From the entry of file `i` on, exactly the remaining injected entries and then the original ones are visited. */
  lemma {:induction false} VisitedFrom(c: Case, i: nat)
    requires ValidCase(c) && i <= MAX_FILES && DirLen(ReadingSeq(c.meta), |c.meta|, c.dirOffset) == Some(c.plan.dirLen)
    ensures Visited(ReadingSeq(c.meta), |c.meta|, c.dirOffset).Some?
    ensures Visited(ReadingSeq(PatchedMeta(c)), |PatchedMeta(c)|, EntryAt(c, i))
         == Some(InjectedEntries(c, i) + Visited(ReadingSeq(c.meta), |c.meta|, c.dirOffset).value)
    decreases MAX_FILES - i
  {
    hide Injects, DirFileEntry, PatchedMeta, DirLen, BootAt, FromLE, LE, Visited;
    var m, m', at := c.meta, PatchedMeta(c), EntryAt(c, i);
    LengthVisited(m, c.dirOffset);
    var old' := Visited(ReadingSeq(m), |m|, c.dirOffset).value;
    if i == MAX_FILES {
      OriginalEntriesAt(c);
      CopyIsOriginal(c);
      assert m'[at..] == m'[at..at + c.plan.dirLen + 8];
      VisitedCopy(m, c.dirOffset, m', at, c.plan.dirLen, 0);
      assert [] + old' == old';
    } else {
      VisitedFrom(c, i + 1);
      if Injects(c.plan.files[i]) {
        InjectedVisited(c, i);
        var e := DirFileEntry(c.plan.files[i]) + [0, 0];
        assert [e] + (InjectedEntries(c, i + 1) + old') == [e] + InjectedEntries(c, i + 1) + old';
      } else {
        assert [] + InjectedEntries(c, i + 1) == InjectedEntries(c, i + 1);
      }
    }
  }

  lemma InjectedVisited(c: Case, i: nat)
    requires ValidCase(c) && i < MAX_FILES && Injects(c.plan.files[i])
    ensures var rest := Visited(ReadingSeq(PatchedMeta(c)), |PatchedMeta(c)|, EntryAt(c, i + 1));
            rest.Some? ==> Visited(ReadingSeq(PatchedMeta(c)), |PatchedMeta(c)|, EntryAt(c, i)) ==
                           Some([DirFileEntry(c.plan.files[i]) + [0, 0]] + rest.value)
  {
    hide Injects, DirFileEntry, PatchedMeta, BootAt, FromLE, LE, ReadingSeq, Get;
    var m', at := PatchedMeta(c), EntryAt(c, i);
    InjectedEntryAt(c, i);
    DirFileLen(c.plan.files[i]);
    SubSlice(m', at, DIR_STRIDE, 0, 8);
    InRange(m', at, 8);
    InRange(m', at, DIR_STRIDE);
    assert EntryAt(c, i + 1) == at + DIR_STRIDE;
  }

  // ---------------------------------------------------------------- the main result

  lemma PatchedMetaEdited(c: Case)
    requires ValidCase(c) && c.plan.parent + DIRENTRY_LEN <= |c.meta|
    ensures Edited(c.meta, PatchedMeta(c), c.plan.parent)
    ensures PatchedMeta(c)[c.plan.parent + 16..c.plan.parent + 24] == LE(SubdirValue(c), 8)
    ensures 8 <= |c.meta| && PatchedMeta(c)[0..8] == c.meta[0..8]
  {
    hide DirFiles, DirCopyBytes, BootAt, LE;
    var m' := PatchedMeta(c);
    assert m'[..|c.meta|] == PatchedCopy(c);
    assert forall i :: 0 <= i < |c.meta| ==> m'[i] == m'[..|c.meta|][i];
    assert m'[c.plan.parent + 16..c.plan.parent + 24] == m'[..|c.meta|][c.plan.parent + 16..c.plan.parent + 24];
  }

  lemma SubdirSet(c: Case, e: seq<byte>)
    requires ValidCase(c) && |e| == DIRENTRY_LEN
    ensures SubdirOf(Put(e, 16, LE(SubdirValue(c), 8))) == SubdirValue(c)
  {
    hide LE, FromLE, BootAt, DirAt;
    assert Put(e, 16, LE(SubdirValue(c), 8))[16..24] == LE(SubdirValue(c), 8);
    RangeValues();
    SubdirSmall(c);
    LERoundTrip(SubdirValue(c), 8);
  }

  lemma SubdirSmall(c: Case)
    requires ValidCase(c)
    ensures SubdirValue(c) < ZLEN_RANGE && c.plan.bootLen <= SubdirValue(c)
  {
    hide Injected, InjectedBytes;
  }

  /** The walk along `names` in the original metadata ends at the parent entry and meets nothing that the patch edits. */
  ghost predicate Reaches(c: Case, names: seq<seq<nat>>) {
    && names != [] && |c.meta| >= 8
    && WalkClear(c.meta, names, RootAt(c.meta), c.plan.parent)
    && Walk(ReadingSeq(c.meta), |c.meta|, names, RootAt(c.meta)).Some?
    && Walk(ReadingSeq(c.meta), |c.meta|, names, RootAt(c.meta)).value.offset == c.plan.parent
  }

  /** In the patched metadata the same walk ends at the same entry, which now points to the injected directory. */
  lemma WalkReaches(c: Case, names: seq<seq<nat>>)
    requires ValidCase(c) && c.plan.parent + DIRENTRY_LEN <= |c.meta| && Reaches(c, names)
    ensures |PatchedMeta(c)| >= 8 && RootAt(PatchedMeta(c)) == RootAt(c.meta)
    ensures var r := Walk(ReadingSeq(PatchedMeta(c)), |PatchedMeta(c)|, names, RootAt(c.meta));
      r.Some? && r.value.offset == c.plan.parent && SubdirOf(r.value.entry) == SubdirValue(c)
  {
    hide Walk, WalkClear, Edited, PatchedMeta, SubdirOf, LE, FromLE, Put, BootAt;
    PatchedMetaEdited(c);
    EditedSizes(c.meta, PatchedMeta(c), c.plan.parent);
    WalkAfterEdit(c.meta, PatchedMeta(c), c.plan.parent, names, RootAt(c.meta));
    SubdirSet(c, Walk(ReadingSeq(c.meta), |c.meta|, names, RootAt(c.meta)).value.entry);
  }

  /** Patched directory walk: a reader of the patched image resolves the injection path to the same entry, which now
      leads to the injected directory: one entry per injected file, then the original entries. */
  lemma PatchedDirectoryWalk(dec: Decompressor, c: Case, codec: Codec)
    requires PatchedCase(c) && c.plan.parent + DIRENTRY_LEN <= |c.meta| && Reaches(c, Components(INJECT_DIR))
    requires DirLen(ReadingSeq(c.meta), |c.meta|, c.dirOffset) == Some(c.plan.dirLen)
    ensures var rd := ReadingIn(dec, PatchedImage(c), End(c.plan), codec, c.header.boot);
      var found := FindPath(rd, c.header.boot.len, INJECT_DIR);
      && found.Some? && found.value.offset == c.plan.parent && SubdirOf(found.value.entry) == SubdirValue(c)
      && DirLen(rd, c.header.boot.len, SubdirValue(c)) == Some(DIR_STRIDE * Total(c.plan) + c.plan.dirLen)
      && var before := Visited(ReadingSeq(c.meta), |c.meta|, c.dirOffset);
      && before.Some? && Visited(rd, c.header.boot.len, SubdirValue(c)) == Some(InjectedEntries(c, 0) + before.value)
  {
    hide Visited, InjectedEntries;
    hide Walk, FindPath, DirLen, PatchedMeta, PatchedImage, SubdirOf, BootAt, LookupAt, LookupLen, End, Images, Reaches, Components;
    hide SameReading, ReadingIn, ReadingSeq, Injects;
    var rd, m' := ReadingIn(dec, PatchedImage(c), End(c.plan), codec, c.header.boot), PatchedMeta(c);
    MetaReads(dec, c, codec);
    WalkReaches(c, Components(INJECT_DIR));
    PathIsWalk(m', INJECT_DIR);
    SamePath(rd, ReadingSeq(m'), |m'|, INJECT_DIR);
    DirLenFrom(c, 0);
    assert EntryAt(c, 0) == SubdirValue(c) && Injected(c.plan.files, 0) == 0;
    SameDirLen(rd, ReadingSeq(m'), |m'|, SubdirValue(c));
    VisitedFrom(c, 0);
    SameVisited(rd, ReadingSeq(m'), |m'|, SubdirValue(c));
  }
}
