/** Directory sectors of the virtual disk: building them backwards and reading them forwards (src/vdisk.c, src/vdisk.h). */
module VdiskDir {
  import opened Bytes

  /** What vdisk_directory_entry is asked to record; `name` is a C string without its NUL. */
  datatype DirEntry = DirEntry(name: seq<byte>, size: nat, attr: byte, cluster: nat)

  const DIRENT_SIZE := 32
  const DIRENTS := 16
  const DELETED: byte := 0xe5
  const LFN_ATTR: byte := 0x0f
  const LFN_END := 0x40
  const MAX_NAME := 31
  /** Checksum of the all-spaces short name. */
  const SUM: byte := Checksum(Fill(11, 0x20))

  predicate ValidName(name: seq<byte>) {
    |name| <= MAX_NAME && forall i :: 0 <= i < |name| ==> name[i] != 0
  }

  predicate ValidEntry(d: DirEntry) {
    ValidName(d.name) && d.size < 0x1_0000_0000 && d.cluster < 0x1_0000_0000 && d.attr != LFN_ATTR
  }

  // ---------------------------------------------------------------- entry layouts

  /** A signed char stored in a 16-bit unit. */
  function Unit(c: byte): nat {
    if c < 128 then c else 0xff00 + c
  }

  /** The units of a name, with the terminator. */
  function Units(name: seq<byte>): (us: seq<nat>)
    ensures |us| == |name| + 1
  {
    seq(|name| + 1, i requires 0 <= i <= |name| => if i < |name| then Unit(name[i]) else 0)
  }

  function LfnCount(name: seq<byte>): (n: nat)
    ensures n >= 1
  {
    |name| / 13 + 1
  }

  /** Offset of character `k` of a long-name record: name_1, name_2, then name_3. */
  function CharOffset(k: nat): nat
    requires k < 13
  {
    if k < 5 then 1 + 2 * k else if k < 11 then 14 + 2 * (k - 5) else 28 + 2 * (k - 11)
  }

  function UnitAt(us: seq<nat>, t: nat): nat {
    if t < |us| then us[t] else 0xffff
  }

  /** Byte `j` of the record that holds units 13e..13e+12 of `us`; units not yet written read as 0xffff. */
  function LfnByte(us: seq<nat>, e: nat, num: byte, sum: byte, j: nat): byte
    requires j < DIRENT_SIZE
  {
    if j == 0 then num
    else if j == 11 then LFN_ATTR
    else if j == 12 then 0
    else if j == 13 then sum
    else if j < 11 then ByteOfUnit(UnitAt(us, 13 * e + (j - 1) / 2), (j - 1) % 2)
    else if j < 26 then ByteOfUnit(UnitAt(us, 13 * e + 5 + (j - 14) / 2), j % 2)
    else if j < 28 then 0
    else ByteOfUnit(UnitAt(us, 13 * e + 11 + (j - 28) / 2), j % 2)
  }

  function ByteOfUnit(u: nat, half: nat): byte {
    if half == 0 then u % 256 else u / 256 % 256
  }

  function LfnEntry(us: seq<nat>, e: nat, num: byte, sum: byte): (r: seq<byte>)
    ensures |r| == DIRENT_SIZE
    ensures forall j :: 0 <= j < DIRENT_SIZE ==> r[j] == LfnByte(us, e, num, sum, j)
  {
    seq(DIRENT_SIZE, j requires 0 <= j < DIRENT_SIZE => LfnByte(us, e, num, sum, j))
  }

  function DosEntry(d: DirEntry): (r: seq<byte>)
    ensures |r| == DIRENT_SIZE
  {
    Fill(11, 0x20) + [d.attr] + Zeros(8) + LE(d.cluster / 65536, 2) + Zeros(4) + LE(d.cluster % 65536, 2) + LE(d.size, 4)
  }

  function Deleted(): (r: seq<byte>)
    ensures |r| == DIRENT_SIZE
  {
    [DELETED] + Zeros(31)
  }

  /** Checksum of an 8.3 name: rotate right, add. */
  function Checksum(s: seq<byte>): byte {
    if s == [] then 0
    else
      var c := Checksum(s[..|s| - 1]);
      ((c % 2) * 128 + c / 2 + s[|s| - 1]) % 256
  }

  function LfnPiece(d: DirEntry, e: nat): (r: seq<byte>)
    requires ValidName(d.name) && e < LfnCount(d.name)
    ensures |r| == DIRENT_SIZE
  {
    LfnEntry(Units(d.name), e, if e + 1 == LfnCount(d.name) then e + 1 + LFN_END else e + 1, SUM)
  }

  /** Long-name records `q - 1` down to 0, then the short record. */
  function Tail(d: DirEntry, q: nat): (r: seq<seq<byte>>)
    requires ValidName(d.name) && q <= LfnCount(d.name)
    ensures |r| == q + 1
  {
    if q == 0 then [DosEntry(d)] else [LfnPiece(d, q - 1)] + Tail(d, q - 1)
  }

  function Group(d: DirEntry): (r: seq<seq<byte>>)
    requires ValidName(d.name)
    ensures |r| == LfnCount(d.name) + 1
  {
    Tail(d, LfnCount(d.name))
  }

  /** Entries built in list order from the end of the sector backwards. */
  function Place(ds: seq<DirEntry>): seq<seq<byte>>
    requires forall i :: 0 <= i < |ds| ==> ValidEntry(ds[i])
  {
    if ds == [] then [] else assert ValidEntry(ds[|ds| - 1]); Group(ds[|ds| - 1]) + Place(ds[..|ds| - 1])
  }

  predicate Fits(ds: seq<DirEntry>) {
    (forall i :: 0 <= i < |ds| ==> ValidEntry(ds[i])) && |Place(ds)| <= DIRENTS
  }

  function Blank(n: nat): (r: seq<seq<byte>>)
    ensures |r| == n && forall i :: 0 <= i < n ==> r[i] == Deleted()
  {
    seq(n, _ => Deleted())
  }

  function DirEntries(ds: seq<DirEntry>): (r: seq<seq<byte>>)
    requires Fits(ds)
    ensures |r| == DIRENTS
  {
    Blank(DIRENTS - |Place(ds)|) + Place(ds)
  }

  // ---------------------------------------------------------------- building

  lemma LfnPut(us: seq<nat>, e: nat, k: nat, num: byte, sum: byte)
    requires k < 13 && 13 * e + k < |us| && us[13 * e + k] < 65536
    ensures Put(LfnEntry(us[..13 * e + k], e, num, sum), CharOffset(k), LE(us[13 * e + k], 2))
         == LfnEntry(us[..13 * e + k + 1], e, num, sum)
  {
    hide LfnByte, CharOffset, LE;
    var at := CharOffset(k);
    CharInside(k);
    var x, y := Put(LfnEntry(us[..13 * e + k], e, num, sum), at, LE(us[13 * e + k], 2)), LfnEntry(us[..13 * e + k + 1], e, num, sum);
    TwoHalves(us[13 * e + k]);
    forall j | 0 <= j < DIRENT_SIZE ensures x[j] == y[j] { LfnPutByte(us, e, k, num, sum, j); }
  }

  lemma CharInside(k: nat)
    requires k < 13
    ensures CharOffset(k) + 2 <= DIRENT_SIZE
  {
  }

  lemma TwoHalves(u: nat)
    requires u < 65536
    ensures LE(u, 2) == [ByteOfUnit(u, 0), ByteOfUnit(u, 1)]
  {
    assert LE(u / 256, 1) == [u / 256 % 256];
  }

  lemma LfnPutByte(us: seq<nat>, e: nat, k: nat, num: byte, sum: byte, j: nat)
    requires k < 13 && 13 * e + k < |us| && j < DIRENT_SIZE
    ensures LfnByte(us[..13 * e + k + 1], e, num, sum, j) ==
            if j == CharOffset(k) then ByteOfUnit(us[13 * e + k], 0)
            else if j == CharOffset(k) + 1 then ByteOfUnit(us[13 * e + k], 1)
            else LfnByte(us[..13 * e + k], e, num, sum, j)
  {
    hide ByteOfUnit;
  }

  lemma LfnClear(us: seq<nat>, e: nat, num: byte, sum: byte)
    requires |us| <= 13 * e
    ensures LfnEntry(us, e, num, sum)
         == Put(Put(Put(Put(Put(Put(Deleted(), 0, [num]), 1, Fill(10, 0xff)), 11, [LFN_ATTR]), 13, [sum]), 14, Fill(12, 0xff)), 28, Fill(4, 0xff))
  {
  }

  lemma LfnFull(us: seq<nat>, e: nat, n: nat, num: byte, sum: byte)
    requires n <= |us| && (n == |us| || 13 * e + 13 <= n)
    ensures LfnEntry(us[..n], e, num, sum) == LfnEntry(us, e, num, sum)
  {
    if n == |us| { assert us[..n] == us; }
  }

  lemma DosPut(d: DirEntry)
    ensures DosEntry(d) == Put(Put(Put(Put(Put(Deleted(), 0, Fill(11, 0x20)), 11, [d.attr]), 28, LE(d.size, 4)),
                                   20, LE(d.cluster / 65536, 2)), 26, LE(d.cluster % 65536, 2))
  {
  }

  lemma {:induction false} TailAt(d: DirEntry, q: nat, k: nat)
    requires ValidName(d.name) && q <= LfnCount(d.name) && k <= q
    ensures Tail(d, q)[k] == if k == q then DosEntry(d) else LfnPiece(d, q - 1 - k)
  {
    hide DosEntry, LfnPiece;
    if q > 0 && k > 0 { TailAt(d, q - 1, k - 1); }
  }

  method ChecksumOf(s: seq<byte>) returns (c: byte)
    ensures c == Checksum(s)
  {
    c := 0;
    for i := 0 to |s|
      invariant c == Checksum(s[..i])
    {
      c := ((c % 2) * 128 + c / 2 + s[i]) % 256;
      assert s[..i + 1][..i] == s[..i];
    }
    assert s[..|s|] == s;
  }

  /** Slot `s` after the units before `13 * e + k` have been written over `was`. */
  ghost function Expect(was: seq<seq<byte>>, slot: nat, d: DirEntry, e: nat, k: nat, s: nat): seq<byte>
    requires ValidName(d.name) && e < LfnCount(d.name) <= slot < DIRENTS == |was| && s < DIRENTS
    requires 13 * e + k <= |d.name|
  {
    if s == slot then DosEntry(d)
    else if s > slot || s < slot - LfnCount(d.name) then was[s]
    else if s > slot - 1 - e then LfnPiece(d, slot - 1 - s)
    else if s < slot - 1 - e || k == 0 then Deleted()
    else LfnEntry(Units(d.name)[..13 * e + k], e, e + 1, SUM)
  }

  ghost predicate Written(es: seq<seq<byte>>, was: seq<seq<byte>>, slot: nat, d: DirEntry, e: nat, k: nat)
    requires ValidName(d.name) && e < LfnCount(d.name) <= slot < DIRENTS == |was|
    requires 13 * e + k <= |d.name|
  {
    |es| == DIRENTS && forall s :: 0 <= s < DIRENTS ==> es[s] == Expect(was, slot, d, e, k, s)
  }

  /** A record that holds the units of its range below `13 * e + k`: untouched if there are none. */
  ghost predicate Partial(us: seq<nat>, e: nat, k: nat, sum: byte, entry: seq<byte>) {
    entry == if k == 0 then Deleted() else if 13 * e + k <= |us| && e < 64 then LfnEntry(us[..13 * e + k], e, e + 1, sum) else []
  }

  /** One turn of the long-name loop: initialise the record if necessary, then add the character. */
  method AddCharacter(dir: array<seq<byte>>, lfn: nat, ptr: nat, num: byte, sum: byte, c: byte,
                      ghost us: seq<nat>, ghost e: nat, ghost k: nat) returns (num': nat)
    requires lfn < dir.Length && k < 13 && e < 64 && ptr == CharOffset(k) && num == (if k == 0 then e + 1 else e + 2)
    requires 13 * e + k < |us| && us[13 * e + k] == Unit(c) && Partial(us, e, k, sum, dir[lfn])
    modifies dir
    ensures num' == e + 2
    ensures dir[..] == old(dir[..])[lfn := LfnEntry(us[..13 * e + k + 1], e, e + 1, sum)]
  {
    var entry := dir[lfn];
    num' := num;
    if entry[11] != LFN_ATTR {
      entry := Put(Put(Put(entry, 0, [num]), 1, Fill(10, 0xff)), 11, [LFN_ATTR]);
      num' := num + 1;
      entry := Put(Put(Put(entry, 13, [sum]), 14, Fill(12, 0xff)), 28, Fill(4, 0xff));
      assert k == 0;
      LfnClear(us[..13 * e + k], e, num, sum);
    }
    assert entry == LfnEntry(us[..13 * e + k], e, e + 1, sum);
    LfnPut(us, e, k, e + 1, sum);
    dir[lfn] := Put(entry, ptr, LE(Unit(c), 2));
  }

  /** The short record, with its invalid 8.3 name. */
  method ShortRecord(dir: array<seq<byte>>, slot: nat, d: DirEntry)
    requires slot < dir.Length && dir[slot] == Deleted()
    modifies dir
    ensures dir[..] == old(dir[..])[slot := DosEntry(d)]
  {
    hide DosEntry, Deleted, Put, Fill, LE;
    DosPut(d);
    dir[slot] := Put(Put(dir[slot], 0, Fill(11, 0x20)), 11, [d.attr]);
    dir[slot] := Put(dir[slot], 28, LE(d.size, 4));
    dir[slot] := Put(Put(dir[slot], 20, LE(d.cluster / 65536, 2)), 26, LE(d.cluster % 65536, 2));
  }

  lemma WrittenStart(was: seq<seq<byte>>, slot: nat, d: DirEntry)
    requires ValidName(d.name) && LfnCount(d.name) <= slot < DIRENTS == |was|
    requires forall i :: slot - LfnCount(d.name) <= i <= slot ==> was[i] == Deleted()
    ensures Written(was[slot := DosEntry(d)], was, slot, d, 0, 0)
  {
    hide LfnEntry, DosEntry, Deleted, Units;
  }

  lemma WrittenPartial(es: seq<seq<byte>>, was: seq<seq<byte>>, slot: nat, d: DirEntry, e: nat, k: nat)
    requires ValidName(d.name) && e < LfnCount(d.name) <= slot < DIRENTS == |was| == |es|
    requires 13 * e + k <= |d.name| && Written(es, was, slot, d, e, k)
    ensures Partial(Units(d.name), e, k, SUM, es[slot - 1 - e])
    ensures Units(d.name)[13 * e + k] == if 13 * e + k < |d.name| then Unit(d.name[13 * e + k]) else Unit(0)
  {
    hide LfnEntry, DosEntry, Deleted;
  }

  lemma LfnCountIs(name: seq<byte>, e: nat)
    ensures 13 * e <= |name| < 13 * e + 13 <==> LfnCount(name) == e + 1
    ensures 13 * e + 13 <= |name| ==> e + 1 < LfnCount(name)
  {
  }

  /** Writing one more unit moves every slot to what is expected after it. */
  lemma ExpectStep(was: seq<seq<byte>>, slot: nat, d: DirEntry, e: nat, k: nat, s: nat)
    requires ValidName(d.name) && e < LfnCount(d.name) <= slot < DIRENTS == |was| && s < DIRENTS
    requires k < 13 && 13 * e + k < |d.name|
    ensures k == 12 ==> e + 1 < LfnCount(d.name)
    ensures (if k < 12 then Expect(was, slot, d, e, k + 1, s) else Expect(was, slot, d, e + 1, 0, s))
         == if s == slot - 1 - e then LfnEntry(Units(d.name)[..13 * e + k + 1], e, e + 1, SUM) else Expect(was, slot, d, e, k, s)
  {
    hide LfnEntry, DosEntry, Deleted, LfnPiece, LfnCount, Units;
    LfnCountIs(d.name, e);
    if k == 12 {
      LfnFull(Units(d.name), e, 13 * e + 13, e + 1, SUM);
      PieceOf(d, e);
    }
  }

  lemma WrittenStep(es: seq<seq<byte>>, was: seq<seq<byte>>, slot: nat, d: DirEntry, e: nat, k: nat)
    requires ValidName(d.name) && e < LfnCount(d.name) <= slot < DIRENTS == |was|
    requires k < 13 && 13 * e + k < |d.name| && Written(es, was, slot, d, e, k)
    ensures k == 12 ==> e + 1 < LfnCount(d.name)
    ensures
      var es' := es[slot - 1 - e := LfnEntry(Units(d.name)[..13 * e + k + 1], e, e + 1, SUM)];
      if k < 12 then Written(es', was, slot, d, e, k + 1) else Written(es', was, slot, d, e + 1, 0)
  {
    hide LfnEntry, Expect, LfnCount, Units;
    ExpectStep(was, slot, d, e, k, 0);
    var es' := es[slot - 1 - e := LfnEntry(Units(d.name)[..13 * e + k + 1], e, e + 1, SUM)];
    forall s | 0 <= s < DIRENTS
      ensures es'[s] == if k < 12 then Expect(was, slot, d, e, k + 1, s) else Expect(was, slot, d, e + 1, 0, s)
    {
      ExpectStep(was, slot, d, e, k, s);
    }
  }

  lemma ExpectEnd(was: seq<seq<byte>>, slot: nat, d: DirEntry, e: nat, k: nat, s: nat)
    requires ValidName(d.name) && e < LfnCount(d.name) <= slot < DIRENTS == |was| && s < DIRENTS
    requires k < 13 && 13 * e + k == |d.name|
    ensures e + 1 == LfnCount(d.name)
    ensures (was[..slot - LfnCount(d.name)] + Group(d) + was[slot + 1..])[s]
         == if s == slot - 1 - e then LfnPiece(d, e) else Expect(was, slot, d, e, k, s)
  {
    hide LfnEntry, DosEntry, Deleted, LfnPiece, LfnCount, Units, Tail;
    LfnCountIs(d.name, e);
    var n := LfnCount(d.name);
    var lo, hi := was[..slot - n], was[slot + 1..];
    if slot - n <= s <= slot {
      TailAt(d, n, s - (slot - n));
      assert (lo + Group(d) + hi)[s] == Group(d)[s - (slot - n)];
    }
  }

  /** After the terminator is written and the last record is marked, the group is in place. */
  lemma WrittenEnd(es: seq<seq<byte>>, was: seq<seq<byte>>, slot: nat, d: DirEntry, e: nat, k: nat)
    requires ValidName(d.name) && e < LfnCount(d.name) <= slot < DIRENTS == |was|
    requires k < 13 && 13 * e + k == |d.name| && Written(es, was, slot, d, e, k)
    ensures e + 1 == LfnCount(d.name)
    ensures es[slot - 1 - e := LfnPiece(d, e)] == was[..slot - LfnCount(d.name)] + Group(d) + was[slot + 1..]
  {
    ExpectEnd(was, slot, d, e, k, 0);
    hide LfnPiece, Expect, LfnCount, Units, Group;
    var es', group := es[slot - 1 - e := LfnPiece(d, e)], was[..slot - LfnCount(d.name)] + Group(d) + was[slot + 1..];
    forall s | 0 <= s < DIRENTS ensures es'[s] == group[s] { ExpectEnd(was, slot, d, e, k, s); }
    assert |group| == DIRENTS;
  }

  lemma PieceOf(d: DirEntry, q: nat)
    requires ValidName(d.name) && q + 1 < LfnCount(d.name)
    ensures LfnPiece(d, q) == LfnEntry(Units(d.name), q, q + 1, SUM)
  {
  }

  lemma LastPiece(d: DirEntry, e: nat)
    requires ValidName(d.name) && e + 1 == LfnCount(d.name)
    ensures LfnEntry(Units(d.name), e, e + 1, SUM)[0] == e + 1
    ensures Put(LfnEntry(Units(d.name), e, e + 1, SUM), 0, [e + 1 + LFN_END]) == LfnPiece(d, e)
  {
  }

  /** vdisk_directory_entry: fills one short record and its long-name records, walking backwards. */
  method DirectoryEntry(dir: array<seq<byte>>, slot: nat, d: DirEntry) returns (next: int)
    requires dir.Length == DIRENTS && ValidEntry(d) && LfnCount(d.name) <= slot < DIRENTS
    requires forall i :: slot - LfnCount(d.name) <= i <= slot ==> dir[i] == Deleted()
    modifies dir
    ensures next == slot - LfnCount(d.name) - 1
    ensures dir[..] == old(dir[..])[..next + 1] + Group(d) + old(dir[..])[slot + 1..]
  {
    hide LfnEntry, DosEntry, Deleted, LfnPiece, Group, Put, Fill, Units, Partial, Written;
    ghost var was, us := dir[..], Units(d.name);
    ShortRecord(dir, slot, d);
    WrittenStart(was, slot, d);
    var sum := ChecksumOf(Fill(11, 0x20));
    var lfn, ptr, num, i := slot - 1, 1, 1, 0;
    ghost var e, k := 0, 0;
    while true
      invariant i == 13 * e + k && k < 13 && i <= |d.name| && 0 <= e < LfnCount(d.name)
      invariant lfn == slot - 1 - e && ptr == CharOffset(k) && num == if k == 0 then e + 1 else e + 2
      invariant Written(dir[..], was, slot, d, e, k)
      decreases |d.name| - i
    {
      var c := if i < |d.name| then d.name[i] else 0;
      WrittenPartial(dir[..], was, slot, d, e, k);
      if i < |d.name| { WrittenStep(dir[..], was, slot, d, e, k); } else { WrittenEnd(dir[..], was, slot, d, e, k); }
      num := AddCharacter(dir, lfn, ptr, num, sum, c, us, e, k);
      i := i + 1;
      if c == 0 { break; }
      if ptr == 9 {
        ptr, k := 14, k + 1;
      } else if ptr == 24 {
        ptr, k := 28, k + 1;
      } else if ptr == 30 {
        lfn, ptr := lfn - 1, 1;
        e, k := e + 1, 0;
      } else {
        ptr, k := ptr + 2, k + 1;
      }
    }
    LfnFull(us, e, i, e + 1, sum);
    LastPiece(d, e);
    dir[lfn] := Put(dir[lfn], 0, [dir[lfn][0] + LFN_END]);
    next := lfn - 1;
  }

  lemma {:induction false} PlacePrefix(ds: seq<DirEntry>, i: nat)
    requires i <= |ds| && forall k :: 0 <= k < |ds| ==> ValidEntry(ds[k])
    ensures |Place(ds[..i])| <= |Place(ds)|
    decreases |ds|
  {
    hide Group;
    var n := |ds| - 1;
    if i == |ds| {
      assert ds[..i] == ds;
    } else {
      PlacePrefix(ds[..n], i);
      assert ds[..n][..i] == ds[..i];
    }
  }

  lemma PlaceNothing()
    ensures Place([]) == []
  {
  }

  /** Room for the next group, and what the sector is once it is there. */
  lemma PlaceStep(ds: seq<DirEntry>, i: nat, slot: int, es: seq<seq<byte>>)
    requires Fits(ds) && i < |ds| && -1 <= slot == DIRENTS - 1 - |Place(ds[..i])| && es == Blank(slot + 1) + Place(ds[..i])
    ensures ValidEntry(ds[i]) && |Place(ds[..i + 1])| <= DIRENTS
    ensures |Place(ds[..i + 1])| == |Place(ds[..i])| + LfnCount(ds[i].name) + 1
    ensures forall k :: 0 <= k <= slot ==> es[k] == Deleted()
    ensures var next := slot - LfnCount(ds[i].name) - 1;
      es[..next + 1] + Group(ds[i]) + es[slot + 1..] == Blank(next + 1) + Place(ds[..i + 1])
  {
    hide Group, Deleted, LfnCount;
    PlacePrefix(ds, i + 1);
    assert ds[..i + 1][..i] == ds[..i];
    var next := slot - LfnCount(ds[i].name) - 1;
    assert es[..next + 1] == Blank(next + 1);
    assert es[slot + 1..] == Place(ds[..i]);
  }

  /** vdisk_empty_dir followed by one vdisk_directory_entry call for each entry in turn. */
  method BuildDirectory(ds: seq<DirEntry>) returns (dir: array<seq<byte>>)
    requires Fits(ds)
    ensures fresh(dir) && dir[..] == DirEntries(ds)
  {
    hide Group, Deleted, LfnCount, Place;
    dir := new seq<byte>[DIRENTS](_ => Deleted());
    var slot := DIRENTS - 1;
    assert ds[..0] == [] && Place([]) == [] by { PlaceNothing(); }
    assert dir[..] == Blank(DIRENTS) + [];
    for i := 0 to |ds|
      invariant |Place(ds[..i])| <= DIRENTS && slot == DIRENTS - 1 - |Place(ds[..i])|
      invariant dir.Length == DIRENTS && dir[..] == Blank(slot + 1) + Place(ds[..i])
    {
      PlaceStep(ds, i, slot, dir[..]);
      slot := DirectoryEntry(dir, slot, ds[i]);
    }
    assert ds[..|ds|] == ds;
  }

  // ---------------------------------------------------------------- reading
  //
  // A FAT directory reader in the usual forward order, with its own record layout, markers and checksum:
  // it shares no definition with the builder.

  datatype Pending = Nothing | Piece(next: nat, sum: byte, units: seq<nat>)

  datatype Listed = Listed(name: seq<nat>, attr: byte, size: nat, cluster: nat)

  function UnitOf(low: byte, high: byte): nat {
    low + 256 * high
  }

  /** Where a reader finds the characters of a long-name record: five, six and two of them. */
  const CHARACTERS: seq<nat> := [1, 3, 5, 7, 9, 14, 16, 18, 20, 22, 24, 28, 30]

  function PieceUnits(e: seq<byte>): (r: seq<nat>)
    requires |e| == DIRENT_SIZE
    ensures |r| == 13
  {
    seq<nat>(13, k requires 0 <= k < 13 => UnitOf(e[CHARACTERS[k]], e[CHARACTERS[k] + 1]))
  }

  function RotatedRight(c: byte): byte {
    if c % 2 == 1 then 0x80 + (c - 1) / 2 else c / 2
  }

  /** The checksum a reader computes over a short name, from `c` on. */
  function NameSum(c: byte, s: seq<byte>): byte
    decreases |s|
  {
    if s == [] then c
    else
      var sum := RotatedRight(c) + s[0];
      NameSum(if sum < 256 then sum else sum - 256, s[1..])
  }

  lemma SumStep(a: seq<byte>, x: byte)
    ensures var sum := RotatedRight(Checksum(a)) + x; Checksum(a + [x]) == if sum < 256 then sum else sum - 256
  {
    assert (a + [x])[..|a|] == a;
    var c := Checksum(a);
    hide Checksum;
    WrapSum(c, x);
  }

  lemma WrapSum(c: byte, x: byte)
    ensures var sum := RotatedRight(c) + x; (c % 2 * 128 + c / 2 + x) % 256 == if sum < 256 then sum else sum - 256
  {
  }

  lemma {:induction false} SumsAgree(a: seq<byte>, b: seq<byte>)
    ensures NameSum(Checksum(a), b) == Checksum(a + b)
    decreases |b|
  {
    hide Checksum, RotatedRight;
    if b == [] {
      assert a + b == a;
    } else {
      SumStep(a, b[0]);
      SumsAgree(a + [b[0]], b[1..]);
      assert a + [b[0]] + b[1..] == a + b;
    }
  }

  /** The builder's checksum of any short name is the reader's. */
  lemma ChecksumAgrees(s: seq<byte>)
    ensures Checksum(s) == NameSum(0, s)
  {
    SumsAgree([], s);
    assert [] + s == s;
  }

  lemma SpacesStep(n: nat, c: byte, d: byte)
    requires Checksum(Fill(n, 0x20)) == c && d == (c % 2 * 128 + c / 2 + 0x20) % 256
    ensures Checksum(Fill(n + 1, 0x20)) == d
  {
    assert Fill(n + 1, 0x20)[..n] == Fill(n, 0x20);
  }

  /** Every long-name record carries the checksum of eleven spaces. */
  lemma SumOfSpaces()
    ensures SUM == 0xf7
  {
    hide Checksum, Fill;
    NoSpaces();
    SpacesStep(0, 0x00, 0x20);
    SpacesStep(1, 0x20, 0x30);
    SpacesStep(2, 0x30, 0x38);
    SpacesStep(3, 0x38, 0x3c);
    SpacesStep(4, 0x3c, 0x3e);
    SpacesStep(5, 0x3e, 0x3f);
    SpacesStep(6, 0x3f, 0xbf);
    SpacesStep(7, 0xbf, 0xff);
    SpacesStep(8, 0xff, 0x1f);
    SpacesStep(9, 0x1f, 0xaf);
    SpacesStep(10, 0xaf, 0xf7);
  }

  lemma NoSpaces()
    ensures Checksum(Fill(0, 0x20)) == 0
  {
  }

  /** Accept a long-name record: the first has the end flag, the others count down to 1. */
  function Extend(e: seq<byte>, p: Pending): Pending
    requires |e| == DIRENT_SIZE
  {
    if 0x40 < e[0] < 0x80 then Piece(e[0] - 0x41, e[13], PieceUnits(e))
    else if p.Piece? && 0 < e[0] == p.next && e[13] == p.sum then Piece(e[0] - 1, e[13], PieceUnits(e) + p.units)
    else Nothing
  }

  function Cut(us: seq<nat>): seq<nat> {
    if us == [] || us[0] == 0 then [] else [us[0]] + Cut(us[1..])
  }

  function ListedName(e: seq<byte>, p: Pending): seq<nat>
    requires |e| == DIRENT_SIZE
  {
    if p.Piece? && p.next == 0 && p.sum == NameSum(0, e[..11]) then Cut(p.units) else e[..11]
  }

  predicate SizedEntries(es: seq<seq<byte>>) {
    forall i :: 0 <= i < |es| ==> |es[i]| == DIRENT_SIZE
  }

  function Parse(es: seq<seq<byte>>, p: Pending): seq<Listed>
    requires SizedEntries(es)
  {
    if es == [] || es[0][0] == 0 then []
    else
      var e := es[0];
      if e[0] == 0xe5 then Parse(es[1..], Nothing)
      else if e[11] == 0x0f then Parse(es[1..], Extend(e, p))
      else
        [Listed(ListedName(e, p), e[11], FromLE(e[28..32]), FromLE(e[26..28]) + 65536 * FromLE(e[20..22]))]
        + Parse(es[1..], Nothing)
  }

  /** A character of a name as a 16-bit unit: a char is signed, so the upper half is sign-extended. */
  function Character(c: byte): nat {
    if c >= 0x80 then 0x1_0000 - (0x100 - c) else c
  }

  /** What a reader should see for an entry. */
  function ListedOf(d: DirEntry): Listed {
    Listed(seq<nat>(|d.name|, i requires 0 <= i < |d.name| => Character(d.name[i])), d.attr, d.size, d.cluster)
  }

  /** The entries of a sector in the order a reader meets them: last built, first read. */
  function Listing(ds: seq<DirEntry>): seq<Listed> {
    if ds == [] then [] else [ListedOf(ds[|ds| - 1])] + Listing(ds[..|ds| - 1])
  }

  /** The units of records `q` and up, as the reader concatenates them. */
  function UnitsFrom(us: seq<nat>, q: nat, n: nat): (r: seq<nat>)
    requires q <= n
    ensures |r| == 13 * (n - q)
  {
    seq<nat>(13 * (n - q), i requires 0 <= i => UnitAt(us, 13 * q + i))
  }

  lemma {:induction false} TailSized(d: DirEntry, q: nat)
    requires ValidName(d.name) && q <= LfnCount(d.name)
    ensures SizedEntries(Tail(d, q))
  {
    hide LfnPiece, DosEntry, LfnCount;
    if q > 0 { TailSized(d, q - 1); }
  }

  lemma UnitRange(name: seq<byte>, t: nat)
    ensures UnitAt(Units(name), t) < 65536
  {
  }

  lemma CharBytes(us: seq<nat>, e: nat, num: byte, sum: byte, k: nat)
    requires k < 13
    ensures LfnEntry(us, e, num, sum)[CHARACTERS[k]] == ByteOfUnit(UnitAt(us, 13 * e + k), 0)
    ensures LfnEntry(us, e, num, sum)[CHARACTERS[k] + 1] == ByteOfUnit(UnitAt(us, 13 * e + k), 1)
  {
  }

  /** One record gives back its 13 units. */
  lemma PieceUnitsOf(us: seq<nat>, e: nat, num: byte, sum: byte)
    requires forall t :: UnitAt(us, t) < 65536
    ensures PieceUnits(LfnEntry(us, e, num, sum)) == UnitsFrom(us, e, e + 1)
  {
    var entry, got, want := LfnEntry(us, e, num, sum), PieceUnits(LfnEntry(us, e, num, sum)), UnitsFrom(us, e, e + 1);
    forall k | 0 <= k < 13 ensures got[k] == want[k] {
      CharBytes(us, e, num, sum, k);
      assert UnitAt(us, 13 * e + k) < 65536;
    }
  }

  /** The short record is read back exactly. */
  lemma DosFields(d: DirEntry)
    requires ValidEntry(d)
    ensures var e := DosEntry(d);
      && e[0] == 0x20 && e[11] == d.attr && e[..11] == Fill(11, 0x20)
      && FromLE(e[28..32]) == d.size && FromLE(e[26..28]) + 65536 * FromLE(e[20..22]) == d.cluster
  {
    var e := DosEntry(d);
    assert e[28..32] == LE(d.size, 4) && e[26..28] == LE(d.cluster % 65536, 2) && e[20..22] == LE(d.cluster / 65536, 2);
    RangeValues();
    LERoundTrip(d.size, 4);
    LERoundTrip(d.cluster % 65536, 2);
    LERoundTrip(d.cluster / 65536, 2);
  }

  lemma {:induction false} CutUnits(us: seq<nat>, name: seq<nat>)
    requires |name| < |us| && us[..|name|] == name && us[|name|] == 0 && 0 !in name
    ensures Cut(us) == name
  {
    if name != [] {
      assert us[0] == name[0] && us[0] in name;
      CutUnits(us[1..], name[1..]);
    }
  }

  lemma NameUnits(d: DirEntry)
    requires ValidEntry(d)
    ensures Cut(UnitsFrom(Units(d.name), 0, LfnCount(d.name))) == ListedOf(d).name
  {
    var us, name := UnitsFrom(Units(d.name), 0, LfnCount(d.name)), ListedOf(d).name;
    LfnCountIs(d.name, LfnCount(d.name) - 1);
    forall i | 0 <= i <= |name| ensures us[i] == if i < |name| then Unit(d.name[i]) else 0 {
      assert us[i] == UnitAt(Units(d.name), i);
    }
    CutUnits(us, name);
  }

  /** The reader, after records `q` and up, reads the rest of the group. */
  lemma {:induction false} ParseTail(d: DirEntry, q: nat, rest: seq<seq<byte>>)
    requires ValidEntry(d) && q < LfnCount(d.name) && SizedEntries(rest)
    ensures SizedEntries(Tail(d, q) + rest)
    ensures Parse(Tail(d, q) + rest, Piece(q, SUM, UnitsFrom(Units(d.name), q, LfnCount(d.name))))
         == [ListedOf(d)] + Parse(rest, Nothing)
  {
    if q == 0 {
      ParseLast(d, rest);
    } else {
      hide DosEntry, LfnPiece, LfnCount, LfnEntry;
      TailSized(d, q);
      var all := Tail(d, q) + rest;
      var p := Piece(q, SUM, UnitsFrom(Units(d.name), q, LfnCount(d.name)));
      assert all[0] == Tail(d, q)[0];
      ParseTail(d, q - 1, rest);
      assert all[1..] == Tail(d, q - 1) + rest;
      ExtendPiece(d, q - 1, p);
    }
  }

  lemma ParseLast(d: DirEntry, rest: seq<seq<byte>>)
    requires ValidEntry(d) && 0 < LfnCount(d.name) && SizedEntries(rest)
    ensures SizedEntries(Tail(d, 0) + rest)
    ensures Parse(Tail(d, 0) + rest, Piece(0, SUM, UnitsFrom(Units(d.name), 0, LfnCount(d.name))))
         == [ListedOf(d)] + Parse(rest, Nothing)
  {
    hide DosEntry, Units, UnitsFrom, Cut, LfnCount, NameSum, Checksum;
    TailSized(d, 0);
    ChecksumAgrees(Fill(11, 0x20));
    var all := Tail(d, 0) + rest;
    assert all[0] == Tail(d, 0)[0];
    DosFields(d);
    NameUnits(d);
    assert all[1..] == rest;
  }

  lemma ExtendPiece(d: DirEntry, q: nat, p: Pending)
    requires ValidName(d.name) && q < LfnCount(d.name)
    requires q + 1 < LfnCount(d.name) ==> p == Piece(q + 1, SUM, UnitsFrom(Units(d.name), q + 1, LfnCount(d.name)))
    ensures var e := LfnPiece(d, q); e[0] != 0 && e[0] != DELETED && e[11] == LFN_ATTR
    ensures Extend(LfnPiece(d, q), p) == Piece(q, SUM, UnitsFrom(Units(d.name), q, LfnCount(d.name)))
  {
    var us, n := Units(d.name), LfnCount(d.name);
    forall t ensures UnitAt(us, t) < 65536 { UnitRange(d.name, t); }
    PieceUnitsOf(us, q, if q + 1 == n then q + 1 + LFN_END else q + 1, SUM);
    assert UnitsFrom(us, q, q + 1) + UnitsFrom(us, q + 1, n) == UnitsFrom(us, q, n);
  }

  lemma ParseGroup(d: DirEntry, rest: seq<seq<byte>>)
    requires ValidEntry(d) && SizedEntries(rest)
    ensures SizedEntries(Group(d) + rest)
    ensures Parse(Group(d) + rest, Nothing) == [ListedOf(d)] + Parse(rest, Nothing)
  {
    hide LfnPiece, DosEntry, LfnCount, LfnEntry;
    var n := LfnCount(d.name);
    TailSized(d, n);
    ParseTail(d, n - 1, rest);
    ExtendPiece(d, n - 1, Nothing);
    var all := Group(d) + rest;
    assert all[0] == LfnPiece(d, n - 1) && all[1..] == Tail(d, n - 1) + rest;
  }

  lemma Regroup<T>(a: seq<T>, b: seq<T>, c: seq<T>)
    ensures a + b + c == a + (b + c)
  {
  }

  lemma {:induction false} ParsePlace(ds: seq<DirEntry>, rest: seq<seq<byte>>)
    requires SizedEntries(rest) && forall i :: 0 <= i < |ds| ==> ValidEntry(ds[i])
    ensures SizedEntries(Place(ds) + rest) && Parse(Place(ds) + rest, Nothing) == Listing(ds) + Parse(rest, Nothing)
  {
    hide Group, Parse, LfnCount, ListedOf, SizedEntries;
    if ds == [] {
      assert Place(ds) + rest == rest && Listing(ds) + Parse(rest, Nothing) == Parse(rest, Nothing);
    } else {
      var d, more := ds[|ds| - 1], ds[..|ds| - 1];
      assert ValidEntry(d);
      ParsePlace(more, rest);
      ParseGroup(d, Place(more) + rest);
      Regroup(Group(d), Place(more), rest);
      Regroup([ListedOf(d)], Listing(more), Parse(rest, Nothing));
    }
  }

  lemma {:induction false} ParseBlank(n: nat, rest: seq<seq<byte>>)
    requires SizedEntries(rest)
    ensures SizedEntries(Blank(n) + rest) && Parse(Blank(n) + rest, Nothing) == Parse(rest, Nothing)
  {
    if n == 0 {
      assert Blank(0) + rest == rest;
    } else {
      ParseBlank(n - 1, rest);
      assert (Blank(n) + rest)[1..] == Blank(n - 1) + rest;
    }
  }

  /** Reading a directory sector gives back every name, attribute, size and start cluster that was built into it. */
  lemma DirectoryRoundTrip(ds: seq<DirEntry>)
    requires Fits(ds)
    ensures SizedEntries(DirEntries(ds)) && Parse(DirEntries(ds), Nothing) == Listing(ds)
  {
    DirectoryThen(ds, []);
    assert DirEntries(ds) + [] == DirEntries(ds) && Listing(ds) + [] == Listing(ds);
  }

  /** Whatever follows a directory sector is read as if it stood alone. */
  lemma DirectoryThen(ds: seq<DirEntry>, rest: seq<seq<byte>>)
    requires Fits(ds) && SizedEntries(rest)
    ensures SizedEntries(DirEntries(ds) + rest) && Parse(DirEntries(ds) + rest, Nothing) == Listing(ds) + Parse(rest, Nothing)
  {
    hide Parse, Place, Blank;
    ParsePlace(ds, rest);
    ParseBlank(DIRENTS - |Place(ds)|, Place(ds) + rest);
    assert DirEntries(ds) + rest == Blank(DIRENTS - |Place(ds)|) + (Place(ds) + rest);
  }
}
