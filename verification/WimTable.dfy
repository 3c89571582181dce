/** Writing a WIM lookup table and header: what is counted and found in them (src/wim.c, src/wim.h). */
module WimTable {
  import opened Bytes
  import opened Wim
  import opened WimDir
  import opened WimPatch

  // ---------------------------------------------------------------- lookup tables

  datatype Entry = Entry(res: Resource, part: nat, refs: nat, hash: seq<byte>)

  predicate ValidEntry(e: Entry) {
    ValidResource(e.res) && |e.hash| == 20
  }

  predicate ValidEntries(es: seq<Entry>) {
    forall i :: 0 <= i < |es| ==> ValidEntry(es[i])
  }

  /** Resource, part number, reference count and hash: 50 bytes. */
  function EntryBytes(e: Entry): (r: seq<byte>)
    requires ValidEntry(e)
    ensures |r| == 50
  {
    ResourceBytes(e.res) + LE(e.part, 2) + LE(e.refs, 4) + e.hash
  }

  function TableBytes(es: seq<Entry>): (r: seq<byte>)
    requires ValidEntries(es)
    ensures |r| == 50 * |es|
  {
    if es == [] then [] else EntryBytes(es[0]) + TableBytes(es[1..])
  }

  /** The entries that describe images. */
  function Images(es: seq<Entry>): seq<Resource> {
    if es == [] then []
    else if IsMetadata(es[0].res) then [es[0].res] + Images(es[1..])
    else Images(es[1..])
  }

  /** The first entry with the hash. */
  function WithHash(es: seq<Entry>, hash: seq<byte>): Option<Resource> {
    if es == [] then None
    else if es[0].hash == hash then Some(es[0].res)
    else WithHash(es[1..], hash)
  }

  /** What is read of an entry at its place in the table. */
  lemma EntryRead(pre: seq<byte>, es: seq<Entry>)
    requires ValidEntries(es) && es != []
    ensures var t := pre + TableBytes(es);
            && Get(ReadingSeq(t), |pre|, ENTRY_LEN) == Some(EntryBytes(es[0]))
            && t == (pre + EntryBytes(es[0])) + TableBytes(es[1..])
    ensures ResourceAt(EntryBytes(es[0]), 0) == es[0].res && EntryBytes(es[0])[30..50] == es[0].hash
  {
    hide EntryBytes, ResourceAt;
    var t, e, rest := pre + TableBytes(es), EntryBytes(es[0]), TableBytes(es[1..]);
    Between(pre, e, rest);
    EntryFields(es[0]);
  }

  lemma Between(pre: seq<byte>, e: seq<byte>, rest: seq<byte>)
    ensures pre + (e + rest) == (pre + e) + rest && (pre + (e + rest))[|pre|..|pre| + |e|] == e
  {
  }

  lemma EntryFields(x: Entry)
    requires ValidEntry(x)
    ensures ResourceAt(EntryBytes(x), 0) == x.res && EntryBytes(x)[30..50] == x.hash
  {
    hide LE, ResourceBytes, ResourceAt;
    var e := EntryBytes(x);
    assert e[0..24] == ResourceBytes(x.res);
    ResourceRoundTrip(x.res, e, 0);
  }

  /** Counting the images of a table. */
  lemma {:induction false} CountsImages(pre: seq<byte>, es: seq<Entry>)
    requires ValidEntries(es)
    ensures var t := pre + TableBytes(es); CountImages(ReadingSeq(t), |t|, |pre|) == Some(|Images(es)|)
    decreases |es|
  {
    hide EntryBytes, IsMetadata, ResourceAt, ReadingSeq, Get;
    if es != [] {
      EntryRead(pre, es);
      CountsImages(pre + EntryBytes(es[0]), es[1..]);
    }
  }

  /** The metadata of the image with an index, counted from one. */
  lemma {:induction false} FindsImage(pre: seq<byte>, es: seq<Entry>, index: nat)
    requires ValidEntries(es) && index > 0
    ensures var t := pre + TableBytes(es);
            FindMetadata(ReadingSeq(t), |t|, |pre|, index) == if index <= |Images(es)| then Some(Images(es)[index - 1]) else None
    decreases |es|
  {
    hide EntryBytes, IsMetadata, ResourceAt, ReadingSeq, Get;
    if es != [] {
      EntryRead(pre, es);
      if IsMetadata(es[0].res) {
        if index > 1 { FindsImage(pre + EntryBytes(es[0]), es[1..], index - 1); }
      } else {
        FindsImage(pre + EntryBytes(es[0]), es[1..], index);
      }
    }
  }

  /** The resource of the first entry with a hash. */
  lemma {:induction false} FindsHash(pre: seq<byte>, es: seq<Entry>, hash: seq<byte>)
    requires ValidEntries(es)
    ensures var t := pre + TableBytes(es); FindHash(ReadingSeq(t), |t|, |pre|, hash) == WithHash(es, hash)
    decreases |es|
  {
    hide EntryBytes, ResourceAt, ReadingSeq, Get;
    if es != [] {
      EntryRead(pre, es);
      FindsHash(pre + EntryBytes(es[0]), es[1..], hash);
    }
  }

  /** In a whole table: the number of images, each of them by its index, and files by their hash. */
  lemma TableRead(es: seq<Entry>, index: nat, hash: seq<byte>)
    requires ValidEntries(es) && index > 0
    ensures var t := TableBytes(es); var rd := ReadingSeq(t);
            && CountImages(rd, |t|, 0) == Some(|Images(es)|)
            && FindMetadata(rd, |t|, 0, index) == (if index <= |Images(es)| then Some(Images(es)[index - 1]) else None)
            && FindHash(rd, |t|, 0, hash) == WithHash(es, hash)
  {
    hide TableBytes, CountImages, FindMetadata, FindHash, ReadingSeq;
    CountsImages([], es);
    FindsImage([], es, index);
    FindsHash([], es, hash);
    assert [] + TableBytes(es) == TableBytes(es);
  }

  // ---------------------------------------------------------------- headers

  /** The fields of a WIM header in order: those before the flags, up to the image count, and around the resources. */
  function FileHeader(start: seq<byte>, flags: nat, chunks: seq<byte>, images: nat, lookup: Resource, xml: seq<byte>, boot: Resource,
                      bootIndex: nat, end: seq<byte>): (r: seq<byte>)
    requires |start| == 16 && |chunks| == 24 && |xml| == 24 && |end| == 84
    ensures |r| == 208
  {
    start + LE(flags, 4) + chunks + LE(images, 4) + ResourceBytes(lookup) + xml + ResourceBytes(boot) + LE(bootIndex, 4) + end
  }

  /** The fields that are read from such a header, and the decompressor that its flags choose. */
  lemma HeaderRead(start: seq<byte>, flags: nat, chunks: seq<byte>, images: nat, lookup: Resource, xml: seq<byte>, boot: Resource,
                   bootIndex: nat, end: seq<byte>)
    requires |start| == 16 && |chunks| == 24 && |xml| == 24 && |end| == 84 && ValidResource(lookup) && ValidResource(boot)
    requires flags < 0x1_0000_0000 && images < 0x1_0000_0000 && bootIndex < 0x1_0000_0000
    ensures var b := FileHeader(start, flags, chunks, images, lookup, xml, boot, bootIndex, end); var h := HeaderAt(b);
            && h.raw == b && h.images == images && h.lookup == lookup && h.boot == boot && h.bootIndex == bootIndex
            && CodecIn(h) == CodecOf(flags)
  {
    hide LE, FromLE, ResourceBytes, ResourceAt, CodecOf;
    var b := FileHeader(start, flags, chunks, images, lookup, xml, boot, bootIndex, end);
    RangeValues();
    LERoundTrip(flags, 4);
    LERoundTrip(images, 4);
    LERoundTrip(bootIndex, 4);
    assert b[16..20] == LE(flags, 4) && b[44..48] == LE(images, 4) && b[120..124] == LE(bootIndex, 4);
    assert b[48..48 + 24] == ResourceBytes(lookup) && b[96..96 + 24] == ResourceBytes(boot);
    ResourceRoundTrip(lookup, b, 48);
    ResourceRoundTrip(boot, b, 96);
  }
}
