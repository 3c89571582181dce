/** The PE base relocation table (src/elf2efi.c). */
module PeReloc {
  import opened Bytes

  const PAGE := 0x1000
  const RVAS := 0x1_0000_0000
  const LONGS := 0x1_0000_0000_0000_0000

  /** A relocation: a 32-bit address and a relocation type. */
  datatype Reloc = Reloc(rva: nat, kind: nat)

  /** A page of relocations; those past `used` are spare room. */
  datatype Page = Page(start: nat, used: nat, relocs: seq<nat>)

  /** Room comes in even numbers, and unused room is zero. */
  predicate ValidPage(p: Page) {
    && p.used <= |p.relocs| && |p.relocs| % 2 == 0 && p.start < LONGS
    && (forall i :: 0 <= i < |p.relocs| ==> p.relocs[i] < 0x1_0000)
    && (forall i :: p.used <= i < |p.relocs| ==> p.relocs[i] == 0)
  }

  ghost predicate Valid(pages: seq<Page>) {
    forall i :: 0 <= i < |pages| ==> ValidPage(pages[i])
  }

  /** No page has two blocks. */
  ghost predicate Distinct(pages: seq<Page>) {
    forall i, j :: 0 <= i < j < |pages| ==> pages[i].start != pages[j].start
  }

  /** The relocation an entry of a page denotes. */
  function Meaning(start: nat, entry: nat): Reloc {
    Reloc((start + entry % 4096) % 0x1_0000_0000, entry / 4096)
  }

  function Meanings(start: nat, entries: seq<nat>): (r: seq<Reloc>)
    ensures |r| == |entries|
  {
    seq(|entries|, (i: int) requires 0 <= i < |entries| => Meaning(start, entries[i]))
  }

  function PageRelocs(p: Page): seq<Reloc>
    requires p.used <= |p.relocs|
  {
    Meanings(p.start, p.relocs[..p.used])
  }

  /** All relocations in the table. */
  function Contents(pages: seq<Page>): seq<Reloc>
    requires Valid(pages)
  {
    if pages == [] then [] else PageRelocs(pages[0]) + Contents(pages[1..])
  }

  // Insertion

  /** The type for a relocation of `size` bytes. */
  function Kind(size: nat): Option<nat> {
    if size == 8 then Some(10) else if size == 4 then Some(3) else if size == 2 then Some(2) else None
  }

  function Zeroes(n: nat): (r: seq<nat>)
    ensures |r| == n && forall i :: 0 <= i < n ==> r[i] == 0
  {
    seq<nat>(n, (i: int) requires 0 <= i => 0)
  }

  /** A full page gets room for 256 entries, or twice the room it had. */
  function Grown(p: Page): Page
    requires p.used <= |p.relocs|
  {
    if p.used < |p.relocs| then p else
      var total := if |p.relocs| > 0 then 2 * |p.relocs| else 256;
      p.(relocs := p.relocs[..p.used] + Zeroes(total - p.used))
  }

  function Stored(p: Page, entry: nat): Page
    requires p.used <= |p.relocs|
  {
    var g := Grown(p);
    g.(used := g.used + 1, relocs := g.relocs[g.used := entry])
  }

  lemma StoredFacts(p: Page, entry: nat)
    requires ValidPage(p) && entry < 0x1_0000
    ensures ValidPage(Stored(p, entry)) && Stored(p, entry).start == p.start
    ensures PageRelocs(Stored(p, entry)) == PageRelocs(p) + [Meaning(p.start, entry)]
  {
    var g := Grown(p);
    assert ValidPage(g) && g.used < |g.relocs| && g.relocs[..g.used] == p.relocs[..p.used];
    var s := Stored(p, entry);
    assert s.relocs[..s.used] == p.relocs[..p.used] + [entry];
  }

  /** Index of the page that starts at `start`, or the number of pages. */
  function Find(pages: seq<Page>, start: nat): (k: nat)
    ensures k <= |pages| && (k < |pages| ==> pages[k].start == start)
    ensures forall i :: 0 <= i < k ==> pages[i].start != start
  {
    if pages == [] || pages[0].start == start then 0 else 1 + Find(pages[1..], start)
  }

  /** The table after one insertion: a new page goes in front. */
  function Insert(pages: seq<Page>, start: nat, entry: nat): seq<Page>
    requires Valid(pages)
  {
    var k := Find(pages, start);
    if k < |pages| then pages[k := Stored(pages[k], entry)] else [Stored(Page(start, 0, []), entry)] + pages
  }

  lemma {:induction false} ContentsUpdate(pages: seq<Page>, k: nat, p: Page, x: Reloc)
    requires Valid(pages) && k < |pages| && ValidPage(p) && PageRelocs(p) == PageRelocs(pages[k]) + [x]
    ensures Valid(pages[k := p])
    ensures multiset(Contents(pages[k := p])) == multiset(Contents(pages)) + multiset{x}
  {
    var after := pages[k := p];
    if k == 0 {
      assert after[1..] == pages[1..];
    } else {
      ContentsUpdate(pages[1..], k - 1, p, x);
      assert after[1..] == pages[1..][k - 1 := p];
    }
  }

  lemma InsertAddsEntry(pages: seq<Page>, start: nat, entry: nat)
    requires Valid(pages) && start < LONGS && entry < 0x1_0000
    ensures var after := Insert(pages, start, entry);
            Valid(after) && multiset(Contents(after)) == multiset(Contents(pages)) + multiset{Meaning(start, entry)}
  {
    hide Meaning, Meanings, Stored;
    var k := Find(pages, start);
    if k < |pages| {
      StoredFacts(pages[k], entry);
      ContentsUpdate(pages, k, Stored(pages[k], entry), Meaning(start, entry));
    } else {
      var p := EmptyPage(start);
      StoredFacts(p, entry);
      assert ([Stored(p, entry)] + pages)[1..] == pages;
    }
  }

  function EmptyPage(start: nat): (p: Page)
    requires start < LONGS
    ensures ValidPage(p) && PageRelocs(p) == []
  {
    Page(start, 0, [])
  }

  lemma InsertDistinct(pages: seq<Page>, start: nat, entry: nat)
    requires Valid(pages) && Distinct(pages)
    ensures Distinct(Insert(pages, start, entry))
  {
    assert forall p: Page | p.used <= |p.relocs| :: Stored(p, entry).start == p.start;
    hide Stored;
  }

  /** An insertion adds exactly its own relocation and keeps pages distinct. */
  lemma InsertAdds(pages: seq<Page>, rva: nat, kind: nat)
    requires Valid(pages) && Distinct(pages) && rva < LONGS && kind < 16
    ensures var after := Insert(pages, rva / PAGE * PAGE, rva % PAGE + kind * PAGE);
            && Valid(after) && Distinct(after)
            && multiset(Contents(after)) == multiset(Contents(pages)) + multiset{Reloc(rva % RVAS, kind)}
  {
    hide Insert, Contents, Valid, Distinct;
    EntryParts(rva, kind);
    InsertAddsEntry(pages, rva / PAGE * PAGE, rva % PAGE + kind * PAGE);
    InsertDistinct(pages, rva / PAGE * PAGE, rva % PAGE + kind * PAGE);
  }

  lemma EntryParts(rva: nat, kind: nat)
    requires kind < 16
    ensures var entry := rva % PAGE + kind * PAGE;
            entry < 0x1_0000 && entry % PAGE == rva % PAGE && entry / PAGE == kind && rva / PAGE * PAGE + entry % PAGE == rva
  {
  }

  // Runs

  /** A relocation of `size` bytes at an address. */
  datatype Request = Request(rva: nat, size: nat)

  /** A call of generate_pe_reloc with a supported size. */
  type Call = c: Request | c.rva < LONGS && (c.size == 8 || c.size == 4 || c.size == 2) witness Request(0, 8)

  function InsertCall(pages: seq<Page>, c: Call): (r: seq<Page>)
    requires Valid(pages)
    ensures Valid(r)
  {
    InsertValid(pages, c.rva, Kind(c.size).value);
    Insert(pages, c.rva / PAGE * PAGE, c.rva % PAGE + Kind(c.size).value * PAGE)
  }

  lemma InsertValid(pages: seq<Page>, rva: nat, kind: nat)
    requires Valid(pages) && rva < LONGS && kind < 16
    ensures Valid(Insert(pages, rva / PAGE * PAGE, rva % PAGE + kind * PAGE))
  {
    hide Insert, Contents, Valid;
    EntryParts(rva, kind);
    InsertAddsEntry(pages, rva / PAGE * PAGE, rva % PAGE + kind * PAGE);
  }

  function Built(calls: seq<Call>): (pages: seq<Page>)
    ensures Valid(pages)
  {
    if calls == [] then [] else
      var n := |calls| - 1;
      InsertCall(Built(calls[..n]), calls[n])
  }

  /** The relocation a call asks for in the terms of the PE format: DIR64, HIGHLOW or LOW at a 32-bit address. */
  function Wanted(c: Call): Reloc {
    Reloc(c.rva % 0x1_0000_0000, match c.size case 8 => 10 case 4 => 3 case _ => 2)
  }

  function Asked(calls: seq<Call>): seq<Reloc>
  {
    seq(|calls|, (i: int) requires 0 <= i < |calls| => Wanted(calls[i]))
  }

  /** However the calls are ordered, the table holds exactly what they asked for. */
  lemma {:induction false} BuiltHolds(calls: seq<Call>)
    ensures multiset(Contents(Built(calls))) == multiset(Asked(calls)) && Distinct(Built(calls))
  {
    hide Insert, Contents, Valid, Distinct;
    if calls == [] {
      NothingBuilt();
    } else {
      var n := |calls| - 1;
      BuiltHolds(calls[..n]);
      InsertAdds(Built(calls[..n]), calls[n].rva, Kind(calls[n].size).value);
      assert Asked(calls) == Asked(calls[..n]) + [Wanted(calls[n])];
    }
  }

  lemma NothingBuilt()
    ensures Valid([]) && Contents([]) == [] && Distinct([])
  {
  }

  // The binary table

  function EntryBytes(es: seq<nat>): (r: seq<byte>)
    ensures |r| == 2 * |es|
  {
    if es == [] then [] else LE(es[0], 2) + EntryBytes(es[1..])
  }

  /** Entries written for a page: an odd number is padded with an unused one. */
  function Rounded(p: Page): (n: nat)
    ensures p.used <= n <= p.used + 1 && n % 2 == 0
  {
    (p.used + 1) / 2 * 2
  }

  lemma RoundedFits(p: Page)
    requires ValidPage(p)
    ensures Rounded(p) <= |p.relocs|
  {
  }

  function Written(p: Page): (es: seq<nat>)
    requires ValidPage(p)
    ensures |es| == Rounded(p)
  {
    RoundedFits(p);
    p.relocs[..Rounded(p)]
  }

  function PageBytes(p: Page): (r: seq<byte>)
    requires ValidPage(p)
    ensures |r| == 8 + 2 * Rounded(p)
  {
    LE(p.start % RVAS, 4) + LE((8 + 2 * Rounded(p)) % RVAS, 4) + EntryBytes(Written(p))
  }

  function TableBytes(pages: seq<Page>): seq<byte>
    requires Valid(pages)
  {
    if pages == [] then [] else PageBytes(pages[0]) + TableBytes(pages[1..])
  }

  // Reading a binary table

  datatype Block = Block(page: nat, entries: seq<nat>)

  function DecodeEntries(b: seq<byte>): seq<nat>
    requires |b| % 2 == 0
  {
    if b == [] then [] else [FromLE(b[..2])] + DecodeEntries(b[2..])
  }

  /** The blocks of a table, each with its page, its size and its entries. */
  function Decode(b: seq<byte>): Option<seq<Block>> {
    if b == [] then Some([])
    else if |b| < 8 then None
    else
      var page, size := FromLE(b[..4]), FromLE(b[4..8]);
      if size < 8 || size > |b| || size % 2 != 0 then None
      else
        var rest := Decode(b[size..]);
        if rest.None? then None else Some([Block(page, DecodeEntries(b[8..size]))] + rest.value)
  }

  function Relocs(blocks: seq<Block>): seq<Reloc> {
    if blocks == [] then [] else Meanings(blocks[0].page, blocks[0].entries) + Relocs(blocks[1..])
  }

  function BlockOf(p: Page): Block
    requires ValidPage(p)
  {
    Block(p.start % RVAS, Written(p))
  }

  function BlocksOf(pages: seq<Page>): (r: seq<Block>)
    requires Valid(pages)
    ensures |r| == |pages|
  {
    if pages == [] then [] else [BlockOf(pages[0])] + BlocksOf(pages[1..])
  }

  lemma {:induction false} EntriesRoundTrip(es: seq<nat>)
    requires forall i :: 0 <= i < |es| ==> es[i] < 0x1_0000
    ensures DecodeEntries(EntryBytes(es)) == es
  {
    hide LE, FromLE;
    if es != [] {
      var b := EntryBytes(es);
      RangeValues();
      LERoundTrip(es[0], 2);
      assert b[..2] == LE(es[0], 2) && b[2..] == EntryBytes(es[1..]);
      EntriesRoundTrip(es[1..]);
    }
  }

  /** A page's block is small enough for its size field. */
  predicate Small(p: Page) {
    8 + 2 * Rounded(p) < RVAS
  }

  lemma PageParts(p: Page, rest: seq<byte>)
    requires ValidPage(p) && Small(p)
    ensures var b, size := PageBytes(p) + rest, 8 + 2 * Rounded(p);
            && size <= |b| && FromLE(b[..4]) == p.start % RVAS && FromLE(b[4..8]) == size
            && b[8..size] == EntryBytes(Written(p)) && b[size..] == rest
  {
    hide LE, FromLE, EntryBytes, Range, Written;
    var b := PageBytes(p) + rest;
    RangeValues();
    LERoundTrip(p.start % RVAS, 4);
    LERoundTrip(8 + 2 * Rounded(p), 4);
    assert b[..4] == LE(p.start % RVAS, 4) && b[4..8] == LE(8 + 2 * Rounded(p), 4);
  }

  /** Reading the table gives back one block per page, with the page's entries in order. */
  lemma {:induction false} TableRoundTrip(pages: seq<Page>)
    requires Valid(pages) && forall i :: 0 <= i < |pages| ==> Small(pages[i])
    ensures Decode(TableBytes(pages)) == Some(BlocksOf(pages))
  {
    hide PageBytes, Written, DecodeEntries, EntryBytes, FromLE, Rounded;
    if pages != [] {
      var p, rest := pages[0], TableBytes(pages[1..]);
      TableRoundTrip(pages[1..]);
      PageParts(p, rest);
      WrittenRoundTrip(p);
      EvenBlock(p);
    }
  }

  lemma WrittenRoundTrip(p: Page)
    requires ValidPage(p)
    ensures DecodeEntries(EntryBytes(Written(p))) == Written(p)
  {
    EntriesRoundTrip(Written(p));
  }

  /** Blocks are multiples of four bytes. */
  lemma EvenBlock(p: Page)
    requires ValidPage(p)
    ensures (8 + 2 * Rounded(p)) % 2 == 0 && |PageBytes(p)| % 4 == 0
  {
    hide PageBytes, Rounded;
    FourBytes(Rounded(p));
  }

  lemma FourBytes(n: nat)
    requires n % 2 == 0
    ensures (8 + 2 * n) % 2 == 0 && (8 + 2 * n) % 4 == 0
  {
    var k := n / 2;
    assert 8 + 2 * n == 4 * (k + 2);
  }

  /** At most one unused entry per page. */
  function Pads(pages: seq<Page>): (r: seq<Reloc>)
    ensures |r| <= |pages| && forall i :: 0 <= i < |r| ==> r[i].kind == 0
  {
    if pages == [] then []
    else (if pages[0].used % 2 == 1 then [Reloc(pages[0].start % RVAS, 0)] else []) + Pads(pages[1..])
  }

  lemma MeaningTruncated(start: nat, entry: nat)
    ensures Meaning(start % RVAS, entry) == Meaning(start, entry)
  {
    var q := start / RVAS;
    assert start + entry % PAGE == q * RVAS + (start % RVAS + entry % PAGE);
  }

  lemma PadMeaning(p: Page)
    requires ValidPage(p)
    ensures Meanings(p.start % RVAS, Written(p)) == PageRelocs(p) + Pads([p])
  {
    var es := Written(p);
    forall i | 0 <= i < |es| ensures Meaning(p.start % RVAS, es[i]) == Meaning(p.start, es[i]) {
      MeaningTruncated(p.start, es[i]);
    }
    if p.used % 2 == 1 {
      assert Meaning(p.start, 0) == Reloc(p.start % RVAS, 0);
    }
  }

  /** The relocations in the blocks are the table's own and the unused entries. */
  lemma {:induction false} BlocksHold(pages: seq<Page>)
    requires Valid(pages)
    ensures multiset(Relocs(BlocksOf(pages))) == multiset(Contents(pages)) + multiset(Pads(pages))
  {
    hide Meanings, Written, ValidPage, PageRelocs;
    if pages != [] {
      BlocksHold(pages[1..]);
      PadMeaning(pages[0]);
      assert Pads(pages) == Pads([pages[0]]) + Pads(pages[1..]);
      assert BlocksOf(pages)[1..] == BlocksOf(pages[1..]);
    }
  }

  /** Whatever calls built the table, its bytes hold exactly what they asked for, and at most one unused entry per page. */
  lemma RelocsRoundTrip(calls: seq<Call>)
    requires |calls| < 0x7fff_fff0
    ensures var pages := Built(calls);
            && Decode(TableBytes(pages)) == Some(BlocksOf(pages))
            && multiset(Relocs(BlocksOf(pages))) == multiset(Asked(calls)) + multiset(Pads(pages))
            && Distinct(pages)
  {
    hide Contents, Valid, Distinct, TableBytes, BlocksOf, Pads, Relocs, Decode;
    BuiltHolds(calls);
    BuiltSmall(calls);
    TableRoundTrip(Built(calls));
    BlocksHold(Built(calls));
  }

  lemma BuiltSmall(calls: seq<Call>)
    requires |calls| < 0x7fff_fff0
    ensures forall i :: 0 <= i < |Built(calls)| ==> Small(Built(calls)[i])
  {
    forall i | 0 <= i < |Built(calls)| ensures Small(Built(calls)[i]) {
      BuiltUsed(calls, i);
    }
  }

  lemma {:induction false} BuiltUsed(calls: seq<Call>, i: nat)
    requires i < |Built(calls)|
    ensures Built(calls)[i].used <= |calls|
  {
    if calls != [] {
      var n := |calls| - 1;
      var pages, c := Built(calls[..n]), calls[n];
      var k := Find(pages, c.rva / PAGE * PAGE);
      if k == |pages| {
        if i > 0 { BuiltUsed(calls[..n], i - 1); }
      } else {
        BuiltUsed(calls[..n], i);
      }
    }
  }

  // Moving the image base

  /** update_image_base: unsigned subtraction from every page. */
  function Rebased(p: Page, base: nat): Page {
    p.(start := (p.start - base) % LONGS)
  }

  function Rebase(pages: seq<Page>, base: nat): (r: seq<Page>)
    ensures |r| == |pages|
  {
    seq(|pages|, (i: int) requires 0 <= i < |pages| => Rebased(pages[i], base))
  }

  function Moved(x: Reloc, base: nat): Reloc {
    x.(rva := (x.rva - base) % RVAS)
  }

  function MovedAll(xs: seq<Reloc>, base: nat): (r: seq<Reloc>)
    ensures |r| == |xs|
  {
    seq(|xs|, (i: int) requires 0 <= i < |xs| => Moved(xs[i], base))
  }

  lemma MeaningMoved(start: nat, entry: nat, base: nat)
    ensures Meaning((start - base) % LONGS, entry) == Moved(Meaning(start, entry), base)
  {
    var off := entry % PAGE;
    var d := start - base;
    var a, b := d / LONGS, (start + off) / RVAS;
    assert d % LONGS + off == d + off - a * LONGS;
    assert (start + off) % RVAS - base == d + off - b * RVAS;
    SameMod(d + off, -a * 0x1_0000_0000);
    SameMod(d + off, -b);
    assert -a * 0x1_0000_0000 * RVAS == -(a * LONGS);
  }

  lemma SameMod(x: int, k: int)
    ensures (x + k * RVAS) % RVAS == x % RVAS
  {
  }

  /** Every relocation in the table moves down by the image base. */
  lemma {:induction false} RebaseMoves(pages: seq<Page>, base: nat)
    requires Valid(pages)
    ensures Valid(Rebase(pages, base))
    ensures Contents(Rebase(pages, base)) == MovedAll(Contents(pages), base)
  {
    hide PageRelocs, Rebased, Moved;
    if pages != [] {
      RebaseMoves(pages[1..], base);
      var moved := Rebase(pages, base);
      assert moved[1..] == Rebase(pages[1..], base);
      PageMoved(pages[0], base);
      assert MovedAll(Contents(pages), base) == MovedAll(PageRelocs(pages[0]), base) + MovedAll(Contents(pages[1..]), base);
    }
  }

  lemma PageMoved(p: Page, base: nat)
    requires ValidPage(p)
    ensures ValidPage(Rebased(p, base)) && PageRelocs(Rebased(p, base)) == MovedAll(PageRelocs(p), base)
  {
    forall i | 0 <= i < p.used
      ensures Meaning((p.start - base) % LONGS, p.relocs[i]) == Moved(Meaning(p.start, p.relocs[i]), base)
    {
      MeaningMoved(p.start, p.relocs[i], base);
    }
  }

  /** After the base has moved the bytes of the table decode to every relocation moved, and the same number of unused entries. */
  lemma RebasedRoundTrip(pages: seq<Page>, base: nat)
    requires Valid(pages) && forall i :: 0 <= i < |pages| ==> Small(pages[i])
    ensures var moved := Rebase(pages, base);
            && Valid(moved) && Decode(TableBytes(moved)) == Some(BlocksOf(moved))
            && multiset(Relocs(BlocksOf(moved))) == multiset(MovedAll(Contents(pages), base)) + multiset(Pads(moved))
            && |Pads(moved)| == |Pads(pages)|
  {
    hide Decode, TableBytes, BlocksOf, Relocs, Contents, Pads;
    var moved := Rebase(pages, base);
    RebaseMoves(pages, base);
    forall i | 0 <= i < |moved| ensures Small(moved[i]) {
      assert Small(pages[i]) && moved[i].used == pages[i].used;
    }
    TableRoundTrip(moved);
    BlocksHold(moved);
    PadsKept(pages, base);
  }

  lemma {:induction false} PadsKept(pages: seq<Page>, base: nat)
    ensures |Pads(Rebase(pages, base))| == |Pads(pages)|
  {
    if pages != [] {
      PadsKept(pages[1..], base);
      assert Rebase(pages, base)[1..] == Rebase(pages[1..], base);
    }
  }

  /** From the calls to the bytes after the base has moved. */
  lemma BuiltRebased(calls: seq<Call>, base: nat)
    requires |calls| < 0x7fff_fff0
    ensures var moved := Rebase(Built(calls), base);
            && Valid(moved) && Decode(TableBytes(moved)) == Some(BlocksOf(moved))
            && multiset(Relocs(BlocksOf(moved))) == multiset(MovedAll(Asked(calls), base)) + multiset(Pads(moved))
  {
    hide Decode, TableBytes, BlocksOf, Relocs, Contents, Pads, Rebase, Valid, Moved, Distinct;
    BuiltHolds(calls);
    BuiltSmall(calls);
    RebasedRoundTrip(Built(calls), base);
    MovedMultiset(Contents(Built(calls)), Asked(calls), base);
  }

  /** Moving is the same whatever the order. */
  lemma {:induction false} MovedMultiset(a: seq<Reloc>, b: seq<Reloc>, base: nat)
    requires multiset(a) == multiset(b)
    ensures multiset(MovedAll(a, base)) == multiset(MovedAll(b, base))
    decreases |a|
  {
    hide Moved, MovedAll;
    if a == [] {
      assert |multiset(b)| == |b|;
    } else {
      var x := a[0];
      assert x in multiset(b);
      var k :| 0 <= k < |b| && b[k] == x;
      var rest := b[..k] + b[k + 1..];
      TakeOut(a, 0);
      TakeOut(b, k);
      assert a[..0] + a[1..] == a[1..];
      Cancel(multiset(a[1..]), multiset(rest), x);
      MovedMultiset(a[1..], rest, base);
      MovedTakeOut(a, 0, base);
      MovedTakeOut(b, k, base);
    }
  }

  lemma Cancel(p: multiset<Reloc>, q: multiset<Reloc>, x: Reloc)
    requires p + multiset{x} == q + multiset{x}
    ensures p == q
  {
    assert p == p + multiset{x} - multiset{x};
    assert q == q + multiset{x} - multiset{x};
  }

  lemma TakeOut(b: seq<Reloc>, k: nat)
    requires k < |b|
    ensures multiset(b) == multiset(b[..k] + b[k + 1..]) + multiset{b[k]}
  {
    assert b == b[..k] + [b[k]] + b[k + 1..];
  }

  lemma MovedTakeOut(b: seq<Reloc>, k: nat, base: nat)
    requires k < |b|
    ensures multiset(MovedAll(b, base)) == multiset(MovedAll(b[..k] + b[k + 1..], base)) + multiset{Moved(b[k], base)}
  {
    hide Moved;
    var m := MovedAll(b, base);
    TakeOut(m, k);
    assert MovedAll(b[..k] + b[k + 1..], base) == m[..k] + m[k + 1..];
  }

  class RelocTable {
    var pages: seq<Page>

    constructor ()
      ensures pages == []
    {
      pages := [];
    }

    /** generate_pe_reloc: an unsupported size ends the program and leaves the table alone. */
    method Generate(rva: nat, size: nat) returns (ok: bool)
      requires Valid(pages) && rva < LONGS
      modifies this
      ensures ok <==> size == 8 || size == 4 || size == 2
      ensures ok ==> Valid(pages) && pages == InsertCall(old(pages), Request(rva, size))
      ensures !ok ==> pages == old(pages)
    {
      hide Insert, Valid;
      if Kind(size).None? { return false; }
      var entry := rva % PAGE + Kind(size).value * PAGE;
      InsertValid(pages, rva, Kind(size).value);
      Store(rva / PAGE * PAGE, entry);
      return true;
    }

    /** Find or create the page, make room, and store the entry. */
    method Store(start: nat, entry: nat)
      requires Valid(pages)
      modifies this
      ensures pages == Insert(old(pages), start, entry)
    {
      var k := 0;
      while k < |pages| && pages[k].start != start
        invariant k <= |pages| && forall i :: 0 <= i < k ==> pages[i].start != start
      {
        k := k + 1;
      }
      FindIs(pages, start, k);
      if k == |pages| {
        pages := [Page(start, 0, [])] + pages;
        k := 0;
      }
      var p := StoreEntry(pages[k], entry);
      pages := pages[k := p];
    }

    /** Grow the page's array if it is full, and store the entry. */
    static method StoreEntry(page: Page, entry: nat) returns (p: Page)
      requires page.used <= |page.relocs|
      ensures p == Stored(page, entry)
    {
      p := page;
      if p.used == |p.relocs| {
        var total := if |p.relocs| > 0 then 2 * |p.relocs| else 256;
        p := p.(relocs := p.relocs[..p.used] + Zeroes(total - p.used));
      }
      p := p.(used := p.used + 1, relocs := p.relocs[p.used := entry]);
    }

    /** output_pe_reltab: the same size with and without a buffer, and the table in the buffer. */
    method Output(buffer: array?<byte>) returns (total: nat)
      requires Valid(pages) && (buffer != null ==> |TableBytes(pages)| <= buffer.Length)
      modifies buffer
      ensures total == |TableBytes(pages)|
      ensures buffer != null ==> buffer[..] == Put(old(buffer[..]), 0, TableBytes(pages))
    {
      hide PageBytes, ValidPage, TableBytes;
      total := 0;
      ghost var table := TableBytes(pages);
      assert pages[0..] == pages;
      for k := 0 to |pages|
        invariant total <= |table| && table[total..] == TableBytes(pages[k..])
        invariant buffer != null ==> buffer[..] == Put(old(buffer[..]), 0, table[..total])
      {
        var p := pages[k];
        TableFrom(pages, k);
        var b := PageBytes(p);
        TableStep(table, total, b, TableBytes(pages[k + 1..]));
        if buffer != null {
          PutStep(old(buffer[..]), table[..total], b);
          Blit(buffer, total, b);
        }
        total := total + |b|;
      }
      TableFrom(pages, |pages|);
      assert table[..total] == table;
    }

    /** The relocation part of update_image_base */
    method MoveBase(base: nat)
      modifies this
      ensures pages == Rebase(old(pages), base)
    {
      hide Rebased;
      for k := 0 to |pages|
        invariant |pages| == |old(pages)|
        invariant forall i :: 0 <= i < |pages| ==> pages[i] == if i < k then Rebased(old(pages)[i], base) else old(pages)[i]
      {
        pages := pages[k := Rebased(pages[k], base)];
      }
    }
  }

  lemma FindIs(pages: seq<Page>, start: nat, k: nat)
    requires k <= |pages| && (k < |pages| ==> pages[k].start == start)
    requires forall i :: 0 <= i < k ==> pages[i].start != start
    ensures Find(pages, start) == k
  {
  }

  lemma TableFrom(pages: seq<Page>, k: nat)
    requires Valid(pages) && k <= |pages|
    ensures k < |pages| ==> TableBytes(pages[k..]) == PageBytes(pages[k]) + TableBytes(pages[k + 1..])
    ensures k == |pages| ==> TableBytes(pages[k..]) == []
  {
    hide PageBytes, ValidPage;
    if k < |pages| { assert pages[k..][1..] == pages[k + 1..]; }
  }

  lemma TableStep(table: seq<byte>, at: nat, b: seq<byte>, rest: seq<byte>)
    requires at <= |table| && table[at..] == b + rest
    ensures at + |b| <= |table| && table[at + |b|..] == rest && table[..at + |b|] == table[..at] + b
  {
    assert table[at + |b|..] == table[at..][|b|..];
    assert table[..at + |b|] == table[..at] + table[at..][..|b|];
  }

  lemma PutStep(s: seq<byte>, a: seq<byte>, b: seq<byte>)
    requires |a| + |b| <= |s|
    ensures Put(Put(s, 0, a), |a|, b) == Put(s, 0, a + b)
  {
  }
}
