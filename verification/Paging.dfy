/** 2MB pages: moving data above 4GB behind its virtual addresses (src/paging.c, src/paging.h). */
module Paging {
  import opened Bytes

  const PAGE: nat := 0x20_0000
  const PAGES := 2048
  const ADDR_4GB := 0x1_0000_0000
  const COPY_WINDOW: nat := 0x20_0000
  /** PG_P, PG_RW, PG_US and PG_PS */
  const FLAGS: nat := 0x87

  /** An entry of the system memory map. */
  datatype Entry = Entry(start: nat, len: nat)

  type Memory = nat -> byte

  /** An entry the processor takes for a page of 2MB that is there and can be written: bits 0, 1 and 7. */
  predicate WritablePage(e: nat) {
    e % 2 == 1 && e / 2 % 2 == 1 && e / 128 % 2 == 1
  }

  /** The physical address behind a virtual one, if its page is there. */
  function Translate(pd: seq<nat>, v: nat): Option<nat>
    requires |pd| == PAGES && v < ADDR_4GB
  {
    if WritablePage(pd[v / PAGE]) then Some(pd[v / PAGE] / 0x20_0000 * 0x20_0000 + v % 0x20_0000) else None
  }

  /** The page at index `i` is mapped to itself shifted by `delta`. */
  predicate Shifted(pd: seq<nat>, i: nat, delta: nat)
    requires i < |pd|
  {
    pd[i] == i * PAGE + delta + FLAGS
  }

  ghost predicate IdentityTo(pd: seq<nat>, k: nat) {
    k <= |pd| && forall i :: 0 <= i < k ==> Shifted(pd, i, 0)
  }

  lemma IdentityStep(pd: seq<nat>, k: nat)
    requires IdentityTo(pd, k) && k < |pd|
    ensures IdentityTo(pd[k := k * PAGE + FLAGS], k + 1)
  {
    var table, n := pd[k := k * PAGE + FLAGS], k + 1;
    forall i | 0 <= i < n ensures Shifted(table, i, 0) {
      assert i < k ==> Shifted(pd, i, 0);
    }
  }

  ghost predicate Identity(pd: seq<nat>) {
    |pd| == PAGES && IdentityTo(pd, PAGES)
  }

  lemma TranslateShifted(pd: seq<nat>, v: nat, delta: nat)
    requires |pd| == PAGES && v < ADDR_4GB && delta % PAGE == 0 && Shifted(pd, v / PAGE, delta)
    ensures Translate(pd, v) == Some(v + delta)
  {
    var i, k := v / PAGE, delta / PAGE;
    assert pd[i] == (i + k) * PAGE + FLAGS;
    assert pd[i] / PAGE == i + k;
    FlagsOf(i + k);
  }

  lemma FlagsOf(k: nat)
    ensures WritablePage(k * PAGE + FLAGS) && (k * PAGE + FLAGS) / PAGE == k
  {
    var e := k * PAGE + FLAGS;
    Odd(e, 0x10_0000 * k + 0x43);
    Halved(e, 0x10_0000 * k + 0x43, 1);
    Odd(0x10_0000 * k + 0x43, 0x8_0000 * k + 0x21);
    Eighth(e, 0x4000 * k + 1, 7);
    Odd(0x4000 * k + 1, 0x2000 * k);
  }

  lemma Odd(n: nat, half: nat)
    requires n == 2 * half + 1
    ensures n % 2 == 1
  {
  }

  lemma Halved(n: nat, q: nat, r: nat)
    requires n == 2 * q + r && r < 2
    ensures n / 2 == q
  {
  }

  lemma Eighth(n: nat, q: nat, r: nat)
    requires n == 128 * q + r && r < 128
    ensures n / 128 == q
  {
  }

  /** The highest place in a memory map entry with the data's offset within a page. */
  predicate Placement(e: Entry, data: nat, len: nat, start: nat) {
    && e.start + e.len >= ADDR_4GB
    && start % PAGE == data % PAGE
    && start + len <= e.start + e.len < start + len + PAGE
  }

  predicate Usable(e: Entry, start: nat) {
    start >= e.start && start >= ADDR_4GB
  }

  /** A place above 4GB inside the entry with the data's offset within a page. */
  predicate Suits(e: Entry, data: nat, len: nat, s: nat) {
    s % PAGE == data % PAGE && e.start <= s && s + len <= e.start + e.len && s >= ADDR_4GB
  }

  /** The entry cannot hold the data above 4GB at any compatible place. */
  ghost predicate Unusable(e: Entry, data: nat, len: nat) {
    forall s: nat :: !Suits(e, data, len, s)
  }

  lemma PlacementUnique(e: Entry, data: nat, len: nat, s: nat, t: nat)
    requires Placement(e, data, len, s) && Placement(e, data, len, t)
    ensures s == t
  {
    var a, b := s / PAGE, t / PAGE;
    assert s - t == (a - b) * PAGE;
  }

  lemma PlacementIs(e: Entry, data: nat, len: nat)
    requires e.start + e.len >= ADDR_4GB >= data + len
    ensures var top, end := e.start + e.len, data + len; Placement(e, data, len, (top - end) / PAGE * PAGE + end - len)
  {
    var x := e.start + e.len - (data + len);
    var s := x / PAGE * PAGE + data;
    assert s % PAGE == data % PAGE by { ShiftByPages(data, x / PAGE); }
  }

  lemma ShiftByPages(n: nat, k: nat)
    ensures (k * PAGE + n) % PAGE == n % PAGE
  {
  }

  ghost predicate CopiedAt(before: Memory, after: Memory, s: nat, d: nat, n: nat, p: nat) {
    after(p) == if d <= p < d + n then before(s + (p - d)) else before(p)
  }

  /** Memory after `n` bytes from physical `s` have been copied to physical `d`. */
  ghost predicate Copied(before: Memory, after: Memory, s: nat, d: nat, n: nat) {
    forall p: nat :: CopiedAt(before, after, s, d, n, p)
  }

  function Poke(m: Memory, at: nat, b: byte): Memory {
    (p: nat) => if p == at then b else m(p)
  }

  lemma CopiedStep(before: Memory, m: Memory, s: nat, d: nat, n: nat)
    requires Copied(before, m, s, d, n) && s + n < d
    ensures Copied(before, Poke(m, d + n, m(s + n)), s, d, n + 1)
  {
    assert CopiedAt(before, m, s, d, n, s + n);
    var after, k := Poke(m, d + n, m(s + n)), n + 1;
    forall p: nat ensures CopiedAt(before, after, s, d, k, p) {
      assert CopiedAt(before, m, s, d, n, p);
    }
  }

  lemma CopiedAppend(a: Memory, b: Memory, c: Memory, s: nat, d: nat, n: nat, k: nat)
    requires Copied(a, b, s, d, n) && Copied(b, c, s + n, d + n, k) && s + n + k <= d
    ensures Copied(a, c, s, d, n + k)
  {
    var all := n + k;
    forall p: nat ensures CopiedAt(a, c, s, d, all, p) {
      assert CopiedAt(b, c, s + n, d + n, k, p) && CopiedAt(a, b, s, d, n, p);
      if d + n <= p < d + n + k {
        assert CopiedAt(a, b, s, d, n, s + n + (p - (d + n)));
      }
    }
  }

  lemma TranslateInPage(pd: seq<nat>, v: nat, i: nat)
    requires |pd| == PAGES && v < ADDR_4GB && v % PAGE + i < PAGE
    requires Translate(pd, v).Some?
    ensures v + i < ADDR_4GB && Translate(pd, v + i) == Some(Translate(pd, v).value + i)
  {
    SamePage(v, i);
    assert v / PAGE < PAGES;
  }

  lemma SamePage(v: nat, i: nat)
    requires v % PAGE + i < PAGE
    ensures (v + i) / PAGE == v / PAGE && (v + i) % PAGE == v % PAGE + i
  {
  }

  lemma PageOf(k: nat)
    ensures k * PAGE / PAGE == k && k * PAGE % PAGE == 0
  {
  }

  /** Page `i` holds some address of `[lo, hi)`. */
  predicate Touched(i: nat, lo: nat, hi: nat) {
    lo < hi && lo / PAGE <= i <= (hi - 1) / PAGE
  }

  /** Page `i` is shifted when it is touched and mapped to itself otherwise. */
  predicate Mapping(pd: seq<nat>, i: nat, lo: nat, hi: nat, delta: nat)
    requires i < |pd|
  {
    Shifted(pd, i, if Touched(i, lo, hi) then delta else 0)
  }

  /** Pages of `[lo, hi)` are shifted and the others stay, the copy window's aside. */
  ghost predicate MovedBut(pd: seq<nat>, lo: nat, hi: nat, delta: nat) {
    |pd| == PAGES
    && forall i :: 0 <= i < PAGES && i != COPY_WINDOW / PAGE ==> Mapping(pd, i, lo, hi, delta)
  }

  /** Exactly the pages of `[lo, hi)` are shifted. */
  ghost predicate Moved(pd: seq<nat>, lo: nat, hi: nat, delta: nat) {
    |pd| == PAGES && forall i :: 0 <= i < PAGES ==> Mapping(pd, i, lo, hi, delta)
  }

  /** The data lies off the copy window. */
  predicate OffWindow(lo: nat, hi: nat) {
    hi <= COPY_WINDOW || COPY_WINDOW + PAGE <= lo
  }

  lemma MoveStep(pd: seq<nat>, lo: nat, data: nat, frag: nat, delta: nat, w: nat)
    requires MovedBut(pd, lo, data, delta) && 0 < frag && data % PAGE + frag <= PAGE
    requires lo <= data < ADDR_4GB && (data > lo ==> data % PAGE == 0) && OffWindow(data, data + frag)
    ensures var i := data / PAGE;
            i < PAGES && i != 1 && Shifted(pd, i, 0)
            && MovedBut(pd[1 := w][i := i * PAGE + delta + FLAGS], lo, data + frag, delta)
  {
    var i := data / PAGE;
    SamePage(data, frag - 1);
    if data > lo {
      assert (data - 1) / PAGE == i - 1;
    }
    assert !Touched(i, lo, data);
    assert Mapping(pd, i, lo, data, delta);
    var hi := data + frag;
    var table := pd[1 := w][i := i * PAGE + delta + FLAGS];
    forall j | 0 <= j < PAGES && j != 1
      ensures Mapping(table, j, lo, hi, delta)
    {
      assert j != i ==> Touched(j, lo, hi) == Touched(j, lo, data);
      assert j != i ==> Mapping(pd, j, lo, data, delta);
    }
  }

  /** The highest compatible place is no lower than any other. */
  lemma PlacementHighest(e: Entry, data: nat, len: nat, start: nat, s: nat)
    requires Placement(e, data, len, start) && Suits(e, data, len, s)
    ensures s <= start
  {
    var a, b := s / PAGE, start / PAGE;
    assert s - start == (a - b) * PAGE;
  }

  /** Where the highest compatible place fails, no place serves. */
  lemma UnusableBy(e: Entry, data: nat, len: nat, start: nat)
    requires Placement(e, data, len, start) && !Usable(e, start)
    ensures Unusable(e, data, len)
  {
    forall s: nat | Suits(e, data, len, s) ensures false {
      PlacementHighest(e, data, len, start, s);
    }
  }

  /** Entry `k` is the first that can hold the data, and `start` its place there. */
  ghost predicate Chosen(e820: seq<Entry>, data: nat, len: nat, k: nat, start: nat) {
    && k < |e820|
    && Placement(e820[k], data, len, start) && Usable(e820[k], start)
    && forall j :: 0 <= j < k ==> Unusable(e820[j], data, len)
  }

  /** The byte seen at a virtual address, if its page is there. */
  function View(pd: seq<nat>, mem: Memory, v: nat): Option<byte>
    requires |pd| == PAGES && v < ADDR_4GB
  {
    if Translate(pd, v).Some? then Some(mem(Translate(pd, v).value)) else None
  }

  lemma WindowBack(pd: seq<nat>, lo: nat, hi: nat, delta: nat)
    requires MovedBut(pd, lo, hi, delta) && OffWindow(lo, hi)
    ensures Moved(pd[1 := COPY_WINDOW + FLAGS], lo, hi, delta)
  {
    var table := pd[1 := COPY_WINDOW + FLAGS];
    forall j | 0 <= j < PAGES ensures Mapping(table, j, lo, hi, delta) {
      assert j != 1 ==> Mapping(pd, j, lo, hi, delta);
    }
  }

  lemma DestinationPage(data: nat, delta: nat)
    requires delta % PAGE == 0
    ensures (data + delta) / PAGE * PAGE == data / PAGE * PAGE + delta
    ensures (data - data % PAGE) / PAGE == data / PAGE && (data - data % PAGE) % PAGE == 0
    ensures (data / PAGE * PAGE + delta) % PAGE == 0
  {
    var k := delta / PAGE;
    assert delta == k * PAGE;
    assert (data + k * PAGE) / PAGE == data / PAGE + k;
  }

  lemma CopyThroughWindow(pd: seq<nat>, data: nat, delta: nat)
    requires |pd| == PAGES && data < ADDR_4GB && delta % PAGE == 0
    requires pd[1] == (data + delta) / PAGE * PAGE + FLAGS && Shifted(pd, data / PAGE, 0)
    ensures Translate(pd, COPY_WINDOW + data % PAGE) == Some(data + delta) && Translate(pd, data) == Some(data)
  {
    TranslateShifted(pd, data, 0);
    SamePage(COPY_WINDOW, data % PAGE);
    var k := (data + delta) / PAGE;
    FlagsOf(k);
    var j := delta / PAGE;
    assert (data + j * PAGE) % PAGE == data % PAGE;
  }

  class Machine {
    const pd: array<nat>
    var mem: Memory

    constructor (mem: Memory)
      ensures pd.Length == PAGES && fresh(pd) && this.mem == mem
    {
      pd := new nat[PAGES](_ => 0);
      this.mem := mem;
    }

    /** map_page */
    method MapPage(vaddr: nat, paddr: nat)
      requires pd.Length == PAGES && vaddr < ADDR_4GB && vaddr % PAGE == 0 && paddr % PAGE == 0
      modifies pd
      ensures pd[..] == old(pd[..])[vaddr / PAGE := paddr + FLAGS]
    {
      pd[vaddr / PAGE] := paddr + FLAGS;
    }

    /** init_paging: the address wraps to zero after the last page. */
    method Init()
      requires pd.Length == PAGES
      modifies pd
      ensures Identity(pd[..])
    {
      var addr, more := 0, true;
      ghost var k: nat := 0;
      while more
        invariant 0 <= k <= PAGES && (more <==> k < PAGES)
        invariant more ==> addr == k * PAGE
        invariant IdentityTo(pd[..], k)
        decreases PAGES - k
      {
        PageOf(k);
        ghost var table := pd[..];
        MapPage(addr, addr);
        IdentityStep(table, k);
        addr := (addr + PAGE) % ADDR_4GB;
        k := k + 1;
        more := addr != 0;
      }
    }

    /** memcpy through virtual addresses, within one page on each side. */
    method CopyBytes(dst: nat, src: nat, n: nat, ghost d: nat, ghost s: nat)
      requires pd.Length == PAGES && dst < ADDR_4GB && src < ADDR_4GB
      requires dst % PAGE + n <= PAGE && src % PAGE + n <= PAGE
      requires Translate(pd[..], dst) == Some(d) && Translate(pd[..], src) == Some(s)
      requires s + n <= d
      modifies this`mem
      ensures Copied(old(mem), mem, s, d, n)
    {
      ghost var table := pd[..];
      ghost var mem0 := mem;
      for i := 0 to n
        invariant pd[..] == table && Copied(mem0, mem, s, d, i)
      {
        TranslateInPage(table, dst, i);
        TranslateInPage(table, src, i);
        var to, from := Translate(pd[..], dst + i).value, Translate(pd[..], src + i).value;
        CopiedStep(mem0, mem, s, d, i);
        mem := Poke(mem, to, mem(from));
      }
    }

    /**
     * relocate_memory_high: behind unchanged virtual addresses the data moves to the first
     * memory map entry that can hold it above 4GB, and no other page is disturbed.
     */
    method Relocate(start0: nat, len0: nat, e820: seq<Entry>, paging: bool) returns (start: nat)
      requires pd.Length == PAGES && Identity(pd[..])
      requires start0 < ADDR_4GB && start0 + len0 <= ADDR_4GB
      requires OffWindow(start0, start0 + len0)
      modifies this`mem, pd
      ensures (exists k :: Chosen(e820, start0, len0, k, start)) || start == start0
      ensures start == start0 ==> pd[..] == old(pd[..]) && mem == old(mem)
      ensures start == start0 ==> !paging || forall k :: 0 <= k < |e820| ==> Unusable(e820[k], start0, len0)
      ensures start != start0 ==> paging && start >= ADDR_4GB && Relocated(old(pd[..]), old(mem), pd[..], mem, start0, len0, start)
    {
      if !paging { return start0; }
      for k := 0 to |e820|
        invariant pd[..] == old(pd[..]) && mem == old(mem)
        invariant forall j :: 0 <= j < k ==> Unusable(e820[j], start0, len0)
      {
        var top, end := e820[k].start + e820[k].len, start0 + len0;
        if top < ADDR_4GB { continue; }
        start := (top - end) / PAGE * PAGE + end - len0;
        PlacementIs(e820[k], start0, len0);
        if start < e820[k].start || start < ADDR_4GB {
          UnusableBy(e820[k], start0, len0, start);
          continue;
        }
        assert Chosen(e820, start0, len0, k, start);
        MoveAndView(start0, len0, start);
        return;
      }
      return start0;
    }

    method MoveAndView(start0: nat, len0: nat, start: nat)
      requires pd.Length == PAGES && Identity(pd[..])
      requires start0 + len0 <= ADDR_4GB <= start && start % PAGE == start0 % PAGE
      requires OffWindow(start0, start0 + len0)
      modifies this`mem, pd
      ensures Relocated(old(pd[..]), old(mem), pd[..], mem, start0, len0, start)
    {
      Move(start0, len0, start);
      SameOffset(start0, start);
      RelocationCorrect(old(pd[..]), old(mem), pd[..], mem, start0, len0, start - start0);
    }

    /** One turn of the fragment loop: up to the end of the page is copied and the page remapped. */
    method MoveFragment(ghost start0: nat, data: nat, len: nat, dest: nat, ghost delta: nat) returns (frag: nat)
      requires pd.Length == PAGES && 0 < len && data + len <= ADDR_4GB <= dest && dest == data + delta
      requires start0 <= data && (data > start0 ==> data % PAGE == 0) && delta % PAGE == 0
      requires OffWindow(data, data + len) && MovedBut(pd[..], start0, data, delta)
      modifies this`mem, pd
      ensures 0 < frag <= len && (frag < len ==> (data + frag) % PAGE == 0)
      ensures MovedBut(pd[..], start0, data + frag, delta)
      ensures Copied(old(mem), mem, data, dest, frag)
    {
      hide MovedBut, Copied, Translate;
      var offset := data % PAGE;
      frag := if PAGE - offset > len then len else PAGE - offset;
      DestinationPage(data, delta);
      MoveStep(pd[..], start0, data, frag, delta, dest / PAGE * PAGE + FLAGS);
      MapPage(COPY_WINDOW, dest / PAGE * PAGE);
      CopyThroughWindow(pd[..], data, delta);
      CopyBytes(COPY_WINDOW + offset, data, frag, dest, data);
      MapPage(data - offset, dest / PAGE * PAGE);
    }

    /** The fragment loop of relocate_memory_high. */
    method Move(start0: nat, len0: nat, start: nat)
      requires pd.Length == PAGES && Identity(pd[..])
      requires start0 + len0 <= ADDR_4GB <= start && start % PAGE == start0 % PAGE
      requires OffWindow(start0, start0 + len0)
      modifies this`mem, pd
      ensures Moved(pd[..], start0, start0 + len0, start - start0)
      ensures Copied(old(mem), mem, start0, start, len0)
    {
      var data, len, dest := start0, len0, start;
      ghost var delta := start - start0;
      while len > 0
        invariant data + len == start0 + len0 && len >= 0 && data >= start0 && dest == data + delta
        invariant data > start0 && len > 0 ==> data % PAGE == 0
        invariant MovedBut(pd[..], start0, data, delta)
        invariant Copied(old(mem), mem, start0, start, data - start0)
      {
        ghost var mem1 := mem;
        var frag := MoveFragment(start0, data, len, dest, delta);
        CopiedAppend(old(mem), mem1, mem, start0, start, data - start0, frag);
        data, dest, len := data + frag, dest + frag, len - frag;
      }
      ghost var table := pd[..];
      MapPage(COPY_WINDOW, COPY_WINDOW);
      WindowBack(table, start0, start0 + len0, delta);
    }
  }

  /**
   * The outcome of a relocation seen through the page directory: the data reads the same and
   * lies at `start`, while every page holding none of it, the copy window's included, still
   * maps to itself and reads the same.
   */
  ghost predicate Relocated(was: seq<nat>, before: Memory, pd: seq<nat>, mem: Memory, data: nat, len: nat, start: nat) {
    && |was| == |pd| == PAGES
    && (forall v: nat :: data <= v < data + len && v < ADDR_4GB ==>
          Translate(pd, v) == Some(start + (v - data)) && View(pd, mem, v) == View(was, before, v))
    && (forall v: nat :: v < ADDR_4GB && !Touched(v / PAGE, data, data + len) ==>
          Translate(pd, v) == Some(v) && View(pd, mem, v) == View(was, before, v))
    && !Touched(COPY_WINDOW / PAGE, data, data + len)
  }

  lemma SameOffset(data: nat, start: nat)
    requires data <= start && start % PAGE == data % PAGE
    ensures (start - data) % PAGE == 0
  {
    assert start - data == (start / PAGE - data / PAGE) * PAGE;
  }

  lemma RelocationCorrect(was: seq<nat>, before: Memory, pd: seq<nat>, mem: Memory, data: nat, len: nat, delta: nat)
    requires Identity(was) && Moved(pd, data, data + len, delta) && Copied(before, mem, data, data + delta, len)
    requires data + len <= ADDR_4GB <= data + delta && delta % PAGE == 0 && OffWindow(data, data + len)
    ensures Relocated(was, before, pd, mem, data, len, data + delta)
  {
    hide Translate, Copied, Moved, Identity;
    assert |was| == |pd| == PAGES by { Sizes(was, pd, data, data + len, delta); }
    forall v: nat | data <= v < data + len
      ensures Translate(pd, v) == Some(data + delta + (v - data)) && View(pd, mem, v) == View(was, before, v)
    {
      MovedView(pd, before, mem, data, len, delta, v);
      IdentityView(was, before, v);
    }
    forall v: nat | v < ADDR_4GB && !Touched(v / PAGE, data, data + len)
      ensures Translate(pd, v) == Some(v) && View(pd, mem, v) == View(was, before, v)
    {
      UntouchedView(pd, before, mem, data, len, delta, v);
      IdentityView(was, before, v);
    }
  }

  lemma Sizes(was: seq<nat>, pd: seq<nat>, lo: nat, hi: nat, delta: nat)
    requires Identity(was) && Moved(pd, lo, hi, delta)
    ensures |was| == |pd| == PAGES
  {
  }

  /** Before any relocation virtual addresses are physical ones. */
  lemma IdentityView(pd: seq<nat>, mem: Memory, v: nat)
    requires Identity(pd) && v < ADDR_4GB
    ensures View(pd, mem, v) == Some(mem(v))
  {
    TranslateShifted(pd, v, 0);
  }

  /** Every byte of the moved data is seen where it was, at its new physical place. */
  lemma MovedView(pd: seq<nat>, before: Memory, after: Memory, data: nat, len: nat, delta: nat, v: nat)
    requires Moved(pd, data, data + len, delta) && Copied(before, after, data, data + delta, len)
    requires data <= v < data + len <= ADDR_4GB && delta % PAGE == 0
    ensures Translate(pd, v) == Some(v + delta) && View(pd, after, v) == Some(before(v))
  {
    assert v / PAGE < PAGES && Touched(v / PAGE, data, data + len);
    assert Mapping(pd, v / PAGE, data, data + len, delta);
    TranslateShifted(pd, v, delta);
    assert CopiedAt(before, after, data, data + delta, len, v + delta);
  }

  /** Pages that hold none of the data keep their place and their contents. */
  lemma UntouchedView(pd: seq<nat>, before: Memory, after: Memory, data: nat, len: nat, delta: nat, v: nat)
    requires Moved(pd, data, data + len, delta) && Copied(before, after, data, data + delta, len)
    requires v < ADDR_4GB <= data + delta && !Touched(v / PAGE, data, data + len)
    ensures Translate(pd, v) == Some(v) && View(pd, after, v) == Some(before(v))
  {
    assert Mapping(pd, v / PAGE, data, data + len, delta);
    TranslateShifted(pd, v, 0);
    assert CopiedAt(before, after, data, data + delta, len, v);
  }
}
