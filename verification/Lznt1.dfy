/** LZNT1 decompression (src/lznt1.c, src/lznt1.h; section 2.5 of [MS-XCA]). */
module Lznt1 {
  import opened Bytes
  import opened Bits
  import opened Lz
  import opened Memory

  /** The exponent of the least power of two, from 2^k up, that is no less than `out`. */
  function Width(out: nat, k: nat): (r: nat)
    ensures r >= k
    decreases out - Pow2(k)
  {
    Pow2Grows(k);
    if out <= Pow2(k) then k else Width(out, k + 1)
  }

  lemma {:induction false} Pow2Grows(k: nat)
    ensures Pow2(k + 1) == 2 * Pow2(k) && Pow2(k) >= 1
  {
    if k > 0 { Pow2Grows(k - 1); }
  }

  /** The number of length bits in a compressed value after `out` bytes of a block. */
  function SplitAt(out: nat): (r: int)
    ensures r <= 12
  {
    16 - Width(out, 4)
  }

  lemma {:induction false} WidthExact(out: nat, k: nat)
    ensures out <= Pow2(Width(out, k)) && (Width(out, k) > k ==> Pow2(Width(out, k) - 1) < out)
    decreases out - Pow2(k)
  {
    Pow2Grows(k);
    if out > Pow2(k) { WidthExact(out, k + 1); }
  }

  /** The distance bits of a value, at least four, are the fewest that reach the start of the block. */
  lemma SplitExact(out: nat)
    ensures out <= 16 ==> SplitAt(out) == 12
    ensures out > 16 ==> SplitAt(out) < 12 && Pow2(15 - SplitAt(out)) < out <= Pow2(16 - SplitAt(out))
  {
    hide Width, Shl;
    Pow2Values();
    WidthExact(out, 4);
    if out <= 16 { NarrowWidth(out); }
  }

  lemma NarrowWidth(out: nat)
    requires out <= 16
    ensures Width(out, 4) == 4
  {
    Pow2Values();
  }

  /** LZNT1_VALUE_LEN and LZNT1_VALUE_OFFSET */
  function Value(tuple: nat, split: nat): Item {
    Match(Shr(tuple, split) + 1, Low(tuple, split) + 3)
  }

  /** A shift count the source never meets: blocks are too short for it. */
  function SplitNat(out: nat): nat {
    if SplitAt(out) < 0 then 0 else SplitAt(out)
  }

  function Cons(item: Item, p: Parsed): Parsed {
    Parsed(p.ok, [item] + p.items)
  }

  /** The items of a compressed block, from an offset where `out` bytes have been produced. */
  function ParseBlock(src: Source, limit: nat, offset: nat, bit: nat, tag: nat, out: nat): Parsed
    requires offset <= limit
    decreases limit - offset, 1
  {
    if offset == limit then Parsed(true, [])
    else if bit > 0 then ParseValue(src, limit, offset, bit, tag, out)
    else if offset + 1 == limit then Parsed(true, [])
    else ParseValue(src, limit, offset + 1, 0, src(offset), out)
  }

  function ParseValue(src: Source, limit: nat, offset: nat, bit: nat, tag: nat, out: nat): Parsed
    requires offset < limit
    decreases limit - offset, 0
  {
    if tag % 2 == 0 then
      Cons(Literal(src(offset)), ParseBlock(src, limit, offset + 1, (bit + 1) % 8, tag / 2, out + 1))
    else if offset + 2 > limit then
      Parsed(false, [])
    else
      var item := Value(Word(src, offset), SplitNat(out));
      Cons(item, ParseBlock(src, limit, offset + 2, (bit + 1) % 8, tag / 2, out + item.len))
  }

  // Bounds

  lemma {:induction false} WidthIs(out: nat, k: nat)
    requires out <= 32768 && 4 <= k <= 15 && (k > 4 ==> Pow2(k - 1) < out)
    ensures var w := Width(out, k); k <= w <= 15 && out <= Pow2(w) && (w > 4 ==> Pow2(w - 1) < out)
    decreases 15 - k
  {
    if out > Pow2(k) {
      Pow2Values();
      WidthIs(out, k + 1);
    }
  }

  /** A match takes the output of a block to 4114 at most, or adds ten bytes at most. */
  lemma MatchBound(out: nat, tuple: nat)
    requires out <= 32768
    ensures 1 <= SplitAt(out) <= 12
    ensures var n := Value(tuple, SplitNat(out)).len; out + n <= 4114 || n <= 10
  {
    WidthIs(out, 4);
    PowerPairs(Width(out, 4));
  }

  lemma PowerPairs(k: nat)
    requires 4 <= k <= 15
    ensures k <= 12 ==> Pow2(k) + Pow2(16 - k) <= 4112
    ensures k > 12 ==> Pow2(16 - k) <= 8
  {
    hide Pow2, Shl;
    Pow2Values();
  }

  lemma {:induction false} BlockBound(src: Source, limit: nat, offset: nat, bit: nat, tag: nat, out: nat, used: nat)
    requires offset <= limit && used + (limit - offset) <= 4096 && out <= 4114 + 5 * used
    ensures out + Length(ParseBlock(src, limit, offset, bit, tag, out).items) <= 4114 + 5 * (used + (limit - offset))
    decreases limit - offset, 1
  {
    if offset != limit {
      if bit > 0 {
        ValueBound(src, limit, offset, bit, tag, out, used);
      } else if offset + 1 != limit {
        ValueBound(src, limit, offset + 1, 0, src(offset), out, used + 1);
      }
    }
  }

  lemma {:induction false} ValueBound(src: Source, limit: nat, offset: nat, bit: nat, tag: nat, out: nat, used: nat)
    requires offset < limit && used + (limit - offset) <= 4096 && out <= 4114 + 5 * used
    ensures out + Length(ParseValue(src, limit, offset, bit, tag, out).items) <= 4114 + 5 * (used + (limit - offset))
    decreases limit - offset, 0
  {
    hide Low, Shr, Width;
    if tag % 2 == 0 {
      var p := ParseBlock(src, limit, offset + 1, (bit + 1) % 8, tag / 2, out + 1);
      BlockBound(src, limit, offset + 1, (bit + 1) % 8, tag / 2, out + 1, used + 1);
      LengthCons(Literal(src(offset)), p.items);
    } else if offset + 2 <= limit {
      MatchBound(out, Word(src, offset));
      var item := Value(Word(src, offset), SplitNat(out));
      var p := ParseBlock(src, limit, offset + 2, (bit + 1) % 8, tag / 2, out + item.len);
      BlockBound(src, limit, offset + 2, (bit + 1) % 8, tag / 2, out + item.len, used + 2);
      LengthCons(item, p.items);
    }
  }

  /** No block of at most 4096 bytes expands to more than 24594. */
  lemma BlockSize(src: Source, limit: nat, offset: nat)
    requires offset <= limit <= offset + 4096
    ensures Length(ParseBlock(src, limit, offset, 0, 0, 0).items) <= 24594
  {
    BlockBound(src, limit, offset, 0, 0, 0, 0);
  }

  // The block decoder

  /** Narrow the length field while the output exceeds its threshold. */
  method UpdateSplit(out: nat, split0: nat, threshold0: nat) returns (split: nat, threshold: nat)
    requires out <= 32768 && 1 <= split0 <= 12 && threshold0 == Pow2(16 - split0)
    requires Width(out, 4) == Width(out, 16 - split0)
    ensures 1 <= split <= 12 && split == SplitAt(out) && threshold == Pow2(16 - split) && out <= threshold
  {
    hide Pow2;
    Pow2Values();
    split, threshold := split0, threshold0;
    while out > threshold
      invariant 1 <= split <= 12 && threshold == Pow2(16 - split)
      invariant Width(out, 4) == Width(out, 16 - split)
      decreases split
    {
      Pow2Grows(16 - split);
      split := split - 1;
      threshold := 2 * threshold;
    }
  }

  /** The widths met so far are still below the width of a longer output. */
  lemma {:induction false} WidthGrows(a: nat, b: nat, k: nat)
    requires a <= b
    ensures Width(b, k) == Width(b, Width(a, k))
    decreases a - Pow2(k)
  {
    Pow2Grows(k);
    if a > Pow2(k) { WidthGrows(a, b, k + 1); }
  }

  /** Whether decoding from here is the rest of a whole decoding. */
  ghost predicate Pending(whole: Parsed, done: seq<Item>, src: Source, limit: nat, offset: nat, bit: nat, tag: nat, out: nat)
    requires offset <= limit
  {
    out == Length(done) && whole == After(done, ParseBlock(src, limit, offset, bit, tag, out))
  }

  ghost predicate PendingHere(whole: Parsed, done: seq<Item>, src: Source, limit: nat, offset: nat, bit: nat, tag: nat, out: nat)
    requires offset < limit
  {
    out == Length(done) && whole == After(done, ParseValue(src, limit, offset, bit, tag, out))
  }

  lemma PendingTag(whole: Parsed, done: seq<Item>, src: Source, limit: nat, offset: nat, bit: nat, tag: nat, out: nat)
    requires offset < limit && Pending(whole, done, src, limit, offset, bit, tag, out)
    ensures out == Length(done)
    ensures bit > 0 ==> PendingHere(whole, done, src, limit, offset, bit, tag, out)
    ensures bit == 0 && offset + 1 == limit ==> whole == Parsed(true, done)
    ensures bit == 0 && offset + 1 < limit ==> PendingHere(whole, done, src, limit, offset + 1, 0, src(offset), out)
  {
  }

  lemma PendingStops(whole: Parsed, done: seq<Item>, src: Source, limit: nat, bit: nat, tag: nat, out: nat)
    ensures Pending(whole, done, src, limit, limit, bit, tag, out) ==> whole == Parsed(true, done) && out == Length(done)
    ensures limit > 0 && tag % 2 == 1 && PendingHere(whole, done, src, limit, limit - 1, bit, tag, out) ==> whole == Parsed(false, done)
  {
  }

  lemma PendingValue(whole: Parsed, done: seq<Item>, src: Source, limit: nat, offset: nat, bit: nat, tag: nat, out: nat, item: Item, next: nat)
    requires offset < limit && PendingHere(whole, done, src, limit, offset, bit, tag, out)
    requires offset < next <= limit && next == offset + (if tag % 2 == 1 then 2 else 1)
    requires item == if tag % 2 == 1 then Value(Word(src, offset), SplitNat(out)) else Literal(src(offset))
    ensures Pending(whole, done + [item], src, limit, next, (bit + 1) % 8, tag / 2, out + Size(item))
    ensures out + Size(item) <= Length(whole.items)
  {
    hide ParseBlock, ParseValue, Length, Value, Word, SplitNat;
    var rest := ParseBlock(src, limit, next, (bit + 1) % 8, tag / 2, out + Size(item));
    ValueStep(src, limit, offset, bit, tag, out, item, next);
    AfterAfter(done, [item], rest);
    LengthAppend(done, [item]);
    LengthAppend(done + [item], rest.items);
    SingleLength(item);
  }

  lemma ValueStep(src: Source, limit: nat, offset: nat, bit: nat, tag: nat, out: nat, item: Item, next: nat)
    requires offset < next <= limit && next == offset + (if tag % 2 == 1 then 2 else 1)
    requires item == if tag % 2 == 1 then Value(Word(src, offset), SplitNat(out)) else Literal(src(offset))
    ensures ParseValue(src, limit, offset, bit, tag, out) ==
            After([item], ParseBlock(src, limit, next, (bit + 1) % 8, tag / 2, out + Size(item)))
  {
    hide ParseBlock, Word, SplitNat, Shr, Low;
  }

  lemma Opening(src: Source, limit: nat, start: nat, before: seq<byte>, below: Below, base: nat)
    requires start <= limit
    ensures Length([]) == 0 && Width(0, 4) == 4 && Pow2(4) == 16
    ensures Pending(ParseBlock(src, limit, start, 0, 0, 0), [], src, limit, start, 0, 0, 0)
    ensures base <= |before| ==> Wrote(before, before, below, base, [])
  {
    Pow2Values();
  }

  /** lznt1_block: the block goes after the first `base` bytes of the buffer, if there is one. */
  method DecompressBlock(src: Source, limit: nat, start: nat, buf: array?<byte>, base: nat, below: Below) returns (r: int)
    requires start <= limit <= start + 4096
    requires buf != null ==> base + Length(ParseBlock(src, limit, start, 0, 0, 0).items) <= buf.Length
    modifies buf
    ensures var p := ParseBlock(src, limit, start, 0, 0, 0);
            && r == Outcome(p)
            && (buf != null ==> Wrote(buf[..], old(buf[..]), below, base, p.items))
  {
    hide Low, Shr, Width, Length, ParseBlock, ParseValue, Wrote, Pending, PendingHere;
    ghost var whole, done := ParseBlock(src, limit, start, 0, 0, 0), [];
    ghost var before := if buf == null then [] else buf[..];
    var offset, out, split, threshold, bit, tag := start, 0, 12, 16, 0, 0;
    Opening(src, limit, start, before, below, base);
    while offset != limit
      invariant start <= offset <= limit && out >= 0 && tag >= 0 && 0 <= bit < 8
      invariant Pending(whole, done, src, limit, offset, bit, tag, out)
      invariant 1 <= split <= 12 && split == SplitAt(out) && threshold == Pow2(16 - split)
      invariant out <= 4114 + 5 * (offset - start)
      invariant buf != null ==> Wrote(buf[..], before, below, base, done)
    {
      PendingTag(whole, done, src, limit, offset, bit, tag, out);
      if bit == 0 {
        tag := src(offset);
        offset := offset + 1;
        if offset == limit { return out; }
      }
      var item, next;
      if tag % 2 == 1 {
        if offset + 2 > limit {
          PendingStops(whole, done, src, limit, bit, tag, out);
          return -1;
        }
        item, next := Value(Word(src, offset), split), offset + 2;
        MatchBound(out, Word(src, offset));
      } else {
        item, next := Literal(src(offset)), offset + 1;
      }
      PendingValue(whole, done, src, limit, offset, bit, tag, out, item, next);
      Append(buf, before, base, base + out, done, item, below);
      WidthGrows(out, out + Size(item), 4);
      offset, out, done := next, out + Size(item), done + [item];
      split, threshold := UpdateSplit(out, split, threshold);
      bit, tag := (bit + 1) % 8, tag / 2;
    }
    PendingStops(whole, done, src, limit, bit, tag, out);
    return out;
  }

  // The stream of blocks

  /** The items of the blocks from an offset to the end of the input. */
  function Parse(src: Source, len: nat, offset: nat): Parsed
    decreases if offset <= len then len - offset + 1 else 0
  {
    if offset == len || (offset + 1 == len && src(offset) == 0) then Parsed(true, [])
    else if offset + 2 > len then Parsed(false, [])
    else
      var header, at := Word(src, offset), offset + 2;
      var next := at + header % 4096 + 1;
      if header >= 0x8000 then
        var p := ParseBlock(src, next, at, 0, 0, 0);
        if p.ok then After(p.items, Parse(src, len, next)) else p
      else if next > len then Parsed(false, [])
      else After(Literals(Slice(src, at, next - at)), Parse(src, len, next))
  }

  ghost predicate Remains(whole: Parsed, done: seq<Item>, src: Source, len: nat, offset: nat) {
    whole == After(done, Parse(src, len, offset))
  }

  lemma RemainsStep(whole: Parsed, done: seq<Item>, more: seq<Item>, src: Source, len: nat, offset: nat, next: nat)
    requires Remains(whole, done, src, len, offset)
    requires Parse(src, len, offset) == After(more, Parse(src, len, next))
    ensures Remains(whole, done + more, src, len, next)
    ensures Length(done) + Length(more) <= Length(whole.items)
  {
    var rest := Parse(src, len, next);
    AfterAfter(done, more, rest);
    LengthAppend(done, more);
    LengthAppend(done + more, rest.items);
  }

  lemma RemainsFirst(src: Source, len: nat)
    ensures Remains(Parse(src, len, 0), [], src, len, 0)
  {
  }

  lemma RemainsFails(whole: Parsed, done: seq<Item>, p: Parsed, src: Source, len: nat, offset: nat)
    requires Remains(whole, done, src, len, offset) && Parse(src, len, offset) == p
    ensures whole == Parsed(p.ok, done + p.items) && (p.items == [] ==> whole.items == done)
    ensures Length(whole.items) == Length(done) + Length(p.items)
  {
    LengthAppend(done, p.items);
  }

  /** memcpy of an uncompressed block */
  method Store(src: Source, at: nat, n: nat, buf: array?<byte>, ghost before: seq<byte>, ghost done: seq<Item>, out: nat, below: Below)
    requires out == Length(done)
    requires buf != null ==> out + n <= buf.Length && Wrote(buf[..], before, below, 0, done)
    modifies buf
    ensures buf != null ==> Wrote(buf[..], before, below, 0, done + Literals(Slice(src, at, n)))
  {
    hide Wrote, Length;
    ghost var bytes, written := Slice(src, at, n), done;
    assert written == done + Literals(bytes[..0]);
    for i := 0 to n
      invariant written == done + Literals(bytes[..i])
      invariant out + i == Length(written)
      invariant buf != null ==> Wrote(buf[..], before, below, 0, written)
    {
      Append(buf, before, 0, out + i, written, Literal(src(at + i)), below);
      assert Literals(bytes[..i]) + [Literal(src(at + i))] == Literals(bytes[..i + 1]);
      LengthAppend(written, [Literal(src(at + i))]);
      SingleLength(Literal(src(at + i)));
      written := written + [Literal(src(at + i))];
    }
    assert bytes[..n] == bytes;
  }

  /**
   * lznt1_decompress: the same value with and without a buffer, and in a buffer the
   * expansion of the parsed items at positions below that value and nowhere else.
   */
  method Decompress(src: Source, len: nat, buf: array?<byte>, below: Below) returns (r: int)
    requires buf != null ==> Length(Parse(src, len, 0).items) <= buf.Length
    modifies buf
    ensures r == Outcome(Parse(src, len, 0))
    ensures buf != null ==> Wrote(buf[..], old(buf[..]), below, 0, Parse(src, len, 0).items)
  {
    hide Wrote, Length, ParseBlock, Slice, Literals, Expand, Word, Remains;
    ghost var whole, done := Parse(src, len, 0), [];
    ghost var before := if buf == null then [] else buf[..];
    RemainsFirst(src, len);
    var offset, out := 0, 0;
    assert Length([]) == 0 && (buf != null ==> Wrote(before, before, below, 0, [])) by { Opening(src, 0, 0, before, below, 0); }
    while offset != len
      invariant offset >= 0 && out == Length(done)
      invariant Remains(whole, done, src, len, offset)
      invariant buf != null ==> Wrote(buf[..], before, below, 0, done)
      decreases if offset <= len then len - offset + 1 else 0
    {
      RemainsFails(whole, done, Parse(src, len, offset), src, len, offset);
      if offset + 1 == len && src(offset) == 0 { return out; }
      if offset + 2 > len { return -1; }
      var header, at := Word(src, offset), offset + 2;
      var n := header % 4096 + 1;
      if header >= 0x8000 {
        ghost var p := ParseBlock(src, at + n, at, 0, 0, 0);
        if p.ok { RemainsStep(whole, done, p.items, src, len, offset, at + n); }
        ghost var now := if buf == null then [] else buf[..];
        var rc := DecompressBlock(src, at + n, at, buf, out, below);
        if buf != null { WroteAppend(before, now, buf[..], below, done, p.items); }
        if rc < 0 { return rc; }
        LengthAppend(done, p.items);
        offset, out, done := at + n, out + rc, done + p.items;
      } else {
        if at + n > len { return -1; }
        ghost var more := Literals(Slice(src, at, n));
        RemainsStep(whole, done, more, src, len, offset, at + n);
        LengthAppend(done, more);
        ExpandLiterals(below, [], Slice(src, at, n));
        Store(src, at, n, buf, before, done, out, below);
        offset, out, done := at + n, out + n, done + more;
      }
    }
    RemainsFails(whole, done, Parse(src, len, offset), src, len, offset);
    return out;
  }

  // The format

  /** A match fits the field widths in force after `out` bytes of the block. */
  predicate Encodable(item: Item, out: nat) {
    item.Match? ==> 3 <= item.len < 3 + Pow2(SplitNat(out)) && item.offset <= Pow2(16 - SplitNat(out))
  }

  predicate AllEncodable(items: seq<Item>, out: nat)
    decreases |items|
  {
    items == [] || (Encodable(items[0], out) && AllEncodable(items[1..], out + Size(items[0])))
  }

  function EncodeItem(item: Item, out: nat): (r: seq<byte>)
    requires Encodable(item, out)
    ensures |r| == (if item.Literal? then 1 else 2)
  {
    if item.Literal? then [item.b] else LE(Shl(item.offset - 1, SplitNat(out)) + (item.len - 3), 2)
  }

  /** One flag per item, the first in the lowest bit. */
  function TagOf(items: seq<Item>): (r: nat)
    ensures r < Pow2(|items|)
  {
    if items == [] then 0 else (if items[0].Match? then 1 else 0) + 2 * TagOf(items[1..])
  }

  function Group(items: seq<Item>, n: nat): (r: seq<Item>)
    ensures |r| <= n
  {
    if |items| <= n then items else items[..n]
  }

  function Tag(items: seq<Item>): byte {
    TagIsByte(Group(items, 8));
    TagOf(Group(items, 8))
  }

  lemma TagIsByte(items: seq<Item>)
    requires |items| <= 8
    ensures TagOf(items) < 256
  {
    hide Pow2;
    Pow2Values();
  }

  /** The bytes of a block: a tag byte before each group of eight items. */
  function Encode(items: seq<Item>, out: nat, bit: nat): seq<byte>
    requires AllEncodable(items, out)
    decreases |items|
  {
    if items == [] then [] else
      (if bit == 0 then [Tag(items)] else [])
      + EncodeItem(items[0], out)
      + Encode(items[1..], out + Size(items[0]), (bit + 1) % 8)
  }

  lemma ValueRoundTrip(item: Item, out: nat)
    requires item.Match? && Encodable(item, out)
    ensures var v := Shl(item.offset - 1, SplitNat(out)) + (item.len - 3);
            v < 0x1_0000 && Value(v, SplitNat(out)) == item
  {
    hide Low, Shr, Shl, Pow2;
    PackBound(item.offset, item.len - 3, SplitNat(out));
    Split(item.offset - 1, item.len - 3, SplitNat(out));
  }

  lemma PackBound(a: nat, b: nat, k: nat)
    requires k <= 16 && 0 < a <= Pow2(16 - k) && b < Pow2(k)
    ensures Shl(a - 1, k) + b < 0x1_0000
  {
    assert Pow2(16) == 0x1_0000 by { Pow2Values(); }
    ShlAdd(a - 1, 1, k);
    ShlCompare(Pow2(16 - k), a, k);
    ShlShl(1, 16 - k, k);
    hide Shl;
  }

  lemma TagStep(items: seq<Item>, n: nat)
    requires items != [] && n > 0
    ensures TagOf(Group(items, n)) % 2 == (if items[0].Match? then 1 else 0)
    ensures TagOf(Group(items, n)) / 2 == TagOf(Group(items[1..], n - 1))
  {
    var g := Group(items, n);
    assert g[0] == items[0] && g[1..] == Group(items[1..], n - 1);
  }

  /** Parsing a block of the format gives back its items. */
  lemma {:induction false} BlockRoundTrip(src: Source, items: seq<Item>, offset: nat, bit: nat, tag: nat, out: nat)
    requires AllEncodable(items, out) && bit < 8
    requires HoldsAt(src, offset, Encode(items, out, bit))
    requires bit > 0 ==> tag == TagOf(Group(items, 8 - bit))
    ensures ParseBlock(src, offset + |Encode(items, out, bit)|, offset, bit, tag, out) == Parsed(true, items)
    decreases |items|, 1
  {
    hide HoldsAt, TagOf, Group, EncodeItem, Width, ParseValue;
    if items != [] {
      var code := EncodeItem(items[0], out);
      var rest := Encode(items[1..], out + Size(items[0]), (bit + 1) % 8);
      var limit := offset + |Encode(items, out, bit)|;
      if bit == 0 {
        assert Encode(items, out, bit) == [Tag(items)] + (code + rest);
        HoldsParts(src, offset, [Tag(items)], code + rest);
        ByteHeld(src, offset, Tag(items));
        ItemRoundTrip(src, items, offset + 1, bit, Tag(items), out, limit);
      } else {
        assert Encode(items, out, bit) == code + rest;
        ItemRoundTrip(src, items, offset, bit, tag, out, limit);
      }
    } else {
      assert Encode(items, out, bit) == [];
    }
  }

  lemma {:induction false} ItemRoundTrip(src: Source, items: seq<Item>, offset: nat, bit: nat, tag: nat, out: nat, limit: nat)
    requires items != [] && AllEncodable(items, out) && bit < 8
    requires var s := EncodeItem(items[0], out) + Encode(items[1..], out + Size(items[0]), (bit + 1) % 8);
             HoldsAt(src, offset, s) && limit == offset + |s|
    requires tag == TagOf(Group(items, 8 - bit))
    ensures ParseValue(src, limit, offset, bit, tag, out) == Parsed(true, items)
    decreases |items|, 0
  {
    hide HoldsAt, TagOf, Group, LE, Shl, Low, Shr, Word;
    var item, bit', out' := items[0], (bit + 1) % 8, out + Size(items[0]);
    var code, rest := EncodeItem(item, out), Encode(items[1..], out', bit');
    HoldsParts(src, offset, code, rest);
    TagStep(items, 8 - bit);
    LastTag(items[1..], bit);
    BlockRoundTrip(src, items[1..], offset + |code|, bit', tag / 2, out');
    assert [item] + items[1..] == items;
    if item.Match? {
      ValueRoundTrip(item, out);
      WordHeld(src, offset, Shl(item.offset - 1, SplitNat(out)) + (item.len - 3));
    } else {
      ByteHeld(src, offset, item.b);
    }
  }

  lemma LastTag(items: seq<Item>, bit: nat)
    requires bit < 8
    ensures (bit + 1) % 8 > 0 ==> Group(items, 8 - bit - 1) == Group(items, 8 - (bit + 1) % 8)
  {
  }

  datatype Chunk = Compressed(items: seq<Item>) | Stored(data: seq<byte>)

  function Body(c: Chunk): seq<byte>
    requires c.Compressed? ==> AllEncodable(c.items, 0)
  {
    if c.Compressed? then Encode(c.items, 0, 0) else c.data
  }

  predicate ValidChunk(c: Chunk) {
    (c.Compressed? ==> AllEncodable(c.items, 0)) && 1 <= |Body(c)| <= 4096
  }

  function ChunkItems(c: Chunk): seq<Item> {
    if c.Compressed? then c.items else Literals(c.data)
  }

  /** Signature 3, the compression flag and the length less one. */
  function Header(c: Chunk): (r: nat)
    requires ValidChunk(c)
    ensures r < 0x1_0000
  {
    (if c.Compressed? then 0xB000 else 0x3000) + |Body(c)| - 1
  }

  function EncodeChunks(chunks: seq<Chunk>): seq<byte>
    requires forall i :: 0 <= i < |chunks| ==> ValidChunk(chunks[i])
  {
    if chunks == [] then [] else
      LE(Header(chunks[0]), 2) + (Body(chunks[0]) + EncodeChunks(chunks[1..]))
  }

  function AllItems(chunks: seq<Chunk>): seq<Item> {
    if chunks == [] then [] else ChunkItems(chunks[0]) + AllItems(chunks[1..])
  }

  /** Parsing a stream of the format, with or without an end marker, gives back its items. */
  lemma {:induction false} StreamRoundTrip(src: Source, chunks: seq<Chunk>, offset: nat, len: nat, end: seq<byte>)
    requires forall i :: 0 <= i < |chunks| ==> ValidChunk(chunks[i])
    requires end == [] || end == [0]
    requires HoldsAt(src, offset, EncodeChunks(chunks) + end) && len == offset + |EncodeChunks(chunks)| + |end|
    ensures Parse(src, len, offset) == Parsed(true, AllItems(chunks))
    decreases |chunks|
  {
    hide HoldsAt, LE, Encode, AllEncodable, ParseBlock, Word, Slice, Header;
    if chunks == [] {
      HoldsParts(src, offset, [], end);
      if end == [0] { ByteHeld(src, offset, 0); }
    } else {
      var c, rest := chunks[0], EncodeChunks(chunks[1..]);
      var head := LE(Header(c), 2);
      assert EncodeChunks(chunks) + end == head + (Body(c) + (rest + end));
      HoldsParts(src, offset, head, Body(c) + (rest + end));
      HoldsParts(src, offset + 2, Body(c), rest + end);
      WordHeld(src, offset, Header(c));
      ChunkRoundTrip(src, c, offset + 2);
      ChunkStep(src, len, offset, c);
      hide Parse;
      StreamRoundTrip(src, chunks[1..], offset + 2 + |Body(c)|, len, end);
    }
  }

  /** What the decoder makes of a chunk, given its header. */
  lemma ChunkStep(src: Source, len: nat, offset: nat, c: Chunk)
    requires ValidChunk(c) && Word(src, offset) == Header(c) && offset + 2 + |Body(c)| <= len
    requires c.Compressed? ==> ParseBlock(src, offset + 2 + |Body(c)|, offset + 2, 0, 0, 0) == Parsed(true, c.items)
    requires c.Stored? ==> Slice(src, offset + 2, |Body(c)|) == c.data
    ensures Parse(src, len, offset) == After(ChunkItems(c), Parse(src, len, offset + 2 + |Body(c)|))
  {
    hide Encode, AllEncodable, ParseBlock, Word, Slice;
    HeaderFields(|Body(c)|);
  }

  lemma HeaderFields(n: nat)
    requires 1 <= n <= 4096
    ensures (0xB000 + n - 1) % 4096 + 1 == n && (0x3000 + n - 1) % 4096 + 1 == n
  {
  }

  lemma ChunkRoundTrip(src: Source, c: Chunk, at: nat)
    requires ValidChunk(c) && HoldsAt(src, at, Body(c))
    ensures c.Compressed? ==> ParseBlock(src, at + |Body(c)|, at, 0, 0, 0) == Parsed(true, c.items)
    ensures c.Stored? ==> Slice(src, at, |Body(c)|) == c.data
  {
    if c.Compressed? { BlockRoundTrip(src, c.items, at, 0, 0, 0); }
  }
}
