/** The LZX decompressor (src/lzx.c, lzx_raw_alphabet to lzx_decompress). */
module LzxDecoder {
  import opened Bytes
  import opened Huffman
  import opened Lz
  import opened LzxBits
  import opened Lzx
  import opened LzxJumps

  /** The lengths loop of lzx_raw_alphabet */
  method GetLengths(r: Reader, n: nat, bits: nat) returns (ok: bool, ls: seq<nat>)
    requires r.Valid() && bits <= 4 && n < 0x1_0000
    modifies r
    ensures r.Valid() && Inside(r.data, old(r.At()))
    ensures ok <==> ReadLengths(r.data, old(r.At()), n, bits).Ok?
    ensures ok ==> ReadLengths(r.data, old(r.At()), n, bits) == Ok((ls, r.At()))
  {
    hide GetBits, Reader.Valid, ReadLengths;
    ghost var p := r.At();
    ls := [];
    r.Facts();
    NoneRead(r.data, p, bits);
    for i := 0 to n
      invariant r.Valid() && Inside(r.data, p)
      invariant ReadLengths(r.data, p, i, bits) == Ok((ls, r.At()))
    {
      OneRead(r.data, p, i + 1, n, bits);
      var v := r.GetValue(bits);
      if v < 0 { return false, ls; }
      ls := ls + [v];
    }
    ok := true;
  }

  lemma NoneRead(data: seq<byte>, p: Place, bits: nat)
    requires Inside(data, p) && bits <= 4
    ensures ReadLengths(data, p, 0, bits) == Ok(([], p))
  {
  }

  /** One more length is read, or reading all of them fails. */
  lemma {:induction false} OneRead(data: seq<byte>, p: Place, i: nat, n: nat, bits: nat)
    requires Inside(data, p) && bits <= 4 && 0 < i <= n < 0x1_0000
    requires ReadLengths(data, p, i - 1, bits).Ok?
    ensures var (ls, p') := ReadLengths(data, p, i - 1, bits).value;
            var v := GetBits(data, p', bits);
            && (v.Ok? ==> ReadLengths(data, p, i, bits) == Ok((ls + [v.value.0], v.value.1)))
            && (!v.Ok? ==> !ReadLengths(data, p, n, bits).Ok?)
    decreases n
  {
    if i < n {
      OneRead(data, p, i, n - 1, bits);
    }
  }

  /** The next code length from the pretree. */
  method GetChange(r: Reader, a: Alphabet, ghost pre: seq<nat>, was: nat) returns (ok: bool, len: nat, dup: nat)
    requires r.Valid() && Built(pre) && |pre| == PRETREE_CODES && was <= 16 && a.Describes(pre)
    requires !Change(r.data, r.At(), pre, was).Undef?
    modifies r
    ensures r.Valid() && Inside(r.data, old(r.At()))
    ensures ok <==> Change(r.data, old(r.At()), pre, was).Ok?
    ensures ok ==> Change(r.data, old(r.At()), pre, was) == Ok((len, dup, r.At()))
  {
    hide GetBits, DecodeSymbol, Reader.Valid, Built, Unused, Alphabet.Describes;
    ok, len, dup := false, 0, 0;
    var code := r.Decode(a, pre);
    if code < 0 { return; }
    if code <= 16 {
      return true, (was + 17 - code) % 17, 0;
    }
    var count := r.GetValue(if code == 17 then 4 else if code == 18 then 5 else 1);
    if count < 0 { return; }
    if code == 17 { return true, 0, count + 3; }
    if code == 18 { return true, 0, count + 19; }
    code := r.Decode(a, pre);
    if code < 0 { return; }
    return true, (was + 17 - code) % 17, count + 3;
  }

  /** Storage for an alphabet of `n` symbols. */
  predicate Roomy(a: Alphabet, n: nat)
    reads a
  {
    |a.lookup| == QL_SIZE && |a.raw| == n
  }

  /** One turn of the loop in lzx_pretree, on values. */
  lemma LengthsStep(data: seq<byte>, p: Place, pre: seq<nat>, ls: seq<nat>, i: nat, dup: nat)
    requires Inside(data, p) && Built(pre) && |pre| == PRETREE_CODES && ValidLengths(ls)
    requires i < |ls| && (dup > 0 ==> i > 0)
    ensures dup > 0 ==> ValidLengths(ls[i := ls[i - 1]])
    ensures dup > 0 ==> Lengths(data, p, pre, ls, i, dup) == Lengths(data, p, pre, ls[i := ls[i - 1]], i + 1, dup - 1)
    ensures ls[i] <= 16
    ensures dup == 0 ==>
              var c := Change(data, p, pre, ls[i]);
              && (c.Fail? ==> Lengths(data, p, pre, ls, i, dup).Fail?)
              && (c.Undef? ==> Lengths(data, p, pre, ls, i, dup).Undef?)
              && (c.Ok? ==> ValidLengths(ls[i := c.value.0]))
              && (c.Ok? ==> Lengths(data, p, pre, ls, i, dup) == Lengths(data, c.value.2, pre, ls[i := c.value.0], i + 1, c.value.1))
  {
    hide Change, Built;
  }

  lemma LengthsStop(data: seq<byte>, p: Place, pre: seq<nat>, ls: seq<nat>, dup: nat)
    requires Inside(data, p) && Built(pre) && |pre| == PRETREE_CODES && ValidLengths(ls) && (dup > 0 ==> |ls| > 0)
    ensures Lengths(data, p, pre, ls, |ls|, dup) == if dup > 0 then Fail else Ok((ls, p))
  {
  }

  /** The lengths loop of lzx_pretree */
  method ReadCoded(r: Reader, a: Alphabet, ghost pre: seq<nat>, was: seq<nat>) returns (ok: bool, ls: seq<nat>)
    requires r.Valid() && Built(pre) && |pre| == PRETREE_CODES && a.Describes(pre) && ValidLengths(was)
    requires !Lengths(r.data, r.At(), pre, was, 0, 0).Undef?
    modifies r
    ensures r.Valid() && Inside(r.data, old(r.At()))
    ensures ok <==> Lengths(r.data, old(r.At()), pre, was, 0, 0).Ok?
    ensures ok ==> Lengths(r.data, old(r.At()), pre, was, 0, 0) == Ok((ls, r.At()))
  {
    hide Reader.Valid, Built, Unused, ValidLengths, Alphabet.Describes, Lengths, Change;
    r.Facts();
    ghost var goal := Lengths(r.data, r.At(), pre, was, 0, 0);
    var dup := 0;
    ls := was;
    for i := 0 to |was|
      invariant r.Valid() && Inside(r.data, r.At()) && ValidLengths(ls) && |ls| == |was| && dup >= 0 && (dup > 0 ==> i > 0)
      invariant Lengths(r.data, r.At(), pre, ls, i, dup) == goal
    {
      LengthsStep(r.data, r.At(), pre, ls, i, dup);
      if dup > 0 {
        ls := ls[i := ls[i - 1]];
        dup := dup - 1;
      } else {
        var len;
        ok, len, dup := GetChange(r, a, pre, ls[i]);
        if !ok { return; }
        ls := ls[i := len];
        r.Facts();
      }
    }
    LengthsStop(r.data, r.At(), pre, ls, dup);
    ok := dup == 0;
  }

  /** lzx_pretree */
  method GetPretree(r: Reader, a: Alphabet, was: seq<nat>) returns (ok: bool, ls: seq<nat>)
    requires r.Valid() && Roomy(a, PRETREE_CODES) && ValidLengths(was)
    requires !Pretree(r.data, r.At(), was).Undef?
    modifies r, a
    ensures r.Valid() && Inside(r.data, old(r.At())) && Roomy(a, PRETREE_CODES)
    ensures ok <==> Pretree(r.data, old(r.At()), was).Ok?
    ensures ok ==> Pretree(r.data, old(r.At()), was) == Ok((ls, r.At()))
  {
    hide Reader.Valid, Unused, Kraft, ValidLengths, Alphabet.Describes, Lengths, ReadLengths;
    var pre;
    ls := was;
    ok, pre := GetLengths(r, PRETREE_CODES, 4);
    if ok {
      ok := a.Build(pre);
    }
    if ok {
      ok, ls := ReadCoded(r, a, pre, was);
    }
  }

  /** lzx_main_alphabet */
  method GetMain(r: Reader, pretree: Alphabet, main: Alphabet, was: seq<nat>) returns (ok: bool, ls: seq<nat>)
    requires r.Valid() && Roomy(pretree, PRETREE_CODES) && Roomy(main, MAIN_CODES) && pretree != main
    requires |was| == MAIN_CODES && ValidLengths(was) && !MainTable(r.data, r.At(), was).Undef?
    modifies r, pretree, main
    ensures r.Valid() && Inside(r.data, old(r.At())) && Roomy(pretree, PRETREE_CODES) && Roomy(main, MAIN_CODES)
    ensures ok <==> MainTable(r.data, old(r.At()), was).Ok?
    ensures ok ==> MainTable(r.data, old(r.At()), was) == Ok((ls, r.At())) && main.Describes(ls)
  {
    hide Reader.Valid, Unused, Kraft, Alphabet.Describes, Pretree;
    var literals, remainder;
    ls := was;
    ok, literals := GetPretree(r, pretree, was[..LITERALS]);
    if !ok { return; }
    ok, remainder := GetPretree(r, pretree, was[LITERALS..]);
    if !ok { return; }
    ls := literals + remainder;
    ok := main.Build(ls);
  }

  /** lzx_length_alphabet */
  method GetLength(r: Reader, pretree: Alphabet, length: Alphabet, was: seq<nat>) returns (ok: bool, ls: seq<nat>)
    requires r.Valid() && Roomy(pretree, PRETREE_CODES) && Roomy(length, LENGTH_CODES) && pretree != length
    requires |was| == LENGTH_CODES && ValidLengths(was) && !LengthTable(r.data, r.At(), was).Undef?
    modifies r, pretree, length
    ensures r.Valid() && Inside(r.data, old(r.At())) && Roomy(pretree, PRETREE_CODES) && Roomy(length, LENGTH_CODES)
    ensures ok <==> LengthTable(r.data, old(r.At()), was).Ok?
    ensures ok ==> LengthTable(r.data, old(r.At()), was) == Ok((ls, r.At())) && length.Describes(ls)
  {
    hide Reader.Valid, Unused, Kraft, Alphabet.Describes, Pretree;
    ok, ls := GetPretree(r, pretree, was);
    if ok { ok := length.Build(ls); }
  }

  /** lzx_alignoffset_alphabet */
  method GetAlign(r: Reader, align: Alphabet) returns (ok: bool, ls: seq<nat>)
    requires r.Valid() && Roomy(align, ALIGN_CODES)
    modifies r, align
    ensures r.Valid() && Inside(r.data, old(r.At())) && Roomy(align, ALIGN_CODES)
    ensures ok <==> AlignTable(r.data, old(r.At())).Ok?
    ensures ok ==> AlignTable(r.data, old(r.At())) == Ok((ls, r.At())) && align.Describes(ls)
  {
    hide Reader.Valid, Unused, Kraft, Alphabet.Describes, ReadLengths;
    ok, ls := GetLengths(r, ALIGN_CODES, 3);
    if ok { ok := align.Build(ls); }
  }

  /** The start of lzx_block_header */
  method GetBlockStart(r: Reader) returns (ok: bool, kind: nat, len: nat)
    requires r.Valid()
    modifies r
    ensures r.Valid() && Inside(r.data, old(r.At()))
    ensures ok <==> BlockStart(r.data, old(r.At())).Ok?
    ensures ok ==> BlockStart(r.data, old(r.At())) == Ok((kind, len, r.At()))
  {
    hide Reader.Valid, GetBits;
    ok, kind, len := false, 0, 0;
    var v := r.GetValue(3);
    if v < 0 { return; }
    kind := v;
    v := r.GetValue(1);
    if v < 0 { return; }
    if v > 0 { return true, kind, DEFAULT_BLOCK_LEN; }
    var high := r.GetValue(8);
    if high < 0 { return; }
    var low := r.GetValue(8);
    if low < 0 { return; }
    return true, kind, 256 * high + low;
  }

  /** The offset of a match: repeated, or a base and footer bits, some of them coded in an aligned block. */
  method GetOffset(r: Reader, align: Alphabet, slot: nat, aligned: bool, rep: seq<nat>, base: seq<nat>, ghost s: State)
    returns (ok: bool, offset: nat, rep': seq<nat>)
    requires r.Valid() && Sound(r.data, s) && s.rep == rep && s.aligned == aligned && slot < SLOTS && (aligned ==> align.Describes(s.align))
    requires |base| == SLOTS && base[slot] == PositionBase(slot)
    modifies r
    ensures r.Valid() && Inside(r.data, old(r.At()))
    ensures ok <==> Offset(r.data, s, old(r.At()), slot).Ok?
    ensures ok ==> Offset(r.data, s, old(r.At()), slot) == Ok((offset, rep', r.At()))
  {
    hide Reader.Valid, GetBits, DecodeSymbol, Unused, Kraft, ValidLengths, Alphabet.Describes, PositionBase;
    if slot < 3 {
      r.Facts();
      return true, rep[slot], rep[slot := rep[0]][0 := rep[slot]];
    }
    ok, offset, rep' := false, 0, rep;
    var n := FooterBits(slot);
    var split, low := aligned && n >= 3, 0;
    var verbatim := r.GetValue(if split then n - 3 else n);
    if verbatim < 0 { return; }
    if split {
      verbatim := 8 * verbatim;
      r.Facts();
      low := r.Decode(align, s.align);
      if low < 0 { return; }
    }
    BaseBound(slot);
    offset := base[slot] + verbatim + low - 2;
    return true, offset, [offset, rep[0], rep[1]];
  }

  lemma BaseBound(slot: nat)
    ensures PositionBase(slot) >= slot
  {
  }

  /** Three repeated offsets of four bytes each. */
  method GetRepeated(r: Reader) returns (found: Option<seq<nat>>)
    requires r.Valid() && r.q == []
    modifies r
    ensures r.Valid() && r.q == [] && (found.Some? <==> old(r.offset) + 12 <= |r.data|)
    ensures r.offset == old(r.offset) + if found.Some? then 12 else 0
    ensures found.Some? ==> var at := old(r.offset);
              found.value == [FromLE(r.data[at..at + 4]), FromLE(r.data[at + 4..at + 8]), FromLE(r.data[at + 8..at + 12])]
  {
    hide FromLE, Reader.Valid;
    var bytes := r.GetBytes(12);
    if bytes.None? { return None; }
    var b := bytes.value;
    ghost var at := old(r.offset);
    assert b[0..4] == r.data[at..at + 4] && b[4..8] == r.data[at + 4..at + 8] && b[8..12] == r.data[at + 8..at + 12];
    return Some([FromLE(b[0..4]), FromLE(b[4..8]), FromLE(b[8..12])]);
  }

  /** The reading part of lzx_uncompressed: the repeated offsets and the contents. */
  method GetStored(r: Reader, len: nat) returns (found: Option<(seq<nat>, seq<byte>)>)
    requires r.Valid()
    modifies r
    ensures r.Valid() && Inside(r.data, old(r.At()))
    ensures var pad := GetBits(r.data, old(r.At()), 1);
            found.Some? <==> pad.Ok? && pad.value.1.offset + 12 + len <= |r.data|
    ensures found.Some? ==> var at := GetBits(r.data, old(r.At()), 1).value.1.offset;
              && r.At() == Place(at + 12 + len + len % 2, []) && found.value.1 == r.data[at + 12..at + 12 + len]
              && found.value.0 == [FromLE(r.data[at..at + 4]), FromLE(r.data[at + 4..at + 8]), FromLE(r.data[at + 8..at + 12])]
  {
    hide GetBits, FromLE, Reader.Valid;
    var ok := r.Align(1);
    if !ok { return None; }
    var offsets := GetRepeated(r);
    if offsets.None? { return None; }
    var bytes := r.GetBytes(len);
    if bytes.None? { return None; }
    return Some((offsets.value, bytes.value));
  }

  /** The table of base positions, built on first use. */
  method PositionBases() returns (base: seq<nat>)
    ensures |base| == SLOTS && forall i :: 0 <= i < SLOTS ==> base[i] == PositionBase(i)
  {
    base := [0];
    for i := 1 to SLOTS
      invariant |base| == i && forall k :: 0 <= k < i ==> base[k] == PositionBase(k)
    {
      base := base + [base[i - 1] + Pow2(FooterBits(i - 1))];
    }
  }

  class Decoder {
    const reader: Reader
    const pretree: Alphabet
    const main: Alphabet
    const length: Alphabet
    const align: Alphabet
    const base: seq<nat>
    var out: nat
    var threshold: nat
    var kind: nat
    var rep: seq<nat>
    var mainLengths: seq<nat>
    var lengthLengths: seq<nat>
    var alignLengths: seq<nat>
    /** No uncompressed block so far. */
    ghost var plain: bool

    constructor (data: seq<byte>)
      requires Even(|data|)
      ensures Valid() && reader.data == data && Now() == Start()
      ensures fresh(reader) && fresh(pretree) && fresh(main) && fresh(length) && fresh(align)
    {
      reader := new Reader(data);
      pretree := new Alphabet(PRETREE_CODES);
      main := new Alphabet(MAIN_CODES);
      length := new Alphabet(LENGTH_CODES);
      align := new Alphabet(ALIGN_CODES);
      var table := PositionBases();
      base := table;
      out, threshold, kind, rep, plain := 0, 0, 0, [1, 1, 1], true;
      mainLengths, lengthLengths, alignLengths := NoLengths(MAIN_CODES), NoLengths(LENGTH_CODES), NoLengths(ALIGN_CODES);
      new;
      StartSound(data);
    }

    ghost function Limit(): nat
      reads this
    {
      if kind == 3 then out else threshold
    }

    ghost function Now(): State
      reads this, reader
    {
      State(reader.At(), out, Limit(), kind == 2, rep, mainLengths, lengthLengths, alignLengths, plain)
    }

    ghost predicate Valid()
      reads this, reader, pretree, main, length, align
    {
      && reader.Valid() && Sound(reader.data, Now())
      && Roomy(pretree, PRETREE_CODES) && Roomy(main, MAIN_CODES) && Roomy(length, LENGTH_CODES) && Roomy(align, ALIGN_CODES)
      && pretree != main && pretree != length && pretree != align && main != length && main != align && length != align
      && |base| == SLOTS && forall i :: 0 <= i < SLOTS ==> base[i] == PositionBase(i)
    }

    lemma Facts()
      requires Valid()
      ensures reader.Valid() && Sound(reader.data, Now())
    {
    }

    /** The alphabets are those of the current block. */
    ghost predicate Ready()
      reads this, main, length, align
    {
      main.Describes(mainLengths) && length.Describes(lengthLengths) && (kind == 2 ==> align.Describes(alignLengths))
    }

    /** The alphabets of a verbatim or aligned offset block. */
    method GetTables() returns (ok: bool)
      requires Valid() && kind != 3 && !Tables(reader.data, Now()).Undef?
      modifies this, reader, pretree, main, length, align
      ensures reader.Valid()
      ensures ok <==> Tables(reader.data, old(Now())).Ok?
      ensures ok ==> Tables(reader.data, old(Now())) == Ok(Now()) && Valid() && Ready()
    {
      hide Alphabet.Describes, Reader.Valid, MainTable, LengthTable, AlignTable, Unused, Kraft;
      if kind == 2 {
        ok, alignLengths := GetAlign(reader, align);
        if !ok { return; }
      }
      ok, mainLengths := GetMain(reader, pretree, main, mainLengths);
      if !ok { return; }
      ok, lengthLengths := GetLength(reader, pretree, length, lengthLengths);
    }

    /** The repeated offsets and contents of an uncompressed block, for which the output does not advance. */
    method GetUncompressed(buf: array?<byte>, len: nat) returns (ok: bool)
      requires Valid() && kind == 3 && threshold == out + len
      requires buf != null && Uncompressed(reader.data, Now(), len).Ok? ==> threshold <= buf.Length
      modifies this, reader, buf
      ensures reader.Valid()
      ensures ok <==> Uncompressed(reader.data, old(Now()), len).Ok?
      ensures ok ==> Uncompressed(reader.data, old(Now()), len).value.0 == Now() && Valid() && kind == 3
      ensures ok && buf != null ==> buf[..] == Put(old(buf[..]), old(out), Uncompressed(reader.data, old(Now()), len).value.1)
      ensures !ok && buf != null ==> buf[..] == old(buf[..])
    {
      hide Alphabet.Describes, Unused, Kraft, GetBits, FromLE, Reader.Valid, Put;
      var found := GetStored(reader, len);
      if found.None? { return false; }
      rep, plain := found.value.0, false;
      ok := true;
      if buf != null { Blit(buf, out, found.value.1); }
    }

    /** lzx_block_header, and lzx_uncompressed where it applies. */
    method GetBlock(buf: array?<byte>) returns (ok: bool)
      requires Valid() && !Block(reader.data, Now()).Undef?
      requires buf != null && Block(reader.data, Now()).Ok? ==> out + |Block(reader.data, Now()).value.2| <= buf.Length
      modifies this, reader, pretree, main, length, align, buf
      ensures reader.Valid()
      ensures ok <==> Block(reader.data, old(Now())).Ok?
      ensures ok ==> Valid() && Block(reader.data, old(Now())).value.0 == Now() && (kind != 3 ==> Ready())
      ensures ok && buf != null ==> buf[..] == Put(old(buf[..]), old(out), Block(reader.data, old(Now())).value.2)
      ensures !ok && buf != null ==> buf[..] == old(buf[..])
    {
      hide Alphabet.Describes, Reader.Valid, Tables, Uncompressed, BlockStart, Unused, Kraft, ValidLengths;
      var len;
      ok, kind, len := GetBlockStart(reader);
      if !ok { return; }
      threshold := out + len;
      if kind == 1 || kind == 2 {
        ok := GetTables();
      } else if kind == 3 {
        ok := GetUncompressed(buf, len);
      } else {
        ok := false;
      }
    }

    /** The reading part of lzx_token: the next piece of output. */
    method GetPiece() returns (found: Option<Piece>)
      requires Valid() && Ready() && kind != 3
      modifies this, reader
      ensures reader.Valid()
      ensures found.Some? <==> Token(reader.data, old(Now())).Ok?
      ensures found.Some? ==> Token(reader.data, old(Now())) == Ok((found.value, Now())) && Valid() && Ready() && kind != 3
    {
      hide Alphabet.Describes, Reader.Valid, DecodeSymbol, MatchToken, Unused, Kraft, ValidLengths;
      var sym := reader.Decode(main, mainLengths);
      if sym < 0 { return None; }
      if sym < LITERALS {
        out := out + 1;
        return Some(Byte(sym));
      }
      found := GetMatch(sym - LITERALS, Now());
    }

    method GetMatch(sym: nat, ghost s: State) returns (found: Option<Piece>)
      requires Valid() && Ready() && kind != 3 && sym < MAIN_CODES - LITERALS && s == Now()
      modifies this, reader
      ensures reader.Valid()
      ensures found.Some? <==> MatchToken(reader.data, s, sym).Ok?
      ensures found.Some? ==> MatchToken(reader.data, s, sym) == Ok((found.value, Now())) && Valid() && Ready() && kind != 3
    {
      hide Alphabet.Describes, Reader.Valid, DecodeSymbol, Offset, Built, Inside, PositionBase, Roomy;
      var len := 0;
      if sym % 8 == 7 {
        len := reader.Decode(length, lengthLengths);
        if len < 0 { return None; }
      }
      len := sym % 8 + 2 + len;
      var ok, offset, rep' := GetOffset(reader, align, sym / 8, kind == 2, rep, base, s);
      if !ok || offset > out { return None; }
      rep, out := rep', out + len;
      return Some(Copy(offset, len));
    }
  }

  /** The copying part of lzx_token. */
  method WritePiece(buf: array<byte>, at: nat, x: Piece)
    requires at + PieceSize(x) <= buf.Length && (x.Copy? ==> x.offset <= at)
    modifies buf
    ensures buf[..] == Written(old(buf[..]), at, x)
  {
    if x.Byte? {
      buf[at] := x.b;
      return;
    }
    ghost var before := buf[..];
    for i := 0 to x.len
      invariant CopyWithin(before, at, x.offset, x.len) == CopyWithin(buf[..], at + i, x.offset, x.len - i)
    {
      ghost var now := buf[..];
      buf[at + i] := buf[at + i - x.offset];
      assert buf[..] == now[at + i := now[at + i - x.offset]];
    }
  }

  // Whole runs

  /** Decoding from `s` is the rest of a whole run. */
  ghost predicate Remains(whole: Run, data: seq<byte>, s: State) {
    && Sound(data, s)
    && var r := Parse(data, s); whole.status == r.status && whole.out == r.out
  }

  lemma RemainsNext(whole: Run, data: seq<byte>, s: State)
    requires Remains(whole, data, s)
    ensures var e := Next(data, s);
            && (e.Emit? || e.Begin? ==> Remains(whole, data, e.next))
            && (e.End? ==> whole.status.Good? && whole.out == s.out)
            && (e.Error? ==> whole.status.Bad?)
            && (e.Unknown? ==> whole.status.Undefined?)
  {
    hide Next, Sound;
  }

  /** What is left of the run takes the buffer from `now` to `goal`. */
  ghost predicate Leads(data: seq<byte>, s: State, now: seq<byte>, goal: seq<byte>) {
    Sound(data, s) && Parse(data, s).extent <= |now| && Effect(data, s, now) == goal
  }

  lemma LeadsNext(data: seq<byte>, s: State, now: seq<byte>, goal: seq<byte>)
    requires Leads(data, s, now, goal)
    ensures var e := Next(data, s);
            && (e.Emit? ==> e.next.out <= |now| && Leads(data, e.next, Written(now, s.out, e.x), goal))
            && (e.Begin? ==> s.out + |e.bytes| <= |now| && Leads(data, e.next, Put(now, s.out, e.bytes), goal))
            && (!e.Emit? && !e.Begin? ==> now == goal)
  {
    hide Next, Written;
    var e := Next(data, s);
    if e.Emit? || e.Begin? { PlainRun(data, e.next); }
  }

  /** lzx_token in the course of a run */
  method DoToken(d: Decoder, buf: array?<byte>, ghost whole: Run, ghost goal: seq<byte>) returns (ok: bool)
    requires d.Valid() && d.Ready() && d.kind != 3 && d.out < d.threshold && Remains(whole, d.reader.data, d.Now())
    requires buf != null ==> Leads(d.reader.data, d.Now(), buf[..], goal)
    modifies d, d.reader, buf
    ensures Sound(d.reader.data, old(d.Now()))
    ensures !ok ==> whole.status.Bad? && (buf != null ==> buf[..] == goal)
    ensures ok ==> d.Valid() && d.Ready() && d.kind != 3 && Remains(whole, d.reader.data, d.Now())
    ensures ok ==> Left(d.reader.data, d.Now().p) < old(Left(d.reader.data, d.Now().p))
    ensures ok && buf != null ==> Leads(d.reader.data, d.Now(), buf[..], goal)
  {
    hide Decoder.Valid, Decoder.Ready, Token, Remains, Leads, Written;
    ghost var s, data := d.Now(), d.reader.data;
    d.Facts();
    RemainsNext(whole, data, s);
    if buf != null { LeadsNext(data, s, buf[..], goal); }
    var at := d.out;
    var found := d.GetPiece();
    if found.None? { return false; }
    if buf != null { WritePiece(buf, at, found.value); }
    ok := true;
  }

  /** A block header in the course of a run */
  method DoBlock(d: Decoder, buf: array?<byte>, ghost whole: Run, ghost goal: seq<byte>) returns (ok: bool)
    requires d.Valid() && d.out >= d.Limit() && d.reader.offset < |d.reader.data| && !whole.status.Undefined?
    requires Remains(whole, d.reader.data, d.Now())
    requires buf != null ==> Leads(d.reader.data, d.Now(), buf[..], goal)
    modifies d, d.reader, d.pretree, d.main, d.length, d.align, buf
    ensures Sound(d.reader.data, old(d.Now()))
    ensures !ok ==> whole.status.Bad? && (buf != null ==> buf[..] == goal)
    ensures ok ==> d.Valid() && (d.kind != 3 ==> d.Ready()) && Remains(whole, d.reader.data, d.Now())
    ensures ok ==> Left(d.reader.data, d.Now().p) < old(Left(d.reader.data, d.Now().p))
    ensures ok && buf != null ==> Leads(d.reader.data, d.Now(), buf[..], goal)
  {
    hide Decoder.Valid, Decoder.Ready, Block, Remains, Leads;
    ghost var s, data := d.Now(), d.reader.data;
    d.Facts();
    RemainsNext(whole, data, s);
    if buf != null { LeadsNext(data, s, buf[..], goal); }
    ok := d.GetBlock(buf);
  }

  /** The blocks and tokens of a whole input. */
  method DoRun(d: Decoder, buf: array?<byte>) returns (ok: bool)
    requires d.Valid() && d.Now() == Start() && !Parse(d.reader.data, Start()).status.Undefined?
    requires buf != null ==> Parse(d.reader.data, Start()).extent <= buf.Length
    modifies d, d.reader, d.pretree, d.main, d.length, d.align, buf
    ensures Sound(d.reader.data, Start())
    ensures var whole := Parse(d.reader.data, Start()); whole.status == (if ok then Good else Bad) && (ok ==> d.out == whole.out)
    ensures buf != null ==> buf[..] == Effect(d.reader.data, Start(), old(buf[..]))
  {
    hide Decoder.Valid, Decoder.Ready, Remains, Leads, Token, Block, Parse, Effect;
    d.Facts();
    ghost var data, whole := d.reader.data, Parse(d.reader.data, Start());
    ghost var goal := if buf == null then [] else Effect(data, Start(), buf[..]);
    assert Remains(whole, data, Start()) && (buf != null ==> Leads(data, Start(), buf[..], goal)) by { Opening(data, if buf == null then [] else buf[..]); }
    while d.reader.offset < |d.reader.data|
      invariant d.Valid() && Sound(data, d.Now()) && d.out >= d.Limit() && Remains(whole, data, d.Now())
      invariant buf != null ==> Leads(data, d.Now(), buf[..], goal)
      decreases Left(data, d.Now().p)
    {
      ok := DoBlock(d, buf, whole, goal);
      if !ok { return; }
      ghost var s := d.Now();
      d.Facts();
      while d.kind != 3 && d.out < d.threshold
        invariant d.Valid() && Sound(data, d.Now()) && Remains(whole, data, d.Now())
        invariant d.kind != 3 ==> d.Ready()
        invariant Left(data, d.Now().p) <= Left(data, s.p)
        invariant buf != null ==> Leads(data, d.Now(), buf[..], goal)
        decreases Left(data, d.Now().p)
      {
        ok := DoToken(d, buf, whole, goal);
        if !ok { return; }
        d.Facts();
      }
    }
    RemainsNext(whole, data, d.Now());
    if buf != null { LeadsNext(data, d.Now(), buf[..], goal); }
    ok := true;
  }

  lemma Opening(data: seq<byte>, before: seq<byte>)
    requires Sound(data, Start())
    ensures Remains(Parse(data, Start()), data, Start())
    ensures Parse(data, Start()).extent <= |before| ==> Leads(data, Start(), before, Effect(data, Start(), before))
  {
  }

  /** The first `n` bytes of a buffer translated. */
  function Translated(buf: seq<byte>, n: nat): seq<byte>
    requires n <= |buf| && n < HALF
  {
    Walk(buf[..n], 0, true) + buf[n..]
  }

  /** The buffer after lzx_decompress: what the run writes, translated if it succeeds. */
  ghost function BufferAfter(data: seq<byte>, buf: seq<byte>): seq<byte>
    requires Even(|data|) && WholeRun(data).extent <= |buf| && WholeRun(data).out < HALF
  {
    StartSound(data);
    PlainRun(data, Start());
    var b := Effect(data, Start(), buf);
    if WholeRun(data).status.Good? then Translated(b, WholeRun(data).out) else b
  }

  /** The buffer after a plain run: the translated expansion of the items, and nothing past it. */
  ghost predicate Delivered(now: seq<byte>, before: seq<byte>, items: seq<Item>) {
    var out := Expand(NOWHERE, [], items);
    && |out| <= |now| == |before| && |out| < HALF
    && now[..|out|] == Walk(out, 0, true) && now[|out|..] == before[|out|..]
  }

  /**
   * lzx_decompress: the same value with and without a buffer, and in a buffer exactly what the
   * run writes, translated. Where no block is uncompressed that is the translated expansion of
   * the parsed items, at positions below that value and nowhere else.
   */
  method Decompress(data: seq<byte>, buf: array?<byte>) returns (r: int)
    requires Even(|data|) ==> !WholeRun(data).status.Undefined?
    requires Even(|data|) && buf != null ==> WholeRun(data).extent <= buf.Length && WholeRun(data).out < HALF
    modifies buf
    ensures r == if Even(|data|) && WholeRun(data).status.Good? then WholeRun(data).out else -1
    ensures buf != null ==> buf[..] == if Even(|data|) then BufferAfter(data, old(buf[..])) else old(buf[..])
    ensures buf != null && r >= 0 && WholeRun(data).plain ==> Delivered(buf[..], old(buf[..]), WholeRun(data).items)
  {
    hide Decoder.Valid, Parse, Sound, Delivered, Effect, Walk;
    if |data| % 2 == 1 { return -1; }
    var d := new Decoder(data);
    var ok := DoRun(d, buf);
    if buf != null && WholeRun(data).plain && ok { PlainDelivered(data, old(buf[..])); }
    if !ok { return -1; }
    if buf != null {
      PlainRun(data, Start());
      ghost var mid := buf[..];
      TranslateJumps(buf, d.out);
      assert mid[..d.out] + mid[d.out..] == mid;
      assert buf[..] == buf[..d.out] + buf[d.out..];
    }
    return d.out;
  }

  /** Where no block is uncompressed the items alone determine the buffer. */
  lemma PlainDelivered(data: seq<byte>, before: seq<byte>)
    requires Even(|data|) && WholeRun(data).extent <= |before| && WholeRun(data).out < HALF
    requires WholeRun(data).plain && WholeRun(data).status.Good?
    ensures Delivered(BufferAfter(data, before), before, WholeRun(data).items)
  {
    hide Parse, Sound, Walk, Effect;
    StartSound(data);
    PlainRun(data, Start());
    PlainEffect(data, Start(), before);
    assert before[..0] == [];
  }
}
