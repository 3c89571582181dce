/** The LZX block format, and the decoder as its inverse on whole files (src/lzx.c). */
module LzxFormat {
  import opened Bytes
  import opened Bits
  import opened Huffman
  import opened HuffmanBits
  import opened Lz
  import opened LzxBits
  import opened Lzx
  import opened LzxTokens

  // Tables of code lengths

  /** Numbers of a fixed width one after another. */
  function Fixed(ls: seq<nat>, bits: nat): seq<bit> {
    if ls == [] then [] else Fixed(ls[..|ls| - 1], bits) + ToBits(ls[|ls| - 1], bits)
  }

  predicate Narrow(ls: seq<nat>, bits: nat) {
    forall i :: 0 <= i < |ls| ==> ls[i] < Pow2(bits)
  }

  lemma {:induction false} FixedRoundTrip(data: seq<byte>, p: Place, ls: seq<nat>, bits: nat, rest: seq<bit>)
    requires Inside(data, p) && bits <= 4 && |ls| < 0x1_0000 && Narrow(ls, bits)
    requires Unread(data, p) == Fixed(ls, bits) + rest
    ensures var r := ReadLengths(data, p, |ls|, bits); r.Ok? && r.value.0 == ls && Unread(data, r.value.1) == rest
  {
    hide GetBits, ToBits, Unread, Inside, Pow2;
    if ls == [] {
      assert Fixed(ls, bits) + rest == rest;
    } else {
      var n := |ls| - 1;
      var last := ToBits(ls[n], bits);
      assert Fixed(ls, bits) + rest == Fixed(ls[..n], bits) + (last + rest);
      FixedRoundTrip(data, p, ls[..n], bits, last + rest);
      GetCoded(data, ReadLengths(data, p, n, bits).value.1, ls[n], bits, rest);
    }
  }

  /** A stretch of equal code lengths: one length, a run of zeros, or a run of some length. */
  datatype Stretch = One(len: nat) | Zeros(n: nat) | Same(n: nat, len: nat)

  function Count(x: Stretch): (n: nat)
    ensures x.One? ==> n == 1
  {
    if x.One? then 1 else x.n
  }

  function Level(x: Stretch): nat {
    if x.Zeros? then 0 else x.len
  }

  /** The pretree symbol of a length, relative to its previous value. */
  function Delta(was: nat, len: nat): (r: nat)
    requires was <= 16 && len <= 16
    ensures r <= 16
  {
    if was >= len then was - len else was + 17 - len
  }

  lemma DeltaUndone(was: nat, len: nat)
    requires was <= 16 && len <= 16
    ensures (was + 17 - Delta(was, len)) % 17 == len
  {
  }

  predicate Codable(pre: seq<nat>, was: nat, x: Stretch) {
    && was <= 16 && |pre| == PRETREE_CODES && Built(pre) && Level(x) <= 16
    && (x.Zeros? ==> (4 <= x.n < 20 && Used(pre, 17)) || (20 <= x.n < 52 && Used(pre, 18)))
    && (x.Same? ==> 4 <= x.n < 6 && Used(pre, 19))
    && (!x.Zeros? ==> Used(pre, Delta(was, Level(x))))
  }

  function StretchBits(pre: seq<nat>, was: nat, x: Stretch): seq<bit>
    requires Codable(pre, was, x)
  {
    match x
    case One(len) => CodeBits(pre, Delta(was, len))
    case Zeros(n) =>
      if n < 20 then CodeBits(pre, 17) + ToBits(n - 4, 4) else CodeBits(pre, 18) + ToBits(n - 20, 5)
    case Same(n, len) => CodeBits(pre, 19) + (ToBits(n - 4, 1) + CodeBits(pre, Delta(was, len)))
  }

  lemma ChangeRoundTrip(data: seq<byte>, p: Place, pre: seq<nat>, was: nat, x: Stretch, rest: seq<bit>)
    requires Inside(data, p) && Codable(pre, was, x)
    requires Unread(data, p) == StretchBits(pre, was, x) + rest
    ensures var r := Change(data, p, pre, was);
            r.Ok? && r.value.0 == Level(x) && r.value.1 == Count(x) - 1 && Unread(data, r.value.2) == rest
  {
    hide GetBits, DecodeSymbol, CodeBits, Unread, Kraft, Unused, Delta;
    DeltaUndone(was, Level(x));
    match x {
      case One(len) => DecodeCoded(data, p, pre, Delta(was, len), rest);
      case Zeros(n) => ZerosRoundTrip(data, p, pre, was, n, rest);
      case Same(n, len) => SameRoundTrip(data, p, pre, was, n, len, rest);
    }
  }

  lemma ZerosRoundTrip(data: seq<byte>, p: Place, pre: seq<nat>, was: nat, n: nat, rest: seq<bit>)
    requires Inside(data, p) && Codable(pre, was, Zeros(n))
    requires Unread(data, p) == StretchBits(pre, was, Zeros(n)) + rest
    ensures var r := Change(data, p, pre, was);
            r.Ok? && r.value.0 == 0 && r.value.1 == n - 1 && Unread(data, r.value.2) == rest
  {
    hide GetBits, DecodeSymbol, ToBits, CodeBits, Unread, Kraft, Unused, Shl, Delta;
    Pow2Values();
    var code, bits, v := if n < 20 then 17 else 18, if n < 20 then 4 else 5, if n < 20 then n - 4 else n - 20;
    assert StretchBits(pre, was, Zeros(n)) + rest == CodeBits(pre, code) + (ToBits(v, bits) + rest);
    DecodeCoded(data, p, pre, code, ToBits(v, bits) + rest);
    GetCoded(data, DecodeSymbol(data, p, pre).value.1, v, bits, rest);
  }

  lemma SameRoundTrip(data: seq<byte>, p: Place, pre: seq<nat>, was: nat, n: nat, len: nat, rest: seq<bit>)
    requires Inside(data, p) && Codable(pre, was, Same(n, len))
    requires Unread(data, p) == StretchBits(pre, was, Same(n, len)) + rest
    ensures var r := Change(data, p, pre, was);
            r.Ok? && r.value.0 == len && r.value.1 == n - 1 && Unread(data, r.value.2) == rest
  {
    hide GetBits, DecodeSymbol, ToBits, CodeBits, Unread, Kraft, Unused, Shl, Delta;
    Pow2Values();
    DeltaUndone(was, len);
    var second := CodeBits(pre, Delta(was, len));
    assert StretchBits(pre, was, Same(n, len)) + rest == CodeBits(pre, 19) + (ToBits(n - 4, 1) + (second + rest));
    DecodeCoded(data, p, pre, 19, ToBits(n - 4, 1) + (second + rest));
    var p' := DecodeSymbol(data, p, pre).value.1;
    GetCoded(data, p', n - 4, 1, second + rest);
    DecodeCoded(data, GetBits(data, p', 1).value.1, pre, Delta(was, len), rest);
  }

  /** The table with `n` entries from `i` on set to `v`. */
  function Spread(ls: seq<nat>, i: nat, n: nat, v: nat): (r: seq<nat>)
    requires i + n <= |ls|
    ensures |r| == |ls|
    decreases n
  {
    if n == 0 then ls else Spread(ls[i := v], i + 1, n - 1, v)
  }

  lemma {:induction false} SpreadValid(ls: seq<nat>, i: nat, n: nat, v: nat)
    requires i + n <= |ls| && ValidLengths(ls) && v <= 16
    ensures ValidLengths(Spread(ls, i, n, v))
    decreases n
  {
    if n > 0 { SpreadValid(ls[i := v], i + 1, n - 1, v); }
  }

  /** The stretches cover the table from `i` on and the pretree can code them. */
  predicate Covering(pre: seq<nat>, ls: seq<nat>, i: nat, xs: seq<Stretch>)
    decreases |xs|
  {
    if xs == [] then i == |ls|
    else
      var n := Count(xs[0]);
      && n > 0 && i + n <= |ls| && Codable(pre, ls[i], xs[0])
      && Covering(pre, Spread(ls, i, n, Level(xs[0])), i + n, xs[1..])
  }

  function TableBits(pre: seq<nat>, ls: seq<nat>, i: nat, xs: seq<Stretch>): seq<bit>
    requires Covering(pre, ls, i, xs)
    decreases |xs|
  {
    if xs == [] then [] else
      var n := Count(xs[0]);
      StretchBits(pre, ls[i], xs[0]) + TableBits(pre, Spread(ls, i, n, Level(xs[0])), i + n, xs[1..])
  }

  /** The table the stretches stand for. */
  function Decoded(pre: seq<nat>, ls: seq<nat>, i: nat, xs: seq<Stretch>): (r: seq<nat>)
    requires Covering(pre, ls, i, xs)
    ensures |r| == |ls|
    decreases |xs|
  {
    if xs == [] then ls else
      var n := Count(xs[0]);
      Decoded(pre, Spread(ls, i, n, Level(xs[0])), i + n, xs[1..])
  }

  /** Repeats left over from a stretch fill the table. */
  lemma {:induction false} RepeatsFill(data: seq<byte>, p: Place, pre: seq<nat>, ls: seq<nat>, i: nat, dup: nat)
    requires Inside(data, p) && Built(pre) && |pre| == PRETREE_CODES && ValidLengths(ls)
    requires 0 < i && i + dup <= |ls|
    ensures ls[i - 1] <= 16 && ValidLengths(Spread(ls, i, dup, ls[i - 1]))
    ensures Lengths(data, p, pre, ls, i, dup) == Lengths(data, p, pre, Spread(ls, i, dup, ls[i - 1]), i + dup, 0)
    decreases dup
  {
    hide Change, Inside, Kraft, Unused;
    if dup > 0 {
      RepeatsFill(data, p, pre, ls[i := ls[i - 1]], i + 1, dup - 1);
    }
  }

  lemma {:induction false} LengthsRoundTrip(data: seq<byte>, p: Place, pre: seq<nat>, ls: seq<nat>, i: nat, xs: seq<Stretch>, rest: seq<bit>)
    requires Inside(data, p) && Built(pre) && |pre| == PRETREE_CODES && ValidLengths(ls) && i <= |ls|
    requires Covering(pre, ls, i, xs) && Unread(data, p) == TableBits(pre, ls, i, xs) + rest
    ensures var r := Lengths(data, p, pre, ls, i, 0);
            r.Ok? && r.value.0 == Decoded(pre, ls, i, xs) && Unread(data, r.value.1) == rest
    decreases |xs|
  {
    hide Change, Inside, Kraft, Unused, Unread, StretchBits, Used;
    if xs == [] {
      assert TableBits(pre, ls, i, xs) + rest == rest;
    } else {
      var x, n := xs[0], Count(xs[0]);
      var next := Spread(ls, i, n, Level(x));
      var more := TableBits(pre, next, i + n, xs[1..]);
      assert TableBits(pre, ls, i, xs) + rest == StretchBits(pre, ls[i], x) + (more + rest);
      ChangeRoundTrip(data, p, pre, ls[i], x, more + rest);
      var c := Change(data, p, pre, ls[i]).value;
      SpreadValid(ls, i, 1, Level(x));
      RepeatsFill(data, c.2, pre, ls[i := Level(x)], i + 1, n - 1);
      LengthsRoundTrip(data, c.2, pre, next, i + n, xs[1..], rest);
    }
  }

  /** A table with the pretree it is coded with. */
  datatype Table = Table(pre: seq<nat>, xs: seq<Stretch>)

  predicate ValidTable(t: Table, was: seq<nat>) {
    |t.pre| == PRETREE_CODES && Built(t.pre) && Narrow(t.pre, 4) && ValidLengths(was) && Covering(t.pre, was, 0, t.xs)
  }

  function PretreeBits(t: Table, was: seq<nat>): seq<bit>
    requires ValidTable(t, was)
  {
    Fixed(t.pre, 4) + TableBits(t.pre, was, 0, t.xs)
  }

  function Lens(t: Table, was: seq<nat>): (r: seq<nat>)
    requires ValidTable(t, was)
    ensures |r| == |was|
  {
    Decoded(t.pre, was, 0, t.xs)
  }

  /** Reading a coded table gives back its code lengths. */
  lemma PretreeRoundTrip(data: seq<byte>, p: Place, was: seq<nat>, t: Table, rest: seq<bit>)
    requires Inside(data, p) && ValidTable(t, was) && Unread(data, p) == PretreeBits(t, was) + rest
    ensures var r := Pretree(data, p, was); r.Ok? && r.value.0 == Lens(t, was) && Unread(data, r.value.1) == rest
  {
    hide ReadLengths, Lengths, Inside, Unread, Covering, TableBits, Decoded, Fixed, Narrow, Kraft, Unused;
    assert PretreeBits(t, was) + rest == Fixed(t.pre, 4) + (TableBits(t.pre, was, 0, t.xs) + rest);
    FixedRoundTrip(data, p, t.pre, 4, TableBits(t.pre, was, 0, t.xs) + rest);
    LengthsRoundTrip(data, ReadLengths(data, p, PRETREE_CODES, 4).value.1, t.pre, was, 0, t.xs, rest);
  }

  // Blocks

  /** A verbatim or aligned offset block: its tables, its length and its tokens. */
  datatype CodedBlock = CodedBlock(aligned: bool, align: seq<nat>, literals: Table, matches: Table, lengths: Table,
                                   size: nat, tokens: seq<Coded>)

  function SizeBits(size: nat): seq<bit> {
    if size == 32768 then ToBits(1, 1)
    else ToBits(0, 1) + (ToBits(size / 256, 8) + ToBits(size % 256, 8))
  }

  function KindOf(b: CodedBlock): nat {
    if b.aligned then 2 else 1
  }

  function StartBits(b: CodedBlock): seq<bit> {
    ToBits(KindOf(b), 3) + SizeBits(b.size)
  }

  lemma StartRoundTrip(data: seq<byte>, p: Place, b: CodedBlock, rest: seq<bit>)
    requires Inside(data, p) && b.size < 0x1_0000 && Unread(data, p) == StartBits(b) + rest
    ensures var r := BlockStart(data, p);
            r.Ok? && r.value.0 == KindOf(b) && r.value.1 == b.size && Unread(data, r.value.2) == rest
  {
    hide GetBits, ToBits, Unread, Inside, Shl;
    Pow2Values();
    var kind, size := ToBits(KindOf(b), 3), SizeBits(b.size);
    assert StartBits(b) + rest == kind + (size + rest);
    GetCoded(data, p, KindOf(b), 3, size + rest);
    var p1 := GetBits(data, p, 3).value.1;
    if b.size == DEFAULT_BLOCK_LEN {
      GetCoded(data, p1, 1, 1, rest);
    } else {
      var high, low := ToBits(b.size / 256, 8), ToBits(b.size % 256, 8);
      assert size + rest == ToBits(0, 1) + (high + (low + rest));
      GetCoded(data, p1, 0, 1, high + (low + rest));
      var p2 := GetBits(data, p1, 1).value.1;
      GetCoded(data, p2, b.size / 256, 8, low + rest);
      GetCoded(data, GetBits(data, p2, 8).value.1, b.size % 256, 8, rest);
    }
  }

  predicate ValidMain(b: CodedBlock, was: seq<nat>) {
    && |was| == MAIN_CODES && ValidTable(b.literals, was[..LITERALS]) && ValidTable(b.matches, was[LITERALS..])
    && Built(MainLens(b, was))
  }

  function MainLens(b: CodedBlock, was: seq<nat>): (r: seq<nat>)
    requires |was| == MAIN_CODES && ValidTable(b.literals, was[..LITERALS]) && ValidTable(b.matches, was[LITERALS..])
    ensures |r| == MAIN_CODES
  {
    Lens(b.literals, was[..LITERALS]) + Lens(b.matches, was[LITERALS..])
  }

  function MainBits(b: CodedBlock, was: seq<nat>): seq<bit>
    requires ValidMain(b, was)
  {
    PretreeBits(b.literals, was[..LITERALS]) + PretreeBits(b.matches, was[LITERALS..])
  }

  lemma MainRoundTrip(data: seq<byte>, p: Place, was: seq<nat>, b: CodedBlock, rest: seq<bit>)
    requires Inside(data, p) && ValidLengths(was) && ValidMain(b, was) && Unread(data, p) == MainBits(b, was) + rest
    ensures var r := MainTable(data, p, was); r.Ok? && r.value.0 == MainLens(b, was) && Unread(data, r.value.1) == rest
  {
    hide Pretree, PretreeBits, Lens, Inside, Unread, ValidTable, Kraft, Unused;
    var second := PretreeBits(b.matches, was[LITERALS..]);
    assert MainBits(b, was) + rest == PretreeBits(b.literals, was[..LITERALS]) + (second + rest);
    PretreeRoundTrip(data, p, was[..LITERALS], b.literals, second + rest);
    PretreeRoundTrip(data, Pretree(data, p, was[..LITERALS]).value.1, was[LITERALS..], b.matches, rest);
  }

  predicate ValidHeader(s: State, b: CodedBlock) {
    && b.size < 0x1_0000 && ValidMain(b, s.main)
    && ValidTable(b.lengths, s.len) && Built(Lens(b.lengths, s.len))
    && (b.aligned ==> |b.align| == ALIGN_CODES && Narrow(b.align, 3) && Built(b.align))
  }

  function AlignBits(b: CodedBlock): seq<bit> {
    if b.aligned then Fixed(b.align, 3) else []
  }

  function TablesBits(s: State, b: CodedBlock): seq<bit>
    requires ValidHeader(s, b)
  {
    AlignBits(b) + (MainBits(b, s.main) + PretreeBits(b.lengths, s.len))
  }

  /** The state after a block header, the place in the input aside. */
  function Headed(s: State, b: CodedBlock): State
    requires ValidHeader(s, b)
  {
    s.(limit := s.out + b.size, aligned := b.aligned, align := if b.aligned then b.align else s.align,
       main := MainLens(b, s.main), len := Lens(b.lengths, s.len))
  }

  lemma AlignRoundTrip(data: seq<byte>, p: Place, b: CodedBlock, rest: seq<bit>)
    requires Inside(data, p) && |b.align| == ALIGN_CODES && Narrow(b.align, 3) && Built(b.align)
    requires Unread(data, p) == Fixed(b.align, 3) + rest
    ensures var r := AlignTable(data, p); r.Ok? && r.value.0 == b.align && Unread(data, r.value.1) == rest
  {
    hide ReadLengths, Fixed, Inside, Unread, Kraft, Unused, Narrow;
    FixedRoundTrip(data, p, b.align, 3, rest);
  }

  lemma LengthRoundTrip(data: seq<byte>, p: Place, was: seq<nat>, t: Table, rest: seq<bit>)
    requires Inside(data, p) && ValidTable(t, was) && Built(Lens(t, was)) && ValidLengths(was)
    requires Unread(data, p) == PretreeBits(t, was) + rest
    ensures var r := LengthTable(data, p, was); r.Ok? && r.value.0 == Lens(t, was) && Unread(data, r.value.1) == rest
  {
    hide Pretree, PretreeBits, Lens, Inside, Unread, ValidTable, Kraft, Unused;
    PretreeRoundTrip(data, p, was, t, rest);
  }

  lemma TablesRoundTrip(data: seq<byte>, s: State, b: CodedBlock, rest: seq<bit>)
    requires Sound(data, s) && ValidHeader(s, b) && s.limit == s.out + b.size && s.aligned == b.aligned
    requires Unread(data, s.p) == TablesBits(s, b) + rest
    ensures var r := Tables(data, s); r.Ok? && r.value == Headed(s, b).(p := r.value.p) && Unread(data, r.value.p) == rest
  {
    hide AlignTable, MainTable, LengthTable, PretreeBits, MainBits, MainLens, Lens, Inside, Unread, ValidTable, Kraft, Unused, Fixed, Narrow;
    var main, len := MainBits(b, s.main), PretreeBits(b.lengths, s.len);
    assert TablesBits(s, b) + rest == AlignBits(b) + (main + (len + rest));
    var p := s.p;
    if b.aligned {
      AlignRoundTrip(data, p, b, main + (len + rest));
      p := AlignTable(data, p).value.1;
    } else {
      assert AlignBits(b) + (main + (len + rest)) == main + (len + rest);
    }
    MainRoundTrip(data, p, s.main, b, len + rest);
    LengthRoundTrip(data, MainTable(data, p, s.main).value.1, s.len, b.lengths, rest);
  }

  function HeaderBits(s: State, b: CodedBlock): seq<bit>
    requires ValidHeader(s, b)
  {
    StartBits(b) + TablesBits(s, b)
  }

  /** Reading a block header gives its tables and its length, and leaves the bits after it. */
  lemma HeaderRoundTrip(data: seq<byte>, s: State, b: CodedBlock, rest: seq<bit>) returns (t: State)
    requires Sound(data, s) && ValidHeader(s, b) && Unread(data, s.p) == HeaderBits(s, b) + rest
    ensures Sound(data, t) && t == Headed(s, b).(p := t.p) && Unread(data, t.p) == rest
    ensures Block(data, s) == Ok((t, Header(KindOf(b), b.size), []))
  {
    hide Tables, BlockStart, TablesBits, StartBits, Unread, ValidMain, ValidTable, MainLens, Lens, Kraft, Unused, Narrow;
    assert HeaderBits(s, b) + rest == StartBits(b) + (TablesBits(s, b) + rest);
    StartRoundTrip(data, s.p, b, TablesBits(s, b) + rest);
    var p := BlockStart(data, s.p).value.2;
    var s' := s.(p := p, limit := s.out + b.size, aligned := b.aligned);
    SameHeader(s, s', b);
    TablesRoundTrip(data, s', b, rest);
    t := Tables(data, s').value;
  }

  /** The coding of a header depends on the previous tables only. */
  lemma SameHeader(s: State, t: State, b: CodedBlock)
    requires ValidHeader(s, b) && t.main == s.main && t.len == s.len
    ensures ValidHeader(t, b) && TablesBits(t, b) == TablesBits(s, b) && StartBits(b) + TablesBits(t, b) == HeaderBits(s, b)
  {
  }

  // Whole files

  /** A state without its place in the input, which matters to no coding. */
  function Placeless(s: State): State {
    s.(p := Place(0, []))
  }

  lemma HeadedSound(data: seq<byte>, s: State, b: CodedBlock)
    requires Sound(data, s) && ValidHeader(s, b)
    ensures Sound(data, Headed(s, b))
  {
    hide ValidTable, MainLens, Lens, Kraft, Unused, Narrow;
  }

  /** Each block's tokens fill it, and the next block starts from where it ends. */
  predicate ValidBlocks(data: seq<byte>, s: State, bs: seq<CodedBlock>)
    requires Sound(data, s)
    decreases |bs|
  {
    bs == []
    || (ValidHeader(s, bs[0])
        && (HeadedSound(data, s, bs[0]); AllEncodable(data, Headed(s, bs[0]), bs[0].tokens))
        && Ended(data, s, bs[0]).out >= Ended(data, s, bs[0]).limit
        && ValidBlocks(data, Ended(data, s, bs[0]), bs[1..]))
  }

  /** The state at the end of a block. */
  function Ended(data: seq<byte>, s: State, b: CodedBlock): (t: State)
    requires Sound(data, s) && ValidHeader(s, b)
    requires (HeadedSound(data, s, b); AllEncodable(data, Headed(s, b), b.tokens))
    ensures Sound(data, t) && t.plain == s.plain
  {
    HeadedSound(data, s, b);
    Final(data, Headed(s, b), b.tokens)
  }

  function BlockBits(data: seq<byte>, s: State, b: CodedBlock): seq<bit>
    requires Sound(data, s) && ValidHeader(s, b)
    requires (HeadedSound(data, s, b); AllEncodable(data, Headed(s, b), b.tokens))
  {
    HeadedSound(data, s, b);
    HeaderBits(s, b) + EncodeAll(data, Headed(s, b), b.tokens)
  }

  function FileBits(data: seq<byte>, s: State, bs: seq<CodedBlock>): seq<bit>
    requires Sound(data, s) && ValidBlocks(data, s, bs)
    decreases |bs|
  {
    if bs == [] then [] else BlockBits(data, s, bs[0]) + FileBits(data, Ended(data, s, bs[0]), bs[1..])
  }

  function FileItems(data: seq<byte>, s: State, bs: seq<CodedBlock>): seq<Item>
    requires Sound(data, s) && s.plain && ValidBlocks(data, s, bs)
    decreases |bs|
  {
    if bs == [] then [] else
      HeadedSound(data, s, bs[0]);
      Items(data, Headed(s, bs[0]), bs[0].tokens) + FileItems(data, Ended(data, s, bs[0]), bs[1..])
  }

  lemma {:induction false} FixedLength(ls: seq<nat>, bits: nat)
    requires bits >= 2
    ensures |Fixed(ls, bits)| >= 2 * |ls|
  {
    hide ToBits;
    if ls != [] { FixedLength(ls[..|ls| - 1], bits); }
  }

  lemma HeaderLong(s: State, b: CodedBlock)
    requires ValidHeader(s, b)
    ensures |HeaderBits(s, b)| >= 32
  {
    hide TableBits, Fixed, Kraft, Unused;
    FixedLength(b.lengths.pre, 4);
  }

  /** A header to come keeps the decoder going; padding alone ends it. */
  lemma MoreInput(data: seq<byte>, p: Place)
    requires Inside(data, p)
    ensures |Unread(data, p)| >= 32 ==> p.offset < |data|
    ensures |Unread(data, p)| < 16 ==> p.offset == |data|
  {
    if p.offset < |data| { EvenStep(p.offset, |data|); }
  }

  /** The run over one block: its items, and then whatever follows it. */
  lemma BlockRoundTrip(data: seq<byte>, s: State, b: CodedBlock, rest: seq<bit>) returns (t: State)
    requires Sound(data, s) && s.plain && s.out >= s.limit && ValidHeader(Placeless(s), b)
    requires Sound(data, Placeless(s)) && (HeadedSound(data, Placeless(s), b); AllEncodable(data, Headed(Placeless(s), b), b.tokens))
    requires Unread(data, s.p) == BlockBits(data, Placeless(s), b) + rest
    ensures Sound(data, t) && Placeless(t) == Placeless(Ended(data, Placeless(s), b)) && Unread(data, t.p) == rest
    ensures Sound(data, Headed(Placeless(s), b))
    ensures Agree(Parse(data, s), Items(data, Headed(Placeless(s), b), b.tokens), Parse(data, t))
  {
    hide Block, Token, Unread, HeaderBits, EncodeAll, AllEncodable, Items, Final, ValidHeader, Headed, Inside, Built;
    var z := Placeless(s);
    HeadedSound(data, z, b);
    var tokens := EncodeAll(data, Headed(z, b), b.tokens);
    assert BlockBits(data, z, b) + rest == HeaderBits(z, b) + (tokens + rest);
    HeaderPlaceless(s, b);
    HeaderLong(z, b);
    assert |Unread(data, s.p)| >= 32;
    MoreInput(data, s.p);
    var h := HeaderRoundTrip(data, s, b, tokens + rest);
    HeadedPlaceless(s, h, b);
    AllPlaceFree(data, Headed(z, b), h, b.tokens);
    var p := StreamRoundTrip(data, h, b.tokens, rest);
    t := Final(data, h, b.tokens).(p := p);
    BeginAgrees(data, s, h, Items(data, Headed(z, b), b.tokens), Parse(data, t));
  }

  lemma HeaderPlaceless(s: State, b: CodedBlock)
    requires ValidHeader(Placeless(s), b)
    ensures ValidHeader(s, b) && HeaderBits(s, b) == HeaderBits(Placeless(s), b)
  {
    SameHeader(Placeless(s), s, b);
  }

  lemma HeadedPlaceless(s: State, h: State, b: CodedBlock)
    requires ValidHeader(s, b) && h == Headed(s, b).(p := h.p) && ValidHeader(Placeless(s), b)
    ensures h == Headed(Placeless(s), b).(p := h.p) && h.plain == s.plain
  {
  }

  lemma BeginAgrees(data: seq<byte>, s: State, h: State, items: seq<Item>, end: Run)
    requires Sound(data, s) && s.out >= s.limit && s.p.offset < |data| && Sound(data, h)
    requires Block(data, s).Ok? && Block(data, s).value.0 == h && Block(data, s).value.2 == []
    requires Agree(Parse(data, h), items, end)
    ensures Agree(Parse(data, s), items, end)
  {
    hide Block, Sound;
    PlainRun(data, h);
  }

  /**
   * The decoder inverts the format on whole files: if the unread bits are the coding of a list
   * of verbatim and aligned offset blocks and less than a word of padding, the run succeeds,
   * finds exactly the items of their tokens, and reports their total size.
   */
  lemma {:induction false} FileRoundTrip(data: seq<byte>, s: State, bs: seq<CodedBlock>, pad: seq<bit>)
    requires Sound(data, s) && Sound(data, Placeless(s)) && s.plain && s.out >= s.limit
    requires ValidBlocks(data, Placeless(s), bs) && |pad| < 16
    requires Unread(data, s.p) == FileBits(data, Placeless(s), bs) + pad
    ensures var items := FileItems(data, Placeless(s), bs);
            Parse(data, s) == Run(Good, true, s.out + Length(items), s.out + Length(items), items)
    decreases |bs|
  {
    hide Unread, BlockBits, Items, ValidHeader, AllEncodable, Sound, Headed, Inside, Block;
    var z := Placeless(s);
    if bs == [] {
      assert FileBits(data, z, bs) + pad == pad;
      EndOfFile(data, s);
    } else {
      var b, next := bs[0], Ended(data, z, bs[0]);
      var more := FileBits(data, next, bs[1..]);
      HeadedSound(data, z, b);
      assert FileBits(data, z, bs) + pad == BlockBits(data, z, b) + (more + pad);
      var t := BlockRoundTrip(data, s, b, more + pad);
      assert next == Placeless(t) by { EndedPlaceless(data, z, b); }
      FileRoundTrip(data, t, bs[1..], pad);
      PlainRun(data, s);
    }
  }

  lemma EndOfFile(data: seq<byte>, s: State)
    requires Sound(data, s) && s.out >= s.limit && |Unread(data, s.p)| < 16
    ensures Parse(data, s) == Run(Good, s.plain, s.out, s.out, [])
  {
    hide Unread;
    MoreInput(data, s.p);
  }

  lemma EndedPlaceless(data: seq<byte>, z: State, b: CodedBlock)
    requires Sound(data, z) && z == Placeless(z) && ValidHeader(z, b)
    requires (HeadedSound(data, z, b); AllEncodable(data, Headed(z, b), b.tokens))
    ensures Ended(data, z, b) == Placeless(Ended(data, z, b))
  {
    HeadedSound(data, z, b);
    FinalPlace(data, Headed(z, b), b.tokens);
  }

  lemma {:induction false} FinalPlace(data: seq<byte>, s: State, cs: seq<Coded>)
    requires Sound(data, s) && AllEncodable(data, s, cs)
    ensures Final(data, s, cs).p == s.p
    decreases |cs|
  {
    hide Covers, Built, Used, Aligned, Inside;
    if cs != [] {
      FollowSound(data, s, cs[0]);
      FinalPlace(data, Follow(s, cs[0]), cs[1..]);
    }
  }

  // Every bit string of whole words is some input

  function Packed(u: seq<bit>): (r: seq<byte>)
    requires |u| % 16 == 0
    ensures 8 * |r| == |u|
  {
    if u == [] then [] else LE(Number(u[..16]), 2) + Packed(u[16..])
  }

  lemma WordOfBits(q: seq<bit>, rest: seq<byte>)
    requires |q| == 16
    ensures WordBits(WordAt(LE(Number(q), 2) + rest, 0)) == q
  {
    hide Number, ToBits;
    BitsOfNumber(q);
    WindowBound(q);
    TwoBytes(Number(q), rest);
  }

  lemma TwoBytes(v: nat, rest: seq<byte>)
    requires v < 0x1_0000
    ensures WordAt(LE(v, 2) + rest, 0) == v
  {
    var b := LE(v, 2);
    assert b[0] == v % 256 && b[1..] == LE(v / 256, 1);
  }

  lemma {:induction false} BitsShift(a: seq<byte>, b: seq<byte>, k: nat)
    requires Even(|a|) && Even(|b|) && Even(k) && k <= |b|
    ensures Even(|a + b|) && Even(|a| + k) && BitsFrom(a + b, |a| + k) == BitsFrom(b, k)
    decreases |b| - k
  {
    hide WordBits, WordAt, Even;
    EvenSums(|a|, |b|);
    EvenSums(|a|, k);
    if k < |b| {
      EvenStep(k, |b|);
      BitsShift(a, b, k + 2);
      WordShift(a, b, k);
    }
  }

  lemma EvenSums(m: nat, n: nat)
    requires Even(m) && Even(n)
    ensures Even(m + n)
  {
  }

  lemma WordShift(a: seq<byte>, b: seq<byte>, k: nat)
    requires k + 2 <= |b|
    ensures WordAt(a + b, |a| + k) == WordAt(b, k)
  {
  }

  /** Packed bits stand before the bits of what follows them. */
  lemma {:induction false} StreamOfConcat(u: seq<bit>, b: seq<byte>)
    requires |u| % 16 == 0 && Even(|b|)
    ensures Even(|Packed(u) + b|) && BitsFrom(Packed(u) + b, 0) == u + BitsFrom(b, 0)
  {
    hide WordBits, WordAt, LE, Number;
    if u == [] {
      assert Packed(u) + b == b;
    } else {
      var head, rest := LE(Number(u[..16]), 2), Packed(u[16..]) + b;
      StreamOfConcat(u[16..], b);
      assert Packed(u) + b == head + rest;
      WordOfBits(u[..16], rest);
      BitsShift(head, rest, 0);
      assert u == u[..16] + u[16..];
    }
  }

  /** So every coding, padded to whole words, is the stream of some file. */
  lemma StreamOfPacked(u: seq<bit>)
    requires |u| % 16 == 0
    ensures Even(|Packed(u)|) && BitsFrom(Packed(u), 0) == u
  {
    hide Packed;
    StreamOfConcat(u, []);
    assert Packed(u) + [] == Packed(u);
  }
}
