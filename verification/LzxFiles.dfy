/** LZX files: every coding is a file that decodes to what it codes, and files that do not decode as one would expect (src/lzx.c). */
module LzxFiles {
  import opened Bytes
  import opened Bits
  import opened Huffman
  import opened HuffmanBits
  import opened Lz
  import opened LzxBits
  import opened Lzx
  import opened LzxTokens
  import opened LzxFormat
  import opened LzxJumps
  import opened LzxDecoder

  // Codings do not depend on the file they end up in

  lemma {:induction false} TokensDataFree(a: seq<byte>, b: seq<byte>, s: State, cs: seq<Coded>)
    requires Sound(a, s) && Sound(b, s) && AllEncodable(a, s, cs)
    ensures AllEncodable(b, s, cs) && EncodeAll(b, s, cs) == EncodeAll(a, s, cs) && Final(b, s, cs) == Final(a, s, cs)
    ensures s.plain ==> Items(b, s, cs) == Items(a, s, cs)
    decreases |cs|
  {
    hide Covers, Built, Used, Aligned, Meaning, Recent, CodeBits, ToBits;
    if cs != [] {
      FollowSound(a, s, cs[0]);
      FollowSound(b, s, cs[0]);
      TokensDataFree(a, b, Follow(s, cs[0]), cs[1..]);
    }
  }

  lemma {:induction false} BlocksDataFree(a: seq<byte>, b: seq<byte>, s: State, bs: seq<CodedBlock>)
    requires Sound(a, s) && Sound(b, s) && ValidBlocks(a, s, bs)
    ensures ValidBlocks(b, s, bs) && FileBits(b, s, bs) == FileBits(a, s, bs)
    ensures s.plain ==> FileItems(b, s, bs) == FileItems(a, s, bs)
    decreases |bs|
  {
    hide AllEncodable, EncodeAll, Items, Final, ValidHeader, Headed, HeaderBits;
    if bs != [] {
      HeadedSound(a, s, bs[0]);
      HeadedSound(b, s, bs[0]);
      TokensDataFree(a, b, Headed(s, bs[0]), bs[0].tokens);
      BlocksDataFree(a, b, Ended(a, s, bs[0]), bs[1..]);
    }
  }

  // Every coding is a file

  /** Blocks that code a file from the start, with padding to whole words. */
  ghost predicate ValidFile(bs: seq<CodedBlock>, pad: seq<bit>) {
    && Sound([], Start()) && ValidBlocks([], Start(), bs)
    && |pad| < 16 && |FileBits([], Start(), bs) + pad| % 16 == 0
  }

  ghost function FileOf(bs: seq<CodedBlock>, pad: seq<bit>): (r: seq<byte>)
    requires ValidFile(bs, pad)
  {
    Packed(FileBits([], Start(), bs) + pad)
  }

  ghost function ItemsOf(bs: seq<CodedBlock>): seq<Item>
    requires Sound([], Start()) && ValidBlocks([], Start(), bs)
  {
    FileItems([], Start(), bs)
  }

  /** The coding of any blocks is a file, and decoding it succeeds with exactly their items. */
  lemma CodingDecodes(bs: seq<CodedBlock>, pad: seq<bit>)
    requires ValidFile(bs, pad)
    ensures var n, file := Length(ItemsOf(bs)), FileOf(bs, pad);
            Even(|file|) && WholeRun(file) == Run(Good, true, n, n, ItemsOf(bs))
  {
    hide ValidBlocks, FileBits, FileItems, Parse, Packed;
    var u := FileBits([], Start(), bs) + pad;
    var file := Packed(u);
    StreamOfPacked(u);
    StartSound(file);
    BlocksDataFree([], file, Start(), bs);
    assert Placeless(Start()) == Start();
    assert Unread(file, Start().p) == u;
    FileRoundTrip(file, Start(), bs, pad);
  }

  /** Decompressing the coding of the forward translation of some bytes gives back the bytes. */
  method DecodeFile(file: seq<byte>, buf: array<byte>, ghost bs: seq<CodedBlock>, ghost pad: seq<bit>, ghost original: seq<byte>)
    returns (r: int)
    requires ValidFile(bs, pad) && file == FileOf(bs, pad) && |original| < HALF && |original| <= buf.Length
    requires Expand(NOWHERE, [], ItemsOf(bs)) == Walk(original, 0, false)
    modifies buf
    ensures r == |original| && buf[..r] == original && buf[r..] == old(buf[r..])
  {
    hide ValidBlocks, FileBits, FileItems, Parse, Packed, Walk, FileOf, BufferAfter;
    ghost var items := ItemsOf(bs);
    assert Length(items) == |original| by { assert |Expand(NOWHERE, [], items)| == Length(items); }
    CodingDecodes(bs, pad);
    WalkInverse(original, 0, false);
    r := Decompress(file, buf);
    assert buf[..][..r] == buf[..r] && buf[..][r..] == buf[r..];
  }

  // A file that starts with an uncompressed block

  /** Type, length and the padding up to the second word. */
  function StoredStart(n: nat): (r: seq<bit>)
    ensures |r| == 32
  {
    ToBits(3, 3) + (ToBits(0, 1) + (ToBits(n / 256, 8) + (ToBits(n % 256, 8) + ZeroBits(12))))
  }

  /** An uncompressed block at a word boundary, with its repeated offsets. */
  function StoredBlock(rep: seq<byte>, bytes: seq<byte>): (r: seq<byte>)
    requires |rep| == 12
    ensures |r| == 16 + |bytes| + |bytes| % 2
  {
    Packed(StoredStart(|bytes|)) + (rep + (bytes + Fill(|bytes| % 2, 0)))
  }

  /** What reading some bits does to the place: a word is loaded if fewer are held. */
  lemma PlaceAfter(data: seq<byte>, p: Place, n: nat)
    requires Inside(data, p) && n <= 16 && GetBits(data, p, n).Ok?
    ensures var p' := GetBits(data, p, n).value.1;
            && (|p.q| >= n ==> p'.offset == p.offset && |p'.q| == |p.q| - n)
            && (|p.q| < n ==> p'.offset == p.offset + 2 && |p'.q| == |p.q| + 16 - n)
  {
    hide Even, Number;
  }

  lemma StoredStartRead(data: seq<byte>, p: Place, n: nat, rest: seq<bit>)
    requires Inside(data, p) && p.q == [] && n < 0x1_0000 && Unread(data, p) == StoredStart(n) + rest
    ensures var r := BlockStart(data, p);
            && r.Ok? && r.value.0 == 3 && r.value.1 == n
            && GetBits(data, r.value.2, 1).Ok? && GetBits(data, r.value.2, 1).value.1.offset == p.offset + 4
  {
    hide GetBits, ToBits, Unread, Shl;
    Pow2Values();
    var high, low, pad := ToBits(n / 256, 8), ToBits(n % 256, 8), ZeroBits(12) + rest;
    assert StoredStart(n) + rest == ToBits(3, 3) + (ToBits(0, 1) + (high + (low + pad)));
    GetCoded(data, p, 3, 3, ToBits(0, 1) + (high + (low + pad)));
    PlaceAfter(data, p, 3);
    var p1 := GetBits(data, p, 3).value.1;
    GetCoded(data, p1, 0, 1, high + (low + pad));
    PlaceAfter(data, p1, 1);
    var p2 := GetBits(data, p1, 1).value.1;
    GetCoded(data, p2, n / 256, 8, low + pad);
    PlaceAfter(data, p2, 8);
    var p3 := GetBits(data, p2, 8).value.1;
    GetCoded(data, p3, n % 256, 8, pad);
    PlaceAfter(data, p3, 8);
    var p4 := GetBits(data, p3, 8).value.1;
    GetBitsReads(data, p4, 1);
    PlaceAfter(data, p4, 1);
  }

  function ThreeOffsets(rep: seq<byte>): (r: seq<nat>)
    requires |rep| == 12
    ensures |r| == 3
  {
    [FromLE(rep[0..4]), FromLE(rep[4..8]), FromLE(rep[8..12])]
  }

  /** The state after an uncompressed block at the start of the input. */
  function AfterStored(s: State, rep: seq<byte>, bytes: seq<byte>): State
    requires |rep| == 12
  {
    s.(p := Place(16 + |bytes| + |bytes| % 2, []), limit := s.out, aligned := false, rep := ThreeOffsets(rep), plain := false)
  }

  lemma StoredRead(s: State, rep: seq<byte>, bytes: seq<byte>, rest: seq<byte>)
    requires |rep| == 12 && |bytes| < 0x1_0000 && Even(|rest|) && s.p == Place(0, []) && s.out >= s.limit
    requires Sound(StoredBlock(rep, bytes) + rest, s)
    ensures Next(StoredBlock(rep, bytes) + rest, s) == Begin(AfterStored(s, rep, bytes), Header(3, |bytes|), bytes)
  {
    hide GetBits, BlockStart, ToBits, FromLE, Packed, StoredStart, StoredBlock, Unread, Tables, Built, Fill;
    var tail := rep + (bytes + Fill(|bytes| % 2, 0)) + rest;
    var data := StoredBlock(rep, bytes) + rest;
    StoredParts(rep, bytes, rest);
    StreamOfConcat(StoredStart(|bytes|), tail);
    StreamHere(data);
    StoredStartRead(data, s.p, |bytes|, BitsFrom(tail, 0));
  }

  lemma StoredParts(rep: seq<byte>, bytes: seq<byte>, rest: seq<byte>)
    requires |rep| == 12 && Even(|rest|)
    ensures var data, tail := StoredBlock(rep, bytes) + rest, rep + (bytes + Fill(|bytes| % 2, 0)) + rest;
            && data == Packed(StoredStart(|bytes|)) + tail && Even(|tail|) && Even(|data|) && |data| >= 16 + |bytes|
            && data[4..8] == rep[0..4] && data[8..12] == rep[4..8] && data[12..16] == rep[8..12]
            && data[16..16 + |bytes|] == bytes
  {
    hide Packed, StoredStart, Fill;
    EvenTail(|bytes|, |rest|);
  }

  lemma EvenTail(n: nat, m: nat)
    requires Even(m)
    ensures Even(12 + n + n % 2 + m) && Even(16 + n + n % 2 + m)
  {
  }

  lemma StreamHere(data: seq<byte>)
    requires Even(|data|)
    ensures Inside(data, Place(0, [])) && Unread(data, Place(0, [])) == BitsFrom(data, 0)
  {
  }

  /** Eighteen bytes, the whole of them an uncompressed block of two: decoding succeeds and reports nothing. */
  lemma StoredBytesLost(x: byte, y: byte)
    ensures var data := StoredBlock(Fill(12, 0), [x, y]);
            && |data| == 18 && Even(|data|) && WholeRun(data) == Run(Good, false, 0, 2, [])
            && Sound(data, Start()) && Blocks(data, Start()) == [Header(3, 2)] && Lost(Blocks(data, Start())) == 2
  {
    hide Packed, StoredStart, Token, Block, ThreeOffsets;
    var data := StoredBlock(Fill(12, 0), [x, y]);
    StartSound(data);
    assert data + [] == data;
    StoredRead(Start(), Fill(12, 0), [x, y], []);
    var t := AfterStored(Start(), Fill(12, 0), [x, y]);
    assert Next(data, t) == End;
    assert Parse(data, t) == Run(Good, false, 0, 0, []);
    assert Blocks(data, t) == [] && [Header(3, 2)] + [] == [Header(3, 2)];
    assert Lost([Header(3, 2)]) == 2;
  }

  // A file that reports a full chunk and writes nothing

  /** Lengths of `n` symbols of which two have one-bit codes. */
  function TwoCodes(n: nat, i: nat, j: nat): (r: seq<nat>)
    requires i < j < n
    ensures |r| == n
  {
    NoLengths(n)[i := 1][j := 1]
  }

  lemma {:induction false} TwoCodesWeigh(n: nat, i: nat, j: nat, k: nat)
    requires i < j < n < 0x1_0000 && k <= n
    ensures ValidLengths(TwoCodes(n, i, j)[..k])
    ensures Kraft(TwoCodes(n, i, j)[..k]) == (if i < k then 32768 else 0) + (if j < k then 32768 else 0)
    decreases k
  {
    hide Shl;
    assert Pow2(15) == 32768 by { Pow2Values(); }
    if k > 0 {
      TwoCodesWeigh(n, i, j, k - 1);
      assert TwoCodes(n, i, j)[..k][..k - 1] == TwoCodes(n, i, j)[..k - 1];
    }
  }

  lemma TwoCodesBuilt(n: nat, i: nat, j: nat)
    requires i < j < n < 0x1_0000
    ensures Built(TwoCodes(n, i, j)) && Used(TwoCodes(n, i, j), i) && Used(TwoCodes(n, i, j), j)
  {
    TwoCodesWeigh(n, i, j, n);
    assert TwoCodes(n, i, j)[..n] == TwoCodes(n, i, j);
  }

  /** A pretree with codes for one code length and for runs of 20 to 51 zeros. */
  function Pre(): (r: seq<nat>)
    ensures |r| == PRETREE_CODES
  {
    TwoCodes(PRETREE_CODES, 16, 18)
  }

  lemma PreBuilt()
    ensures Built(Pre()) && Used(Pre(), 16) && Used(Pre(), 18) && Narrow(Pre(), 4)
  {
    TwoCodesBuilt(PRETREE_CODES, 16, 18);
    Pow2Values();
  }

  function Entries(xs: seq<Stretch>): nat {
    if xs == [] then 0 else Count(xs[0]) + Entries(xs[1..])
  }

  predicate LongZeros(xs: seq<Stretch>) {
    forall i :: 0 <= i < |xs| ==> xs[i].Zeros? && 20 <= xs[i].n < 52
  }

  lemma {:induction false} SpreadSame(ls: seq<nat>, i: nat, n: nat)
    requires i + n <= |ls| && forall k :: i <= k < i + n ==> ls[k] == 0
    ensures Spread(ls, i, n, 0) == ls
    decreases n
  {
    if n > 0 {
      assert ls[i := 0] == ls;
      SpreadSame(ls, i + 1, n - 1);
    }
  }

  /** Runs of zeros leave a table of zeros as it is. */
  lemma {:induction false} ZerosCover(ls: seq<nat>, i: nat, xs: seq<Stretch>)
    requires LongZeros(xs) && i + Entries(xs) == |ls| && forall k :: i <= k < |ls| ==> ls[k] == 0
    ensures Covering(Pre(), ls, i, xs) && Decoded(Pre(), ls, i, xs) == ls
    decreases |xs|
  {
    hide Built, Pre;
    if xs != [] {
      PreBuilt();
      SpreadSame(ls, i, Count(xs[0]));
      ZerosCover(ls, i + Count(xs[0]), xs[1..]);
    }
  }

  /** A single one-bit code in front of zeros. */
  lemma OneThenZeros(n: nat, xs: seq<Stretch>)
    requires LongZeros(xs) && 1 + Entries(xs) == n < 0x1_0000
    ensures ValidTable(Table(Pre(), [One(1)] + xs), NoLengths(n))
    ensures Lens(Table(Pre(), [One(1)] + xs), NoLengths(n)) == NoLengths(n)[0 := 1]
  {
    hide Built, Pre, Narrow;
    PreBuilt();
    var was, all := NoLengths(n), [One(1)] + xs;
    assert all[1..] == xs;
    assert Spread(was, 0, 1, 1) == was[0 := 1];
    ZerosCover(was[0 := 1], 1, xs);
  }

  lemma ZerosOnly(n: nat, xs: seq<Stretch>)
    requires LongZeros(xs) && Entries(xs) == n < 0x1_0000
    ensures ValidTable(Table(Pre(), xs), NoLengths(n)) && Lens(Table(Pre(), xs), NoLengths(n)) == NoLengths(n)
  {
    hide Built, Pre, Narrow;
    PreBuilt();
    ZerosCover(NoLengths(n), 0, xs);
  }

  const FOUR: seq<Stretch> := [Zeros(51), Zeros(51), Zeros(51), Zeros(51)]

  lemma FourThen(n: nat)
    requires 20 <= n < 52
    ensures LongZeros(FOUR + [Zeros(n)]) && Entries(FOUR + [Zeros(n)]) == 204 + n
  {
    var z, one := Zeros(51), [Zeros(n)];
    assert FOUR + one == [z] + ([z] + ([z] + ([z] + one)));
    assert Entries(one) == n;
    EntriesCons(z, one);
    EntriesCons(z, [z] + one);
    EntriesCons(z, [z] + ([z] + one));
    EntriesCons(z, [z] + ([z] + ([z] + one)));
  }

  lemma EntriesCons(x: Stretch, xs: seq<Stretch>)
    ensures Entries([x] + xs) == Count(x) + Entries(xs)
  {
    assert ([x] + xs)[1..] == xs;
  }

  /** Copies of a match of two bytes at the first repeated offset. */
  function Idle(n: nat): (r: seq<Coded>)
    ensures |r| == n
  {
    if n == 0 then [] else [Rep(0, 2)] + Idle(n - 1)
  }

  /** A verbatim block of 32768 bytes, all of them matches at the first repeated offset. */
  function IdleBlock(n: nat): CodedBlock {
    CodedBlock(false, [], Table(Pre(), [One(1)] + (FOUR + [Zeros(51)])), Table(Pre(), [One(1)] + (FOUR + [Zeros(35)])),
               Table(Pre(), FOUR + [Zeros(45)]), DEFAULT_BLOCK_LEN, Idle(n))
  }

  /** A state before any table has been read, with the first repeated offset zero. */
  predicate Blank(s: State) {
    && s.main == NoLengths(MAIN_CODES) && s.len == NoLengths(LENGTH_CODES) && |s.rep| == 3 && s.rep[0] == 0 && !s.plain
  }

  lemma IdleHeader(s: State, n: nat)
    requires Blank(s)
    ensures ValidHeader(s, IdleBlock(n)) && Headed(s, IdleBlock(n)).main == TwoCodes(MAIN_CODES, 0, LITERALS)
  {
    hide Pre, ValidTable, Lens, Built;
    FourThen(51);
    FourThen(35);
    FourThen(45);
    OneThenZeros(LITERALS, FOUR + [Zeros(51)]);
    OneThenZeros(MAIN_CODES - LITERALS, FOUR + [Zeros(35)]);
    ZerosOnly(LENGTH_CODES, FOUR + [Zeros(45)]);
    TwoCodesBuilt(MAIN_CODES, 0, LITERALS);
    assert s.main[..LITERALS] == NoLengths(LITERALS) && s.main[LITERALS..] == NoLengths(MAIN_CODES - LITERALS);
    assert NoLengths(LITERALS)[0 := 1] + NoLengths(MAIN_CODES - LITERALS)[0 := 1] == TwoCodes(MAIN_CODES, 0, LITERALS);
    assert Built(NoLengths(LENGTH_CODES)) by { NoCodes(LENGTH_CODES); }
  }

  lemma NoCodes(n: nat)
    requires n < 0x1_0000
    ensures Built(NoLengths(n))
  {
  }

  lemma {:induction false} IdleEncodable(data: seq<byte>, s: State, n: nat)
    requires Sound(data, s) && Used(s.main, LITERALS) && s.rep[0] == 0 && s.out + 2 * n == s.limit
    ensures AllEncodable(data, s, Idle(n)) && Final(data, s, Idle(n)) == s.(out := s.limit)
    decreases n
  {
    hide Built, Covers, Inside;
    if n > 0 {
      var cs := Idle(n);
      assert cs[1..] == Idle(n - 1);
      FollowSound(data, s, cs[0]);
      IdleEncodable(data, Follow(s, cs[0]), n - 1);
    }
  }

  /** Such tokens move the output position and leave the buffer alone. */
  lemma {:induction false} IdleTokens(data: seq<byte>, s: State, n: nat, rest: seq<bit>) returns (t: State)
    requires Sound(data, s) && Used(s.main, LITERALS) && s.rep[0] == 0 && !s.plain && s.out + 2 * n == s.limit
    requires AllEncodable(data, s, Idle(n)) && Unread(data, s.p) == EncodeAll(data, s, Idle(n)) + rest
    ensures Sound(data, t) && t == s.(p := t.p, out := s.limit) && Unread(data, t.p) == rest
    ensures Parse(data, s) == Parse(data, t)
    ensures forall buf :: Parse(data, t).extent <= |buf| ==> Effect(data, s, buf) == Effect(data, t, buf)
    decreases n
  {
    hide Encode, Unread, Token, Built, Covers, Inside, Used, Parse, Effect;
    if n == 0 {
      t := s;
      assert EncodeAll(data, s, Idle(n)) + rest == rest;
    } else {
      var cs := Idle(n);
      assert cs[1..] == Idle(n - 1);
      FollowSound(data, s, cs[0]);
      var more := EncodeAll(data, Follow(s, cs[0]), Idle(n - 1));
      assert EncodeAll(data, s, cs) + rest == Encode(data, s, cs[0]) + (more + rest);
      TokenRoundTrip(data, s, cs[0], more + rest);
      var u := Token(data, s).value.1;
      AllPlaceFree(data, Follow(s, cs[0]), u, Idle(n - 1));
      t := IdleTokens(data, u, n - 1, rest);
      IdleStep(data, s, u);
    }
  }

  lemma IdleStep(data: seq<byte>, s: State, u: State)
    requires Sound(data, s) && Sound(data, u) && !s.plain && s.out < s.limit && Token(data, s) == Ok((Copy(0, 2), u))
    ensures Parse(data, s) == Parse(data, u)
    ensures forall buf :: Parse(data, u).extent <= |buf| ==> Effect(data, s, buf) == Effect(data, u, buf)
  {
    hide Token, Sound, Parse, Effect;
    assert Next(data, s) == Emit(Copy(0, 2), u);
    IdleParse(data, s, u);
    forall buf | Parse(data, u).extent <= |buf| ensures Effect(data, s, buf) == Effect(data, u, buf) {
      IdleEffect(data, s, u, buf);
    }
  }

  lemma IdleParse(data: seq<byte>, s: State, u: State)
    requires Sound(data, s) && Sound(data, u) && !s.plain && Next(data, s) == Emit(Copy(0, 2), u)
    ensures Parse(data, s) == Parse(data, u)
  {
    hide Next, Sound;
  }

  lemma IdleEffect(data: seq<byte>, s: State, u: State, buf: seq<byte>)
    requires Sound(data, s) && Sound(data, u) && Next(data, s) == Emit(Copy(0, 2), u)
    requires Parse(data, s) == Parse(data, u) && Parse(data, u).extent <= |buf|
    ensures Effect(data, s, buf) == Effect(data, u, buf)
  {
    hide Next, Sound, Parse, CopyWithin;
    PlainRun(data, u);
    CopyNothing(buf, s.out, 2);
    assert Written(buf, s.out, Copy(0, 2)) == buf;
  }

  /** The state after an uncompressed block with zero offsets at the start of the input. */
  function AfterZeros(bytes: seq<byte>): State {
    AfterStored(Start(), Fill(12, 0), bytes)
  }

  lemma ZerosIsBlank(bytes: seq<byte>)
    ensures var t := AfterZeros(bytes); Blank(t) && t.out == t.limit == 0 && Placeless(t) == Placeless(AfterZeros([]))
  {
    assert Fill(12, 0)[0..4] == [0, 0, 0, 0];
    assert FromLE([0, 0, 0, 0]) == 0;
  }

  lemma IdleFits(n: nat)
    requires 2 * n == DEFAULT_BLOCK_LEN
    ensures var z := Placeless(AfterZeros([]));
            && Blank(z) && ValidHeader(z, IdleBlock(n)) && Sound([], z) && Sound([], Headed(z, IdleBlock(n)))
            && AllEncodable([], Headed(z, IdleBlock(n)), IdleBlock(n).tokens)
  {
    hide ValidHeader, AllEncodable, Built;
    var z := Placeless(AfterZeros([]));
    ZerosIsBlank([]);
    IdleHeader(z, n);
    assert Sound([], z) by { StartSound([]); }
    HeadedSound([], z, IdleBlock(n));
    TwoCodesBuilt(MAIN_CODES, 0, LITERALS);
    HeadedShape(z, IdleBlock(n));
    IdleEncodable([], Headed(z, IdleBlock(n)), n);
  }

  function PadLength(n: nat): nat {
    (16 - n % 16) % 16
  }

  lemma WordPad(n: nat)
    ensures (n + PadLength(n)) % 16 == 0 && PadLength(n) < 16
  {
  }

  lemma HeadedShape(s: State, b: CodedBlock)
    requires ValidHeader(s, b)
    ensures var h := Headed(s, b); h.out == s.out && h.limit == s.out + b.size && h.rep == s.rep && h.plain == s.plain && h.p == s.p
  {
  }

  /** The run over the idle block: a full chunk is reported and the buffer is left alone. */
  lemma IdleRun(data: seq<byte>, s: State, n: nat, pad: seq<bit>)
    requires 2 * n == DEFAULT_BLOCK_LEN && Sound(data, s) && s.out == s.limit == 0 && |pad| < 16
    requires Placeless(s) == Placeless(AfterZeros([]))
    requires Sound([], Placeless(s)) && ValidHeader(Placeless(s), IdleBlock(n)) && Sound([], Headed(Placeless(s), IdleBlock(n)))
    requires AllEncodable([], Headed(Placeless(s), IdleBlock(n)), Idle(n))
    requires Unread(data, s.p) == HeaderBits(Placeless(s), IdleBlock(n)) + (EncodeAll([], Headed(Placeless(s), IdleBlock(n)), Idle(n)) + pad)
    ensures Parse(data, s) == Run(Good, false, DEFAULT_BLOCK_LEN, DEFAULT_BLOCK_LEN, [])
    ensures forall buf :: DEFAULT_BLOCK_LEN <= |buf| ==> Effect(data, s, buf) == buf
  {
    hide ValidHeader, AllEncodable, EncodeAll, HeaderBits, Unread, Headed, Built, Inside, Idle, IdleBlock, Block, Parse, Effect, Next;
    var b, z := IdleBlock(n), Placeless(s);
    ZerosIsBlank([]);
    var h0 := Headed(z, b);
    var tokens := EncodeAll([], h0, Idle(n));
    HeaderPlaceless(s, b);
    HeaderLong(z, b);
    MoreInput(data, s.p);
    var h := HeaderRoundTrip(data, s, b, tokens + pad);
    HeadedPlaceless(s, h, b);
    HeadedShape(z, b);
    IdleHeader(z, n);
    TwoCodesBuilt(MAIN_CODES, 0, LITERALS);
    SoundAnywhere(data, h0, h);
    TokensDataFree([], data, h0, Idle(n));
    AllPlaceFree(data, h0, h, Idle(n));
    IdleSize(n);
    var t := IdleTokens(data, h, n, pad);
    EndsHere(data, t);
    IdleBegins(data, s, h, t);
  }

  lemma EndsHere(data: seq<byte>, s: State)
    requires Sound(data, s) && s.out >= s.limit && |Unread(data, s.p)| < 16
    ensures Next(data, s) == End && Parse(data, s) == Run(Good, s.plain, s.out, s.out, [])
  {
    hide Unread;
    MoreInput(data, s.p);
  }

  lemma IdleSize(n: nat)
    ensures IdleBlock(n).size == DEFAULT_BLOCK_LEN && IdleBlock(n).tokens == Idle(n)
  {
  }

  lemma SoundAnywhere(data: seq<byte>, s: State, h: State)
    requires Sound([], s) && Sound(data, h) && h == s.(p := h.p) && s.p == Place(0, [])
    ensures Sound(data, s)
  {
  }

  lemma IdleBegins(data: seq<byte>, s: State, h: State, t: State)
    requires Sound(data, s) && Sound(data, h) && Sound(data, t) && s.out == s.limit == 0 && s.p.offset < |data|
    requires Block(data, s).Ok? && Block(data, s).value.0 == h && Block(data, s).value.2 == []
    requires Parse(data, h) == Parse(data, t) == Run(Good, false, DEFAULT_BLOCK_LEN, DEFAULT_BLOCK_LEN, [])
    requires forall buf :: Parse(data, t).extent <= |buf| ==> Effect(data, h, buf) == Effect(data, t, buf)
    requires Next(data, t) == End
    ensures Parse(data, s) == Run(Good, false, DEFAULT_BLOCK_LEN, DEFAULT_BLOCK_LEN, [])
    ensures forall buf :: DEFAULT_BLOCK_LEN <= |buf| ==> Effect(data, s, buf) == buf
  {
    hide Block, Sound, Parse, Effect;
    assert Next(data, s) == Begin(h, Block(data, s).value.1, []);
    hide Next;
    EmptyBegin(data, s, h);
    forall buf | DEFAULT_BLOCK_LEN <= |buf| ensures Effect(data, s, buf) == buf {
      EndEffect(data, t, buf);
      EmptyBeginEffect(data, s, h, buf);
    }
  }

  /** A block with no bytes to copy leaves the run and the buffer to what follows. */
  lemma EmptyBegin(data: seq<byte>, s: State, h: State)
    requires Sound(data, s) && Sound(data, h) && Next(data, s).Begin? && Next(data, s).next == h && Next(data, s).bytes == []
    ensures Parse(data, s) == Parse(data, h)
  {
    hide Next, Sound;
    PlainRun(data, h);
  }

  lemma EmptyBeginEffect(data: seq<byte>, s: State, h: State, buf: seq<byte>)
    requires Sound(data, s) && Sound(data, h) && Next(data, s).Begin? && Next(data, s).next == h && Next(data, s).bytes == []
    requires Parse(data, s) == Parse(data, h) && Parse(data, h).extent <= |buf|
    ensures Effect(data, s, buf) == Effect(data, h, buf)
  {
    hide Next, Sound, Parse;
    PlainRun(data, h);
    assert Put(buf, s.out, []) == buf;
  }

  lemma EndEffect(data: seq<byte>, t: State, buf: seq<byte>)
    requires Sound(data, t) && Next(data, t) == End && Parse(data, t).extent <= |buf|
    ensures Effect(data, t, buf) == buf
  {
    hide Next, Sound, Parse;
  }

  function Larger(a: nat, b: nat): nat {
    if a > b then a else b
  }

  /**
   * There is a file, an uncompressed block with given bytes and zero offsets and a verbatim block of
   * matches at the first of them, that decodes successfully to a full chunk of which it writes only
   * those bytes: in any buffer the decompressor leaves what was there after them, translated.
   */
  lemma IdleFile(bytes: seq<byte>) returns (data: seq<byte>)
    requires |bytes| < 0x1_0000
    ensures Even(|data|) && WholeRun(data) == Run(Good, false, DEFAULT_BLOCK_LEN, Larger(|bytes|, DEFAULT_BLOCK_LEN), [])
    ensures forall buf :: Larger(|bytes|, DEFAULT_BLOCK_LEN) <= |buf| ==>
              BufferAfter(data, buf) == Translated(Put(buf, 0, bytes), DEFAULT_BLOCK_LEN)
  {
    hide ValidHeader, AllEncodable, EncodeAll, HeaderBits, Unread, Headed, Built, Idle, IdleBlock, Block, Parse, Effect,
      Packed, Next, Walk, StoredBlock, AfterStored, BitsFrom, PadLength, ThreeOffsets, Put;
    var n, z := DEFAULT_BLOCK_LEN / 2, Placeless(AfterZeros([]));
    IdleSize(n);
    IdleFits(n);
    var bits := HeaderBits(z, IdleBlock(n)) + EncodeAll([], Headed(z, IdleBlock(n)), Idle(n));
    var pad := ZeroBits(PadLength(|bits|));
    WordPad(|bits|);
    var rest := Packed(bits + pad);
    StreamOfPacked(bits + pad);
    data := StoredBlock(Fill(12, 0), bytes) + rest;
    EvenSum(bytes, rest);
    StartSound(data);
    StoredRead(Start(), Fill(12, 0), bytes, rest);
    BitsShift(StoredBlock(Fill(12, 0), bytes), rest, 0);
    var t := AfterZeros(bytes);
    ZerosIsBlank(bytes);
    StoredPlace(data, bytes);
    assert bits + pad == HeaderBits(z, IdleBlock(n)) + (EncodeAll([], Headed(z, IdleBlock(n)), Idle(n)) + pad);
    IdleRun(data, t, n, pad);
    IdleRunBegins(data, t, bytes);
  }

  lemma EvenSum(bytes: seq<byte>, rest: seq<byte>)
    requires Even(|rest|)
    ensures var head := StoredBlock(Fill(12, 0), bytes);
            Even(|head|) && Even(|head + rest|) && |head| == 16 + |bytes| + |bytes| % 2
  {
    hide StoredBlock, Packed, Fill;
    EvenTail(|bytes|, 0);
    EvenTail(|bytes|, |rest|);
  }

  lemma StoredPlace(data: seq<byte>, bytes: seq<byte>)
    requires Even(|data|) && Even(16 + |bytes| + |bytes| % 2) && |data| >= 16 + |bytes| + |bytes| % 2
    ensures var t := AfterZeros(bytes);
            Sound(data, t) && t.p == Place(16 + |bytes| + |bytes| % 2, []) && Unread(data, t.p) == BitsFrom(data, 16 + |bytes| + |bytes| % 2)
  {
    hide FromLE, Fill, Even, BitsFrom, Unread, Built;
    StartSound(data);
    AtWord(data, 16 + |bytes| + |bytes| % 2);
  }

  lemma AtWord(data: seq<byte>, n: nat)
    requires Even(|data|) && Even(n) && n <= |data|
    ensures Inside(data, Place(n, [])) && Unread(data, Place(n, [])) == BitsFrom(data, n)
  {
  }

  lemma IdleRunBegins(data: seq<byte>, t: State, bytes: seq<byte>)
    requires Even(|data|) && Sound(data, Start()) && Sound(data, t)
    requires Next(data, Start()) == Begin(t, Header(3, |bytes|), bytes)
    requires Parse(data, t) == Run(Good, false, DEFAULT_BLOCK_LEN, DEFAULT_BLOCK_LEN, [])
    requires forall buf :: DEFAULT_BLOCK_LEN <= |buf| ==> Effect(data, t, buf) == buf
    ensures WholeRun(data) == Run(Good, false, DEFAULT_BLOCK_LEN, Larger(|bytes|, DEFAULT_BLOCK_LEN), [])
    ensures forall buf :: Larger(|bytes|, DEFAULT_BLOCK_LEN) <= |buf| ==>
              BufferAfter(data, buf) == Translated(Put(buf, 0, bytes), DEFAULT_BLOCK_LEN)
  {
    hide Next, Sound, Walk, Parse, Effect, Put;
    FirstBlock(data, t);
    forall buf | Larger(|bytes|, DEFAULT_BLOCK_LEN) <= |buf| ensures Effect(data, Start(), buf) == Put(buf, 0, bytes) {
      FirstBlockEffect(data, t, buf);
    }
  }

  /** A run that begins with a block. */
  lemma FirstBlock(data: seq<byte>, t: State)
    requires Sound(data, Start()) && Sound(data, t) && Next(data, Start()).Begin? && Next(data, Start()).next == t
    ensures Parse(data, Start()) == Parse(data, t).(extent := Larger(|Next(data, Start()).bytes|, Parse(data, t).extent))
  {
    hide Next, Sound;
  }

  lemma FirstBlockEffect(data: seq<byte>, t: State, buf: seq<byte>)
    requires Sound(data, Start()) && Sound(data, t) && Next(data, Start()).Begin? && Next(data, Start()).next == t
    requires Parse(data, Start()).extent <= |buf| && Parse(data, t).extent <= |buf| && |Next(data, Start()).bytes| <= |buf|
    ensures Effect(data, Start(), buf) == Effect(data, t, Put(buf, 0, Next(data, Start()).bytes))
  {
    hide Next, Sound, Parse;
  }
}
