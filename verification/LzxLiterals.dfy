/** Every byte string has an LZX coding: blocks of literals (src/lzx.c). */
module LzxLiterals {
  import opened Bytes
  import opened Bits
  import opened Huffman
  import opened HuffmanBits
  import opened Lz
  import opened LzxBits
  import opened Lzx
  import opened LzxTokens
  import opened LzxFormat
  import opened LzxFiles
  import opened LzxJumps

  // Tables of equal lengths

  function Equal(n: nat, v: nat): (r: seq<nat>)
    ensures |r| == n && forall i :: 0 <= i < n ==> r[i] == v
  {
    seq<nat>(n, (i: int) requires 0 <= i => v)
  }

  function Ones(n: nat, v: nat): (r: seq<Stretch>)
    ensures |r| == n
  {
    if n == 0 then [] else [One(v)] + Ones(n - 1, v)
  }

  /** A pretree with codes for a length that stays and for one that grows from 0 to 8. */
  function StayOrGrow(): (r: seq<nat>)
    ensures |r| == PRETREE_CODES
  {
    TwoCodes(PRETREE_CODES, 0, 9)
  }

  lemma StayOrGrowBuilt()
    ensures Built(StayOrGrow()) && Used(StayOrGrow(), 0) && Used(StayOrGrow(), 9) && Narrow(StayOrGrow(), 4)
  {
    TwoCodesBuilt(PRETREE_CODES, 0, 9);
    Pow2Values();
  }

  lemma {:induction false} OnesCover(pre: seq<nat>, ls: seq<nat>, i: nat, v: nat)
    requires |pre| == PRETREE_CODES && Built(pre) && i <= |ls| && v <= 16
    requires forall k :: 0 <= k < |ls| ==> ls[k] <= 16 && Used(pre, Delta(ls[k], v))
    requires Used(pre, Delta(v, v))
    ensures Covering(pre, ls, i, Ones(|ls| - i, v)) && Decoded(pre, ls, i, Ones(|ls| - i, v)) == ls[..i] + Equal(|ls| - i, v)
    decreases |ls| - i
  {
    hide Built, Used, Delta;
    var xs := Ones(|ls| - i, v);
    if i == |ls| {
      assert ls[..i] + Equal(0, v) == ls;
    } else {
      var next := ls[i := v];
      assert xs[1..] == Ones(|ls| - (i + 1), v);
      assert Spread(ls, i, 1, v) == next;
      OnesCover(pre, next, i + 1, v);
      assert next[..i + 1] + Equal(|ls| - (i + 1), v) == ls[..i] + Equal(|ls| - i, v);
    }
  }

  /** A table of equal lengths, each the same as before or 8 after 0. */
  function EqualTable(n: nat, v: nat): Table {
    Table(StayOrGrow(), Ones(n, v))
  }

  lemma EqualTableValid(was: seq<nat>, v: nat)
    requires |was| < 0x1_0000 && v <= 8 && forall k :: 0 <= k < |was| ==> was[k] == v || (was[k] == 0 && v == 8)
    ensures ValidTable(EqualTable(|was|, v), was) && Lens(EqualTable(|was|, v), was) == Equal(|was|, v)
  {
    hide Built, StayOrGrow, Narrow, Covering, Decoded, Used;
    StayOrGrowBuilt();
    OnesCover(StayOrGrow(), was, 0, v);
    assert was[..0] + Equal(|was|, v) == Equal(|was|, v);
  }

  // The code of eight bits for every byte

  function ByteCode(): (r: seq<nat>)
    ensures |r| == MAIN_CODES
  {
    Equal(LITERALS, 8) + NoLengths(MAIN_CODES - LITERALS)
  }

  lemma {:induction false} EqualWeigh(n: nat, m: nat, k: nat)
    requires n + m < 0x1_0000 && k <= n + m
    ensures ValidLengths((Equal(n, 8) + NoLengths(m))[..k])
    ensures Kraft((Equal(n, 8) + NoLengths(m))[..k]) == 256 * (if k < n then k else n)
    decreases k
  {
    hide Shl;
    assert Pow2(8) == 256 by { Pow2Values(); }
    var ls := Equal(n, 8) + NoLengths(m);
    if k > 0 {
      EqualWeigh(n, m, k - 1);
      assert ls[..k][..k - 1] == ls[..k - 1];
    }
  }

  lemma ByteCodeBuilt()
    ensures Built(ByteCode()) && forall b: byte :: Used(ByteCode(), b)
  {
    EqualWeigh(LITERALS, MAIN_CODES - LITERALS, MAIN_CODES);
    assert ByteCode()[..MAIN_CODES] == ByteCode();
  }

  // Blocks of literals

  function Lits(text: seq<byte>): (r: seq<Coded>)
    ensures |r| == |text|
  {
    if text == [] then [] else [Lit(text[0])] + Lits(text[1..])
  }

  function LitBlock(text: seq<byte>): CodedBlock {
    CodedBlock(false, [], EqualTable(LITERALS, 8), EqualTable(MAIN_CODES - LITERALS, 0), EqualTable(LENGTH_CODES, 0), |text|, Lits(text))
  }

  /** A state before a block of literals: nothing but such blocks has come before. */
  predicate Before(s: State) {
    && s.plain && s.out >= s.limit && s.len == NoLengths(LENGTH_CODES)
    && (s.main == NoLengths(MAIN_CODES) || s.main == ByteCode())
  }

  lemma LitHeader(s: State, text: seq<byte>)
    requires Before(s) && |text| < 0x1_0000
    ensures ValidHeader(s, LitBlock(text))
    ensures var h := Headed(s, LitBlock(text)); h.main == ByteCode() && h.len == NoLengths(LENGTH_CODES)
  {
    hide ValidTable, Lens, Built, Lits;
    EqualTableValid(s.main[..LITERALS], 8);
    EqualTableValid(s.main[LITERALS..], 0);
    EqualTableValid(s.len, 0);
    assert Equal(MAIN_CODES - LITERALS, 0) == NoLengths(MAIN_CODES - LITERALS) && Equal(LENGTH_CODES, 0) == NoLengths(LENGTH_CODES);
    ByteCodeBuilt();
    NoCodes(LENGTH_CODES);
  }

  lemma {:induction false} LitTokens(data: seq<byte>, s: State, text: seq<byte>)
    requires Sound(data, s) && s.plain && (forall b: byte :: Used(s.main, b)) && s.out + |text| <= s.limit
    ensures AllEncodable(data, s, Lits(text)) && Final(data, s, Lits(text)) == s.(out := s.out + |text|)
    ensures Items(data, s, Lits(text)) == Literals(text)
    decreases |text|
  {
    hide Built, Inside, Used, Covers;
    if text != [] {
      var cs := Lits(text);
      assert cs[1..] == Lits(text[1..]);
      LitEncodable(data, s, text[0]);
      FollowSound(data, s, cs[0]);
      LitTokens(data, Follow(s, cs[0]), text[1..]);
      assert [Literal(text[0])] + Literals(text[1..]) == Literals(text);
    }
  }

  lemma LitEncodable(data: seq<byte>, s: State, b: byte)
    requires Sound(data, s) && Used(s.main, b)
    ensures Encodable(data, s, Lit(b)) && Follow(s, Lit(b)) == s.(out := s.out + 1) && Meaning(s, Lit(b)) == Byte(b)
  {
  }

  /** A block of literals can follow such blocks, and is one. */
  lemma LitBlockValid(data: seq<byte>, s: State, text: seq<byte>)
    requires Sound(data, s) && Before(s) && |text| < 0x1_0000
    ensures ValidHeader(s, LitBlock(text)) && Sound(data, Headed(s, LitBlock(text)))
    ensures AllEncodable(data, Headed(s, LitBlock(text)), LitBlock(text).tokens)
    ensures Items(data, Headed(s, LitBlock(text)), LitBlock(text).tokens) == Literals(text)
    ensures var t := Ended(data, s, LitBlock(text)); Before(t) && t.out >= t.limit
  {
    hide ValidHeader, AllEncodable, Items, Final, Built, ByteCode, Literals, Lits, Used;
    LitHeader(s, text);
    HeadedSound(data, s, LitBlock(text));
    ByteCodeBuilt();
    HeadedShape(s, LitBlock(text));
    LitTokens(data, Headed(s, LitBlock(text)), text);
  }

  function BlockLength(n: nat): (k: nat)
    requires n > 0
    ensures 0 < k <= n && k < 0x1_0000
  {
    if n < DEFAULT_BLOCK_LEN then n else DEFAULT_BLOCK_LEN
  }

  function LitBlocks(text: seq<byte>): seq<CodedBlock> {
    if text == [] then [] else
      var n := BlockLength(|text|);
      [LitBlock(text[..n])] + LitBlocks(text[n..])
  }

  lemma {:induction false} LitBlocksValid(data: seq<byte>, s: State, text: seq<byte>)
    requires Sound(data, s) && Before(s)
    ensures ValidBlocks(data, s, LitBlocks(text)) && FileItems(data, s, LitBlocks(text)) == Literals(text)
    decreases |text|
  {
    hide ValidHeader, AllEncodable, Items, Before, Sound, Headed, LitBlock, Literals, Ended;
    if text == [] {
      NoLiterals();
    } else {
      var n := BlockLength(|text|);
      var bs, b := LitBlocks(text), LitBlock(text[..n]);
      assert bs[0] == b && bs[1..] == LitBlocks(text[n..]);
      LitBlockValid(data, s, text[..n]);
      LitBlocksValid(data, Ended(data, s, b), text[n..]);
      LiteralsCut(text, n);
    }
  }

  lemma NoLiterals()
    ensures Literals([]) == []
  {
  }

  /** The code of every byte is eight bits long. */
  lemma {:induction false} LitBits(data: seq<byte>, s: State, text: seq<byte>)
    requires Sound(data, s) && s.main == ByteCode() && AllEncodable(data, s, Lits(text))
    ensures |EncodeAll(data, s, Lits(text))| == 8 * |text|
    decreases |text|
  {
    hide Built, Inside, Covers;
    if text != [] {
      var cs := Lits(text);
      assert cs[1..] == Lits(text[1..]);
      FollowSound(data, s, cs[0]);
      NoFooter(data, s, cs[0]);
      LitBits(data, Follow(s, cs[0]), text[1..]);
    }
  }

  /** So the coding is longer than the text. */
  lemma {:induction false} LitBlocksLong(data: seq<byte>, s: State, text: seq<byte>)
    requires Sound(data, s) && Before(s) && ValidBlocks(data, s, LitBlocks(text)) && text != []
    ensures |FileBits(data, s, LitBlocks(text))| > 8 * |text|
    decreases |text|
  {
    hide ValidHeader, AllEncodable, Before, Sound, LitBlock, Ended, EncodeAll, HeaderBits, Headed, ByteCode;
    var n := BlockLength(|text|);
    var bs, b := LitBlocks(text), LitBlock(text[..n]);
    assert bs[0] == b && bs[1..] == LitBlocks(text[n..]);
    LitBlockValid(data, s, text[..n]);
    LitHeader(s, text[..n]);
    LitBits(data, Headed(s, b), text[..n]) by { LitBlockIs(text[..n]); }
    LitBlockIs(text[..n]);
    HeaderLong(s, b);
    if n < |text| { LitBlocksLong(data, Ended(data, s, b), text[n..]); }
  }

  lemma LitBlockIs(text: seq<byte>)
    ensures LitBlock(text).tokens == Lits(text)
  {
  }

  /** Every byte string shorter than 2^31 is what some file decodes to. */
  lemma CodingExists(original: seq<byte>) returns (bs: seq<CodedBlock>, pad: seq<bit>)
    requires |original| < HALF
    ensures ValidFile(bs, pad) && Expand(NOWHERE, [], ItemsOf(bs)) == Walk(original, 0, false)
    ensures original != [] ==> |FileOf(bs, pad)| > |original|
  {
    hide ValidBlocks, FileBits, FileItems, Walk, Literals, LitBlocks, PadLength;
    var text := Walk(original, 0, false);
    StartSound([]);
    bs := LitBlocks(text);
    LitBlocksValid([], Start(), text);
    if text != [] { LitBlocksLong([], Start(), text); }
    var n := |FileBits([], Start(), bs)|;
    pad := ZeroBits(PadLength(n));
    WordPad(n);
    ExpandLiterals(NOWHERE, [], text);
    assert [] + text == text;
  }
}
