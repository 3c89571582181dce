/** The XCA format: an encoder from tokens to bytes, and the decoder as its inverse (src/xca.c; section 2.1 of [MS-XCA]). */
module XcaFiles {
  import opened Bytes
  import opened Bits
  import opened Lz
  import opened Memory
  import opened Huffman
  import opened HuffmanBits
  import opened Xca

  // Bits and the words they travel in

  /**
   * A word of the bit stream goes out as soon as fewer than 16 bits of those sent are left: this
   * is what goes out when `n` of `held` bits have been used.
   */
  function WordDue(u: seq<bit>, held: nat, n: nat): (r: seq<byte>)
    requires n <= held && held + 16 <= |u|
  {
    if held - n < 16 then LE(Number(u[held..held + 16]), 2) else []
  }

  function StillHeld(held: nat, n: nat): (r: nat)
    requires n <= 16 <= held <= 32
    ensures 16 <= r <= 32
  {
    if held - n < 16 then held - n + 16 else held - n
  }

  lemma WordRead(src: Source, at: nat, q: seq<bit>)
    requires |q| == 16 && HoldsAt(src, at, LE(Number(q), 2))
    ensures WordBits(Word(src, at)) == q
  {
    hide Number, ToBits, HoldsAt, LE;
    BitsOfNumber(q);
    WindowBound(q);
    WordHeld(src, at, Number(q));
  }

  /** The decoder reads that word exactly then. */
  lemma RefillRead(src: Source, at: nat, u: seq<bit>, held: nat, n: nat)
    requires n <= 16 <= held <= 32 && held + 16 <= |u| && HoldsAt(src, at, WordDue(u, held, n))
    ensures Refill(src, at, u[..held][n..]) == (u[n..][..StillHeld(held, n)], at + |WordDue(u, held, n)|)
  {
    hide HoldsAt, LE, Number, WordBits, Word;
    if held - n < 16 {
      WordRead(src, at, u[held..held + 16]);
      assert u[..held][n..] + u[held..held + 16] == u[n..][..StillHeld(held, n)];
    } else {
      assert u[..held][n..] == u[n..][..StillHeld(held, n)];
    }
  }

  // Tokens

  function TokenBits(ls: seq<nat>, c: Coded): seq<bit>
    requires ValidLengths(ls) && ValidCoded(c) && Used(ls, SymbolOf(c))
  {
    if c.Lit? then CodeBits(ls, SymbolOf(c)) else CodeBits(ls, SymbolOf(c)) + ToBits(c.low, c.n)
  }

  predicate Codable(ls: seq<nat>, cs: seq<Coded>) {
    forall i :: 0 <= i < |cs| ==> ValidCoded(cs[i]) && Used(ls, SymbolOf(cs[i]))
  }

  /** The bit stream of some tokens and what follows them. */
  function Stream(ls: seq<nat>, cs: seq<Coded>, tail: seq<bit>): (u: seq<bit>)
    requires ValidLengths(ls) && Codable(ls, cs)
    ensures |u| >= |tail|
  {
    if cs == [] then tail else TokenBits(ls, cs[0]) + Stream(ls, cs[1..], tail)
  }

  /** Bytes of one token: the words due, and the rest of a match length between them. */
  function TokenBytes(ls: seq<nat>, c: Coded, u: seq<bit>, held: nat): seq<byte>
    requires Built(ls) && ValidCoded(c) && Used(ls, SymbolOf(c)) && 16 <= held <= 32
    requires |u| >= 48 + |TokenBits(ls, c)|
  {
    var k := ls[SymbolOf(c)];
    if c.Lit? then WordDue(u, held, k)
    else WordDue(u, held, k) + (LengthBytes(c.len) + WordDue(u[k..], StillHeld(held, k), c.n))
  }

  function HeldAfter(ls: seq<nat>, c: Coded, held: nat): (r: nat)
    requires ValidLengths(ls) && ValidCoded(c) && Used(ls, SymbolOf(c)) && 16 <= held <= 32
    ensures 16 <= r <= 32
  {
    var k := ls[SymbolOf(c)];
    if c.Lit? then StillHeld(held, k) else StillHeld(StillHeld(held, k), c.n)
  }

  /** The bytes of some tokens, of whose bit stream the first `held` bits have gone out. */
  function Coding(ls: seq<nat>, cs: seq<Coded>, tail: seq<bit>, held: nat): seq<byte>
    requires Built(ls) && Codable(ls, cs) && |tail| >= 48 && 16 <= held <= 32
    decreases |cs|
  {
    if cs == [] then [] else
      TokenBytes(ls, cs[0], Stream(ls, cs, tail), held) + Coding(ls, cs[1..], tail, HeldAfter(ls, cs[0], held))
  }

  function HeldAtEnd(ls: seq<nat>, cs: seq<Coded>, held: nat): (r: nat)
    requires ValidLengths(ls) && Codable(ls, cs) && 16 <= held <= 32
    ensures 16 <= r <= 32
    decreases |cs|
  {
    if cs == [] then held else HeldAtEnd(ls, cs[1..], HeldAfter(ls, cs[0], held))
  }

  /** The match that shares its symbol with the end marker is always followed by more than a byte. */
  predicate Clear(ls: seq<nat>, cs: seq<Coded>, tail: seq<bit>, held: nat, left: nat)
    requires Built(ls) && Codable(ls, cs) && |tail| >= 48 && 16 <= held <= 32
    decreases |cs|
  {
    cs == [] ||
    var next := HeldAfter(ls, cs[0], held);
    && (SymbolOf(cs[0]) == END_MARKER ==> |Coding(ls, cs[1..], tail, next)| + left >= 2)
    && Clear(ls, cs[1..], tail, next, left)
  }

  /** A decoder whose unread bits start the stream `u` goes on with the token. */
  lemma TokenRead(src: Source, end: nat, s: State, c: Coded, u: seq<bit>)
    requires Ready(s) && ValidCoded(c) && Used(s.ls, SymbolOf(c)) && |u| >= 48 + |TokenBits(s.ls, c)|
    requires s.q == u[..|s.q|] && u[..|TokenBits(s.ls, c)|] == TokenBits(s.ls, c)
    requires HoldsAt(src, s.at, TokenBytes(s.ls, c, u, |s.q|))
    requires SymbolOf(c) == END_MARKER ==> s.at + |TokenBytes(s.ls, c, u, |s.q|)| + 1 < end
    ensures GoesOn(src, end, s, c)
    ensures var h := HeldAfter(s.ls, c, |s.q|);
            Passed(src, s, c) == s.(at := s.at + |TokenBytes(s.ls, c, u, |s.q|)|, q := u[|TokenBits(s.ls, c)|..][..h],
                                    out := s.out + Size(Meaning(c)))
  {
    hide HoldsAt, LE, WordDue, Refill, CodeBits, ToBits, LengthBytes, Kraft, Unused;
    var k, held := s.ls[SymbolOf(c)], |s.q|;
    assert u[..k] == CodeBits(s.ls, SymbolOf(c)) == s.q[..k];
    if c.Lit? {
      RefillRead(src, s.at, u, held, k);
    } else {
      var a, b, h := WordDue(u, held, k), WordDue(u[k..], StillHeld(held, k), c.n), StillHeld(held, k);
      HoldsParts(src, s.at, a, LengthBytes(c.len) + b);
      HoldsParts(src, s.at + |a|, LengthBytes(c.len), b);
      RefillRead(src, s.at, u, held, k);
      RefillRead(src, s.at + |a| + |LengthBytes(c.len)|, u[k..], h, c.n);
      LowBits(u, CodeBits(s.ls, SymbolOf(c)), ToBits(c.low, c.n), h);
      MatchAtEnd(c);
    }
  }

  /** The distance bits follow the code. */
  lemma LowBits(u: seq<bit>, code: seq<bit>, low: seq<bit>, h: nat)
    requires |code| + |low| <= |u| && u[..|code| + |low|] == code + low && |low| <= h <= |u| - |code|
    ensures u[|code|..][..h][..|low|] == low && u[|code|..][|low|..] == u[|code| + |low|..]
  {
    assert u[|code|..][..h][..|low|] == u[..|code| + |low|][|code|..];
  }

  /** That match has neither length bytes nor distance bits. */
  lemma MatchAtEnd(c: Coded)
    requires ValidCoded(c) && c.Copy?
    ensures SymbolOf(c) == END_MARKER ==> LengthBytes(c.len) == [] && c.n == 0
  {
  }

  function Total(cs: seq<Coded>): nat
    requires forall i :: 0 <= i < |cs| ==> ValidCoded(cs[i])
  {
    if cs == [] then 0 else Size(Meaning(cs[0])) + Total(cs[1..])
  }

  /** Every token starts before the threshold. */
  predicate StartBefore(cs: seq<Coded>, out: nat, threshold: nat)
    requires forall i :: 0 <= i < |cs| ==> ValidCoded(cs[i])
  {
    cs == [] || (out < threshold && StartBefore(cs[1..], out + Size(Meaning(cs[0])), threshold))
  }

  predicate StartInside(cs: seq<Coded>, out: nat, threshold: nat) {
    (forall i :: 0 <= i < |cs| ==> ValidCoded(cs[i])) && StartBefore(cs, out, threshold)
  }

  predicate AllClear(ls: seq<nat>, cs: seq<Coded>, tail: seq<bit>, held: nat, left: nat) {
    Built(ls) && Codable(ls, cs) && |tail| >= 48 && 16 <= held <= 32 && Clear(ls, cs, tail, held, left)
  }

  /** The decoder inside a block, at the bytes of some tokens that end `left` bytes before the input does. */
  ghost predicate AtTokens(src: Source, end: nat, s: State, cs: seq<Coded>, tail: seq<bit>, left: nat) {
    && Ready(s) && Codable(s.ls, cs) && |tail| >= 48 && s.q == Stream(s.ls, cs, tail)[..|s.q|]
    && StartInside(cs, s.out, s.threshold) && left > 0 && AllClear(s.ls, cs, tail, |s.q|, left)
    && HoldsAt(src, s.at, Coding(s.ls, cs, tail, |s.q|)) && end == s.at + |Coding(s.ls, cs, tail, |s.q|)| + left
  }

  /** From inside a block, the bytes of its tokens code them, and leave the bits that follow. */
  lemma {:induction false} TokensRead(src: Source, end: nat, s: State, cs: seq<Coded>, tail: seq<bit>, left: nat)
    requires AtTokens(src, end, s, cs, tail, left)
    ensures Codes(src, end, s, cs)
    ensures Last(src, end, s, cs) == s.(at := end - left, q := tail[..HeldAtEnd(s.ls, cs, |s.q|)], out := s.out + Total(cs))
    decreases |cs|
  {
    if cs == [] {
      NoTokens(src, end, s);
    } else {
      hide AtTokens, GoesOn, Passed, Codes, Last, Meaning, HeldAfter, SymbolOf;
      TokensStep(src, end, s, cs, tail, left);
      TokensRead(src, end, Passed(src, s, cs[0]), cs[1..], tail, left);
      TokenFirst(src, end, s, cs);
    }
  }

  /** What the first token leaves. */
  lemma TokensStep(src: Source, end: nat, s: State, cs: seq<Coded>, tail: seq<bit>, left: nat)
    requires AtTokens(src, end, s, cs, tail, left) && cs != []
    ensures Ready(s) && Codable(s.ls, cs) && s.out < s.threshold && s.at < end && GoesOn(src, end, s, cs[0])
    ensures var next := Passed(src, s, cs[0]);
            && AtTokens(src, end, next, cs[1..], tail, left) && |next.q| == HeldAfter(s.ls, cs[0], |s.q|)
            && next == s.(at := next.at, q := next.q, out := s.out + Size(Meaning(cs[0])))
  {
    hide HoldsAt, TokenBytes, TokenBits, GoesOn, Passed, HeldAfter, Meaning, SymbolOf, Kraft, Unused, StartInside, AllClear;
    var u, c, held := Stream(s.ls, cs, tail), cs[0], |s.q|;
    CodableFirst(s.ls, cs);
    StreamFirst(s.ls, cs, tail);
    var h, bytes := HeldAfter(s.ls, c, held), TokenBytes(s.ls, c, u, held);
    var more := Coding(s.ls, cs[1..], tail, h);
    CodingFirst(s.ls, cs, tail, held, left);
    var at, out := s.at + |bytes|, s.out + Size(Meaning(c));
    HoldsRest(src, s.at, bytes, more, at);
    StartFirst(cs, s.out, s.threshold, out);
    TokenRead(src, end, s, c, u);
    CodedRead(src, end, s, c);
    assert |u[|TokenBits(s.ls, c)|..][..h]| == h;
    TokensAt(src, end, Passed(src, s, c), s.ls, at, out, cs[1..], tail, left, h);
  }

  lemma HoldsRest(src: Source, at: nat, a: seq<byte>, b: seq<byte>, next: nat)
    requires HoldsAt(src, at, a + b) && next == at + |a|
    ensures HoldsAt(src, at, a) && HoldsAt(src, next, b)
  {
    HoldsParts(src, at, a, b);
  }

  lemma TokensAt(src: Source, end: nat, s: State, ls: seq<nat>, at: nat, out: nat, cs: seq<Coded>, tail: seq<bit>, left: nat, h: nat)
    requires Ready(s) && s.ls == ls && s.at == at && s.out == out && |s.q| == h
    requires Codable(ls, cs) && |tail| >= 48 && s.q == Stream(ls, cs, tail)[..h]
    requires StartInside(cs, out, s.threshold) && left > 0 && AllClear(ls, cs, tail, h, left)
    requires HoldsAt(src, at, Coding(ls, cs, tail, h)) && end == at + |Coding(ls, cs, tail, h)| + left
    ensures AtTokens(src, end, s, cs, tail, left)
  {
  }

  lemma CodableFirst(ls: seq<nat>, cs: seq<Coded>)
    requires Codable(ls, cs) && cs != []
    ensures Codable(ls, cs[1..]) && ValidCoded(cs[0]) && Used(ls, SymbolOf(cs[0]))
  {
  }

  lemma StartFirst(cs: seq<Coded>, out: nat, threshold: nat, next: nat)
    requires StartInside(cs, out, threshold) && cs != [] && next == out + Size(Meaning(cs[0]))
    ensures out < threshold && StartInside(cs[1..], next, threshold)
  {
  }

  lemma CodingFirst(ls: seq<nat>, cs: seq<Coded>, tail: seq<bit>, held: nat, left: nat)
    requires Built(ls) && Codable(ls, cs) && |tail| >= 48 && 16 <= held <= 32 && cs != [] && AllClear(ls, cs, tail, held, left)
    ensures |Stream(ls, cs, tail)| >= 48 + |TokenBits(ls, cs[0])| && Codable(ls, cs[1..])
    ensures var next := HeldAfter(ls, cs[0], held);
            && Coding(ls, cs, tail, held) == TokenBytes(ls, cs[0], Stream(ls, cs, tail), held) + Coding(ls, cs[1..], tail, next)
            && AllClear(ls, cs[1..], tail, next, left)
            && (SymbolOf(cs[0]) == END_MARKER ==> |Coding(ls, cs[1..], tail, next)| + left >= 2)
  {
    hide TokenBytes, HeldAfter, Kraft, Unused;
    StreamFirst(ls, cs, tail);
  }

  lemma StreamFirst(ls: seq<nat>, cs: seq<Coded>, tail: seq<bit>)
    requires ValidLengths(ls) && Codable(ls, cs) && |tail| >= 48 && cs != []
    ensures var u, n := Stream(ls, cs, tail), |TokenBits(ls, cs[0])|;
            |u| >= 48 + n && u[..n] == TokenBits(ls, cs[0]) && u[n..] == Stream(ls, cs[1..], tail)
  {
    hide TokenBits;
  }

  lemma NoTokens(src: Source, end: nat, s: State)
    ensures Codes(src, end, s, []) && Last(src, end, s, []) == s
  {
  }

  /** A token and then some more. */
  lemma TokenFirst(src: Source, end: nat, s: State, cs: seq<Coded>)
    requires Ready(s) && s.out < s.threshold && s.at < end && cs != [] && GoesOn(src, end, s, cs[0])
    requires ValidCoded(cs[0]) && Used(s.ls, SymbolOf(cs[0])) && Codes(src, end, Passed(src, s, cs[0]), cs[1..])
    ensures Codes(src, end, s, cs) && Last(src, end, s, cs) == Last(src, end, Passed(src, s, cs[0]), cs[1..])
  {
    hide GoesOn, Passed, SymbolOf, Kraft, Unused, Lengths;
  }

  // Blocks

  /** The tokens of one block and their code, in which the end marker has a place. */
  datatype Block = Block(ls: seq<nat>, cs: seq<Coded>)

  predicate ValidBlock(b: Block) {
    && |b.ls| == CODES && Built(b.ls) && Used(b.ls, END_MARKER) && (forall i :: 0 <= i < CODES ==> b.ls[i] < 16)
    && Codable(b.ls, b.cs) && StartBefore(b.cs, 0, 65536)
  }

  /** Two code lengths to a byte. */
  function TableBytes(ls: seq<nat>): (r: seq<byte>)
    requires |ls| == CODES && forall i :: 0 <= i < CODES ==> ls[i] < 16
    ensures |r| == CODES / 2
  {
    seq<byte>(CODES / 2, (i: int) requires 0 <= i < CODES / 2 => ls[2 * i] + 16 * ls[2 * i + 1])
  }

  lemma TableRead(src: Source, at: nat, ls: seq<nat>)
    requires |ls| == CODES && (forall i :: 0 <= i < CODES ==> ls[i] < 16) && HoldsAt(src, at, TableBytes(ls))
    ensures Lengths(src, at) == ls
  {
    var t := TableBytes(ls);
    forall i | 0 <= i < CODES ensures Nibble(src, at, i) == ls[i] {
      NibbleOf(src, at, t, ls, i);
    }
  }

  lemma NibbleOf(src: Source, at: nat, t: seq<byte>, ls: seq<nat>, i: nat)
    requires |ls| == CODES && (forall k :: 0 <= k < CODES ==> ls[k] < 16) && t == TableBytes(ls) && i < CODES
    requires HoldsAt(src, at, t)
    ensures Nibble(src, at, i) == ls[i]
  {
    var h := i / 2;
    assert Slice(src, at, |t|)[h] == t[h] == ls[2 * h] + 16 * ls[2 * h + 1];
    assert i == 2 * h || i == 2 * h + 1;
  }

  /** What follows the tokens in the bit stream: the end marker after the last block, and padding. */
  function TailBits(ls: seq<nat>, last: bool): (r: seq<bit>)
    requires ValidLengths(ls) && Used(ls, END_MARKER)
    ensures |r| >= 48
  {
    (if last then CodeBits(ls, END_MARKER) else []) + ZeroBits(48)
  }

  /** The word due after the end marker and one more byte, without which the marker might not be looked at. */
  function EndBytes(b: Block): seq<byte>
    requires ValidBlock(b)
  {
    WordDue(TailBits(b.ls, true), HeldAtEnd(b.ls, b.cs, 32), b.ls[END_MARKER]) + [0]
  }

  function BodyBytes(b: Block, last: bool): seq<byte>
    requires ValidBlock(b)
  {
    Coding(b.ls, b.cs, TailBits(b.ls, last), 32)
  }

  /** A table, the first two words, the tokens and, in the last block, the end. */
  function BlockBytes(b: Block, last: bool): seq<byte>
    requires ValidBlock(b)
  {
    var u := Stream(b.ls, b.cs, TailBits(b.ls, last));
    TableBytes(b.ls) + (LE(Number(u[..16]), 2) + (LE(Number(u[16..32]), 2) + (BodyBytes(b, last) + (if last then EndBytes(b) else []))))
  }

  /** Blocks of at least 64kB and a last one of less, in which no match passes for the end. */
  predicate ValidBlocks(bs: seq<Block>) {
    bs != [] && ValidBlock(bs[0]) &&
    if |bs| == 1 then
      Total(bs[0].cs) < 65536 && Clear(bs[0].ls, bs[0].cs, TailBits(bs[0].ls, true), 32, |EndBytes(bs[0])|)
    else
      Total(bs[0].cs) >= 65536 && ValidBlocks(bs[1..])
  }

  function Encode(bs: seq<Block>): seq<byte>
    requires ValidBlocks(bs)
  {
    if |bs| == 1 then BlockBytes(bs[0], true) else BlockBytes(bs[0], false) + Encode(bs[1..])
  }

  function ItemsOf(bs: seq<Block>): seq<Item>
    requires ValidBlocks(bs)
  {
    if |bs| == 1 then Meanings(bs[0].cs) else Meanings(bs[0].cs) + ItemsOf(bs[1..])
  }

  /** The table and the first two words make the decoder ready for the tokens. */
  lemma BlockOpens(src: Source, end: nat, s: State, b: Block, last: bool)
    requires ValidBlock(b) && s.out >= s.threshold && HoldsAt(src, s.at, BlockBytes(b, last)) && s.at + CODES / 2 <= end
    ensures Opens(src, end, s) && Lengths(src, s.at) == b.ls
    ensures var o := Opened(src, end, s);
            && Ready(o) && o == State(s.at + CODES / 2 + 4, Stream(b.ls, b.cs, TailBits(b.ls, last))[..32], b.ls, s.out, s.out + BLOCK_SIZE)
            && HoldsAt(src, o.at, BodyBytes(b, last)) && (last ==> HoldsAt(src, o.at + |BodyBytes(b, last)|, EndBytes(b)))
  {
    hide HoldsAt, LE, Number, WordBits, Word, TableBytes, Lengths, BodyBytes, EndBytes, Stream, TailBits, Kraft, Unused;
    var u := Stream(b.ls, b.cs, TailBits(b.ls, last));
    var t, w, v, e := TableBytes(b.ls), LE(Number(u[..16]), 2), LE(Number(u[16..32]), 2), if last then EndBytes(b) else [];
    HoldsParts(src, s.at, t, w + (v + (BodyBytes(b, last) + e)));
    HoldsParts(src, s.at + |t|, w, v + (BodyBytes(b, last) + e));
    HoldsParts(src, s.at + |t| + 2, v, BodyBytes(b, last) + e);
    HoldsParts(src, s.at + |t| + 4, BodyBytes(b, last), e);
    TableRead(src, s.at, b.ls);
    WordRead(src, s.at + |t|, u[..16]);
    WordRead(src, s.at + |t| + 2, u[16..32]);
    assert u[..16] + u[16..32] == u[..32];
  }

  lemma {:induction false} StartShift(cs: seq<Coded>, out: nat, threshold: nat, shift: nat)
    requires (forall i :: 0 <= i < |cs| ==> ValidCoded(cs[i])) && StartBefore(cs, out, threshold)
    ensures StartBefore(cs, out + shift, threshold + shift)
  {
    hide Meaning;
    if cs != [] { StartShift(cs[1..], out + Size(Meaning(cs[0])), threshold, shift); }
  }

  /** Nothing passes for the end where two bytes or more follow. */
  lemma {:induction false} ClearAnyway(ls: seq<nat>, cs: seq<Coded>, tail: seq<bit>, held: nat, left: nat)
    requires Built(ls) && Codable(ls, cs) && |tail| >= 48 && 16 <= held <= 32 && left >= 2
    ensures Clear(ls, cs, tail, held, left)
    decreases |cs|
  {
    hide HeldAfter, Coding;
    if cs != [] { ClearAnyway(ls, cs[1..], tail, HeldAfter(ls, cs[0], held), left); }
  }

  /** The tokens that follow an opened block follow its table. */
  lemma OpenedCodes(src: Source, end: nat, s: State, cs: seq<Coded>)
    requires Opens(src, end, s) && Opened(src, end, s).at < end && Codes(src, end, Opened(src, end, s), cs) && cs != []
    ensures Codes(src, end, s, cs) && Last(src, end, s, cs) == Last(src, end, Opened(src, end, s), cs)
  {
    hide GoesOn, Passed, Restart, Lengths;
    var o := Opened(src, end, s);
    OpenedTwice(src, end, s);
  }

  lemma OpenedTwice(src: Source, end: nat, s: State)
    requires Opens(src, end, s) && Opened(src, end, s).at < end
    ensures Opens(src, end, Opened(src, end, s)) && Opened(src, end, Opened(src, end, s)) == Opened(src, end, s)
  {
    hide Lengths, Kraft, Unused;
  }

  /** The end marker after the last token ends the run. */
  lemma EndRead(src: Source, end: nat, s: State, b: Block)
    requires ValidBlock(b) && Ready(s) && s.ls == b.ls && s.q == TailBits(b.ls, true)[..HeldAtEnd(b.ls, b.cs, 32)]
    requires HoldsAt(src, s.at, EndBytes(b)) && end == s.at + |EndBytes(b)|
    ensures Token(src, end, s) == Done(end - 1)
  {
    hide HoldsAt, LE, WordDue, Refill, CodeBits, Kraft, Unused, Symbol, CodeLength, Window, MatchToken;
    var u, held, k := TailBits(b.ls, true), HeldAtEnd(b.ls, b.cs, 32), b.ls[END_MARKER];
    assert s.q[..k] == u[..k] == CodeBits(b.ls, END_MARKER);
    HoldsParts(src, s.at, WordDue(u, held, k), [0]);
    RefillRead(src, s.at, u, held, k);
    SymbolOfWindow(s.ls, END_MARKER, s.q);
  }

  /** The tokens of a block, from its table on. */
  lemma BlockRead(src: Source, end: nat, s: State, b: Block, last: bool, left: nat)
    requires ValidBlock(b) && Sound(s) && s.out >= s.threshold && HoldsAt(src, s.at, BlockBytes(b, last))
    requires end == s.at + CODES / 2 + 4 + |BodyBytes(b, last)| + left && left > 0
    requires Clear(b.ls, b.cs, TailBits(b.ls, last), 32, left)
    ensures Opens(src, end, s)
    ensures var o := Opened(src, end, s);
            && o.at < end && Codes(src, end, o, b.cs)
            && Last(src, end, o, b.cs) == State(end - left, TailBits(b.ls, last)[..HeldAtEnd(b.ls, b.cs, 32)], b.ls, s.out + Total(b.cs),
                                                s.out + BLOCK_SIZE)
  {
    hide HoldsAt, BlockBytes, Codes, Last, Coding, Stream, TailBits, Clear, StartBefore, Kraft, Unused;
    BlockOpens(src, end, s, b, last);
    StartShift(b.cs, 0, BLOCK_SIZE, s.out);
    TokensRead(src, end, Opened(src, end, s), b.cs, TailBits(b.ls, last), left);
  }

  lemma TurnOpened(src: Source, end: nat, s: State)
    requires Sound(s) && Opens(src, end, s)
    ensures Turn(src, end, s) == Token(src, end, Opened(src, end, s))
  {
    hide Token, Lengths, Restart, Kraft, Unused;
  }

  lemma BlockLength(b: Block, last: bool)
    requires ValidBlock(b)
    ensures |BlockBytes(b, last)| == CODES / 2 + 4 + |BodyBytes(b, last)| + (if last then |EndBytes(b)| else 0)
  {
    hide TableBytes, BodyBytes, EndBytes, Number, Stream, TailBits;
  }

  lemma LastBlockRead(src: Source, end: nat, s: State, bs: seq<Block>)
    requires ValidBlocks(bs) && |bs| == 1 && Sound(s) && s.out >= s.threshold
    requires HoldsAt(src, s.at, Encode(bs)) && end == s.at + |Encode(bs)|
    ensures Parse(src, end, s) == Run(Parsed(true, ItemsOf(bs)), end - 1)
  {
    hide HoldsAt, BlockBytes, Codes, Last, Clear, TailBits, EndBytes, BodyBytes, Token, Opened, Opens, Meanings, Turn, Kraft, Unused;
    var b := bs[0];
    BlockLength(b, true);
    EndNotEmpty(b);
    BlockRead(src, end, s, b, true, |EndBytes(b)|);
    BlockOpens(src, end, s, b, true);
    var o := Opened(src, end, s);
    var l := Last(src, end, o, b.cs);
    StreamRead(src, end, o, b.cs);
    EndRead(src, end, l, b);
    OpenedTwice(src, end, s);
    EndRun(src, end, s, l, b.cs);
  }

  lemma EndNotEmpty(b: Block)
    requires ValidBlock(b)
    ensures |EndBytes(b)| > 0
  {
    hide WordDue, TailBits;
  }

  /** A run through some tokens to the end marker. */
  lemma EndRun(src: Source, end: nat, s: State, l: State, cs: seq<Coded>)
    requires Sound(s) && s.at < end && Opens(src, end, s) && Opened(src, end, s).at < end
    requires Codes(src, end, Opened(src, end, s), cs) && Last(src, end, Opened(src, end, s), cs) == l && Ready(l)
    requires l.at < end && l.out < l.threshold && Token(src, end, l) == Done(end - 1)
    requires forall i :: 0 <= i < |cs| ==> ValidCoded(cs[i])
    ensures Parse(src, end, s) == Run(Parsed(true, Meanings(cs)), end - 1)
  {
    hide Token, Opened, Opens, Turn, GoesOn, Kraft, Unused, Built;
    var o := Opened(src, end, s);
    if cs == [] {
      TurnOpened(src, end, s);
    } else {
      OpenedCodes(src, end, s, cs);
      StreamRead(src, end, s, cs);
      DoneRun(src, end, l);
      assert Meanings(cs) + [] == Meanings(cs);
    }
  }

  lemma DoneRun(src: Source, end: nat, l: State)
    requires Ready(l) && l.at < end && l.out < l.threshold && Token(src, end, l) == Done(end - 1)
    ensures Parse(src, end, l) == Run(Parsed(true, []), end - 1)
  {
    hide Token;
  }

  /**
   * The decoder inverts the encoder: from a block boundary on, the bytes of a list of blocks decode to
   * their items, up to the byte after the end marker and whatever follows the input.
   */
  lemma {:induction false} BlocksRead(src: Source, end: nat, s: State, bs: seq<Block>)
    requires ValidBlocks(bs) && Sound(s) && s.out >= s.threshold
    requires HoldsAt(src, s.at, Encode(bs)) && end == s.at + |Encode(bs)|
    ensures Parse(src, end, s) == Run(Parsed(true, ItemsOf(bs)), end - 1)
    decreases |bs|
  {
    hide HoldsAt, BlockBytes, Codes, Last, Clear, TailBits, EndBytes, BodyBytes, Opened, Opens, Meanings, Parse, Kraft, Unused;
    if |bs| == 1 {
      LastBlockRead(src, end, s, bs);
    } else {
      var b, rest := bs[0], Encode(bs[1..]);
      BlockLength(b, false);
      EncodeLong(bs[1..]);
      HoldsParts(src, s.at, BlockBytes(b, false), rest);
      ClearAnyway(b.ls, b.cs, TailBits(b.ls, false), 32, |rest|);
      BlockRead(src, end, s, b, false, |rest|);
      NotEmpty(b);
      OpenedCodes(src, end, s, b.cs);
      StreamRead(src, end, s, b.cs);
      BlocksRead(src, end, Last(src, end, s, b.cs), bs[1..]);
    }
  }

  lemma NotEmpty(b: Block)
    requires ValidBlock(b) && Total(b.cs) >= BLOCK_SIZE
    ensures b.cs != []
  {
  }

  lemma EncodeLong(bs: seq<Block>)
    requires ValidBlocks(bs)
    ensures |Encode(bs)| >= 2
  {
    hide BlockBytes, TailBits, EndBytes, BodyBytes, Clear;
    BlockLength(bs[0], |bs| == 1);
  }

  /** Every encoded list of blocks is an input that decodes to its items, whatever follows it in memory. */
  lemma EncodeDecodes(src: Source, bs: seq<Block>)
    requires ValidBlocks(bs) && HoldsAt(src, 0, Encode(bs))
    ensures Parse(src, |Encode(bs)|, START) == Run(Parsed(true, ItemsOf(bs)), |Encode(bs)| - 1)
  {
    hide Parse, Encode, HoldsAt, ItemsOf, ValidBlocks;
    BlocksRead(src, |Encode(bs)|, START, bs);
  }

  // Every byte string has a coding

  /** A code of nine bits for each of the 512 symbols. */
  function Nines(): (r: seq<nat>)
    ensures |r| == CODES && forall i :: 0 <= i < CODES ==> r[i] == 9
  {
    seq<nat>(CODES, (i: int) requires 0 <= i => 9)
  }

  lemma {:induction false} NinesWeigh(ls: seq<nat>)
    requires |ls| <= CODES && forall i :: 0 <= i < |ls| ==> ls[i] == 9
    ensures Kraft(ls) == 128 * |ls|
  {
    hide Shl;
    assert Pow2(7) == 128 by { Pow2Values(); }
    if ls != [] { NinesWeigh(ls[..|ls| - 1]); }
  }

  lemma NinesBuilt()
    ensures Built(Nines()) && forall i :: 0 <= i < CODES ==> Used(Nines(), i)
  {
    NinesWeigh(Nines());
  }

  function Lits(text: seq<byte>): (r: seq<Coded>)
    ensures |r| == |text| && forall i :: 0 <= i < |r| ==> r[i].Lit?
  {
    if text == [] then [] else [Lit(text[0])] + Lits(text[1..])
  }

  lemma {:induction false} LitsMean(text: seq<byte>)
    ensures Meanings(Lits(text)) == Literals(text) && Total(Lits(text)) == |text|
  {
    if text != [] {
      assert Lits(text)[1..] == Lits(text[1..]);
      LitsMean(text[1..]);
      assert [Literal(text[0])] + Literals(text[1..]) == Literals(text);
    }
  }

  lemma {:induction false} LitsStart(text: seq<byte>, out: nat, threshold: nat)
    requires out + |text| <= threshold
    ensures StartBefore(Lits(text), out, threshold)
    decreases |text|
  {
    if text != [] {
      assert Lits(text)[1..] == Lits(text[1..]);
      LitsStart(text[1..], out + 1, threshold);
    }
  }

  lemma {:induction false} LitsClear(ls: seq<nat>, cs: seq<Coded>, tail: seq<bit>, held: nat, left: nat)
    requires Built(ls) && Codable(ls, cs) && |tail| >= 48 && 16 <= held <= 32 && forall i :: 0 <= i < |cs| ==> cs[i].Lit?
    ensures Clear(ls, cs, tail, held, left)
    decreases |cs|
  {
    hide HeldAfter, Coding;
    if cs != [] { LitsClear(ls, cs[1..], tail, HeldAfter(ls, cs[0], held), left); }
  }

  function LitBlock(text: seq<byte>): Block {
    Block(Nines(), Lits(text))
  }

  lemma LitBlockValid(text: seq<byte>)
    requires |text| <= BLOCK_SIZE
    ensures var b := LitBlock(text);
            && ValidBlock(b) && Total(b.cs) == |text| && Meanings(b.cs) == Literals(text)
            && Clear(b.ls, b.cs, TailBits(b.ls, true), 32, |EndBytes(b)|)
  {
    hide Built, Nines, StartBefore, Clear, EndBytes, TailBits, Meanings, Total;
    NinesBuilt();
    LitsStart(text, 0, BLOCK_SIZE);
    LitsMean(text);
    LitsClear(Nines(), Lits(text), TailBits(Nines(), true), 32, |EndBytes(LitBlock(text))|);
  }

  function LitBlocks(text: seq<byte>): seq<Block> {
    if |text| < BLOCK_SIZE then [LitBlock(text)] else [LitBlock(text[..BLOCK_SIZE])] + LitBlocks(text[BLOCK_SIZE..])
  }

  lemma {:induction false} LitBlocksValid(text: seq<byte>)
    ensures ValidBlocks(LitBlocks(text)) && ItemsOf(LitBlocks(text)) == Literals(text)
    decreases |text|
  {
    hide ValidBlock, LitBlock, Total, Clear, Meanings, EndBytes, TailBits, Literals;
    if |text| < BLOCK_SIZE {
      LitBlockValid(text);
    } else {
      LitBlockValid(text[..BLOCK_SIZE]);
      LitBlocksValid(text[BLOCK_SIZE..]);
      assert LitBlocks(text)[1..] == LitBlocks(text[BLOCK_SIZE..]);
      LiteralsCut(text, BLOCK_SIZE);
    }
  }

  /** Every word sent makes up for the bits used. */
  lemma {:induction false} LitsLong(ls: seq<nat>, cs: seq<Coded>, tail: seq<bit>, held: nat)
    requires Built(ls) && Codable(ls, cs) && |tail| >= 48 && 16 <= held <= 32
    requires (forall i :: 0 <= i < |cs| ==> cs[i].Lit?) && (forall i :: 0 <= i < |ls| ==> ls[i] == 9)
    ensures 8 * |Coding(ls, cs, tail, held)| + held == 9 * |cs| + HeldAtEnd(ls, cs, held)
    decreases |cs|
  {
    hide Stream, Kraft, Unused;
    if cs != [] {
      StreamLong(ls, cs, tail);
      LitsLong(ls, cs[1..], tail, HeldAfter(ls, cs[0], held));
    }
  }

  lemma StreamLong(ls: seq<nat>, cs: seq<Coded>, tail: seq<bit>)
    requires ValidLengths(ls) && Codable(ls, cs) && |tail| >= 48 && cs != []
    ensures |Stream(ls, cs, tail)| >= 48 + |TokenBits(ls, cs[0])|
  {
  }

  lemma {:induction false} LitBlocksLong(text: seq<byte>)
    requires ValidBlocks(LitBlocks(text))
    ensures |Encode(LitBlocks(text))| > |text|
    decreases |text|
  {
    hide BlockBytes, LitBlock, Clear, EndBytes;
    if |text| < BLOCK_SIZE {
      LitBlockLong(text, true);
    } else {
      LitBlockLong(text[..BLOCK_SIZE], false);
      assert LitBlocks(text)[1..] == LitBlocks(text[BLOCK_SIZE..]);
      LitBlocksLong(text[BLOCK_SIZE..]);
    }
  }

  lemma LitBlockLong(text: seq<byte>, last: bool)
    requires ValidBlock(LitBlock(text))
    ensures |BlockBytes(LitBlock(text), last)| > |text|
  {
    hide EndBytes, Coding, TailBits, Built;
    BlockLength(LitBlock(text), last);
    LitsLong(Nines(), Lits(text), TailBits(Nines(), last), 32);
  }

  /** Every byte string is what some input decodes to. */
  lemma CodingExists(text: seq<byte>) returns (bs: seq<Block>)
    ensures ValidBlocks(bs) && |Encode(bs)| > |text|
    ensures ValidBlocks(bs) && Grounded(ItemsOf(bs)) && forall below :: Expand(below, [], ItemsOf(bs)) == text
  {
    hide ValidBlocks, ItemsOf, LitBlocks, Literals, Expand, Grounded;
    bs := LitBlocks(text);
    LitBlocksValid(text);
    LitBlocksLong(text);
    LiteralsGrounded(text);
    forall below ensures Expand(below, [], ItemsOf(bs)) == text {
      ExpandLiterals(below, [], text);
      assert [] + text == text;
    }
  }
}
