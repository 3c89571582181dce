/** XCA (LZ77 and Huffman) decompression (src/xca.c, src/xca.h; section 2.2 of [MS-XCA]). */
module Xca {
  import opened Bytes
  import opened Bits
  import opened Lz
  import opened Memory
  import opened Huffman
  import opened HuffmanBits

  const CODES: nat := 512
  const END_MARKER: nat := 256
  const BLOCK_SIZE: nat := 0x1_0000

  /** The decoder between two symbols: unread input, unread bits, code and output length. */
  datatype State = State(at: nat, q: seq<bit>, ls: seq<nat>, out: nat, threshold: nat)

  datatype Step = More(item: Item, next: State) | Done(at: nat) | Fail

  /** A whole run, and where its reading of the input ends. */
  datatype Run = Run(p: Parsed, at: nat)

  predicate Ready(s: State) {
    16 <= |s.q| <= 32 && |s.ls| == CODES && Built(s.ls)
  }

  predicate Sound(s: State) {
    s.out < s.threshold ==> Ready(s)
  }

  /** xca_huf_len */
  function Nibble(src: Source, at: nat, i: nat): (r: nat)
    ensures r <= 15
  {
    var b := src(at + i / 2);
    if i % 2 == 0 then b % 16 else b / 16
  }

  function Lengths(src: Source, at: nat): (r: seq<nat>)
    ensures |r| == CODES && ValidLengths(r)
  {
    seq<nat>(CODES, (i: int) requires 0 <= i < CODES => Nibble(src, at, i))
  }

  /** Bits and input offset once at least 16 bits are held. */
  function Refill(src: Source, at: nat, q: seq<bit>): (seq<bit>, nat) {
    if |q| < 16 then (q + WordBits(Word(src, at)), at + 2) else (q, at)
  }

  /** The length of a match and the offset after its extension bytes. */
  function MatchLength(src: Source, at: nat, code: nat): (nat, nat) {
    if code != 15 then (code + 3, at)
    else if src(at) != 255 then (src(at) + 15 + 3, at + 1)
    else (Word(src, at + 1) + 3, at + 3)
  }

  /** The distance is a power of two plus that many further bits. */
  function Distance(q: seq<bit>, n: nat): pos
    requires n <= |q|
  {
    NumberBound(q[..n]);
    if n == 0 then 1 else Number(q[..n]) + Pow2(n)
  }

  /** The next symbol and, for a match, its length and distance. */
  ghost function Token(src: Source, end: nat, s: State): (r: Step)
    requires Ready(s)
    ensures r.More? ==> Ready(r.next) && Unread(end, r.next) < Unread(end, s)
  {
    var sym := Symbol(s.ls, Window(s.q));
    var (q, at) := Refill(src, s.at, s.q[CodeLength(s.ls, Window(s.q))..]);
    if sym < END_MARKER then
      More(Literal(sym), s.(at := at, q := q, out := s.out + 1))
    else if sym == END_MARKER && at + 1 >= end then
      Done(at)
    else
      MatchToken(src, s.(at := at, q := q), sym - END_MARKER)
  }

  /** A match symbol holds the size of the distance and the start of the length. */
  function MatchToken(src: Source, s: State, sym: nat): Step
    requires Ready(s) && sym < 256
  {
    var (len, at) := MatchLength(src, s.at, sym % 16);
    var (q, at') := Refill(src, at, s.q[sym / 16..]);
    More(Match(Distance(s.q, sym / 16), len), s.(at := at', q := q, out := s.out + len))
  }

  /** Unread input bits, those held included. */
  function Unread(end: nat, s: State): int {
    8 * (end - s.at) + |s.q|
  }

  /** One turn of the loop, with a new code where the output has reached the threshold. */
  ghost function Turn(src: Source, end: nat, s: State): (r: Step)
    requires Sound(s)
    ensures r.More? ==> Ready(r.next) && Unread(end, r.next) < Unread(end, s)
  {
    if s.out < s.threshold then
      Token(src, end, s)
    else if s.at + CODES / 2 > end then
      Fail
    else
      var ls := Lengths(src, s.at);
      if !Built(ls) then Fail else Token(src, end, Restart(src, s, ls))
  }

  function Restart(src: Source, s: State, ls: seq<nat>): State {
    var at := s.at + CODES / 2;
    State(at + 4, WordBits(Word(src, at)) + WordBits(Word(src, at + 2)), ls, s.out, s.out + BLOCK_SIZE)
  }

  ghost function Parse(src: Source, end: nat, s: State): Run
    requires Sound(s)
    decreases if s.at < end then Unread(end, s) else 0
  {
    if s.at >= end then Run(Parsed(s.at == end, []), s.at)
    else
      match Turn(src, end, s)
      case Done(at) => Run(Parsed(true, []), at)
      case Fail => Run(Parsed(false, []), end)
      case More(item, next) =>
        var run := Parse(src, end, next);
        Run(After([item], run.p), run.at)
  }

  const START := State(0, [], [], 0, 0)

  /** The accumulator and bit count hold exactly the unread bits, 16 and `extra` of them. */
  ghost predicate Held(q: seq<bit>, accum: nat, extra: int) {
    0 <= extra <= 16 && |q| == 16 + extra && accum == Justified(q)
  }

  /** Discard `n` bits and read a word if fewer than 16 remain. */
  method Consume(src: Source, at0: nat, accum0: nat, extra0: int, n: nat, ghost q: seq<bit>)
    returns (at: nat, accum: nat, extra: int)
    requires Held(q, accum0, extra0) && n <= 16
    ensures var (q', at') := Refill(src, at0, q[n..]); at == at' && Held(q', accum, extra)
  {
    hide Low, Shl, Or, Number, Justified, WordBits, Word;
    at, accum, extra := at0, Low(Shl(accum0, n), 32), extra0 - n;
    DropBits(q, n, 32);
    if extra < 0 {
      AddWord(q[n..], Word(src, at));
      accum, at := Or(accum, Shl(Word(src, at), -extra)), at + 2;
      extra := extra + 16;
    }
  }

  /** The concrete decoder in state `s`; the alphabet is meaningful below the threshold. */
  ghost predicate Concrete(s: State, at: nat, accum: nat, extra: int, a: Alphabet)
    reads a
  {
    at == s.at && Ready(s) && Held(s.q, accum, extra) && a.Describes(s.ls)
  }

  /** Read the code lengths, build the alphabet and load two words. */
  method Initialise(src: Source, end: nat, a: Alphabet, at0: nat, ghost s: State)
    returns (ok: bool, at: nat, accum: nat, extra: int)
    requires s.at == at0 && |a.lookup| == QL_SIZE && |a.raw| == CODES
    modifies a
    ensures |a.lookup| == QL_SIZE && |a.raw| == CODES
    ensures ok <==> at0 + CODES / 2 <= end && Built(Lengths(src, at0))
    ensures ok ==> Concrete(Restart(src, s, Lengths(src, at0)), at, accum, extra, a)
  {
    hide Low, Shl, Or, Number, Justified, WordBits, Word, Kraft, Unused, ValidLengths;
    at, accum, extra := at0 + CODES / 2, 0, 0;
    if at > end { return false, at, accum, extra; }
    var lengths := [];
    for i := 0 to CODES
      invariant lengths == Lengths(src, at0)[..i]
    {
      lengths := lengths + [Nibble(src, at0, i)];
    }
    assert lengths == Lengths(src, at0);
    ok := a.Build(lengths);
    if ok {
      LoadWords(Word(src, at), Word(src, at + 2));
      accum := Or(Shl(Word(src, at), 16), Word(src, at + 2));
      at, extra := at + 4, 16;
    }
  }

  lemma LoadWords(v: nat, w: nat)
    requires v < 0x1_0000 && w < 0x1_0000
    ensures Or(Shl(v, 16), w) == Justified(WordBits(v) + WordBits(w))
  {
    hide Or, WordBits, Number;
    NumberOfWord(v);
    assert Shl(w, 0) == w;
    hide Shl;
    AddWord(WordBits(v), w);
  }

  /** Decode a symbol and, for a match, its length and distance. */
  method GetToken(src: Source, end: nat, a: Alphabet, at0: nat, accum0: nat, extra0: int, ghost s: State)
    returns (found: Option<Item>, at: nat, accum: nat, extra: int)
    requires Concrete(s, at0, accum0, extra0, a)
    ensures found.None? <==> Token(src, end, s).Done?
    ensures found.Some? ==> Token(src, end, s).More? && Token(src, end, s).item == found.value
    ensures found.Some? ==> Concrete(Token(src, end, s).next, at, accum, extra, a)
  {
    hide Shr, Justified, Symbol, CodeLength, MatchToken, a.Describes, WordBits, Window, Word, ValidLengths, Kraft, Unused;
    TopWindow(s.q);
    var raw, n := a.Decode(s.ls, Shr(accum0, 16));
    at, accum, extra := Consume(src, at0, accum0, extra0, n, s.q);
    if raw < END_MARKER {
      return Some(Literal(raw)), at, accum, extra;
    }
    if raw == END_MARKER && at + 1 >= end {
      return None, at, accum, extra;
    }
    ghost var q := Refill(src, at0, s.q[n..]).0;
    var item;
    item, at, accum, extra := GetMatch(src, a, at, accum, extra, raw - END_MARKER, s.(at := at, q := q));
    found := Some(item);
  }

  method GetMatch(src: Source, a: Alphabet, at0: nat, accum0: nat, extra0: int, sym: nat, ghost s: State)
    returns (item: Item, at: nat, accum: nat, extra: int)
    requires Concrete(s, at0, accum0, extra0, a) && sym < 256
    ensures MatchToken(src, s, sym).More? && MatchToken(src, s, sym).item == item
    ensures Concrete(MatchToken(src, s, sym).next, at, accum, extra, a)
  {
    hide Shr, Number, Justified, Word, Built, Pow2, a.Describes;
    at, accum, extra := at0, accum0, extra0;
    var bits, len := sym / 16, sym % 16;
    if len == 15 {
      len := src(at);
      at := at + 1;
      if len == 255 {
        len := Word(src, at);
        at := at + 2;
      } else {
        len := len + 15;
      }
    }
    len := len + 3;
    TopBits(s.q, bits);
    NumberBound(s.q[..bits]);
    var distance := if bits > 0 then Shr(accum, 32 - bits) + Pow2(bits) else 1;
    at, accum, extra := Consume(src, at, accum, extra, bits, s.q);
    item := Match(distance, len);
  }

  /** Decoding from `s` is the rest of a whole run. */
  ghost predicate Remains(whole: Run, done: seq<Item>, src: Source, end: nat, s: State) {
    Sound(s) && s.out == Length(done) && whole.p == After(done, Parse(src, end, s).p)
  }

  lemma RemainsTurn(whole: Run, done: seq<Item>, src: Source, end: nat, s: State)
    requires Remains(whole, done, src, end, s) && s.at < end
    ensures Sound(s) && Length(done) == s.out
    ensures Turn(src, end, s).Fail? ==> whole.p == Parsed(false, done)
    ensures Turn(src, end, s).Done? ==> whole.p == Parsed(true, done)
    ensures var turn := Turn(src, end, s);
            turn.More? ==>
              && Remains(whole, done + [turn.item], src, end, turn.next)
              && s.out + Size(turn.item) <= Length(whole.p.items)
  {
    hide Turn;
    var turn := Turn(src, end, s);
    if turn.More? {
      var rest := Parse(src, end, turn.next).p;
      AfterAfter(done, [turn.item], rest);
      LengthAppend(done, [turn.item]);
      LengthAppend(done + [turn.item], rest.items);
      SingleLength(turn.item);
      TurnAdds(src, end, s);
    }
  }

  lemma TurnAdds(src: Source, end: nat, s: State)
    requires Sound(s) && Turn(src, end, s).More?
    ensures Turn(src, end, s).next.at >= s.at && Turn(src, end, s).next.out == s.out + Size(Turn(src, end, s).item)
  {
  }

  lemma Opening(src: Source, end: nat, before: seq<byte>, below: Below)
    ensures Remains(Parse(src, end, START), [], src, end, START) && Wrote(before, before, below, 0, [])
  {
  }

  lemma Closing(whole: Run, done: seq<Item>, src: Source, end: nat, s: State)
    requires Remains(whole, done, src, end, s) && s.at >= end
    ensures whole.p == Parsed(s.at == end, done) && Length(done) == s.out
  {
  }

  /** The decoder object in state `s`, with a code once there is output to make. */
  ghost predicate Running(s: State, at: nat, accum: nat, extra: int, threshold: nat, a: Alphabet)
    reads a
  {
    && Sound(s) && at == s.at && threshold == s.threshold && |a.lookup| == QL_SIZE && |a.raw| == CODES
    && (s.out < s.threshold ==> Concrete(s, at, accum, extra, a))
  }

  /** One turn of the loop: the next item, or the end, or a failure. */
  method GetItem(src: Source, end: nat, a: Alphabet, at0: nat, accum0: nat, extra0: int, threshold0: nat, out: nat, ghost s: State)
    returns (ok: bool, found: Option<Item>, at: nat, accum: nat, extra: int, threshold: nat)
    requires Running(s, at0, accum0, extra0, threshold0, a) && out == s.out
    modifies a
    ensures !ok <==> Turn(src, end, s).Fail?
    ensures ok ==> (found.None? <==> Turn(src, end, s).Done?)
    ensures ok && found.Some? ==> Turn(src, end, s).More? && Turn(src, end, s).item == found.value
    ensures ok && found.Some? ==> at == Turn(src, end, s).next.at && Running(Turn(src, end, s).next, at, accum, extra, threshold, a)
  {
    hide Token, Lengths, Justified, Kraft, Unused, Alphabet.Describes;
    ghost var ready := s;
    ok, at, accum, extra, threshold := true, at0, accum0, extra0, threshold0;
    found := None;
    if out >= threshold {
      ok, at, accum, extra := Initialise(src, end, a, at, s);
      if !ok { return; }
      ready := Restart(src, s, Lengths(src, s.at));
      threshold := out + BLOCK_SIZE;
    }
    found, at, accum, extra := GetToken(src, end, a, at, accum, extra, ready);
    TokenKeeps(src, end, ready);
  }

  lemma TokenKeeps(src: Source, end: nat, s: State)
    requires Ready(s)
    ensures Token(src, end, s).More? ==> Token(src, end, s).next.threshold == s.threshold
  {
  }

  /**
   * xca_decompress: the same value with and without a buffer, and in a buffer the
   * expansion of the parsed items at positions below that value and nowhere else.
   */
  method Decompress(src: Source, end: nat, buf: array?<byte>, below: Below) returns (r: int)
    requires buf != null ==> Length(Parse(src, end, START).p.items) <= buf.Length
    modifies buf
    ensures r == Outcome(Parse(src, end, START).p)
    ensures buf != null ==> Wrote(buf[..], old(buf[..]), below, 0, Parse(src, end, START).p.items)
  {
    hide Wrote, Length, Parse, Turn, Remains, Running;
    var a := new Alphabet(CODES);
    ghost var whole, done, s := Parse(src, end, START), [], START;
    ghost var before := if buf == null then [] else buf[..];
    var at, out, threshold, accum, extra := 0, 0, 0, 0, 0;
    Opening(src, end, before, below);
    assert Running(s, at, accum, extra, threshold, a) by { NotStarted(a); }
    while at < end
      invariant at == s.at && out == s.out && accum >= 0 && threshold >= 0
      invariant Remains(whole, done, src, end, s) && Running(s, at, accum, extra, threshold, a) && fresh(a)
      invariant buf != null ==> Wrote(buf[..], before, below, 0, done)
      decreases if at < end then Unread(end, s) else 0
    {
      RemainsTurn(whole, done, src, end, s);
      var ok, found;
      ok, found, at, accum, extra, threshold := GetItem(src, end, a, at, accum, extra, threshold, out, s);
      if !ok { return -1; }
      if found.None? { return out; }
      Append(buf, before, 0, out, done, found.value, below);
      TurnAdds(src, end, s);
      out, done, s := out + Size(found.value), done + [found.value], Turn(src, end, s).next;
    }
    Closing(whole, done, src, end, s);
    return if at == end then out else -1;
  }

  lemma NotStarted(a: Alphabet)
    requires |a.lookup| == QL_SIZE && |a.raw| == CODES
    ensures Running(START, 0, 0, 0, 0, a)
  {
  }

  // The token format

  /** Bits and place after the code of a symbol. */
  function AfterCode(src: Source, s: State, sym: nat): (seq<bit>, nat)
    requires Ready(s) && Used(s.ls, sym)
  {
    Refill(src, s.at, s.q[s.ls[sym]..])
  }

  /** Where the unread bits start with the code of a byte, the decoder emits that byte. */
  lemma LiteralRead(src: Source, end: nat, s: State, b: byte)
    requires Ready(s) && Used(s.ls, b) && s.q[..s.ls[b]] == CodeBits(s.ls, b)
    ensures var (q, at) := AfterCode(src, s, b);
            Token(src, end, s) == More(Literal(b), s.(at := at, q := q, out := s.out + 1))
  {
    hide CodeBits, Kraft, Unused, Symbol, CodeLength, Window;
    SymbolOfWindow(s.ls, b, s.q);
  }

  /** The start of a match length that goes into the symbol. */
  function LengthCode(len: nat): nat
    requires len >= 3
  {
    if len - 3 < 15 then len - 3 else 15
  }

  /** The rest of a match length: nothing, one byte, or a marker and a word. */
  function LengthBytes(len: nat): seq<byte>
    requires 3 <= len < 3 + 0x1_0000
  {
    if len - 3 < 15 then [] else if len - 18 < 255 then [len - 18] else [255] + LE(len - 3, 2)
  }

  /** A match of `len` bytes at a distance of `n` significant bits after the leading one. */
  function MatchSymbol(len: nat, n: nat): nat
    requires len >= 3
  {
    END_MARKER + 16 * n + LengthCode(len)
  }

  lemma LengthRead(src: Source, at: nat, len: nat)
    requires 3 <= len < 3 + 0x1_0000 && HoldsAt(src, at, LengthBytes(len))
    ensures MatchLength(src, at, LengthCode(len)) == (len, at + |LengthBytes(len)|)
  {
    hide HoldsAt, LE;
    if len - 3 >= 15 {
      if len - 18 < 255 {
        ByteHeld(src, at, len - 18);
      } else {
        HoldsParts(src, at, [255], LE(len - 3, 2));
        ByteHeld(src, at, 255);
        WordHeld(src, at + 1, len - 3);
      }
    }
  }

  /**
   * Where the unread bits start with the code of a match symbol, its length bytes come next
   * in the input and its distance bits next among the bits, the decoder emits that match.
   */
  lemma MatchRead(src: Source, end: nat, s: State, len: nat, n: nat, low: nat)
    requires Ready(s) && 3 <= len < 3 + 0x1_0000 && n < 16 && low < Pow2(n)
    requires Used(s.ls, MatchSymbol(len, n)) && s.q[..s.ls[MatchSymbol(len, n)]] == CodeBits(s.ls, MatchSymbol(len, n))
    requires var (q, at) := AfterCode(src, s, MatchSymbol(len, n));
             && q[..n] == ToBits(low, n) && HoldsAt(src, at, LengthBytes(len))
             && !(MatchSymbol(len, n) == END_MARKER && at + 1 >= end)
    ensures var (q, at) := AfterCode(src, s, MatchSymbol(len, n));
            var (q', at') := Refill(src, at + |LengthBytes(len)|, q[n..]);
            Token(src, end, s) == More(Match(Pow2(n) + low, len), s.(at := at', q := q', out := s.out + len))
  {
    hide CodeBits, Kraft, Unused, Symbol, CodeLength, Window, HoldsAt, LengthBytes, ToBits, Bits.Number, MatchLength, Pow2;
    var sym := MatchSymbol(len, n);
    SymbolOfWindow(s.ls, sym, s.q);
    var (q, at) := AfterCode(src, s, sym);
    LengthRead(src, at, len);
    NumberOfBits(low, n);
    SymbolFields(len, n);
    DistanceRead(q, n, low);
  }

  lemma SymbolFields(len: nat, n: nat)
    requires len >= 3
    ensures (MatchSymbol(len, n) - END_MARKER) / 16 == n && (MatchSymbol(len, n) - END_MARKER) % 16 == LengthCode(len)
  {
  }

  lemma DistanceRead(q: seq<bit>, n: nat, low: nat)
    requires n <= |q| && low < Pow2(n) && Number(q[..n]) == low
    ensures Distance(q, n) == Pow2(n) + low
  {
  }

  // Streams of tokens

  /** A byte, or a match whose distance is a power of two and `n` low bits. */
  datatype Coded = Lit(b: byte) | Copy(len: nat, n: nat, low: nat)

  predicate ValidCoded(c: Coded) {
    c.Copy? ==> 3 <= c.len < 3 + 0x1_0000 && c.n < 16 && c.low < Pow2(c.n)
  }

  function SymbolOf(c: Coded): nat
    requires ValidCoded(c)
  {
    if c.Lit? then c.b else MatchSymbol(c.len, c.n)
  }

  function Meaning(c: Coded): Item
    requires ValidCoded(c)
  {
    if c.Lit? then Literal(c.b) else Match(Pow2(c.n) + c.low, c.len)
  }

  /** The unread bits and bytes go on with the coding of a token. */
  ghost predicate GoesOn(src: Source, end: nat, s: State, c: Coded)
    requires Ready(s)
  {
    && ValidCoded(c) && Used(s.ls, SymbolOf(c)) && s.q[..s.ls[SymbolOf(c)]] == CodeBits(s.ls, SymbolOf(c))
    && (c.Copy? ==>
          var (q, at) := AfterCode(src, s, SymbolOf(c));
          && q[..c.n] == ToBits(c.low, c.n) && HoldsAt(src, at, LengthBytes(c.len))
          && !(SymbolOf(c) == END_MARKER && at + 1 >= end))
  }

  /** The state after a token. */
  function Passed(src: Source, s: State, c: Coded): State
    requires Ready(s) && ValidCoded(c) && Used(s.ls, SymbolOf(c))
  {
    var (q, at) := AfterCode(src, s, SymbolOf(c));
    if c.Lit? then s.(at := at, q := q, out := s.out + 1) else
      var (q', at') := Refill(src, at + |LengthBytes(c.len)|, q[c.n..]);
      s.(at := at', q := q', out := s.out + c.len)
  }

  lemma CodedRead(src: Source, end: nat, s: State, c: Coded)
    requires Ready(s) && GoesOn(src, end, s, c)
    ensures Token(src, end, s) == More(Meaning(c), Passed(src, s, c)) && Ready(Passed(src, s, c))
  {
    hide Token, CodeBits, HoldsAt, LengthBytes, ToBits, Kraft, Unused;
    if c.Lit? {
      LiteralRead(src, end, s, c.b);
    } else {
      MatchRead(src, end, s, c.len, c.n, c.low);
    }
  }

  /** The decoder has input and, where the output has reached the threshold, a new length table. */
  ghost predicate Opens(src: Source, end: nat, s: State) {
    Sound(s) && s.at < end && (s.out < s.threshold || (s.at + CODES / 2 <= end && Built(Lengths(src, s.at))))
  }

  ghost function Opened(src: Source, end: nat, s: State): (t: State)
    requires Opens(src, end, s)
    ensures Ready(t)
  {
    if s.out < s.threshold then s else Restart(src, s, Lengths(src, s.at))
  }

  /** From `s` on the input is the coding of some tokens, with a new length table every 64kB. */
  ghost predicate Codes(src: Source, end: nat, s: State, cs: seq<Coded>)
    decreases |cs|
  {
    cs == []
    || (Opens(src, end, s) && GoesOn(src, end, Opened(src, end, s), cs[0])
        && Codes(src, end, Passed(src, Opened(src, end, s), cs[0]), cs[1..]))
  }

  ghost function Last(src: Source, end: nat, s: State, cs: seq<Coded>): State
    requires Codes(src, end, s, cs)
    decreases |cs|
  {
    if cs == [] then s else Last(src, end, Passed(src, Opened(src, end, s), cs[0]), cs[1..])
  }

  function Meanings(cs: seq<Coded>): seq<Item>
    requires forall i :: 0 <= i < |cs| ==> ValidCoded(cs[i])
  {
    if cs == [] then [] else [Meaning(cs[0])] + Meanings(cs[1..])
  }

  /** Decoding the coding of a list of tokens gives their items, and goes on from the state after them. */
  lemma {:induction false} StreamRead(src: Source, end: nat, s: State, cs: seq<Coded>)
    requires Sound(s) && Codes(src, end, s, cs)
    ensures Sound(Last(src, end, s, cs)) && forall i :: 0 <= i < |cs| ==> ValidCoded(cs[i])
    ensures var rest := Parse(src, end, Last(src, end, s, cs));
            Parse(src, end, s) == Run(After(Meanings(cs), rest.p), rest.at)
    decreases |cs|
  {
    hide Token, GoesOn, Passed, Meaning, Restart, Lengths, Kraft, Unused;
    if cs == [] {
      assert Meanings(cs) == [];
      assert [] + Parse(src, end, s).p.items == Parse(src, end, s).p.items;
    } else {
      var o := Opened(src, end, s);
      CodedRead(src, end, o, cs[0]);
      CodedValid(src, end, o, cs[0]);
      var next := Passed(src, o, cs[0]);
      StreamRead(src, end, next, cs[1..]);
      AfterAfter([Meaning(cs[0])], Meanings(cs[1..]), Parse(src, end, Last(src, end, next, cs[1..])).p);
      forall i | 0 <= i < |cs| ensures ValidCoded(cs[i]) {
        assert i > 0 ==> cs[i] == cs[1..][i - 1];
      }
    }
  }

  lemma CodedValid(src: Source, end: nat, s: State, c: Coded)
    requires Ready(s) && GoesOn(src, end, s, c)
    ensures ValidCoded(c) && Used(s.ls, SymbolOf(c))
  {
  }

  // What a run depends on

  /** Where a turn leaves the input. */
  function Reached(t: Step, end: nat): nat {
    match t
    case More(_, next) => next.at
    case Done(at) => at
    case Fail => end
  }

  lemma MatchLocal(a: Source, b: Source, s: State, sym: nat)
    requires Ready(s) && sym < 256 && Alike(a, b, MatchToken(a, s, sym).next.at)
    ensures MatchToken(b, s, sym) == MatchToken(a, s, sym) && MatchToken(a, s, sym).next.at >= s.at
  {
    hide WordBits, Number, Built;
  }

  lemma TokenLocal(a: Source, b: Source, end: nat, s: State)
    requires Ready(s) && Alike(a, b, Reached(Token(a, end, s), end))
    ensures Token(b, end, s) == Token(a, end, s) && s.at <= Reached(Token(a, end, s), end)
  {
    hide MatchToken, WordBits, Symbol, CodeLength, Window, Kraft, Unused;
    var sym := Symbol(s.ls, Window(s.q));
    var (q, at) := Refill(a, s.at, s.q[CodeLength(s.ls, Window(s.q))..]);
    if sym >= END_MARKER && !(sym == END_MARKER && at + 1 >= end) {
      TokenIsMatch(a, s.(at := at, q := q), sym - END_MARKER);
      MatchLocal(a, b, s.(at := at, q := q), sym - END_MARKER);
    }
  }

  lemma TokenIsMatch(src: Source, s: State, sym: nat)
    requires Ready(s) && sym < 256
    ensures MatchToken(src, s, sym).More? && MatchToken(src, s, sym).next.at >= s.at
  {
  }

  lemma LengthsLocal(a: Source, b: Source, at: nat, n: nat)
    requires Alike(a, b, n) && at + CODES / 2 <= n
    ensures Lengths(a, at) == Lengths(b, at)
  {
    forall i | 0 <= i < CODES ensures Nibble(a, at, i) == Nibble(b, at, i) {
      assert i / 2 < CODES / 2;
    }
  }

  lemma TurnLocal(a: Source, b: Source, end: nat, s: State)
    requires Sound(s) && s.at < end && Alike(a, b, Reached(Turn(a, end, s), end))
    ensures Turn(b, end, s) == Turn(a, end, s)
  {
    hide Token, Lengths, Kraft, Unused, WordBits;
    if s.out < s.threshold {
      TokenLocal(a, b, end, s);
    } else if s.at + CODES / 2 <= end {
      var n := Reached(Turn(a, end, s), end);
      var o := Restart(a, s, Lengths(a, s.at));
      if Built(Lengths(a, s.at)) {
        TokenForward(a, end, o);
        LengthsLocal(a, b, s.at, n);
        assert Restart(b, s, Lengths(b, s.at)) == o;
        TokenLocal(a, b, end, o);
      } else {
        LengthsLocal(a, b, s.at, n);
      }
    }
  }

  lemma TokenForward(src: Source, end: nat, s: State)
    requires Ready(s)
    ensures s.at <= Reached(Token(src, end, s), end) || Token(src, end, s).Fail?
    ensures !Token(src, end, s).Fail?
  {
    hide WordBits, Kraft, Unused;
  }

  lemma {:induction false} ParseForward(src: Source, end: nat, s: State)
    requires Sound(s)
    ensures s.at <= Parse(src, end, s).at
    decreases if s.at < end then Unread(end, s) else 0
  {
    hide Turn;
    if s.at < end && Turn(src, end, s).More? {
      TurnAdds(src, end, s);
      ParseForward(src, end, Turn(src, end, s).next);
    } else if s.at < end {
      TurnForward(src, end, s);
    }
  }

  lemma TurnForward(src: Source, end: nat, s: State)
    requires Sound(s) && s.at < end
    ensures s.at <= Reached(Turn(src, end, s), end)
  {
    hide Token, Kraft, Unused, Lengths, WordBits;
    if s.out < s.threshold {
      TokenForward(src, end, s);
    } else if s.at + CODES / 2 <= end && Built(Lengths(src, s.at)) {
      TokenForward(src, end, Restart(src, s, Lengths(src, s.at)));
    }
  }

  /** A run depends only on the bytes up to where its reading ends. */
  lemma {:induction false} ParseLocal(a: Source, b: Source, end: nat, s: State)
    requires Sound(s) && Alike(a, b, Parse(a, end, s).at)
    ensures Parse(b, end, s) == Parse(a, end, s)
    decreases if s.at < end then Unread(end, s) else 0
  {
    hide Turn;
    if s.at < end {
      var t := Turn(a, end, s);
      if t.More? { ParseForward(a, end, t.next); }
      TurnLocal(a, b, end, s);
      if t.More? { ParseLocal(a, b, end, t.next); }
    }
  }
}
