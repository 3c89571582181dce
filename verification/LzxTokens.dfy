/** The LZX token format, and the decoder as its inverse (src/lzx.c, lzx_token). */
module LzxTokens {
  import opened Bytes
  import opened Bits
  import opened Huffman
  import opened HuffmanBits
  import opened Lz
  import opened LzxBits
  import opened Lzx

  /** Any stream that starts with the code of a symbol decodes to that symbol. */
  lemma SymbolOfCode(ls: seq<nat>, s: nat, u: seq<bit>)
    requires Built(ls) && Used(ls, s)
    requires |u| >= ls[s] && u[..ls[s]] == CodeBits(ls, s)
    ensures var v := Window(Padded(u)); Symbol(ls, v) == s && CodeLength(ls, v) == ls[s]
  {
    hide CodeBits, Kraft, Unused, Window, Symbol, CodeLength;
    assert Padded(u)[..ls[s]] == u[..ls[s]];
    SymbolOfWindow(ls, s, Padded(u));
  }

  lemma DecodeCoded(data: seq<byte>, p: Place, ls: seq<nat>, s: nat, rest: seq<bit>)
    requires Inside(data, p) && Built(ls) && Used(ls, s)
    requires Unread(data, p) == CodeBits(ls, s) + rest
    ensures var r := DecodeSymbol(data, p, ls); r.Ok? && r.value.0 == s && Unread(data, r.value.1) == rest
  {
    hide DecodeSymbol, Symbol, CodeLength, Window, Padded, CodeBits, Kraft, Unused;
    DecodeReads(data, p, ls);
    var u := Unread(data, p);
    assert u[..ls[s]] == CodeBits(ls, s) && u[ls[s]..] == rest;
    SymbolOfCode(ls, s, u);
  }

  lemma GetCoded(data: seq<byte>, p: Place, v: nat, n: nat, rest: seq<bit>)
    requires Inside(data, p) && n <= 16 && v < Pow2(n)
    requires Unread(data, p) == ToBits(v, n) + rest
    ensures var r := GetBits(data, p, n); r.Ok? && r.value.0 == v && Unread(data, r.value.1) == rest
  {
    hide GetBits, ToBits, Number;
    GetBitsReads(data, p, n);
    var u := Unread(data, p);
    assert u[..n] == ToBits(v, n) && u[n..] == rest;
    NumberOfBits(v, n);
  }

  // Position slots

  lemma {:induction false} BaseMonotone(a: nat, b: nat)
    requires a <= b
    ensures PositionBase(a) <= PositionBase(b)
    decreases b
  {
    hide FooterBits, Pow2;
    if a < b { BaseMonotone(a, b - 1); }
  }

  /** A slot covers the positions from its base up to the next. */
  predicate Covers(slot: nat, v: nat) {
    PositionBase(slot) <= v < PositionBase(slot + 1)
  }

  lemma SlotUnique(v: nat, a: nat, b: nat)
    requires Covers(a, v) && Covers(b, v)
    ensures a == b
  {
    hide PositionBase;
    if a < b { BaseMonotone(a + 1, b); }
    if b < a { BaseMonotone(b + 1, a); }
  }

  /** Every position below the last base lies in exactly one slot. */
  lemma {:induction false} SlotsTile(v: nat, n: nat)
    requires v < PositionBase(n)
    ensures exists slot :: 0 <= slot < n && Covers(slot, v) && forall other :: 0 <= other && Covers(other, v) ==> other == slot
  {
    if PositionBase(n - 1) <= v {
      assert Covers(n - 1, v);
      forall other | 0 <= other && Covers(other, v) ensures other == n - 1 {
        SlotUnique(v, other, n - 1);
      }
    } else {
      SlotsTile(v, n - 1);
    }
  }

  /** Two slots to each power of two, up to slot 38. */
  lemma {:induction false} BaseValues(k: nat)
    requires 1 <= k <= 19
    ensures PositionBase(2 * k) == Pow2(k) && (k < 19 ==> PositionBase(2 * k + 1) == 3 * Pow2(k - 1))
  {
    if k == 1 {
      assert PositionBase(1) == 1 && PositionBase(2) == 2;
    } else {
      BaseValues(k - 1);
      assert PositionBase(2 * k) == PositionBase(2 * k - 1) + Pow2(k - 2);
      assert k < 19 ==> PositionBase(2 * k + 1) == PositionBase(2 * k) + Pow2(k - 1);
    }
  }

  /** From there on the slots are 2^17 wide. */
  lemma {:induction false} BaseSteps(j: nat)
    ensures PositionBase(38 + j) == 0x8_0000 + 0x2_0000 * j
  {
    hide PositionBase, Shl;
    WidePowers();
    if j == 0 { BaseValues(19); } else { BaseSteps(j - 1); BaseStep(37 + j); }
  }

  lemma BaseStep(slot: nat)
    requires slot >= 38
    ensures PositionBase(slot + 1) == PositionBase(slot) + Pow2(17)
  {
    hide Shl;
  }

  lemma WidePowers()
    ensures Pow2(17) == 0x2_0000 && Pow2(19) == 0x8_0000
  {
    hide Shl;
    Pow2Values();
    assert Pow2(17) == 2 * Pow2(16) by { Doubled(16); }
    assert Pow2(18) == 2 * Pow2(17) by { Doubled(17); }
    assert Pow2(19) == 2 * Pow2(18) by { Doubled(18); }
  }

  lemma Doubled(k: nat)
    ensures Pow2(k + 1) == 2 * Pow2(k)
  {
  }

  /** The slots of the format cover exactly the positions of a 32kB window, each once. */
  lemma SlotsFillWindow(v: nat)
    ensures v < 32768 <==> exists slot :: 0 <= slot < 30 && Covers(slot, v)
  {
    hide PositionBase, Shl;
    Pow2Values();
    BaseValues(15);
    if v < 32768 {
      SlotsTile(v, 30);
    } else {
      forall slot | 0 <= slot < 30 ensures !Covers(slot, v) { BaseMonotone(slot + 1, 30); }
    }
  }

  // Tokens

  /** A token of the format: a byte, or a match at a repeated or at a new offset. */
  datatype Coded = Lit(b: byte) | Rep(index: nat, len: nat) | New(slot: nat, offset: nat, len: nat)

  /** The low bits of the main symbol of a match, and the rest of the length. */
  function Short(len: nat): nat
    requires len >= 2
  {
    if len - 2 < 7 then len - 2 else 7
  }

  function SlotOf(c: Coded): nat
    requires !c.Lit?
  {
    if c.Rep? then c.index else c.slot
  }

  function MainSymbol(c: Coded): nat
    requires !c.Lit? ==> c.len >= 2
  {
    if c.Lit? then c.b else LITERALS + 8 * SlotOf(c) + Short(c.len)
  }

  function Footer(c: Coded): nat
    requires c.New? && c.offset + 2 >= PositionBase(c.slot)
  {
    c.offset + 2 - PositionBase(c.slot)
  }

  /** Whether the low footer bits of a match go through the aligned offset alphabet. */
  predicate Aligned(s: State, slot: nat) {
    s.aligned && FooterBits(slot) >= 3
  }

  /** The block's codes can express the token. */
  predicate Encodable(data: seq<byte>, s: State, c: Coded)
    requires Sound(data, s)
  {
    && (!c.Lit? ==> c.len >= 2 && SlotOf(c) < SLOTS && (c.len >= 9 ==> Used(s.len, c.len - 9)))
    && (c.Rep? ==> c.index < 3 && s.rep[c.index] <= s.out)
    && (c.New? ==> c.slot >= 3 && Covers(c.slot, c.offset + 2) && c.offset <= s.out)
    && (c.New? && Aligned(s, c.slot) ==> Used(s.align, Footer(c) % 8))
    && Used(s.main, MainSymbol(c))
  }

  /** The bits of the offset after the main and length symbols. */
  function FooterCode(data: seq<byte>, s: State, c: Coded): seq<bit>
    requires Sound(data, s) && Encodable(data, s, c)
  {
    if !c.New? then []
    else if Aligned(s, c.slot) then ToBits(Footer(c) / 8, FooterBits(c.slot) - 3) + CodeBits(s.align, Footer(c) % 8)
    else ToBits(Footer(c), FooterBits(c.slot))
  }

  function LengthCode(data: seq<byte>, s: State, c: Coded): seq<bit>
    requires Sound(data, s) && Encodable(data, s, c)
  {
    if !c.Lit? && c.len >= 9 then CodeBits(s.len, c.len - 9) else []
  }

  function Encode(data: seq<byte>, s: State, c: Coded): seq<bit>
    requires Sound(data, s) && Encodable(data, s, c)
  {
    CodeBits(s.main, MainSymbol(c)) + (LengthCode(data, s, c) + FooterCode(data, s, c))
  }

  /** What the token stands for. */
  function Meaning(s: State, c: Coded): Piece
    requires |s.rep| == 3 && (c.Rep? ==> c.index < 3)
  {
    match c
    case Lit(b) => Byte(b)
    case Rep(index, len) => Copy(s.rep[index], len)
    case New(_, offset, len) => Copy(offset, len)
  }

  /** The repeated offsets afterwards: the offset just used comes first. */
  function Recent(s: State, c: Coded): seq<nat>
    requires |s.rep| == 3 && (c.Rep? ==> c.index < 3)
  {
    match c
    case Lit(_) => s.rep
    case Rep(index, _) =>
      if index == 0 then s.rep
      else if index == 1 then [s.rep[1], s.rep[0], s.rep[2]]
      else [s.rep[2], s.rep[1], s.rep[0]]
    case New(_, offset, _) => [offset, s.rep[0], s.rep[1]]
  }

  lemma FooterFits(slot: nat, v: nat)
    requires Covers(slot, v) && slot < SLOTS
    ensures v - PositionBase(slot) < Pow2(FooterBits(slot))
    ensures FooterBits(slot) >= 3 ==> (v - PositionBase(slot)) / 8 < Pow2(FooterBits(slot) - 3)
  {
    hide Shl;
    var f, n := v - PositionBase(slot), FooterBits(slot);
    if n >= 3 {
      EightTimes(n - 3);
    }
  }

  lemma EightTimes(n: nat)
    ensures Pow2(n + 3) == 8 * Pow2(n)
  {
    assert Pow2(n + 1) == 2 * Pow2(n);
    assert Pow2(n + 2) == 2 * Pow2(n + 1);
  }

  lemma OffsetRoundTrip(data: seq<byte>, s: State, c: Coded, p: Place, rest: seq<bit>)
    requires Sound(data, s) && Encodable(data, s, c) && !c.Lit? && Inside(data, p)
    requires Unread(data, p) == FooterCode(data, s, c) + rest
    ensures var r := Offset(data, s, p, SlotOf(c));
            && r.Ok? && r.value.0 == Meaning(s, c).offset && r.value.1 == Recent(s, c)
            && Unread(data, r.value.2) == rest
  {
    hide GetBits, DecodeSymbol, ToBits, CodeBits, PositionBase, Pow2, Unread, Kraft, Unused;
    if c.New? {
      FooterFits(c.slot, c.offset + 2);
      var n, f := FooterBits(c.slot), Footer(c);
      if Aligned(s, c.slot) {
        var low := CodeBits(s.align, f % 8);
        assert Unread(data, p) == ToBits(f / 8, n - 3) + (low + rest);
        GetCoded(data, p, f / 8, n - 3, low + rest);
        DecodeCoded(data, GetBits(data, p, n - 3).value.1, s.align, f % 8, rest);
      } else {
        GetCoded(data, p, f, n, rest);
      }
    } else {
      assert FooterCode(data, s, c) + rest == rest;
    }
  }

  /** The symbol arithmetic of a match undoes itself. */
  lemma SymbolParts(c: Coded)
    requires !c.Lit? && c.len >= 2
    ensures var sym := MainSymbol(c) - LITERALS;
            sym / 8 == SlotOf(c) && sym % 8 == Short(c.len) && (c.len >= 9 <==> Short(c.len) == 7)
  {
  }

  lemma MatchRoundTrip(data: seq<byte>, s: State, c: Coded, rest: seq<bit>)
    requires Sound(data, s) && Encodable(data, s, c) && !c.Lit?
    requires Unread(data, s.p) == LengthCode(data, s, c) + (FooterCode(data, s, c) + rest)
    ensures MainSymbol(c) - LITERALS < MAIN_CODES - LITERALS
    ensures var r := MatchToken(data, s, MainSymbol(c) - LITERALS);
            && r.Ok? && r.value.0 == Meaning(s, c) && r.value.1.rep == Recent(s, c)
            && Unread(data, r.value.1.p) == rest
            && r.value.1 == s.(p := r.value.1.p, out := s.out + PieceSize(Meaning(s, c)), rep := Recent(s, c))
  {
    hide Offset, DecodeSymbol, CodeBits, FooterCode, Unread, Covers, Kraft, Unused, Aligned;
    SymbolParts(c);
    var tail := FooterCode(data, s, c) + rest;
    var p := s.p;
    if c.len >= 9 {
      DecodeCoded(data, p, s.len, c.len - 9, tail);
      p := DecodeSymbol(data, p, s.len).value.1;
    } else {
      assert LengthCode(data, s, c) + tail == tail;
    }
    OffsetRoundTrip(data, s, c, p, rest);
  }

  /** Decoding the bits of a token gives its meaning and leaves the bits after it. */
  lemma TokenRoundTrip(data: seq<byte>, s: State, c: Coded, rest: seq<bit>)
    requires Sound(data, s) && Encodable(data, s, c)
    requires Unread(data, s.p) == Encode(data, s, c) + rest
    ensures var r := Token(data, s);
            && r.Ok? && r.value.0 == Meaning(s, c) && Unread(data, r.value.1.p) == rest
            && r.value.1 == s.(p := r.value.1.p, out := s.out + PieceSize(Meaning(s, c)), rep := Recent(s, c))
  {
    hide MatchToken, DecodeSymbol, CodeBits, FooterCode, LengthCode, Unread, Covers, Kraft, Unused;
    var len, foot := LengthCode(data, s, c), FooterCode(data, s, c);
    assert Encode(data, s, c) + rest == CodeBits(s.main, MainSymbol(c)) + (len + (foot + rest));
    DecodeCoded(data, s.p, s.main, MainSymbol(c), len + (foot + rest));
    var p := DecodeSymbol(data, s.p, s.main).value.1;
    if c.Lit? {
      NoFooter(data, s, c);
      assert len + (foot + rest) == rest;
    } else {
      PlaceFree(data, s, s.(p := p), c);
      MatchRoundTrip(data, s.(p := p), c, rest);
    }
  }

  lemma NoFooter(data: seq<byte>, s: State, c: Coded)
    requires Sound(data, s) && Encodable(data, s, c) && c.Lit?
    ensures LengthCode(data, s, c) == [] && FooterCode(data, s, c) == []
  {
  }

  /** The coding of a token does not depend on where the input stands. */
  lemma PlaceFree(data: seq<byte>, s: State, t: State, c: Coded)
    requires Sound(data, s) && Sound(data, t) && Encodable(data, s, c) && t == s.(p := t.p)
    ensures Encodable(data, t, c) && LengthCode(data, t, c) == LengthCode(data, s, c)
    ensures FooterCode(data, t, c) == FooterCode(data, s, c) && Encode(data, t, c) == Encode(data, s, c)
    ensures Meaning(t, c) == Meaning(s, c) && Recent(t, c) == Recent(s, c)
  {
  }

  // Token streams

  /** The decoder's state after a token, its place in the input aside. */
  function Follow(s: State, c: Coded): State
    requires |s.rep| == 3 && (c.Rep? ==> c.index < 3)
  {
    s.(out := s.out + PieceSize(Meaning(s, c)), rep := Recent(s, c))
  }

  lemma FollowSound(data: seq<byte>, s: State, c: Coded)
    requires Sound(data, s) && Encodable(data, s, c)
    ensures Sound(data, Follow(s, c)) && (s.plain && !c.Lit? ==> Meaning(s, c).offset > 0)
  {
    if c.New? { BaseMonotone(3, c.slot); }
  }

  /** The tokens fit the block one after another. */
  predicate AllEncodable(data: seq<byte>, s: State, cs: seq<Coded>)
    requires Sound(data, s)
    decreases |cs|
  {
    cs == []
    || (s.out < s.limit && Encodable(data, s, cs[0])
        && (FollowSound(data, s, cs[0]); AllEncodable(data, Follow(s, cs[0]), cs[1..])))
  }

  function EncodeAll(data: seq<byte>, s: State, cs: seq<Coded>): seq<bit>
    requires Sound(data, s) && AllEncodable(data, s, cs)
    decreases |cs|
  {
    if cs == [] then [] else
      FollowSound(data, s, cs[0]);
      Encode(data, s, cs[0]) + EncodeAll(data, Follow(s, cs[0]), cs[1..])
  }

  function Items(data: seq<byte>, s: State, cs: seq<Coded>): seq<Item>
    requires Sound(data, s) && s.plain && AllEncodable(data, s, cs)
    decreases |cs|
  {
    if cs == [] then [] else
      FollowSound(data, s, cs[0]);
      [ItemOf(Meaning(s, cs[0]))] + Items(data, Follow(s, cs[0]), cs[1..])
  }

  function Final(data: seq<byte>, s: State, cs: seq<Coded>): (t: State)
    requires Sound(data, s) && AllEncodable(data, s, cs)
    ensures Sound(data, t) && t.plain == s.plain
    decreases |cs|
  {
    if cs == [] then s else
      FollowSound(data, s, cs[0]);
      Final(data, Follow(s, cs[0]), cs[1..])
  }

  /** Where the input stands matters to none of this. */
  lemma {:induction false} AllPlaceFree(data: seq<byte>, s: State, t: State, cs: seq<Coded>)
    requires Sound(data, s) && Sound(data, t) && AllEncodable(data, s, cs) && t == s.(p := t.p)
    ensures AllEncodable(data, t, cs) && EncodeAll(data, t, cs) == EncodeAll(data, s, cs)
    ensures s.plain ==> Items(data, t, cs) == Items(data, s, cs)
    ensures Final(data, t, cs) == Final(data, s, cs).(p := t.p)
    decreases |cs|
  {
    hide Encode, Meaning, Recent, Covers, Built, Used, Aligned;
    if cs != [] {
      PlaceFree(data, s, t, cs[0]);
      FollowSound(data, s, cs[0]);
      FollowSound(data, t, cs[0]);
      AllPlaceFree(data, Follow(s, cs[0]), Follow(t, cs[0]), cs[1..]);
    }
  }

  /** Two runs agree but for items found before the second. */
  predicate Agree(a: Run, items: seq<Item>, b: Run) {
    a == b.(items := items + b.items)
  }

  /**
   * Decoding a plain block inverts its coding: wherever the stream goes on with the coding of
   * some tokens, the run finds their items and continues from the bits after them.
   */
  lemma {:induction false} StreamRoundTrip(data: seq<byte>, s: State, cs: seq<Coded>, rest: seq<bit>) returns (p: Place)
    requires Sound(data, s) && s.plain && AllEncodable(data, s, cs)
    requires Unread(data, s.p) == EncodeAll(data, s, cs) + rest
    ensures Inside(data, p) && Unread(data, p) == rest
    ensures Sound(data, Final(data, s, cs).(p := p))
    ensures Agree(Parse(data, s), Items(data, s, cs), Parse(data, Final(data, s, cs).(p := p)))
    decreases |cs|
  {
    hide Encode, Meaning, Recent, Unread, Token, Parse, Covers, Built, Used, Aligned, Inside;
    if cs == [] {
      p := s.p;
      assert EncodeAll(data, s, cs) + rest == rest;
      assert [] + Parse(data, s).items == Parse(data, s).items;
    } else {
      var c, next := cs[0], Follow(s, cs[0]);
      FollowSound(data, s, c);
      var more := EncodeAll(data, next, cs[1..]);
      assert EncodeAll(data, s, cs) + rest == Encode(data, s, c) + (more + rest);
      var t := TokenFollows(data, s, c, more + rest);
      AllPlaceFree(data, next, t, cs[1..]);
      p := StreamRoundTrip(data, t, cs[1..], rest);
      AgreeCons(data, s, t, Meaning(s, c), Items(data, next, cs[1..]), Parse(data, Final(data, s, cs).(p := p)));
    }
  }

  lemma AgreeCons(data: seq<byte>, s: State, t: State, x: Piece, items: seq<Item>, end: Run)
    requires Sound(data, s) && s.plain && Sound(data, t) && Next(data, s) == Emit(x, t)
    requires Agree(Parse(data, t), items, end)
    ensures x.Copy? ==> x.offset > 0
    ensures Agree(Parse(data, s), [ItemOf(x)] + items, end)
  {
    hide Sound, Next;
    assert [ItemOf(x)] + (items + end.items) == [ItemOf(x)] + items + end.items;
  }

  lemma TokenFollows(data: seq<byte>, s: State, c: Coded, rest: seq<bit>) returns (t: State)
    requires Sound(data, s) && s.plain && Encodable(data, s, c) && s.out < s.limit
    requires Unread(data, s.p) == Encode(data, s, c) + rest
    ensures Sound(data, t) && t.plain && t == Follow(s, c).(p := t.p) && Unread(data, t.p) == rest
    ensures Meaning(s, c).Copy? ==> Meaning(s, c).offset > 0
    ensures Next(data, s) == Emit(Meaning(s, c), t)
  {
    hide Encodable, Encode, Unread, Token;
    TokenRoundTrip(data, s, c, rest);
    FollowSound(data, s, c);
    t := Token(data, s).value.1;
  }
}
