/** Exactly when the outcome of an XCA run depends on nothing but its input (src/xca.c). */
module XcaSettled {
  import opened Bytes
  import opened Bits
  import opened Lz
  import opened Memory
  import opened Huffman
  import opened Xca

  /** What a run amounts to: its items, if it succeeds. */
  function Verdict(r: Run): Option<seq<Item>> {
    if r.p.ok then Some(r.p.items) else None
  }

  /** A new code is due whose first word is not wholly inside the input. */
  ghost predicate Short(src: Source, end: nat, s: State) {
    s.out >= s.threshold && s.at + CODES / 2 <= end < s.at + CODES / 2 + 2 && Built(Lengths(src, s.at))
  }

  /** A first word that agrees with the byte of it that is inside the input, if there is one. */
  predicate Possible(src: Source, end: nat, s: State, w: nat) {
    w < 65536 && (s.at + CODES / 2 < end ==> w % 256 == src(s.at + CODES / 2))
  }

  /**
   * No symbol of the run is read past the end of the input, unless none of the words that may
   * be there is an end marker.
   */
  ghost predicate Contained(src: Source, end: nat, s: State)
    requires Sound(s)
    decreases if s.at < end then Unread(end, s) else 0
  {
    s.at >= end ||
    if Short(src, end, s) then
      forall w :: Possible(src, end, s, w) ==> Symbol(Lengths(src, s.at), w) != END_MARKER
    else
      match Turn(src, end, s)
      case More(_, next) => Contained(src, end, next)
      case _ => true
  }

  // Contained runs

  /** The first symbol of a new code. */
  lemma RestartToken(src: Source, end: nat, s: State)
    requires Built(Lengths(src, s.at))
    ensures var o, ls := Restart(src, s, Lengths(src, s.at)), Lengths(src, s.at);
            && Ready(o) && o.at == s.at + CODES / 2 + 4 && Window(o.q) == Word(src, s.at + CODES / 2)
            && (Token(src, end, o).Done? <==> Symbol(ls, Word(src, s.at + CODES / 2)) == END_MARKER && end <= TokenAt(o) + 1)
            && (Token(src, end, o).More? ==> Token(src, end, o).next.at >= o.at) && !Token(src, end, o).Fail?
  {
    hide WordBits, Number, Kraft, Unused, Lengths, MatchToken, Symbol, CodeLength;
    var at := s.at + CODES / 2;
    var o := Restart(src, s, Lengths(src, s.at));
    NumberOfWord(Word(src, at));
    assert o.q[..16] == WordBits(Word(src, at));
    TokenDone(src, end, o);
    TokenForward(src, end, o);
  }

  /** Where a symbol leaves the input. */
  ghost function TokenAt(s: State): nat
    requires Ready(s)
  {
    if |s.q| - CodeLength(s.ls, Window(s.q)) < 16 then s.at + 2 else s.at
  }

  /** Whether a symbol ends the run depends on the bits held alone. */
  lemma TokenDone(src: Source, end: nat, s: State)
    requires Ready(s)
    ensures Token(src, end, s).Done? <==> Symbol(s.ls, Window(s.q)) == END_MARKER && end <= TokenAt(s) + 1
    ensures Token(src, end, s).Done? ==> Token(src, end, s).at == TokenAt(s)
  {
    hide WordBits, Number, Kraft, Unused, Symbol, CodeLength, Window;
  }

  /** A turn that ends the run does so whatever lies past the end, if it is not short. */
  lemma DoneSame(a: Source, b: Source, end: nat, s: State)
    requires Sound(s) && s.at < end && Alike(a, b, end) && !Short(a, end, s) && Turn(a, end, s).Done?
    ensures Turn(b, end, s).Done?
  {
    hide Token, Kraft, Unused, Lengths, Symbol, CodeLength, Window, TokenAt, Restart;
    if s.out < s.threshold {
      TokenDone(a, end, s);
      TokenDone(b, end, s);
    } else {
      LengthsLocal(a, b, s.at, end);
      RestartToken(a, end, s);
      RestartToken(b, end, s);
      RestartAt(a, b, s, Lengths(a, s.at));
    }
  }

  lemma RestartAt(a: Source, b: Source, s: State, ls: seq<nat>)
    requires Ready(Restart(a, s, ls)) && Ready(Restart(b, s, ls))
    requires Window(Restart(a, s, ls).q) == Window(Restart(b, s, ls).q)
    ensures TokenAt(Restart(a, s, ls)) == TokenAt(Restart(b, s, ls))
  {
    hide Window, CodeLength, Kraft, Unused, WordBits;
  }

  /** Any other turn is the same, or leaves the input in both memories. */
  lemma TurnSame(a: Source, b: Source, end: nat, s: State)
    requires Sound(s) && s.at < end && Alike(a, b, end) && !Short(a, end, s)
    ensures var t, u := Turn(a, end, s), Turn(b, end, s);
            if t.Done? then u.Done? else t == u || (t.More? && u.More? && t.next.at > end && u.next.at > end)
  {
    hide Turn, Short;
    ShortSame(a, b, end, s);
    var t, u := Turn(a, end, s), Turn(b, end, s);
    if t.Done? {
      DoneSame(a, b, end, s);
    } else if u.Done? {
      DoneSame(b, a, end, s);
    } else if Reached(t, end) <= end {
      TurnLocal(a, b, end, s);
    } else if Reached(u, end) <= end {
      TurnLocal(b, a, end, s);
    }
  }

  lemma ShortSame(a: Source, b: Source, end: nat, s: State)
    requires Alike(a, b, end)
    ensures Short(a, end, s) <==> Short(b, end, s)
    ensures Short(a, end, s) ==> Lengths(a, s.at) == Lengths(b, s.at)
  {
    hide Lengths, Built;
    if s.at + CODES / 2 <= end { LengthsLocal(a, b, s.at, end); }
  }

  lemma RunPast(src: Source, end: nat, s: State)
    requires Sound(s) && s.at < end && Turn(src, end, s).More? && Turn(src, end, s).next.at > end
    ensures Verdict(Parse(src, end, s)) == None
  {
    hide Turn;
  }

  /** A short turn without a possible end marker leaves the input. */
  lemma ShortFails(src: Source, end: nat, s: State)
    requires Sound(s) && s.at < end && Short(src, end, s) && Contained(src, end, s)
    ensures Verdict(Parse(src, end, s)) == None
  {
    hide Token, Kraft, Unused, Lengths, Symbol, Restart;
    var w := Word(src, s.at + CODES / 2);
    assert Possible(src, end, s, w);
    RestartToken(src, end, s);
    RunPast(src, end, s);
  }

  lemma ShortContained(a: Source, b: Source, end: nat, s: State)
    requires Sound(s) && s.at < end && Short(a, end, s) && Alike(a, b, end) && Contained(a, end, s)
    ensures Contained(b, end, s)
  {
    hide Turn, Lengths, Symbol, Built;
    ShortSame(a, b, end, s);
    forall w | Possible(b, end, s, w) ensures Symbol(Lengths(b, s.at), w) != END_MARKER {
      assert Possible(a, end, s, w);
    }
  }

  /** The outcome of a contained run depends only on the input. */
  lemma {:induction false} ContainedSame(a: Source, b: Source, end: nat, s: State)
    requires Sound(s) && Alike(a, b, end) && Contained(a, end, s)
    ensures Contained(b, end, s) && Verdict(Parse(b, end, s)) == Verdict(Parse(a, end, s))
    decreases if s.at < end then Unread(end, s) else 0
  {
    hide Turn, Short, Possible, Symbol, Lengths;
    if s.at < end {
      ShortSame(a, b, end, s);
      if Short(a, end, s) {
        ShortContained(a, b, end, s);
        ShortFails(a, end, s);
        ShortFails(b, end, s);
      } else {
        TurnSame(a, b, end, s);
        var t := Turn(a, end, s);
        if t == Turn(b, end, s) && t.More? {
          ContainedSame(a, b, end, t.next);
        } else if t.More? {
          RunPast(a, end, s);
          RunPast(b, end, s);
        }
      }
    }
  }

  /** A run that stays inside its input is contained. */
  lemma {:induction false} InsideIsContained(src: Source, end: nat, s: State)
    requires Sound(s) && Parse(src, end, s).at <= end
    ensures Contained(src, end, s)
    decreases if s.at < end then Unread(end, s) else 0
  {
    hide Turn, Short, Possible, Symbol, Lengths;
    if s.at < end {
      if Turn(src, end, s).More? {
        ParseForward(src, end, Turn(src, end, s).next);
        InsideIsContained(src, end, Turn(src, end, s).next);
      }
      if Short(src, end, s) { ShortReaches(src, end, s); }
    }
  }

  lemma ShortReaches(src: Source, end: nat, s: State)
    requires Sound(s) && s.at < end && Short(src, end, s)
    ensures !Turn(src, end, s).Fail? && Reached(Turn(src, end, s), end) > end
  {
    hide Token, Kraft, Unused, Lengths, Symbol, Restart;
    RestartToken(src, end, s);
    TokenForward(src, end, Restart(src, s, Lengths(src, s.at)));
  }

  // Other runs

  /** A memory with another word at an offset. */
  function WithWord(src: Source, at: nat, w: nat): Source
    requires w < 65536
  {
    (i: nat) => if i == at then w % 256 else if i == at + 1 then w / 256 else src(i)
  }

  /** The window with its first bit inverted starts with another code. */
  lemma FirstBit(ls: seq<nat>, w: nat, v: nat)
    requires Built(ls) && w < 65536 && v < 65536 && (v == w + 32768 || w == v + 32768)
    ensures Symbol(ls, v) == Symbol(ls, w) ==> Unused(ls)
  {
    hide Kraft, Unused, Code, Shr, Shl;
    if !Unused(ls) && Symbol(ls, v) == Symbol(ls, w) {
      var s := Symbol(ls, w);
      var c, k := Code(ls, s), 16 - ls[s];
      ShrWithin(w, k, c, c + 1);
      ShrWithin(v, k, c, c + 1);
      ShlAdd(c, 1, k);
      HalfRange(k);
    }
  }

  lemma {:induction false} HalfRange(k: nat)
    requires k <= 15
    ensures Pow2(k) <= 32768
  {
    hide Shl;
    Pow2Values();
    if k < 15 { ShlShl(1, k, 15 - k); ShlGrows(Pow2(k), 15 - k); }
  }

  lemma {:induction false} ShlGrows(n: nat, k: nat)
    ensures Shl(n, k) >= n
  {
    if k > 0 { ShlGrows(n, k - 1); }
  }

  /** A run that is not contained succeeds with some memory past the end of the input and fails with another. */
  lemma {:induction false} NotContained(src: Source, end: nat, s: State) returns (a: Source, b: Source)
    requires Sound(s) && !Contained(src, end, s)
    ensures Alike(src, a, end) && Alike(src, b, end) && Parse(a, end, s).p.ok && !Parse(b, end, s).p.ok
    decreases if s.at < end then Unread(end, s) else 0
  {
    hide Turn, Symbol, Lengths, Kraft, Unused;
    if Short(src, end, s) {
      var w :| Possible(src, end, s, w) && Symbol(Lengths(src, s.at), w) == END_MARKER;
      a, b := EndOrNot(src, end, s, w);
    } else {
      var next := Turn(src, end, s).next;
      a, b := NotContained(src, end, next);
      TurnLocal(src, a, end, s);
      TurnLocal(src, b, end, s);
    }
  }

  lemma EndOrNot(src: Source, end: nat, s: State, w: nat) returns (a: Source, b: Source)
    requires Sound(s) && s.at < end && Short(src, end, s) && Possible(src, end, s, w) && Symbol(Lengths(src, s.at), w) == END_MARKER
    ensures Alike(src, a, end) && Alike(src, b, end) && Parse(a, end, s).p.ok && !Parse(b, end, s).p.ok
  {
    hide Lengths, Kraft, Unused, Symbol, Alike, Parse, WithWord;
    var at, v := s.at + CODES / 2, if w < 32768 then w + 32768 else w - 32768;
    a, b := WithWord(src, at, w), WithWord(src, at, v);
    SameLowByte(w, v);
    FirstBit(Lengths(src, s.at), w, v);
    WordDecides(src, end, s, w);
    WordDecides(src, end, s, v);
  }

  /** A short turn ends the run well exactly if its word is an end marker. */
  lemma WordDecides(src: Source, end: nat, s: State, w: nat)
    requires Sound(s) && s.at < end && Short(src, end, s) && Possible(src, end, s, w)
    ensures var a := WithWord(src, s.at + CODES / 2, w);
            Alike(src, a, end) && (Parse(a, end, s).p.ok <==> Symbol(Lengths(src, s.at), w) == END_MARKER)
  {
    hide Lengths, Kraft, Unused, Token, Restart, Symbol;
    var a := WithWord(src, s.at + CODES / 2, w);
    assert Alike(src, a, end);
    LengthsLocal(src, a, s.at, end);
    WordAt(src, s.at + CODES / 2, w);
    hide WithWord, Word, Alike;
    RestartToken(a, end, s);
    if Turn(a, end, s).More? { RunPast(a, end, s); }
  }

  lemma SameLowByte(w: nat, v: nat)
    requires v == w + 32768 || w == v + 32768
    ensures w % 256 == v % 256
  {
  }

  lemma WordAt(src: Source, at: nat, w: nat)
    requires w < 65536
    ensures Word(WithWord(src, at, w), at) == w
  {
  }

  /** The outcome depends only on the input exactly if the run is contained. */
  lemma ContainedExactly(src: Source, end: nat, s: State)
    requires Sound(s)
    ensures Contained(src, end, s) <==>
            forall a, b :: Alike(src, a, end) && Alike(src, b, end) ==> Verdict(Parse(a, end, s)) == Verdict(Parse(b, end, s))
  {
    hide Contained, Parse, Alike;
    if Contained(src, end, s) {
      forall a, b | Alike(src, a, end) && Alike(src, b, end) ensures Verdict(Parse(a, end, s)) == Verdict(Parse(b, end, s)) {
        ContainedSame(src, a, end, s);
        ContainedSame(src, b, end, s);
      }
    } else {
      var a, b := NotContained(src, end, s);
      assert Verdict(Parse(a, end, s)) != Verdict(Parse(b, end, s));
    }
  }

  // Matches

  predicate Solid(items: seq<Item>) {
    forall i :: 0 <= i < |items| && items[i].Match? ==> items[i].len > 0
  }

  lemma TurnSolid(src: Source, end: nat, s: State)
    requires Sound(s) && Turn(src, end, s).More?
    ensures Solid([Turn(src, end, s).item])
  {
    hide WordBits, Number, Kraft, Unused, Symbol, CodeLength, Window, Lengths, Restart;
  }

  /** Every match of a run has some length. */
  lemma {:induction false} ParseSolid(src: Source, end: nat, s: State)
    requires Sound(s)
    ensures Solid(Parse(src, end, s).p.items)
    decreases if s.at < end then Unread(end, s) else 0
  {
    hide Turn;
    if s.at < end && Turn(src, end, s).More? {
      var t := Turn(src, end, s);
      TurnSolid(src, end, s);
      ParseSolid(src, end, t.next);
      var rest, all := Parse(src, end, t.next).p.items, Parse(src, end, s).p.items;
      assert all == [t.item] + rest;
      forall i | 0 <= i < |all| && all[i].Match? ensures all[i].len > 0 {
        if i > 0 { assert all[i] == rest[i - 1]; } else { assert all[0] == [t.item][0]; }
      }
    }
  }
}
