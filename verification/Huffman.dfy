/** Canonical Huffman alphabets: construction and quick-lookup decoding (src/huffman.c, src/huffman.h). */
module Huffman {
  import opened Bytes

  // ---------------------------------------------------------------- the canonical code
  //
  // Symbol sets are numbered as in the source: set `i` holds the codes of length `i + 1`.

  /** What the callers pass in: at most 65535 symbols, lengths between 0 (unused) and 16. */
  predicate ValidLengths(ls: seq<nat>) {
    |ls| < 0x1_0000 && forall i :: 0 <= i < |ls| ==> ls[i] <= 16
  }

  predicate Unused(ls: seq<nat>) {
    forall i :: 0 <= i < |ls| ==> ls[i] == 0
  }

  /** The symbols whose code has length `b`, in increasing order. */
  function Syms(ls: seq<nat>, b: nat): (r: seq<nat>)
    ensures |r| <= |ls|
  {
    if ls == [] then []
    else
      var n := |ls| - 1;
      Syms(ls[..n], b) + (if ls[n] == b then [n] else [])
  }

  /** Number of symbols of each length 1..16; an unused alphabet counts as two one-bit codes. */
  function Freqs(ls: seq<nat>): (f: seq<nat>)
    ensures |f| == 16
  {
    if Unused(ls) then seq(16, i => if i == 0 then 2 else 0)
    else seq(16, i requires 0 <= i => |Syms(ls, i + 1)|)
  }

  /** First code of set `i`, by the recurrence of section 3.2.2 of RFC 1951. */
  function First(f: seq<nat>, i: nat): nat
    requires |f| == 16 && i <= 16
  {
    if i == 0 then 0 else 2 * (First(f, i - 1) + f[i - 1])
  }

  /** Share of the 16-bit window space taken by the sets before `i`. */
  function Weight(f: seq<nat>, i: nat): nat
    requires |f| == 16 && i <= 16
  {
    if i == 0 then 0 else Weight(f, i - 1) + Shl(f[i - 1], 16 - i)
  }

  /** Number of symbols in the sets before `i`. */
  function Cum(f: seq<nat>, i: nat): nat
    requires |f| == 16 && i <= 16
  {
    if i == 0 then 0 else Cum(f, i - 1) + f[i - 1]
  }

  /** The Kraft sum of the used symbols, in units of 2^-16. */
  function Kraft(ls: seq<nat>): nat
    requires ValidLengths(ls)
  {
    if ls == [] then 0
    else
      var n := |ls| - 1;
      Kraft(ls[..n]) + (if ls[n] == 0 then 0 else Pow2(16 - ls[n]))
  }

  /** The canonical code of a used symbol. */
  function Code(ls: seq<nat>, s: nat): nat
    requires ValidLengths(ls) && s < |ls| && ls[s] > 0
  {
    First(Freqs(ls), ls[s] - 1) + |Syms(ls[..s], ls[s])|
  }

  /** The 16-bit window `v` starts with the code of `s`: its leading bits, read as a number, are that code. */
  predicate StartsWith(ls: seq<nat>, v: nat, s: nat)
    requires ValidLengths(ls)
  {
    s < |ls| && ls[s] > 0 && Shr(v, 16 - ls[s]) == Code(ls, s)
  }

  // ---------------------------------------------------------------- facts about the code

  lemma {:induction false} FirstIsWeight(f: seq<nat>, i: nat)
    requires |f| == 16 && i <= 15
    ensures Shl(First(f, i), 15 - i) == Weight(f, i)
    ensures Shl(First(f, i) + f[i], 15 - i) == Weight(f, i + 1)
  {
    if i > 0 {
      FirstIsWeight(f, i - 1);
      ShlShl(First(f, i - 1) + f[i - 1], 1, 15 - i);
    } else {
      ShlAdd(0, 0, 15);
    }
    ShlAdd(First(f, i), f[i], 15 - i);
  }

  /** A window belongs to set `i` exactly when its leading bits are one of the codes of the set. */
  lemma InSet(f: seq<nat>, v: nat, i: nat)
    requires |f| == 16 && i <= 15
    ensures First(f, i) <= Shr(v, 15 - i) < First(f, i) + f[i] <==> Weight(f, i) <= v < Weight(f, i + 1)
  {
    FirstIsWeight(f, i);
    ShrWithin(v, 15 - i, First(f, i), First(f, i) + f[i]);
  }

  lemma {:induction false} WeightMonotone(f: seq<nat>, i: nat, j: nat)
    requires |f| == 16 && i <= j <= 16
    ensures Weight(f, i) <= Weight(f, j) && Cum(f, i) <= Cum(f, j)
    decreases j
  {
    if i < j { WeightMonotone(f, i, j - 1); }
  }

  /** The overflow test at set `i` compares the weight of the sets up to it with the whole space. */
  lemma OverflowTest(f: seq<nat>, i: nat)
    requires |f| == 16 && i <= 15
    ensures First(f, i) + f[i] > Pow2(i + 1) <==> Weight(f, i + 1) > 65536
    ensures First(f, i) + f[i] == Pow2(i + 1) <==> Weight(f, i + 1) == 65536
  {
    FirstIsWeight(f, i);
    ShlShl(1, i + 1, 15 - i);
    Pow2Values();
    ShlCompare(Pow2(i + 1), First(f, i) + f[i], 15 - i);
  }

  lemma CompleteTest(f: seq<nat>, i: nat)
    requires |f| == 16 && i <= 15
    ensures First(f, i + 1) == Pow2(i + 2) <==> Weight(f, i + 1) == 65536
  {
    OverflowTest(f, i);
  }

  lemma {:induction false} SymsSnoc(ls: seq<nat>, l: nat, b: nat)
    ensures Syms(ls + [l], b) == Syms(ls, b) + (if l == b then [|ls|] else [])
  {
    assert (ls + [l])[..|ls|] == ls;
  }

  /** `Weight` and `Cum` of the plain symbol counts. */
  function CountWeight(ls: seq<nat>, i: nat): nat
    requires i <= 16
  {
    if i == 0 then 0 else CountWeight(ls, i - 1) + Shl(|Syms(ls, i)|, 16 - i)
  }

  function CountCum(ls: seq<nat>, i: nat): nat {
    if i == 0 then 0 else CountCum(ls, i - 1) + |Syms(ls, i)|
  }

  lemma {:induction false} CountSnoc(ls: seq<nat>, l: nat, i: nat)
    requires i <= 16
    ensures CountWeight(ls + [l], i) == CountWeight(ls, i) + (if 0 < l <= i then Pow2(16 - l) else 0)
    ensures CountCum(ls + [l], i) == CountCum(ls, i) + (if 0 < l <= i then 1 else 0)
  {
    if i > 0 {
      CountSnoc(ls, l, i - 1);
      SymsSnoc(ls, l, i);
      ShlAdd(|Syms(ls, i)|, 1, 16 - i);
    }
  }

  lemma {:induction false} CountEmpty(i: nat)
    requires i <= 16
    ensures CountWeight([], i) == 0 && CountCum([], i) == 0
  {
    if i > 0 {
      CountEmpty(i - 1);
      ShlAdd(0, 0, 16 - i);
    }
  }

  lemma {:induction false} KraftIsCountWeight(ls: seq<nat>, i: nat)
    requires ValidLengths(ls) && i == 16
    ensures Kraft(ls) == CountWeight(ls, i) && CountCum(ls, i) <= |ls|
  {
    if ls == [] {
      CountEmpty(i);
    } else {
      var n := |ls| - 1;
      KraftIsCountWeight(ls[..n], i);
      CountSnoc(ls[..n], ls[n], i);
      assert ls == ls[..n] + [ls[n]];
    }
  }

  lemma {:induction false} CountIsFreqs(ls: seq<nat>, i: nat)
    requires !Unused(ls) && i <= 16
    ensures Weight(Freqs(ls), i) == CountWeight(ls, i) && Cum(Freqs(ls), i) == CountCum(ls, i)
  {
    if i > 0 { CountIsFreqs(ls, i - 1); }
  }

  lemma {:induction false} WeightOfTail(f: seq<nat>, i: nat)
    requires |f| == 16 && 1 <= i <= 16 && forall k :: 1 <= k < 16 ==> f[k] == 0
    ensures Weight(f, i) == Weight(f, 1)
  {
    if i > 1 {
      WeightOfTail(f, i - 1);
      ShlAdd(0, 0, 16 - i);
    }
  }

  /** The total weight is the Kraft sum; an unused alphabet is complete by construction. */
  lemma TotalWeight(ls: seq<nat>)
    requires ValidLengths(ls)
    ensures Weight(Freqs(ls), |Freqs(ls)|) == if Unused(ls) then 65536 else Kraft(ls)
    ensures !Unused(ls) ==> Cum(Freqs(ls), |Freqs(ls)|) <= |ls|
  {
    if Unused(ls) {
      Pow2Values();
      ShlShl(1, 1, 15);
      WeightOfTail(Freqs(ls), |Freqs(ls)|);
    } else {
      CountIsFreqs(ls, |Freqs(ls)|);
      KraftIsCountWeight(ls, |Freqs(ls)|);
    }
  }

  lemma {:induction false} SymsUnused(ls: seq<nat>, b: nat)
    requires Unused(ls) && b > 0
    ensures Syms(ls, b) == []
  {
    if ls != [] { SymsUnused(ls[..|ls| - 1], b); }
  }

  /** Symbol `s` is entry number `|Syms(ls[..s], b)|` among the symbols of its length. */
  lemma {:induction false} RankOf(ls: seq<nat>, s: nat)
    requires s < |ls|
    ensures |Syms(ls[..s], ls[s])| < |Syms(ls, ls[s])|
    ensures Syms(ls, ls[s])[|Syms(ls[..s], ls[s])|] == s
    decreases |ls|
  {
    var n := |ls| - 1;
    if s < n {
      RankOf(ls[..n], s);
      assert ls[..n][..s] == ls[..s];
    }
  }

  lemma {:induction false} SymsOf(ls: seq<nat>, b: nat, j: nat)
    requires j < |Syms(ls, b)|
    ensures Syms(ls, b)[j] < |ls| && ls[Syms(ls, b)[j]] == b
    ensures |Syms(ls[..Syms(ls, b)[j]], b)| == j
    decreases |ls|
  {
    var n := |ls| - 1;
    if j < |Syms(ls[..n], b)| {
      SymsOf(ls[..n], b, j);
      assert ls[..n][..Syms(ls, b)[j]] == ls[..Syms(ls, b)[j]];
    }
  }

  lemma {:induction false} SymsPrefix(ls: seq<nat>, k: nat, b: nat)
    requires k <= |ls|
    ensures |Syms(ls[..k], b)| <= |Syms(ls, b)|
    decreases |ls|
  {
    if k < |ls| {
      var n := |ls| - 1;
      SymsPrefix(ls[..n], k, b);
      assert ls[..n][..k] == ls[..k];
    } else {
      assert ls[..k] == ls;
    }
  }

  /** A window that starts with the code of `s` lies between the start of its set and of the next. */
  lemma WindowOfSymbol(ls: seq<nat>, v: nat, s: nat)
    requires ValidLengths(ls) && StartsWith(ls, v, s)
    ensures Weight(Freqs(ls), ls[s] - 1) <= v < Weight(Freqs(ls), ls[s])
  {
    var f, i := Freqs(ls), ls[s] - 1;
    RankOf(ls, s);
    InSet(f, v, i);
  }

  /** No two codes start the same window: the code is prefix-free. */
  lemma PrefixFree(ls: seq<nat>, v: nat, s: nat, t: nat)
    requires ValidLengths(ls) && StartsWith(ls, v, s) && StartsWith(ls, v, t)
    ensures s == t
  {
    var f := Freqs(ls);
    WindowOfSymbol(ls, v, s);
    WindowOfSymbol(ls, v, t);
    assert ls[s] == ls[t] by {
      if ls[s] < ls[t] { WeightMonotone(f, ls[s], ls[t] - 1); }
      if ls[t] < ls[s] { WeightMonotone(f, ls[t], ls[s] - 1); }
    }
    RankOf(ls, s);
    RankOf(ls, t);
  }

  /** Canonical order: shorter codes come before longer ones, and those of one length are in the order of their symbols. */
  lemma CanonicalOrder(ls: seq<nat>, v: nat, s: nat, w: nat, t: nat)
    requires ValidLengths(ls) && StartsWith(ls, v, s) && StartsWith(ls, w, t)
    requires ls[s] < ls[t] || (ls[s] == ls[t] && s < t)
    ensures v < w
  {
    hide Weight, First, Shl, Shr, Freqs;
    if ls[s] < ls[t] {
      WindowOfSymbol(ls, v, s);
      WindowOfSymbol(ls, w, t);
      WeightMonotone(Freqs(ls), ls[s], ls[t] - 1);
    } else {
      var k := 16 - ls[s];
      assert ls[..t][..s] == ls[..s];
      RankOf(ls[..t], s);
      ShrWithin(v, k, Code(ls, s), Code(ls, t));
      ShrWithin(w, k, Code(ls, t), Code(ls, t) + 1);
    }
  }

  /** `i` is the last of the first `n` sets whose start is at most `v`. */
  ghost predicate LastBelow(f: seq<nat>, n: nat, v: nat, i: nat)
    requires |f| == 16 && n <= 16
  {
    i < n && Weight(f, i) <= v && forall j :: i < j < n ==> Weight(f, j) > v
  }

  lemma RankOfWindow(ls: seq<nat>, v: nat, i: nat)
    requires ValidLengths(ls) && !Unused(ls) && Kraft(ls) == 65536 && v < 65536
    requires LastBelow(Freqs(ls), 16, v, i)
    ensures 0 <= Shr(v, 15 - i) - First(Freqs(ls), i) < |Syms(ls, i + 1)|
  {
    var f := Freqs(ls);
    assert v < Weight(f, i + 1) by { TotalWeight(ls); }
    InSet(f, v, i);
  }

  /** Every window falls on a symbol of the last set that starts at or before it. */
  lemma SlotOfWindow(ls: seq<nat>, v: nat, i: nat)
    requires ValidLengths(ls) && !Unused(ls) && Kraft(ls) == 65536 && v < 65536
    requires LastBelow(Freqs(ls), 16, v, i)
    ensures var k := Shr(v, 15 - i) - First(Freqs(ls), i);
      0 <= k < |Syms(ls, i + 1)| && var s := Syms(ls, i + 1)[k]; StartsWith(ls, v, s) && ls[s] == i + 1
  {
    RankOfWindow(ls, v, i);
    SymsOf(ls, i + 1, Shr(v, 15 - i) - First(Freqs(ls), i));
  }

  /** Every window starts with the code of exactly one symbol. */
  lemma DecodeInvertsEncode(ls: seq<nat>, v: nat)
    requires ValidLengths(ls) && !Unused(ls) && Kraft(ls) == 65536 && v < 65536
    ensures exists s :: StartsWith(ls, v, s) && forall t :: StartsWith(ls, v, t) ==> t == s
  {
    hide Freqs, Syms, First, Kraft, Unused, Code, Shr, Weight;
    var f := Freqs(ls);
    var i := LastSet(f, v, |f| - 1);
    SlotOfWindow(ls, v, i);
    var s := Syms(ls, i + 1)[Shr(v, 15 - i) - First(f, i)];
    forall t | StartsWith(ls, v, t) ensures t == s { PrefixFree(ls, v, s, t); }
  }

  /** A length table with a complete code. */
  predicate Complete(ls: seq<nat>) {
    ValidLengths(ls) && !Unused(ls) && Kraft(ls) == 65536
  }

  /** A length table an alphabet can be built for: complete, or without symbols. */
  predicate Built(ls: seq<nat>) {
    ValidLengths(ls) && (Unused(ls) || Kraft(ls) == 65536)
  }

  /** The one symbol whose code starts the window; an alphabet without symbols always gives symbol 0. */
  ghost function Symbol(ls: seq<nat>, v: nat): (s: nat)
    requires Built(ls) && v < 65536
    ensures !Unused(ls) ==> StartsWith(ls, v, s) && 0 < ls[s] <= 16
    ensures Unused(ls) ==> s == 0
  {
    if Unused(ls) then 0 else
      DecodeInvertsEncode(ls, v);
      var s: nat :| StartsWith(ls, v, s);
      s
  }

  /** The number of bits the decoder takes; an alphabet without symbols has one-bit codes. */
  ghost function CodeLength(ls: seq<nat>, v: nat): (n: nat)
    requires Built(ls) && v < 65536
    ensures 0 < n <= 16
  {
    if Unused(ls) then 1 else ls[Symbol(ls, v)]
  }

  function LastSet(f: seq<nat>, v: nat, i: nat): (r: nat)
    requires |f| == 16 && i < 16
    ensures LastBelow(f, i + 1, v, r)
  {
    if Weight(f, i) <= v then i else LastSet(f, v, i - 1)
  }

  // ---------------------------------------------------------------- the tables

  /** A set of symbols of one length; `raw` is the raw-table pointer, as an index. */
  datatype SymbolSet = SymbolSet(bits: nat, shift: nat, freq: nat, start: nat, raw: int)

  const QL_SIZE := 128
  const QL_DIV := 512

  ghost predicate Populated(f: seq<nat>, i: nat, sym: SymbolSet)
    requires |f| == 16 && i < 16
  {
    sym.bits == i + 1 && sym.shift == 15 - i && sym.freq == f[i] && sym.start == Weight(f, i)
  }

  /** The first `n` sets are populated; the others hold their counts. */
  ghost predicate PopulatedUpTo(f: seq<nat>, huf: seq<SymbolSet>, n: nat)
    requires |f| == 16 && n <= 16
  {
    && |huf| == 16
    && (forall i :: 0 <= i < n ==> Populated(f, i, huf[i]) && huf[i].raw == Cum(f, i))
    && (forall i :: n <= i < 16 ==> huf[i].freq == f[i])
  }

  lemma PopulateStep(f: seq<nat>, huf: seq<SymbolSet>, n: nat, sym: SymbolSet)
    requires |f| == 16 && n < 16 && PopulatedUpTo(f, huf, n)
    requires Populated(f, n, sym) && sym.raw == Cum(f, n)
    ensures PopulatedUpTo(f, huf[n := sym], n + 1)
  {
  }

  /** The populated sets of `ls` with raw pointers `base`. */
  ghost predicate Sets(ls: seq<nat>, huf: seq<SymbolSet>, base: seq<int>) {
    |huf| == |base| == 16 &&
    forall i :: 0 <= i < 16 ==> Populated(Freqs(ls), i, huf[i]) && huf[i].raw == base[i]
  }

  ghost function SegmentBase(ls: seq<nat>): (r: seq<int>) ensures |r| == 16 {
    seq(16, i requires 0 <= i < 16 => Cum(Freqs(ls), i))
  }

  ghost function PlacedBase(ls: seq<nat>, k: nat): (r: seq<int>) requires k <= |ls| ensures |r| == 16 {
    seq(16, i requires 0 <= i < 16 => Cum(Freqs(ls), i) + |Syms(ls[..k], i + 1)|)
  }

  /** Biased so that a code indexes the raw table directly. */
  ghost function BiasedBase(ls: seq<nat>): (r: seq<int>) ensures |r| == 16 {
    seq(16, i requires 0 <= i < 16 => Cum(Freqs(ls), i) + |Syms(ls, i + 1)| - Freqs(ls)[i] - First(Freqs(ls), i))
  }

  /** `i` is the last of the first `n` sets whose start has at most the prefix `p`. */
  ghost predicate QuickSet(f: seq<nat>, n: nat, p: nat, i: nat)
    requires |f| == 16 && n <= 16
  {
    i < n && Weight(f, i) / QL_DIV <= p && forall j :: i < j < n ==> Weight(f, j) / QL_DIV > p
  }

  /** `lookup[p]` is the last of the first `n` sets whose start falls at or before prefix `p`. */
  ghost predicate LookupUpTo(f: seq<nat>, lookup: seq<nat>, n: nat)
    requires |f| == 16 && n <= 16
  {
    && |lookup| == QL_SIZE
    && forall p :: 0 <= p < QL_SIZE ==> QuickSet(f, n, p, lookup[p])
  }

  ghost predicate Holds(raw: seq<nat>, at: nat, syms: seq<nat>) {
    at + |syms| <= |raw| && raw[at..at + |syms|] == syms
  }

  /** The symbols below `k` of length `i + 1` are in place in segment `i` of the raw table. */
  ghost predicate SegmentUpTo(ls: seq<nat>, raw: seq<nat>, k: nat, i: nat)
    requires k <= |ls| && i < 16
  {
    Holds(raw, Cum(Freqs(ls), i), Syms(ls[..k], i + 1))
  }

  ghost predicate RawUpTo(ls: seq<nat>, raw: seq<nat>, k: nat)
    requires k <= |ls|
  {
    forall i :: 0 <= i < 16 ==> SegmentUpTo(ls, raw, k, i)
  }

  lemma RawStart(ls: seq<nat>, raw: seq<nat>)
    requires ValidLengths(ls) && |raw| == |ls| && !Unused(ls)
    ensures RawUpTo(ls, raw, 0)
  {
    TotalWeight(ls);
    assert ls[..0] == [];
    forall i | 0 <= i < 16 ensures SegmentUpTo(ls, raw, 0, i) { WeightMonotone(Freqs(ls), i, |Freqs(ls)|); }
  }

  lemma PlacedStart(ls: seq<nat>)
    ensures PlacedBase(ls, 0) == SegmentBase(ls)
  {
    assert ls[..0] == [];
  }

  /** The slot for symbol `r` is inside the table, past the part of its own segment filled so far. */
  lemma SlotOf(ls: seq<nat>, r: nat)
    requires r < |ls| && ValidLengths(ls) && ls[r] > 0
    ensures Cum(Freqs(ls), ls[r] - 1) + |Syms(ls[..r], ls[r])| < Cum(Freqs(ls), ls[r]) <= |ls|
  {
    RankOf(ls, r);
    TotalWeight(ls);
    WeightMonotone(Freqs(ls), ls[r], |Freqs(ls)|);
  }

  /** Placing symbol `r` extends its own segment and leaves the others alone. */
  lemma RawStep(ls: seq<nat>, raw: seq<nat>, r: nat, i: nat, at: nat)
    requires r < |ls| == |raw| && ValidLengths(ls) && ls[r] > 0 && i < 16
    requires at == Cum(Freqs(ls), ls[r] - 1) + |Syms(ls[..r], ls[r])|
    requires at < Cum(Freqs(ls), ls[r]) && at < |raw|
    requires SegmentUpTo(ls, raw, r, i)
    ensures Holds(raw[at := r], Cum(Freqs(ls), i), Syms(ls[..r], i + 1) + (if ls[r] == i + 1 then [r] else []))
  {
    hide Holds, Freqs, Syms, Cum, Unused;
    if i + 1 != ls[r] {
      RawElsewhere(ls, raw, r, i, at);
    } else {
      UpdateAtEnd(raw, Cum(Freqs(ls), i), Syms(ls[..r], i + 1), r);
    }
  }

  lemma RawElsewhere(ls: seq<nat>, raw: seq<nat>, r: nat, i: nat, at: nat)
    requires r < |ls| == |raw| && ls[r] > 0 && ls[r] <= 16 && i < 16 && i + 1 != ls[r]
    requires at == Cum(Freqs(ls), ls[r] - 1) + |Syms(ls[..r], ls[r])| < Cum(Freqs(ls), ls[r]) && at < |raw|
    requires SegmentUpTo(ls, raw, r, i)
    ensures Holds(raw[at := r], Cum(Freqs(ls), i), Syms(ls[..r], i + 1) + [])
  {
    assert !Unused(ls);
    hide Holds, Freqs, Syms, Cum, Unused;
    var base, syms := Cum(Freqs(ls), i), Syms(ls[..r], i + 1);
    SegmentsApart(ls, r, i, ls[r] - 1);
    UpdateOutside(raw, base, syms, at, r);
    assert syms + [] == syms;
  }

  lemma UpdateOutside(raw: seq<nat>, base: nat, syms: seq<nat>, at: nat, r: nat)
    requires Holds(raw, base, syms) && at < |raw| && (at < base || base + |syms| <= at)
    ensures Holds(raw[at := r], base, syms)
  {
  }

  lemma UpdateAtEnd(raw: seq<nat>, base: nat, syms: seq<nat>, r: nat)
    requires Holds(raw, base, syms) && base + |syms| < |raw|
    ensures Holds(raw[base + |syms| := r], base, syms + [r])
  {
  }

  lemma RawStepAll(ls: seq<nat>, raw: seq<nat>, r: nat, at: nat)
    requires r < |ls| == |raw| && ValidLengths(ls) && ls[r] > 0
    requires at == Cum(Freqs(ls), ls[r] - 1) + |Syms(ls[..r], ls[r])|
    requires at < Cum(Freqs(ls), ls[r]) && at < |raw|
    requires RawUpTo(ls, raw, r)
    ensures RawUpTo(ls, raw[at := r], r + 1)
  {
    var k := r + 1;
    var after := raw[at := r];
    assert ls[..k] == ls[..r] + [ls[r]];
    forall i | 0 <= i < 16 ensures SegmentUpTo(ls, after, k, i) {
      RawStep(ls, raw, r, i, at);
      SymsSnoc(ls[..r], ls[r], i + 1);
    }
  }

  /** Looking at one more symbol moves the raw pointer of its own set only. */
  lemma PlacedStep(ls: seq<nat>, r: nat)
    requires r < |ls|
    ensures forall i :: 0 <= i < 16 ==>
      PlacedBase(ls, r + 1)[i] == PlacedBase(ls, r)[i] + if ls[r] == i + 1 then 1 else 0
    ensures ls[r] == 0 ==> forall raw :: RawUpTo(ls, raw, r) ==> RawUpTo(ls, raw, r + 1)
  {
    var k := r + 1;
    assert ls[..k] == ls[..r] + [ls[r]];
    forall i | 0 <= i < 16
      ensures PlacedBase(ls, k)[i] == PlacedBase(ls, r)[i] + if ls[r] == i + 1 then 1 else 0
    {
      SymsSnoc(ls[..r], ls[r], i + 1);
    }
    if ls[r] == 0 {
      forall raw, i | RawUpTo(ls, raw, r) && 0 <= i < 16 ensures SegmentUpTo(ls, raw, k, i) {
        assert SegmentUpTo(ls, raw, r, i);
        SymsSnoc(ls[..r], ls[r], i + 1);
      }
    }
  }

  lemma SegmentsApart(ls: seq<nat>, r: nat, i: nat, j: nat)
    requires r <= |ls| && i < 16 && j < 16 && i != j && !Unused(ls)
    ensures i < j ==> Cum(Freqs(ls), i) + |Syms(ls[..r], i + 1)| <= Cum(Freqs(ls), j)
    ensures j < i ==> Cum(Freqs(ls), j + 1) <= Cum(Freqs(ls), i)
  {
    SymsPrefix(ls, r, i + 1);
    if i < j { WeightMonotone(Freqs(ls), i + 1, j); } else { WeightMonotone(Freqs(ls), j + 1, i); }
  }

  lemma FirstFromStart(f: seq<nat>, i: nat)
    requires |f| == 16 && i < 16
    ensures Shr(Weight(f, i), 15 - i) == First(f, i)
  {
    FirstIsWeight(f, i);
    ShlCompare(First(f, i), First(f, i) + 1, 15 - i);
    ShrWithin(Weight(f, i), 15 - i, First(f, i), First(f, i) + 1);
  }

  lemma LookupStep(f: seq<nat>, before: seq<nat>, after: seq<nat>, i: nat)
    requires |f| == 16 && i <= 15 && |before| == |after| == QL_SIZE
    requires i > 0 ==> LookupUpTo(f, before, i)
    requires forall p :: 0 <= p < QL_SIZE ==>
      after[p] == if Weight(f, i) / QL_DIV <= p then i else before[p]
    ensures LookupUpTo(f, after, i + 1)
  {
    forall p | 0 <= p < QL_SIZE ensures QuickSet(f, i + 1, p, after[p]) {
      assert i > 0 ==> QuickSet(f, i, p, before[p]);
    }
  }

  class Alphabet {
    var huf: seq<SymbolSet>
    var lookup: seq<nat>
    var raw: seq<nat>

    constructor (count: nat)
      ensures |lookup| == QL_SIZE && |raw| == count
    {
      huf := seq(16, _ => SymbolSet(0, 0, 0, 0, 0));
      lookup := seq(QL_SIZE, _ => 0);
      raw := seq(count, _ => 0);
    }

    /** The tables are exactly those of the canonical code of `ls`. */
    ghost predicate Describes(ls: seq<nat>)
      reads this
    {
      && Sets(ls, huf, BiasedBase(ls))
      && LookupUpTo(Freqs(ls), lookup, 16)
      && (!Unused(ls) ==> RawUpTo(ls, raw, |ls|))
    }

    /** huffman_alphabet: succeeds exactly on unused alphabets and on Kraft equality. */
    method Build(lengths: seq<nat>) returns (ok: bool)
      requires ValidLengths(lengths) && |lookup| == QL_SIZE && |raw| == |lengths|
      modifies this
      ensures ok <==> Unused(lengths) || Kraft(lengths) == 65536
      ensures ok ==> Describes(lengths)
      ensures |lookup| == QL_SIZE && |raw| == |lengths|
    {
      TotalWeight(lengths);
      CountSymbols(lengths);
      var complete;
      ok, complete := PopulateSets(lengths);
      if ok {
        PlaceSymbols(lengths);
        FillLookup(lengths);
        ok := complete;
      }
    }

    /** First pass of huffman_alphabet: count the symbols of each length. */
    method CountSymbols(lengths: seq<nat>)
      requires ValidLengths(lengths)
      modifies this`huf
      ensures |huf| == 16 && forall i :: 0 <= i < 16 ==> huf[i].freq == Freqs(lengths)[i]
    {
      huf := seq(16, _ => SymbolSet(0, 0, 0, 0, 0));
      var empty := true;
      for r := 0 to |lengths|
        invariant |huf| == 16
        invariant forall i :: 0 <= i < 16 ==> huf[i].freq == |Syms(lengths[..r], i + 1)|
        invariant empty <==> Unused(lengths[..r])
      {
        var bits := lengths[r];
        assert lengths[..r + 1] == lengths[..r] + [bits];
        if bits != 0 {
          assert lengths[..r + 1][r] == bits;
          huf := huf[bits - 1 := huf[bits - 1].(freq := huf[bits - 1].freq + 1)];
          empty := false;
        }
        forall i | 0 <= i < 16 ensures huf[i].freq == |Syms(lengths[..r + 1], i + 1)| {
          SymsSnoc(lengths[..r], bits, i + 1);
        }
      }
      assert lengths[..|lengths|] == lengths;
      if empty {
        forall i | 0 <= i < 16 ensures huf[i].freq == 0 {
          SymsUnused(lengths, i + 1);
        }
        huf := huf[0 := huf[0].(freq := 2)];
      }
    }

    /** Second pass: starts, shifts and raw pointers; fails when some length is over-subscribed. */
    method PopulateSets(lengths: seq<nat>) returns (ok: bool, complete: bool)
      requires ValidLengths(lengths)
      requires |huf| == 16 && forall i :: 0 <= i < 16 ==> huf[i].freq == Freqs(lengths)[i]
      modifies this`huf
      ensures ok <==> Weight(Freqs(lengths), |Freqs(lengths)|) <= 65536
      ensures ok ==> (complete <==> Weight(Freqs(lengths), |Freqs(lengths)|) == 65536)
      ensures ok ==> Sets(lengths, huf, SegmentBase(lengths))
    {
      ghost var f := Freqs(lengths);
      var code, cum := 0, 0;
      for bits := 1 to 17
        invariant code == First(f, bits - 1) && cum == Cum(f, bits - 1)
        invariant Weight(f, bits - 1) <= 65536
        invariant PopulatedUpTo(f, huf, bits - 1)
      {
        var freq := huf[bits - 1].freq;
        var start := Shl(code, 16 - bits);
        assert start == Weight(f, bits - 1) by { FirstIsWeight(f, bits - 1); }
        PopulateStep(f, huf, bits - 1, SymbolSet(bits, 16 - bits, freq, start, cum));
        huf := huf[bits - 1 := SymbolSet(bits, 16 - bits, freq, start, cum)];
        code := code + freq;
        OverflowTest(f, bits - 1);
        if code > Pow2(bits) {
          WeightMonotone(f, bits, |f|);
          return false, false;
        }
        code := 2 * code;
        cum := cum + freq;
      }
      CompleteTest(f, |f| - 1);
      return true, code == Pow2(17);
    }

    /** Third pass: write each used symbol through its set's raw pointer. */
    method PlaceSymbols(lengths: seq<nat>)
      requires ValidLengths(lengths) && |raw| == |lengths|
      requires Sets(lengths, huf, SegmentBase(lengths))
      modifies this`huf, this`raw
      ensures Sets(lengths, huf, PlacedBase(lengths, |lengths|)) && |raw| == |lengths|
      ensures !Unused(lengths) ==> RawUpTo(lengths, raw, |lengths|)
    {
      hide RawUpTo, Kraft, Weight, Cum;
      if !Unused(lengths) { RawStart(lengths, raw); }
      assert PlacedBase(lengths, 0) == SegmentBase(lengths) by { PlacedStart(lengths); }
      for r := 0 to |lengths|
        invariant |raw| == |lengths| && Sets(lengths, huf, PlacedBase(lengths, r))
        invariant !Unused(lengths) ==> RawUpTo(lengths, raw, r)
      {
        var bits := lengths[r];
        PlacedStep(lengths, r);
        if bits != 0 {
          var at := huf[bits - 1].raw;
          SlotOf(lengths, r);
          RawStepAll(lengths, raw, r, at);
          raw := raw[at := r];
          huf := huf[bits - 1 := huf[bits - 1].(raw := at + 1)];
        }
      }
    }

    /** Last pass: reset and bias the raw pointers, fill the quick lookup table. */
    method FillLookup(lengths: seq<nat>)
      requires ValidLengths(lengths) && |lookup| == QL_SIZE
      requires Sets(lengths, huf, PlacedBase(lengths, |lengths|))
      modifies this`huf, this`lookup
      ensures LookupUpTo(Freqs(lengths), lookup, 16) && Sets(lengths, huf, BiasedBase(lengths))
    {
      hide LookupUpTo, Weight, Cum, Kraft, Syms;
      ghost var f := Freqs(lengths);
      assert lengths[..|lengths|] == lengths;
      for bits := 1 to 17
        invariant |huf| == 16 && |lookup| == QL_SIZE
        invariant bits > 1 ==> LookupUpTo(f, lookup, bits - 1)
        invariant forall i :: 0 <= i < 16 ==> Populated(f, i, huf[i])
        invariant forall i :: 0 <= i < bits - 1 ==> huf[i].raw == BiasedBase(lengths)[i]
        invariant forall i :: bits - 1 <= i < 16 ==> huf[i].raw == PlacedBase(lengths, |lengths|)[i]
      {
        var sym := huf[bits - 1];
        FirstFromStart(f, bits - 1);
        var adjustment := Shr(sym.start, sym.shift);
        huf := huf[bits - 1 := sym.(raw := sym.raw - sym.freq - adjustment)];
        FillPrefixes(f, bits - 1, sym.start);
      }
    }

    /** The inner loop: every prefix from the set's start on is sent to the set. */
    method FillPrefixes(ghost f: seq<nat>, i: nat, start: nat)
      requires |f| == 16 && i <= 15 && start == Weight(f, i) && |lookup| == QL_SIZE
      requires i > 0 ==> LookupUpTo(f, lookup, i)
      modifies this`lookup
      ensures LookupUpTo(f, lookup, i + 1)
    {
      var from := start / QL_DIV;
      var prefix := from;
      while prefix < QL_SIZE
        invariant from <= prefix && |lookup| == QL_SIZE
        invariant forall p :: 0 <= p < QL_SIZE ==> lookup[p] == if from <= p < prefix then i else old(lookup)[p]
      {
        lookup := lookup[prefix := i];
        prefix := prefix + 1;
      }
      LookupStep(f, old(lookup), lookup, i);
    }

    /** huffman_sym: the quick lookup and the backward walk find the last set starting at or before `v`. */
    method Sym(ghost ls: seq<nat>, v: nat) returns (i: nat)
      requires Describes(ls) && v < 65536
      ensures LastBelow(Freqs(ls), 16, v, i)
    {
      hide Freqs, BiasedBase, RawUpTo;
      ghost var f := Freqs(ls);
      i := lookup[v / QL_DIV];
      assert QuickSet(f, 16, v / QL_DIV, i);
      while v < huf[i].start
        decreases i
        invariant i < 16 && huf[i].start == Weight(f, i) && forall j :: i < j < 16 ==> Weight(f, j) > v
      {
        assert Weight(f, 0) == 0;
        i := i - 1;
        assert Populated(f, i, huf[i]);
      }
    }

    /**
     * The raw table at an index. The table follows the lookup table in memory, so the two entries
     * before it are the last four bytes of that table.
     */
    function RawAt(k: int): nat
      reads this
      requires |lookup| == QL_SIZE && -2 <= k < |raw|
    {
      if k >= 0 then raw[k] else lookup[QL_SIZE + 2 * k] + 256 * lookup[QL_SIZE + 2 * k + 1]
    }

    /** huffman_sym, huffman_len and huffman_raw together: the symbol whose code starts `v`. */
    method Decode(ghost ls: seq<nat>, v: nat) returns (s: nat, len: nat)
      requires Built(ls) && Describes(ls) && v < 65536
      ensures s == Symbol(ls, v) && len == CodeLength(ls, v)
      ensures !Unused(ls) ==> StartsWith(ls, v, s) && len == ls[s]
    {
      hide Kraft, First, Weight, Shr, Syms;
      var i := Sym(ls, v);
      if Unused(ls) {
        UnusedSets(this, ls, v, i);
      } else {
        SlotOfWindow(ls, v, i);
        assert Populated(Freqs(ls), i, huf[i]) && SegmentUpTo(ls, raw, |ls|, i);
        assert ls[..|ls|] == ls;
        assert raw[huf[i].raw + Shr(v, huf[i].shift)] == Syms(ls, i + 1)[Shr(v, 15 - i) - First(Freqs(ls), i)];
        PrefixFree(ls, v, Syms(ls, i + 1)[Shr(v, 15 - i) - First(Freqs(ls), i)], Symbol(ls, v));
      }
      len := huf[i].bits;
      s := RawAt(huf[i].raw + Shr(v, huf[i].shift));
    }
  }

  /** Without symbols every window falls in the first set, whose raw pointer is two entries before the table. */
  lemma UnusedSets(a: Alphabet, ls: seq<nat>, v: nat, i: nat)
    requires ValidLengths(ls) && Unused(ls) && a.Describes(ls) && v < 65536 && LastBelow(Freqs(ls), 16, v, i)
    ensures i == 0 && a.huf[0].bits == 1 && a.huf[0].shift == 15 && a.huf[0].raw == -2 && Shr(v, 15) < 2
    ensures forall p :: 0 <= p < QL_SIZE ==> a.lookup[p] == 0
  {
    var f := Freqs(ls);
    UnusedStart(ls, i);
    assert Populated(f, 0, a.huf[0]);
    SymsUnused(ls, 1);
    forall p | 0 <= p < QL_SIZE ensures a.lookup[p] == 0 {
      assert QuickSet(f, 16, p, a.lookup[p]);
      UnusedStart(ls, a.lookup[p]);
    }
    HalfWindow(v);
  }

  lemma HalfWindow(v: nat)
    requires v < 65536
    ensures Shr(v, 15) < 2
  {
    hide Shr, Shl;
    assert Shl(2, 15) == 65536 by { Pow2Values(); ShlShl(1, 1, 15); }
    assert Shl(0, 15) == 0 by { ShlAdd(0, 0, 15); }
    ShrWithin(v, 15, 0, 2);
  }

  /** Without symbols every set but the first starts past the last window. */
  lemma UnusedStart(ls: seq<nat>, i: nat)
    requires Unused(ls) && i < 16
    ensures i > 0 ==> Weight(Freqs(ls), i) == 65536
  {
    if i > 0 {
      Pow2Values();
      ShlShl(1, 1, 15);
      WeightOfTail(Freqs(ls), i);
    }
  }
}
