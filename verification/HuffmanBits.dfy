/** Canonical codes as bit strings. */
module HuffmanBits {
  import opened Bytes
  import opened Bits
  import opened Huffman

  /** The symbol has a code. */
  predicate Used(ls: seq<nat>, s: nat) {
    s < |ls| && ls[s] > 0
  }

  /** The canonical code of a symbol as a bit string. */
  function CodeBits(ls: seq<nat>, s: nat): (r: seq<bit>)
    requires ValidLengths(ls) && s < |ls| && ls[s] > 0
    ensures |r| == ls[s]
  {
    ToBits(Code(ls, s), ls[s])
  }

  lemma CodeFits(ls: seq<nat>, s: nat)
    requires Complete(ls) && s < |ls| && ls[s] > 0
    ensures Code(ls, s) < Pow2(ls[s])
  {
    hide Kraft, Unused, Freqs, Shl, First, Weight;
    var f, i := Freqs(ls), ls[s] - 1;
    TotalWeight(ls);
    WeightMonotone(f, ls[s], |f|);
    OverflowTest(f, i);
    SetSize(ls, s);
  }

  lemma SetSize(ls: seq<nat>, s: nat)
    requires ValidLengths(ls) && s < |ls| && ls[s] > 0
    ensures |Syms(ls[..s], ls[s])| < Freqs(ls)[ls[s] - 1]
  {
    RankOf(ls, s);
  }

  /** Any 16 bits or more that start with the code of a symbol decode to that symbol. */
  lemma SymbolOfWindow(ls: seq<nat>, s: nat, q: seq<bit>)
    requires Built(ls) && Used(ls, s) && |q| >= 16
    requires q[..ls[s]] == CodeBits(ls, s)
    ensures Symbol(ls, Window(q)) == s && CodeLength(ls, Window(q)) == ls[s]
  {
    assert !Unused(ls);
    hide Kraft, Unused, Symbol, StartsWith, Window;
    StartsWindow(ls, s, q);
    PrefixFree(ls, Window(q), s, Symbol(ls, Window(q)));
  }

  lemma StartsWindow(ls: seq<nat>, s: nat, q: seq<bit>)
    requires Complete(ls) && Used(ls, s) && |q| >= 16 && q[..ls[s]] == CodeBits(ls, s)
    ensures StartsWith(ls, Window(q), s)
  {
    hide Kraft, Unused, Code, Number, Shl, Shr, ToBits;
    var n, w := ls[s], q[..16];
    assert w[..n] == CodeBits(ls, s);
    assert w == w[..n] + w[n..];
    NumberAppend(w[..n], w[n..]);
    NumberBound(w[n..]);
    CodeFits(ls, s);
    NumberOfBits(Code(ls, s), n);
    Split(Code(ls, s), Number(w[n..]), 16 - n);
  }
}
