/** Bit fields of numbers, and the bit queues the two Huffman readers work on. */
module Bits {
  import opened Bytes

  /** The `k` low bits of a number. */
  function Low(v: nat, k: nat): (r: nat)
    ensures v == Shl(Shr(v, k), k) + r && r < Pow2(k)
  {
    LowBound(v, k);
    v - Shl(Shr(v, k), k)
  }

  lemma LowBound(v: nat, k: nat)
    ensures Shl(Shr(v, k), k) <= v < Shl(Shr(v, k), k) + Pow2(k)
  {
    ShrWithin(v, k, Shr(v, k), Shr(v, k) + 1);
    ShlAdd(Shr(v, k), 1, k);
  }

  /** A number is determined by its high and low parts. */
  lemma Split(a: nat, b: nat, k: nat)
    requires b < Pow2(k)
    ensures Shr(Shl(a, k) + b, k) == a && Low(Shl(a, k) + b, k) == b
  {
    ShlAdd(a, 1, k);
    ShrWithin(Shl(a, k) + b, k, a, a + 1);
  }

  type bit = x: int | 0 <= x < 2

  /** The value of a bit string, most significant bit first. */
  function Number(q: seq<bit>): nat {
    if q == [] then 0 else 2 * Number(q[..|q| - 1]) + q[|q| - 1]
  }

  /** The `k` low bits of a number as a bit string. */
  function ToBits(v: nat, k: nat): (r: seq<bit>)
    ensures |r| == k
    decreases k
  {
    if k == 0 then [] else ToBits(v / 2, k - 1) + [v % 2]
  }

  lemma {:induction false} NumberOfBits(v: nat, k: nat)
    requires v < Pow2(k)
    ensures Number(ToBits(v, k)) == v
    decreases k
  {
    if k > 0 {
      NumberOfBits(v / 2, k - 1);
      assert ToBits(v, k)[..k - 1] == ToBits(v / 2, k - 1);
    }
  }

  lemma {:induction false} BitsOfNumber(q: seq<bit>)
    ensures ToBits(Number(q), |q|) == q
  {
    if q != [] {
      BitsOfNumber(q[..|q| - 1]);
      assert Number(q) / 2 == Number(q[..|q| - 1]) && Number(q) % 2 == q[|q| - 1];
    }
  }

  lemma {:induction false} NumberBound(q: seq<bit>)
    ensures Number(q) < Pow2(|q|)
  {
    if q != [] { NumberBound(q[..|q| - 1]); }
  }

  lemma {:induction false} NumberAppend(a: seq<bit>, b: seq<bit>)
    ensures Number(a + b) == Shl(Number(a), |b|) + Number(b)
    decreases |b|
  {
    if b == [] {
      assert a + b == a;
    } else {
      var n := |b| - 1;
      assert (a + b)[..|a + b| - 1] == a + b[..n];
      NumberAppend(a, b[..n]);
    }
  }

  /** A bit string left-justified over zeros in 32 bits: what the accumulators hold. */
  function Justified(q: seq<bit>): nat
    requires |q| <= 32
  {
    Shl(Number(q), 32 - |q|)
  }

  lemma JustifiedParts(a: seq<bit>, b: seq<bit>)
    requires |a| + |b| <= 32
    ensures var low := Shl(Number(b), 32 - |a| - |b|);
            Justified(a + b) == Shl(Number(a), 32 - |a|) + low && low < Pow2(32 - |a|)
  {
    hide Shl, Number;
    var k := 32 - |a| - |b|;
    NumberAppend(a, b);
    NumberBound(b);
    ShlAdd(Shl(Number(a), |b|), Number(b), k);
    ShlShl(Number(a), |b|, k);
    ShlCompare(Number(b), Pow2(|b|), k);
    ShlShl(1, |b|, k);
  }

  /** The bits at the top of an accumulator are the first of the string. */
  lemma TopBits(q: seq<bit>, n: nat)
    requires n <= |q| <= 32
    ensures Shr(Justified(q), 32 - n) == Number(q[..n])
  {
    assert q == q[..n] + q[n..];
    JustifiedParts(q[..n], q[n..]);
    Split(Number(q[..n]), Shl(Number(q[n..]), 32 - |q|), 32 - n);
  }

  /** Shifting an accumulator left, in 32 bits, drops the first bits of the string. */
  lemma DropBits(q: seq<bit>, n: nat, w: nat)
    requires n <= |q| <= w == 32
    ensures Low(Shl(Justified(q), n), w) == Justified(q[n..])
  {
    hide Low, Shl, Number;
    var a, b := q[..n], q[n..];
    var low := Shl(Number(b), w - |q|);
    assert q == a + b;
    JustifiedParts(a, b);
    ShlAdd(Shl(Number(a), w - n), low, n);
    ShlShl(Number(a), w - n, n);
    ShlShl(Number(b), w - |q|, n);
    JustifiedParts([], b);
    assert [] + b == b;
    Split(Number(a), Justified(b), w);
  }

  /** Bitwise or. */
  function Or(a: nat, b: nat): nat {
    if a == 0 then b else if b == 0 then a else 2 * Or(a / 2, b / 2) + (if a % 2 == 1 || b % 2 == 1 then 1 else 0)
  }

  lemma {:induction false} OrDisjoint(a: nat, b: nat, k: nat)
    requires b < Pow2(k)
    ensures Or(Shl(a, k), b) == Shl(a, k) + b
  {
    if k > 0 && b > 0 && a > 0 {
      ShlCompare(0, a, k);
      ShlZero(k);
      OrDisjoint(a, b / 2, k - 1);
    } else if a == 0 {
      ShlZero(k);
    }
  }

  lemma {:induction false} ShlZero(k: nat)
    ensures Shl(0, k) == 0
  {
    if k > 0 { ShlZero(k - 1); }
  }

  function ZeroBits(n: nat): (r: seq<bit>)
    ensures |r| == n
  {
    seq<bit>(n, (i: int) requires 0 <= i => 0)
  }

  /** The bits of a 16-bit word. */
  function WordBits(w: nat): (r: seq<bit>)
    ensures |r| == 16
  {
    ToBits(w, 16)
  }

  lemma NumberOfWord(w: nat)
    requires w < 0x1_0000
    ensures Number(WordBits(w)) == w
  {
    hide ToBits, Number, Shl;
    assert Pow2(16) == 0x1_0000 by { Pow2Values(); }
    NumberOfBits(w, 16);
  }

  /** Or-ing a word in below the bits held appends its bits to the string. */
  lemma AddWord(q: seq<bit>, w: nat)
    requires |q| <= 16 && w < 0x1_0000
    ensures Or(Justified(q), Shl(w, 16 - |q|)) == Justified(q + WordBits(w))
  {
    hide Or, Shl, WordBits, Number;
    NumberOfWord(w);
    JustifiedParts(q, WordBits(w));
    OrDisjoint(Number(q), Shl(w, 16 - |q|), 32 - |q|);
  }

  /** The first 16 bits as a number. */
  function Window(q: seq<bit>): (v: nat)
    requires |q| >= 16
    ensures v < 65536
  {
    WindowBound(q[..16]);
    Number(q[..16])
  }

  lemma WindowBound(q: seq<bit>)
    requires |q| == 16
    ensures Number(q) < 65536
  {
    hide Shl, Number;
    assert Pow2(16) == 65536 by { Pow2Values(); }
    NumberBound(q);
  }

  lemma TopWindow(q: seq<bit>)
    requires 16 <= |q| <= 32
    ensures Shr(Justified(q), 16) == Window(q)
  {
    hide Shr, Justified, Number;
    TopBits(q, 16);
  }
}
