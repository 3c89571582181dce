/** The LZX bit reader (src/lzx.c, lzx_accumulate to lzx_decode). */
module LzxBits {
  import opened Bytes
  import opened Bits
  import opened Huffman

  /** How a step ends; it is undefined if it stores a code length out of range. */
  datatype Res<+T> = Ok(value: T) | Fail | Undef

  /** A place in the input: the next byte to load and the bits already loaded but unread. */
  datatype Place = Place(offset: nat, q: seq<bit>)

  predicate Even(n: nat) {
    n % 2 == 0
  }

  lemma EvenStep(a: nat, b: nat)
    requires Even(a) && Even(b) && a < b
    ensures a + 2 <= b && Even(a + 2)
  {
  }

  lemma OddSkip(len: nat, at: nat, n: nat)
    requires Even(len) && Even(at) && at + n <= len
    ensures Even(at + n + n % 2) && at + n + n % 2 <= len
  {
  }

  predicate Inside(data: seq<byte>, p: Place) {
    Even(|data|) && Even(p.offset) && p.offset <= |data| && |p.q| <= 31
  }

  function WordAt(data: seq<byte>, at: nat): (r: nat)
    requires at + 2 <= |data|
    ensures r < 0x1_0000
  {
    var lo: nat, hi: nat := data[at], data[at + 1];
    lo + 256 * hi
  }

  /** The bits of the words from an offset to the end of the input. */
  function BitsFrom(data: seq<byte>, at: nat): (r: seq<bit>)
    requires at <= |data| && Even(|data|) && Even(at)
    ensures |r| == 8 * (|data| - at)
    decreases |data| - at
  {
    if at == |data| then [] else
      EvenStep(at, |data|);
      WordBits(WordAt(data, at)) + BitsFrom(data, at + 2)
  }

  /** All bits still to be read. */
  function Unread(data: seq<byte>, p: Place): (r: seq<bit>)
    requires Inside(data, p)
    ensures |r| == |p.q| + 8 * (|data| - p.offset)
  {
    p.q + BitsFrom(data, p.offset)
  }

  /** A word is loaded when fewer than `n` bits are held and there is one. */
  function Loaded(data: seq<byte>, p: Place, n: nat): (r: Place)
    requires Inside(data, p) && n <= 16
    ensures Inside(data, r)
  {
    if |p.q| < n && p.offset < |data| then
      EvenStep(p.offset, |data|);
      Place(p.offset + 2, p.q + WordBits(WordAt(data, p.offset)))
    else
      p
  }

  /** Loading leaves the stream alone, and leaves too few bits only at its end. */
  lemma LoadedReads(data: seq<byte>, p: Place, n: nat)
    requires Inside(data, p) && n <= 16
    ensures Unread(data, Loaded(data, p, n)) == Unread(data, p)
    ensures |Loaded(data, p, n).q| < n ==> Unread(data, p) == Loaded(data, p, n).q
  {
    hide WordBits, WordAt, Even;
    if |p.q| < n && p.offset < |data| {
      EvenStep(p.offset, |data|);
      var w, rest := WordBits(WordAt(data, p.offset)), BitsFrom(data, p.offset + 2);
      assert p.q + w + rest == p.q + (w + rest);
    }
  }

  /** The number of bits still to be read. */
  function Left(data: seq<byte>, p: Place): int {
    |p.q| + 8 * (|data| - p.offset)
  }

  function GetBits(data: seq<byte>, p: Place, n: nat): (r: Res<(nat, Place)>)
    requires Inside(data, p) && n <= 16
    ensures r.Ok? ==> Inside(data, r.value.1) && Left(data, r.value.1) == Left(data, p) - n && r.value.0 < Pow2(n)
  {
    var f := Loaded(data, p, n);
    if |f.q| >= n then NumberBound(f.q[..n]); Ok((Number(f.q[..n]), Place(f.offset, f.q[n..]))) else Fail
  }

  /** Reading takes the next `n` bits of the stream, and fails exactly if fewer remain. */
  lemma GetBitsReads(data: seq<byte>, p: Place, n: nat)
    requires Inside(data, p) && n <= 16
    ensures GetBits(data, p, n).Fail? <==> |Unread(data, p)| < n
    ensures GetBits(data, p, n).Ok? ==>
              var (v, p') := GetBits(data, p, n).value;
              Inside(data, p') && v == Number(Unread(data, p)[..n]) && Unread(data, p') == Unread(data, p)[n..]
    ensures !GetBits(data, p, n).Undef?
  {
    hide Even, Number, BitsFrom;
    LoadedReads(data, p, n);
    var f := Loaded(data, p, n);
    if |f.q| >= n {
      assert Unread(data, f)[..n] == f.q[..n];
      assert Unread(data, f)[n..] == f.q[n..] + BitsFrom(data, f.offset);
    }
  }

  /** Bits followed by zeros up to 16. */
  function Padded(q: seq<bit>): (r: seq<bit>)
    ensures |r| >= 16 && |r| >= |q|
  {
    if |q| >= 16 then q else q + seq<bit>(16 - |q|, _ => 0)
  }

  ghost function DecodeSymbol(data: seq<byte>, p: Place, ls: seq<nat>): (r: Res<(nat, Place)>)
    requires Inside(data, p) && Built(ls) && ls != []
    ensures r.Ok? ==> Inside(data, r.value.1) && Left(data, r.value.1) < Left(data, p) && r.value.0 < |ls|
    ensures !r.Undef?
  {
    var f := Loaded(data, p, 16);
    var v := Window(Padded(f.q));
    if |f.q| < CodeLength(ls, v) then Fail else Ok((Symbol(ls, v), Place(f.offset, f.q[CodeLength(ls, v)..])))
  }

  /** Decoding finds the symbol whose code starts the stream, and fails if the stream ends inside it. */
  lemma DecodeReads(data: seq<byte>, p: Place, ls: seq<nat>)
    requires Inside(data, p) && Built(ls) && ls != []
    ensures var u := Unread(data, p);
            var v := Window(Padded(u));
            && (DecodeSymbol(data, p, ls).Fail? <==> |u| < CodeLength(ls, v))
            && (DecodeSymbol(data, p, ls).Ok? ==>
                  var (s, p') := DecodeSymbol(data, p, ls).value;
                  s == Symbol(ls, v) && Inside(data, p') && Unread(data, p') == u[CodeLength(ls, v)..])
  {
    hide Symbol, CodeLength, Number, Even, BitsFrom;
    var f, u := Loaded(data, p, 16), Unread(data, p);
    LoadedReads(data, p, 16);
    SameWindow(f.q, u);
    var n := CodeLength(ls, Window(Padded(u)));
    if |f.q| >= n {
      assert u[n..] == f.q[n..] + BitsFrom(data, f.offset);
    }
  }

  lemma SameWindow(q: seq<bit>, u: seq<bit>)
    requires |q| <= |u| && u[..|q|] == q && (|q| < 16 ==> u == q)
    ensures Window(Padded(q)) == Window(Padded(u))
  {
    if |q| >= 16 {
      assert q[..16] == u[..16];
    }
  }

  lemma PaddingIsFree(q: seq<bit>)
    requires |q| <= 32
    ensures |Padded(q)| <= 32 && Justified(Padded(q)) == Justified(q)
  {
    if |q| < 16 {
      var z := seq<bit>(16 - |q|, _ => 0);
      assert Padded(q) == q + z;
      NumberAppend(q, z);
      NumberOfZeros(z);
      ShlShl(Number(q), |z|, 16);
      hide Number, Shl;
    }
  }

  lemma {:induction false} NumberOfZeros(z: seq<bit>)
    requires forall i :: 0 <= i < |z| ==> z[i] == 0
    ensures Number(z) == 0
  {
    if z != [] { NumberOfZeros(z[..|z| - 1]); }
  }

  class Reader {
    const data: seq<byte>
    var offset: nat
    var accumulator: nat
    var bits: nat
    /** The bits the accumulator stands for. */
    ghost var q: seq<bit>

    constructor (data: seq<byte>)
      requires Even(|data|)
      ensures Valid() && this.data == data && At() == Place(0, [])
    {
      this.data := data;
      offset, accumulator, bits, q := 0, 0, 0, [];
      new;
      ShlZero(32);
    }

    ghost function At(): Place
      reads this
    {
      Place(offset, q)
    }

    /** The accumulator holds exactly the loaded bits, left-justified over zeros. */
    ghost predicate Valid()
      reads this
    {
      Inside(data, At()) && bits == |q| && accumulator == Justified(q)
    }

    lemma Facts()
      requires Valid()
      ensures Inside(data, At())
    {
    }

    /** lzx_accumulate */
    method Accumulate(n: nat) returns (v: nat)
      requires Valid() && n <= 16
      modifies this
      ensures Valid() && At() == Loaded(data, old(At()), n)
      ensures v < 65536 && v == Window(Padded(q))
      ensures forall k :: 0 <= k <= 16 && k <= |q| ==> Shr(v, 16 - k) == Number(q[..k])
    {
      hide Or, Shl, Number, Shr, WordBits, WordAt, Even;
      if bits < n && offset < |data| {
        EvenStep(offset, |data|);
        AddWord(q, WordAt(data, offset));
        accumulator := Or(accumulator, Shl(WordAt(data, offset), 16 - bits));
        q := q + WordBits(WordAt(data, offset));
        offset, bits := offset + 2, bits + 16;
      }
      v := Shr(accumulator, 16);
      PaddingIsFree(q);
      TopWindow(Padded(q));
      forall k | 0 <= k <= 16 && k <= |q| ensures Shr(v, 16 - k) == Number(q[..k]) {
        TopBits(q, k);
        ShrShr(accumulator, 16, 16 - k);
      }
    }

    /** lzx_consume */
    method Consume(n: nat) returns (ok: bool)
      requires Valid()
      modifies this
      ensures Valid() && ok == (n <= old(|q|))
      ensures At() == if ok then Place(old(offset), old(q)[n..]) else old(At())
    {
      hide Shl, Low, Number;
      if bits < n { return false; }
      DropBits(q, n, 32);
      accumulator := Low(Shl(accumulator, n), 32);
      bits, q := bits - n, q[n..];
      return true;
    }

    /** lzx_getbits; the value is -1 on failure. */
    method GetValue(n: nat) returns (v: int)
      requires Valid() && n <= 16
      modifies this
      ensures Valid() && Inside(data, old(At()))
      ensures v < 0 <==> GetBits(data, old(At()), n).Fail?
      ensures v >= 0 ==> GetBits(data, old(At()), n) == Ok((v, At()))
    {
      hide Shr, Number, Justified;
      var norm := Accumulate(n);
      assert |q| >= n ==> Shr(norm, 16 - n) == Number(q[..n]);
      var ok := Consume(n);
      if !ok { return -1; }
      return Shr(norm, 16 - n);
    }

    /** lzx_align: every loaded bit is dropped. */
    method Align(n: nat) returns (ok: bool)
      requires Valid() && n <= 16
      modifies this
      ensures Valid() && Inside(data, old(At()))
      ensures ok <==> GetBits(data, old(At()), n).Ok?
      ensures ok ==> At() == Place(GetBits(data, old(At()), n).value.1.offset, [])
    {
      var pad := GetValue(n);
      if pad < 0 { return false; }
      var dropped := Consume(bits);
      return true;
    }

    /** lzx_getbytes, and the realignment after an odd number of bytes; no bits are held here. */
    method GetBytes(n: nat) returns (r: Option<seq<byte>>)
      requires Valid() && q == []
      modifies this
      ensures Valid() && q == [] && (r.Some? <==> old(offset) + n <= |data|)
      ensures r.Some? ==> r.value == data[old(offset)..old(offset) + n] && offset == old(offset) + n + n % 2
      ensures r.None? ==> offset == old(offset)
    {
      if offset + n > |data| { return None; }
      r := Some(data[offset..offset + n]);
      OddSkip(|data|, offset, n);
      offset := offset + n;
      if n % 2 == 1 {
        offset := offset + 1;
      }
    }

    /** lzx_decode; the value is -1 on failure. */
    method Decode(a: Alphabet, ghost ls: seq<nat>) returns (v: int)
      requires Valid() && Built(ls) && ls != [] && a.Describes(ls)
      modifies this
      ensures Valid() && Inside(data, old(At()))
      ensures v < 0 <==> DecodeSymbol(data, old(At()), ls).Fail?
      ensures v >= 0 ==> DecodeSymbol(data, old(At()), ls) == Ok((v, At()))
    {
      hide Justified, Symbol, CodeLength, Kraft, Unused, ValidLengths;
      var huf := Accumulate(16);
      var s, n := a.Decode(ls, huf);
      var ok := Consume(n);
      return if ok then s else -1;
    }
  }

  lemma {:induction false} ShrShr(v: nat, a: nat, b: nat)
    ensures Shr(Shr(v, a), b) == Shr(v, a + b)
    decreases a
  {
    if a > 0 { ShrShr(v / 2, a - 1, b); }
  }
}
