/** SHA-1: the definition of FIPS 180-4 and the streaming context (src/sha1.c, src/sha1.h). */
module Sha1 {
  import opened Bytes

  type Word = bv32

  // ---------------------------------------------------------------- FIPS 180-4

  function Rol(x: Word, n: nat): Word
    requires n <= 32
  {
    (x << n) | (x >> (32 - n))
  }

  /** The functions of section 4.1.1. */
  function F(t: nat, x: Word, y: Word, z: Word): Word {
    if t < 20 then Ch(x, y, z) else if 40 <= t < 60 then Maj(x, y, z) else Parity(x, y, z)
  }

  function Ch(x: Word, y: Word, z: Word): Word {
    (x & y) ^ (!x & z)
  }

  function Parity(x: Word, y: Word, z: Word): Word {
    x ^ y ^ z
  }

  function Maj(x: Word, y: Word, z: Word): Word {
    (x & y) ^ (x & z) ^ (y & z)
  }

  /** The constants of section 4.2.1. */
  function K(t: nat): Word {
    if t < 20 then 0x5a827999 else if t < 40 then 0x6ed9eba1 else if t < 60 then 0x8f1bbcdc else 0xca62c1d6
  }

  function Word4(a: byte, b: byte, c: byte, d: byte): Word {
    ((a as bv32) << 24) | ((b as bv32) << 16) | ((c as bv32) << 8) | (d as bv32)
  }

  const BLOCK := 64

  function Mix(a: Word, b: Word, c: Word, d: Word): Word {
    Rol(a ^ b ^ c ^ d, 1)
  }

  /** Message schedule (section 6.1.2, step 1). */
  function Schedule(block: seq<byte>, t: nat): Word
    requires |block| == BLOCK
  {
    if t < 16 then Word4(block[4 * t], block[4 * t + 1], block[4 * t + 2], block[4 * t + 3])
    else Mix(Schedule(block, t - 3), Schedule(block, t - 8), Schedule(block, t - 14), Schedule(block, t - 16))
  }

  datatype Vars = Vars(a: Word, b: Word, c: Word, d: Word, e: Word)

  function Sum(a: Word, b: Word, c: Word, d: Word, e: Word): Word {
    a + b + c + d + e
  }

  /** One turn of section 6.1.2, step 3. */
  function Round(v: Vars, t: nat, w: Word): Vars {
    Vars(Sum(Rol(v.a, 5), F(t, v.b, v.c, v.d), v.e, K(t), w), v.a, Rol(v.b, 30), v.c, v.d)
  }

  function Rounds(v: Vars, block: seq<byte>, t: nat): Vars
    requires |block| == BLOCK
  {
    if t == 0 then v else Round(Rounds(v, block, t - 1), t - 1, Schedule(block, t - 1))
  }

  function Compress(h: Vars, block: seq<byte>): Vars
    requires |block| == BLOCK
  {
    AddVars(h, Rounds(h, block, 80))
  }

  function AddVars(h: Vars, v: Vars): Vars {
    Vars(h.a + v.a, h.b + v.b, h.c + v.c, h.d + v.d, h.e + v.e)
  }

  const INITIAL := Vars(0x67452301, 0xefcdab89, 0x98badcfe, 0x10325476, 0xc3d2e1f0)

  /** The hash value after the first `n` blocks. */
  function HashBlocks(m: seq<byte>, n: nat): Vars
    requires BLOCK * n <= |m|
  {
    if n == 0 then INITIAL else Compress(HashBlocks(m, n - 1), m[BLOCK * (n - 1)..BLOCK * n])
  }

  /** The `k` low bytes of `n`, most significant first. */
  function BE(n: nat, k: nat): (r: seq<byte>)
    ensures |r| == k
    decreases k
  {
    if k == 0 then [] else BE(n / 256, k - 1) + [n % 256]
  }

  /** Number of zero bytes after the first padding byte. */
  function PadZeros(len: nat): nat {
    if len % BLOCK < 56 then 55 - len % BLOCK else 119 - len % BLOCK
  }

  /** The padding stops at the first length that leaves exactly eight bytes of the block. */
  lemma PadAt(len: nat, k: nat)
    requires k <= PadZeros(len)
    ensures (len + 1 + k) % BLOCK == 56 <==> k == PadZeros(len)
  {
    var q, s := len / BLOCK, len % BLOCK + 1 + k;
    if s < BLOCK { ModUnique(len + 1 + k, q, s); } else { ModUnique(len + 1 + k, q + 1, s - BLOCK); }
  }

  lemma ModUnique(n: nat, q: nat, r: nat)
    requires n == BLOCK * q + r && r < BLOCK
    ensures n % BLOCK == r && n / BLOCK == q
  {
  }

  lemma PaddedLength(len: nat)
    ensures (len + 9 + PadZeros(len)) % BLOCK == 0
  {
    var z := PadZeros(len);
    PadAt(len, z);
    ModUnique(len + 9 + z, (len + 1 + z) / BLOCK + 1, 0);
  }

  /** Section 5.1.1, for a message of whole bytes. */
  function Pad(m: seq<byte>): (r: seq<byte>)
    ensures |r| % BLOCK == 0 && |r| == |m| + 9 + PadZeros(|m|)
  {
    PaddedLength(|m|);
    m + [0x80] + Zeros(PadZeros(|m|)) + BE(8 * |m|, 8)
  }

  function WordBytes(w: Word): (r: seq<byte>)
    ensures |r| == 4
  {
    BE(w as int, 4)
  }

  function Serialize(h: Vars): (r: seq<byte>)
    ensures |r| == 20
  {
    WordBytes(h.a) + WordBytes(h.b) + WordBytes(h.c) + WordBytes(h.d) + WordBytes(h.e)
  }

  /** SHA-1 of a message. */
  function Hash(m: seq<byte>): (r: seq<byte>)
    ensures |r| == 20
  {
    Serialize(HashBlocks(Pad(m), |Pad(m)| / BLOCK))
  }

  // ---------------------------------------------------------------- the step functions of the source

  function StepF(t: nat, b: Word, c: Word, d: Word): Word {
    if t / 20 == 0 then Choose(b, c, d) else if t / 20 == 2 then Majority(b, c, d) else Parity(b, c, d)
  }

  /** sha1_f_0_19 */
  function Choose(b: Word, c: Word, d: Word): Word {
    (b & c) | (!b & d)
  }

  /** sha1_f_40_59 */
  function Majority(b: Word, c: Word, d: Word): Word {
    (b & c) | (b & d) | (c & d)
  }

  function StepK(t: nat): Word {
    if t / 20 == 0 then 0x5a827999 else if t / 20 == 1 then 0x6ed9eba1 else if t / 20 == 2 then 0x8f1bbcdc else 0xca62c1d6
  }

  lemma ChooseAgrees(b: Word, c: Word, d: Word)
    ensures Choose(b, c, d) == Ch(b, c, d)
  {
    ChooseBits(b, c, d);
  }

  lemma ChooseBits(b: Word, c: Word, d: Word)
    ensures (b & c) | (!b & d) == (b & c) ^ (!b & d)
  {
  }

  lemma MajorityAgrees(b: Word, c: Word, d: Word)
    ensures Majority(b, c, d) == Maj(b, c, d)
  {
    MajorityBits(b, c, d);
  }

  lemma MajorityBits(b: Word, c: Word, d: Word)
    ensures (b & c) | (b & d) | (c & d) == (b & c) ^ (b & d) ^ (c & d)
  {
  }

  lemma StepAgrees(t: nat, b: Word, c: Word, d: Word)
    requires t < 80
    ensures StepF(t, b, c, d) == F(t, b, c, d) && StepK(t) == K(t)
  {
    hide Ch, Choose, Maj, Majority, Parity;
    ChooseAgrees(b, c, d);
    MajorityAgrees(b, c, d);
  }

  function Swap(x: Word): Word {
    (x << 24) | ((x & 0xff00) << 8) | ((x >> 8) & 0xff00) | (x >> 24)
  }

  lemma SwapTwice(x: Word)
    ensures Swap(Swap(x)) == x
  {
  }

  // ---------------------------------------------------------------- the context

  lemma {:induction false} HashBlocksPrefix(m: seq<byte>, x: seq<byte>, n: nat)
    requires BLOCK * n <= |m|
    ensures HashBlocks(m + x, n) == HashBlocks(m, n)
  {
    hide Compress;
    if n > 0 {
      HashBlocksPrefix(m, x, n - 1);
      assert (m + x)[BLOCK * (n - 1)..BLOCK * n] == m[BLOCK * (n - 1)..BLOCK * n];
    }
  }

  /** The tail of `m` that does not fill a block. */
  function Rest(m: seq<byte>): seq<byte> {
    m[|m| - |m| % BLOCK..]
  }

  function SwapVars(h: Vars): Vars {
    Vars(Swap(h.a), Swap(h.b), Swap(h.c), Swap(h.d), Swap(h.e))
  }

  /** Byte `i` of a block whose dwords have been byte-swapped in place. */
  function Swapped(block: seq<byte>): (r: seq<byte>)
    requires |block| == BLOCK
    ensures |r| == BLOCK
  {
    seq<byte>(BLOCK, (i: int) requires 0 <= i < BLOCK => block[i + 3 - 2 * (i % 4)])
  }

  class Context {
    var len: nat
    /** The stored digest: the memory dwords, which hold the hash value in big-endian order. */
    var digest: Vars
    const block: array<byte>

    constructor ()
      ensures block.Length == BLOCK && fresh(block)
    {
      block := new byte[BLOCK](_ => 0);
    }

    /** The context has absorbed exactly `m`; bytes of the block past the pending tail are stale. */
    ghost predicate Absorbed(m: seq<byte>)
      reads this, block
    {
      && block.Length == BLOCK && len == |m|
      && digest == SwapVars(HashBlocks(m, |m| / BLOCK))
      && block[..|m| % BLOCK] == Rest(m)
    }

    /** sha1_init */
    method Init()
      requires block.Length == BLOCK
      modifies this
      ensures Absorbed([])
    {
      digest := Vars(Swap(0x67452301), Swap(0xefcdab89), Swap(0x98badcfe), Swap(0x10325476), Swap(0xc3d2e1f0));
      len := 0;
    }

    /** sha1_digest: one compression; the block is left byte-swapped. */
    method Digest()
      requires block.Length == BLOCK
      modifies this`digest, block
      ensures digest == SwapVars(Compress(SwapVars(old(digest)), old(block[..])))
      ensures block[..] == Swapped(old(block[..]))
    {
      hide SwapVars, Rounds, Swapped, AddVars, Schedule;
      ghost var b := block[..];
      var h := SwapVars(digest);
      var w := new Word[80](_ => 0);
      LoadWords(w);
      ExpandWords(b, w);
      var v := MainLoop(h, b, w);
      digest := SwapVars(AddVars(h, v));
    }

    /** The conversion loop of sha1_digest: swap each dword of the block in place and copy it out. */
    method LoadWords(w: array<Word>)
      requires block.Length == BLOCK && w.Length == 80
      modifies block, w
      ensures block[..] == Swapped(old(block[..]))
      ensures forall t :: 0 <= t < 16 ==> w[t] == Schedule(old(block[..]), t)
    {
      hide Word4, Swapped, Schedule;
      ghost var b := block[..];
      for t := 0 to 16
        invariant forall i :: 4 * t <= i < BLOCK ==> block[i] == b[i]
        invariant forall i :: 0 <= i < 4 * t ==> block[i] == Swapped(b)[i]
        invariant forall k :: 0 <= k < t ==> w[k] == Schedule(b, k)
      {
        SwappedAt(b, t);
        var p, q, r, s := block[4 * t], block[4 * t + 1], block[4 * t + 2], block[4 * t + 3];
        block[4 * t], block[4 * t + 1], block[4 * t + 2], block[4 * t + 3] := s, r, q, p;
        w[t] := Word4(p, q, r, s);
      }
      ghost var swapped := Swapped(b);
      assert forall i :: 0 <= i < BLOCK ==> block[i] == swapped[i];
    }

    /** The loop body of sha1_update. */
    method AddByte(ghost m: seq<byte>, x: byte)
      requires Absorbed(m)
      modifies this, block
      ensures Absorbed(m + [x])
    {
      hide Compress, HashBlocks, SwapVars, Swapped;
      var offset := len % BLOCK;
      block[offset] := x;
      len := len + 1;
      assert block[..offset + 1] == Rest(m) + [x];
      NextByte(m, x);
      if len % BLOCK == 0 {
        assert block[..] == block[..offset + 1];
        SwapVarsTwice(HashBlocks(m, |m| / BLOCK));
        Digest();
      }
    }

    /** sha1_update */
    method Update(ghost m: seq<byte>, data: seq<byte>)
      requires Absorbed(m)
      modifies this, block
      ensures Absorbed(m + data)
    {
      hide Absorbed;
      assert m + [] == m;
      for i := 0 to |data|
        invariant Absorbed(m + data[..i])
      {
        AddByte(m + data[..i], data[i]);
        assert m + data[..i] + [data[i]] == m + data[..i + 1];
      }
      assert data[..|data|] == data;
    }

    /** The padding loop of sha1_final: a one bit, then zeros up to the length field. */
    method AddPadding(ghost m: seq<byte>)
      requires Absorbed(m)
      modifies this, block
      ensures Absorbed(m + [0x80] + Zeros(PadZeros(|m|)))
    {
      hide HashBlocks, PadZeros, SwapVars, Rest;
      AddByte(m, 0x80);
      ghost var k := 0;
      assert m + [0x80] + Zeros(0) == m + [0x80];
      while len % BLOCK != 56
        invariant 0 <= k <= PadZeros(|m|) && Absorbed(m + [0x80] + Zeros(k))
        decreases PadZeros(|m|) - k
      {
        PadAt(|m|, k);
        AddByte(m + [0x80] + Zeros(k), 0);
        assert m + [0x80] + Zeros(k) + [0] == m + [0x80] + Zeros(k + 1);
        k := k + 1;
      }
      PadAt(|m|, k);
    }

    /** sha1_final: the digest of everything absorbed. */
    method Final(ghost m: seq<byte>) returns (out: seq<byte>)
      requires Absorbed(m)
      modifies this, block
      ensures out == Hash(m)
    {
      hide HashBlocks, BE, PadZeros, Rest, Serialize;
      var lenBits := BE(8 * len, 8);
      AddPadding(m);
      Update(m + [0x80] + Zeros(PadZeros(|m|)), lenBits);
      SwapVarsTwice(HashBlocks(Pad(m), |Pad(m)| / BLOCK));
      out := Serialize(SwapVars(digest));
    }
  }

  function Concat(pieces: seq<seq<byte>>): seq<byte> {
    if pieces == [] then [] else Concat(pieces[..|pieces| - 1]) + pieces[|pieces| - 1]
  }

  /** However a message is cut into updates, the result is its digest. */
  method HashPieces(pieces: seq<seq<byte>>) returns (hash: seq<byte>)
    ensures hash == Hash(Concat(pieces))
  {
    hide Hash;
    var ctx := new Context();
    ctx.Init();
    for i := 0 to |pieces|
      invariant ctx.Absorbed(Concat(pieces[..i])) && fresh(ctx) && fresh(ctx.block)
    {
      hide Context.Absorbed;
      ctx.Update(Concat(pieces[..i]), pieces[i]);
      assert pieces[..i + 1][..i] == pieces[..i];
    }
    assert pieces[..|pieces|] == pieces;
    hash := ctx.Final(Concat(pieces));
  }

  /** wim_hash (src/wimpatch.c): the file is read and absorbed in pieces of at most 512 bytes. */
  method HashFile(data: seq<byte>) returns (hash: seq<byte>)
    ensures hash == Hash(data)
  {
    hide Hash;
    var ctx := new Context();
    ctx.Init();
    var offset := 0;
    assert data[..0] == [];
    while offset < |data|
      invariant 0 <= offset <= |data| && ctx.Absorbed(data[..offset])
      invariant fresh(ctx) && fresh(ctx.block)
    {
      hide Context.Absorbed;
      var len := |data| - offset;
      if len > 512 { len := 512; }
      ctx.Update(data[..offset], data[offset..offset + len]);
      assert data[..offset] + data[offset..offset + len] == data[..offset + len];
      offset := offset + len;
    }
    assert data[..offset] == data;
    hash := ctx.Final(data);
  }

  lemma SwappedAt(b: seq<byte>, t: nat)
    requires |b| == BLOCK && t < 16
    ensures Swapped(b)[4 * t] == b[4 * t + 3] && Swapped(b)[4 * t + 1] == b[4 * t + 2]
    ensures Swapped(b)[4 * t + 2] == b[4 * t + 1] && Swapped(b)[4 * t + 3] == b[4 * t]
    ensures Schedule(b, t) == Word4(b[4 * t], b[4 * t + 1], b[4 * t + 2], b[4 * t + 3])
  {
    hide Word4, Schedule, Swapped;
    SwappedIndex(b, t, 0);
    SwappedIndex(b, t, 1);
    SwappedIndex(b, t, 2);
    SwappedIndex(b, t, 3);
    ScheduleStart(b, t);
  }

  lemma SwappedIndex(b: seq<byte>, t: nat, j: nat)
    requires |b| == BLOCK && t < 16 && j < 4
    ensures Swapped(b)[4 * t + j] == b[4 * t + 3 - j]
  {
    var i := 4 * t + j;
    assert i % 4 == j;
    assert Swapped(b)[i] == b[i + 3 - 2 * (i % 4)];
  }

  lemma ScheduleStart(b: seq<byte>, t: nat)
    requires |b| == BLOCK && t < 16
    ensures Schedule(b, t) == Word4(b[4 * t], b[4 * t + 1], b[4 * t + 2], b[4 * t + 3])
  {
    hide Word4;
  }

  /** w[16..80) of sha1_digest. */
  method ExpandWords(ghost b: seq<byte>, w: array<Word>)
    requires |b| == BLOCK && w.Length == 80 && forall t :: 0 <= t < 16 ==> w[t] == Schedule(b, t)
    modifies w
    ensures forall t :: 0 <= t < 80 ==> w[t] == Schedule(b, t)
  {
    hide Schedule, Mix;
    for i := 16 to 80
      invariant forall t :: 0 <= t < i ==> w[t] == Schedule(b, t)
    {
      w[i] := Mix(w[i - 3], w[i - 8], w[i - 14], w[i - 16]);
      ScheduleStep(b, i);
    }
  }

  /** The main loop of sha1_digest. */
  method MainLoop(h: Vars, ghost b: seq<byte>, w: array<Word>) returns (v: Vars)
    requires |b| == BLOCK && w.Length == 80 && forall t :: 0 <= t < 80 ==> w[t] == Schedule(b, t)
    ensures v == Rounds(h, b, 80)
  {
    hide Schedule, Rounds, Sum, StepF, StepK, F, K, Rol;
    v := h;
    RoundsStart(h, b);
    for i := 0 to 80
      invariant v == Rounds(h, b, i)
    {
      StepAgrees(i, v.b, v.c, v.d);
      RoundsStep(h, b, i);
      var temp := Sum(Rol(v.a, 5), StepF(i, v.b, v.c, v.d), v.e, StepK(i), w[i]);
      v := Vars(temp, v.a, Rol(v.b, 30), v.c, v.d);
    }
  }

  lemma ScheduleStep(b: seq<byte>, i: nat)
    requires |b| == BLOCK && i >= 16
    ensures Schedule(b, i) == Mix(Schedule(b, i - 3), Schedule(b, i - 8), Schedule(b, i - 14), Schedule(b, i - 16))
  {
    hide Mix;
  }

  lemma RoundsStart(h: Vars, b: seq<byte>)
    requires |b| == BLOCK
    ensures Rounds(h, b, 0) == h
  {
  }

  lemma RoundsStep(h: Vars, b: seq<byte>, i: nat)
    requires |b| == BLOCK
    ensures Rounds(h, b, i + 1) == Round(Rounds(h, b, i), i, Schedule(b, i))
  {
    hide Round, Schedule;
  }

  lemma SwapVarsTwice(h: Vars)
    ensures SwapVars(SwapVars(h)) == h
  {
    hide Swap;
    SwapTwice(h.a);
    SwapTwice(h.b);
    SwapTwice(h.c);
    SwapTwice(h.d);
    SwapTwice(h.e);
  }

  lemma HashBlocksStep(m: seq<byte>, n: nat)
    requires n > 0 && BLOCK * n <= |m|
    ensures HashBlocks(m, n) == Compress(HashBlocks(m, n - 1), m[BLOCK * (n - 1)..BLOCK * n])
  {
    hide Compress;
  }

  /** One more byte either extends the pending tail or completes a block. */
  lemma NextByte(m: seq<byte>, x: byte)
    ensures (|m| + 1) % BLOCK != 0 ==> (|m| + 1) % BLOCK == |m| % BLOCK + 1 && Rest(m + [x]) == Rest(m) + [x]
    ensures (|m| + 1) % BLOCK != 0 ==> HashBlocks(m + [x], (|m| + 1) / BLOCK) == HashBlocks(m, |m| / BLOCK)
    ensures (|m| + 1) % BLOCK == 0 ==> Rest(m + [x]) == [] && |m| % BLOCK == BLOCK - 1 && |Rest(m) + [x]| == BLOCK
    ensures (|m| + 1) % BLOCK == 0 ==>
      HashBlocks(m + [x], (|m| + 1) / BLOCK) == Compress(HashBlocks(m, |m| / BLOCK), Rest(m) + [x])
  {
    if |m| % BLOCK == BLOCK - 1 {
      BlockFilled(m, x, |m| / BLOCK);
    } else {
      BlockPending(m, x, |m| / BLOCK, |m| % BLOCK);
    }
  }

  lemma BlockPending(m: seq<byte>, x: byte, q: nat, r: nat)
    requires |m| == BLOCK * q + r && r < BLOCK - 1
    ensures |m| / BLOCK == (|m| + 1) / BLOCK == q && |m| % BLOCK == r && (|m| + 1) % BLOCK == r + 1
    ensures Rest(m + [x]) == Rest(m) + [x] && HashBlocks(m + [x], q) == HashBlocks(m, q)
  {
    hide HashBlocks;
    HashBlocksPrefix(m, [x], q);
    ModUnique(|m|, q, r);
    ModUnique(|m + [x]|, q, r + 1);
  }

  lemma BlockFilled(m: seq<byte>, x: byte, q: nat)
    requires |m| == BLOCK * q + BLOCK - 1
    ensures |m| / BLOCK == q && (|m| + 1) / BLOCK == q + 1 && |m| % BLOCK == BLOCK - 1 && (|m| + 1) % BLOCK == 0
    ensures Rest(m + [x]) == [] && |Rest(m) + [x]| == BLOCK
    ensures HashBlocks(m + [x], q + 1) == Compress(HashBlocks(m, q), Rest(m) + [x])
  {
    hide HashBlocks, Compress;
    ModUnique(|m|, q, BLOCK - 1);
    ModUnique(|m + [x]|, q + 1, 0);
    HashBlocksPrefix(m, [x], q);
    HashBlocksStep(m + [x], q + 1);
    assert (m + [x])[BLOCK * q..BLOCK * (q + 1)] == Rest(m) + [x];
  }
}
