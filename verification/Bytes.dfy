/** Bytes, powers of two and little-endian numbers, shared by every component. */
module Bytes {

  type byte = x: int | 0 <= x < 256

  datatype Option<+T> = None | Some(value: T)

  /** Left shift by `k` bits. */
  function Shl(n: nat, k: nat): nat {
    if k == 0 then n else 2 * Shl(n, k - 1)
  }

  function Pow2(k: nat): nat {
    Shl(1, k)
  }

  /** Right shift by `k` bits. */
  function Shr(v: nat, k: nat): nat
    decreases k
  {
    if k == 0 then v else Shr(v / 2, k - 1)
  }

  lemma {:induction false} ShlAdd(a: nat, b: nat, k: nat)
    ensures Shl(a + b, k) == Shl(a, k) + Shl(b, k)
  {
    if k > 0 { ShlAdd(a, b, k - 1); }
  }

  lemma {:induction false} ShlShl(n: nat, a: nat, b: nat)
    ensures Shl(Shl(n, a), b) == Shl(n, a + b)
  {
    if b > 0 { ShlShl(n, a, b - 1); }
  }

  lemma {:induction false} ShlCompare(a: nat, b: nat, k: nat)
    ensures a < b <==> Shl(a, k) < Shl(b, k)
    ensures a == b <==> Shl(a, k) == Shl(b, k)
  {
    if k > 0 { ShlCompare(a, b, k - 1); }
  }

  /** Shifts are adjoint: bounds on a right shift are left-shifted bounds on the value. */
  lemma {:induction false} ShrWithin(v: nat, k: nat, lo: nat, hi: nat)
    ensures Shl(lo, k) <= v < Shl(hi, k) <==> lo <= Shr(v, k) < hi
    decreases k
  {
    if k > 0 { ShrWithin(v / 2, k - 1, lo, hi); }
  }

  lemma Pow2Values()
    ensures Pow2(0) == 1 && Pow2(1) == 2 && Pow2(2) == 4 && Pow2(3) == 8 && Pow2(4) == 16
    ensures Pow2(5) == 32 && Pow2(6) == 64 && Pow2(7) == 128 && Pow2(8) == 256 && Pow2(9) == 512
    ensures Pow2(10) == 1024 && Pow2(11) == 2048 && Pow2(12) == 4096 && Pow2(13) == 8192
    ensures Pow2(14) == 16384 && Pow2(15) == 32768 && Pow2(16) == 65536
  {
    assert Pow2(4) == 16;
    assert Pow2(8) == 256;
    assert Pow2(12) == 4096;
  }

  /** The `k` low bytes of `n`, least significant first. */
  function LE(n: nat, k: nat): (r: seq<byte>)
    ensures |r| == k
    decreases k
  {
    if k == 0 then [] else [n % 256] + LE(n / 256, k - 1)
  }

  function FromLE(s: seq<byte>): nat {
    if s == [] then 0 else s[0] + 256 * FromLE(s[1..])
  }

  /** 256 to the power `k`: the number of values of `k` bytes. */
  function Range(k: nat): (r: nat)
    ensures r >= 1
  {
    if k == 0 then 1 else 256 * Range(k - 1)
  }

  lemma RangeValues()
    ensures Range(1) == 0x100 && Range(2) == 0x1_0000 && Range(4) == 0x1_0000_0000
    ensures Range(8) == 0x1_0000_0000_0000_0000
  {
    assert Range(2) == 0x1_0000;
    assert Range(4) == 0x1_0000_0000;
    assert Range(6) == 0x1_0000_0000_0000;
  }

  lemma {:induction false} FromLEBound(s: seq<byte>)
    ensures FromLE(s) < Range(|s|)
  {
    if s != [] { FromLEBound(s[1..]); }
  }

  /** Storing a number in `k` bytes and loading it keeps it modulo the range. */
  lemma {:induction false} LERoundTrip(n: nat, k: nat)
    requires n < Range(k)
    ensures FromLE(LE(n, k)) == n
    decreases k
  {
    if k > 0 {
      LERoundTrip(n / 256, k - 1);
      assert LE(n, k)[1..] == LE(n / 256, k - 1);
    }
  }

  lemma {:induction false} LEInverse(s: seq<byte>)
    ensures LE(FromLE(s), |s|) == s
  {
    if s != [] {
      LEInverse(s[1..]);
      assert FromLE(s) % 256 == s[0] && FromLE(s) / 256 == FromLE(s[1..]);
    }
  }

  function Zeros(n: nat): seq<byte> {
    Fill(n, 0)
  }

  /** `b` written over `s` at offset `at`. */
  function Put(s: seq<byte>, at: nat, b: seq<byte>): (r: seq<byte>)
    requires at + |b| <= |s|
    ensures |r| == |s|
    ensures forall i :: 0 <= i < |s| ==> r[i] == if at <= i < at + |b| then b[i - at] else s[i]
  {
    s[..at] + b + s[at + |b|..]
  }

  function Fill(n: nat, b: byte): (r: seq<byte>)
    ensures |r| == n
    ensures forall i :: 0 <= i < n ==> r[i] == b
  {
    seq(n, _ => b)
  }

  /** Copy bytes into a buffer. */
  method Blit(buf: array<byte>, at: nat, b: seq<byte>)
    requires at + |b| <= buf.Length
    modifies buf
    ensures buf[..] == Put(old(buf[..]), at, b)
  {
    for i := 0 to |b|
      invariant forall k :: 0 <= k < buf.Length ==> buf[k] == if at <= k < at + i then b[k - at] else old(buf[k])
    {
      buf[at + i] := b[i];
    }
  }
}
