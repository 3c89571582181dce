/** Byte-addressed memory that is only read. */
module Memory {
  import opened Bytes

  /** Memory to read from; a reader may look past the end of its input. */
  type Source = nat -> byte

  /** The little-endian 16-bit word at an offset. */
  function Word(src: Source, at: nat): (r: nat)
    ensures r < 0x1_0000
  {
    src(at) + 256 * src(at + 1)
  }

  function Slice(src: Source, at: nat, n: nat): (r: seq<byte>)
    ensures |r| == n
  {
    seq<byte>(n, (i: int) requires 0 <= i < n => src(at + i))
  }

  /** The input holds `s` at `at`. */
  ghost predicate HoldsAt(src: Source, at: nat, s: seq<byte>) {
    Slice(src, at, |s|) == s
  }

  lemma HoldsParts(src: Source, at: nat, a: seq<byte>, b: seq<byte>)
    requires HoldsAt(src, at, a + b)
    ensures HoldsAt(src, at, a) && HoldsAt(src, at + |a|, b)
  {
    var s := a + b;
    forall i | 0 <= i < |a| ensures Slice(src, at, |a|)[i] == a[i] {
      assert Slice(src, at, |s|)[i] == s[i];
    }
    forall i | 0 <= i < |b| ensures Slice(src, at + |a|, |b|)[i] == b[i] {
      assert Slice(src, at, |s|)[|a| + i] == s[|a| + i];
    }
  }

  lemma ByteHeld(src: Source, at: nat, b: byte)
    requires HoldsAt(src, at, [b])
    ensures src(at) == b
  {
    assert Slice(src, at, 1)[0] == b;
  }

  lemma WordHeld(src: Source, at: nat, v: nat)
    requires v < 0x1_0000 && HoldsAt(src, at, LE(v, 2))
    ensures Word(src, at) == v
  {
    var s := LE(v, 2);
    assert s[1..] == LE(v / 256, 1);
    assert Slice(src, at, 2)[0] == s[0] && Slice(src, at, 2)[1] == s[1];
  }

  /** The two memories hold the same first `n` bytes. */
  ghost predicate Alike(a: Source, b: Source, n: nat) {
    forall i: nat :: i < n ==> a(i) == b(i)
  }
}
