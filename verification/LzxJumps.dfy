/** E8 jump translation after LZX decompression (src/lzx.c, lzx_translate_jumps). */
module LzxJumps {
  import opened Bytes

  const MAGIC := 12000000
  const CALL: byte := 0xe8
  const HALF := 0x8000_0000

  /** A 32-bit pattern as a signed number, and back. */
  function Signed(u: nat): int
    requires u < 2 * HALF
  {
    if u < HALF then u else u - 2 * HALF
  }

  function Unsigned(t: int): nat
    requires -HALF <= t < HALF
  {
    if t >= 0 then t else t + 2 * HALF
  }

  /** Absolute targets become relative. */
  function Undo(t: int, at: nat): (r: int)
    requires -HALF <= t < HALF && at < HALF
    ensures -HALF <= r < HALF
  {
    if t >= 0 then (if t < MAGIC then t - at else t)
    else if t + at >= 0 then t + MAGIC else t
  }

  /** The compressor's direction: relative targets become absolute. */
  function Do(t: int, at: nat): (r: int)
    requires -HALF <= t < HALF && at < HALF
    ensures -HALF <= r < HALF
  {
    if 0 <= t + at < MAGIC then t + at
    else if MAGIC - at <= t < MAGIC && t + at >= 0 then t - MAGIC
    else t
  }

  /** Each direction is a rotation of `[-at, 12000000)` and undoes the other. */
  lemma RotationsInverse(t: int, at: nat)
    requires -HALF <= t < HALF && at < HALF
    ensures Undo(Do(t, at), at) == t && Do(Undo(t, at), at) == t
    ensures 0 - at <= t < MAGIC <==> 0 - at <= Undo(t, at) < MAGIC
  {
  }

  function Turn(t: int, at: nat, undo: bool): (r: int)
    requires -HALF <= t < HALF && at < HALF
    ensures -HALF <= r < HALF
  {
    if undo then Undo(t, at) else Do(t, at)
  }

  function Target(b: seq<byte>): (r: int)
    requires |b| == 4
    ensures -HALF <= r < HALF
  {
    Fits(b);
    Signed(FromLE(b))
  }

  lemma Fits(b: seq<byte>)
    requires |b| == 4
    ensures FromLE(b) < 2 * HALF
  {
    hide Range, FromLE;
    FromLEBound(b);
    RangeValues();
  }

  function Rewrite(b: seq<byte>, at: nat, undo: bool): (r: seq<byte>)
    requires |b| == 4 && at < HALF
    ensures |r| == 4
  {
    LE(Unsigned(Turn(Target(b), at, undo)), 4)
  }

  lemma TargetOfBytes(t: int)
    requires -HALF <= t < HALF
    ensures Target(LE(Unsigned(t), 4)) == t
  {
    hide Range, FromLE, LE;
    RangeValues();
    LERoundTrip(Unsigned(t), 4);
  }

  lemma RewriteInverse(b: seq<byte>, at: nat, undo: bool)
    requires |b| == 4 && at < HALF
    ensures Rewrite(Rewrite(b, at, undo), at, !undo) == b
  {
    hide FromLE, LE, Do, Undo;
    var t := Target(b);
    TargetOfBytes(Turn(t, at, undo));
    RotationsInverse(t, at);
    Fits(b);
    LEInverse(b);
  }

  /** The buffer from position `at` on, translated; the last ten bytes are never scanned. */
  function Walk(rest: seq<byte>, at: nat, undo: bool): (r: seq<byte>)
    requires at + |rest| < HALF
    ensures |r| == |rest| && (|rest| > 10 ==> r[0] == rest[0])
    decreases |rest|
  {
    if |rest| <= 10 then rest
    else if rest[0] != CALL then [rest[0]] + Walk(rest[1..], at + 1, undo)
    else [CALL] + Rewrite(rest[1..5], at, undo) + Walk(rest[5..], at + 5, undo)
  }

  /** Translation is a bijection: on every buffer each direction undoes the other. */
  lemma {:induction false} WalkInverse(rest: seq<byte>, at: nat, undo: bool)
    requires at + |rest| < HALF
    ensures Walk(Walk(rest, at, undo), at, !undo) == rest
    decreases |rest|
  {
    hide Rewrite;
    var r := Walk(rest, at, undo);
    if |rest| > 10 {
      if rest[0] != CALL {
        WalkInverse(rest[1..], at + 1, undo);
        assert r[1..] == Walk(rest[1..], at + 1, undo);
      } else {
        WalkInverse(rest[5..], at + 5, undo);
        RewriteInverse(rest[1..5], at, undo);
        assert r[1..5] == Rewrite(rest[1..5], at, undo) && r[5..] == Walk(rest[5..], at + 5, undo);
        assert rest == [CALL] + rest[1..5] + rest[5..];
      }
    }
  }

  /** Distinct buffers stay distinct, and every buffer is the translation of some buffer. */
  lemma WalkBijective(a: seq<byte>, b: seq<byte>)
    requires |a| < HALF && |b| < HALF
    ensures Walk(a, 0, true) == Walk(b, 0, true) ==> a == b
    ensures Walk(Walk(a, 0, false), 0, true) == a
  {
    WalkInverse(a, 0, true);
    WalkInverse(b, 0, true);
    WalkInverse(a, 0, false);
  }

  /** The first `at` bytes are final and the rest is as it was. */
  ghost predicate OnTrack(goal: seq<byte>, s: seq<byte>, at: nat) {
    at <= |s| < HALF && goal == s[..at] + Walk(s[at..], at, true)
  }

  lemma Beginning(goal: seq<byte>, s: seq<byte>)
    requires |s| < HALF && goal == Walk(s, 0, true)
    ensures OnTrack(goal, s, 0)
  {
    assert s[0..] == s;
  }

  lemma Ending(goal: seq<byte>, s: seq<byte>, at: nat)
    requires at <= |s| < HALF && |s| - at <= 10
    ensures OnTrack(goal, s, at) ==> goal == s
    ensures Walk(s[at..], at, true) == s[at..]
  {
    assert s[..at] + s[at..] == s;
  }

  lemma Skip(goal: seq<byte>, s: seq<byte>, at: nat)
    requires OnTrack(goal, s, at) && at + 10 < |s| && s[at] != CALL
    ensures OnTrack(goal, s, at + 1)
  {
    assert s[at..][1..] == s[at + 1..];
    assert s[..at + 1] == s[..at] + [s[at]];
  }

  lemma Jump(goal: seq<byte>, s: seq<byte>, at: nat, b: seq<byte>)
    requires OnTrack(goal, s, at) && at + 10 < |s| < HALF && s[at] == CALL
    requires b == Rewrite(s[at + 1..at + 5], at, true)
    ensures OnTrack(goal, Put(s, at + 1, b), at + 5)
  {
    hide Rewrite;
    var t, rest := Put(s, at + 1, b), s[at..];
    assert rest[1..5] == s[at + 1..at + 5] && rest[5..] == s[at + 5..];
    assert t[at + 5..] == s[at + 5..];
    assert t[..at + 5] == s[..at] + ([CALL] + b);
  }

  lemma PutPrefix(s: seq<byte>, len: nat, at: nat, b: seq<byte>)
    requires at + |b| <= len <= |s|
    ensures Put(s, at, b)[..len] == Put(s[..len], at, b) && Put(s, at, b)[len..] == s[len..]
  {
  }

  // What the translation does to each byte

  /** From position `from` on the scan stops at `p`: it passes over four bytes after each 0xe8 and never looks at the last ten. */
  ghost predicate Stops(s: seq<byte>, from: nat, p: nat)
    decreases |s| - from
  {
    from + 10 < |s| &&
    if s[from] == 0xe8 then p == from || Stops(s, from + 5, p) else Stops(s, from + 1, p)
  }

  /** The 32-bit number stored at `p`, and its value as a signed number. */
  function StoredAt(s: seq<byte>, p: nat): nat
    requires p + 4 <= |s|
  {
    var a: int, b: int, c: int, d: int := s[p], s[p + 1], s[p + 2], s[p + 3];
    a + 0x100 * b + 0x1_0000 * c + 0x100_0000 * d
  }

  function SignedAt(s: seq<byte>, p: nat): int
    requires p + 4 <= |s|
  {
    var u := StoredAt(s, p);
    if u < 0x8000_0000 then u else u - 0x1_0000_0000
  }

  /** What becomes of a target `t` after a jump at `p`. */
  function Adjusted(t: int, p: nat): int {
    if 0 <= t < 12000000 then t - p else if 0 - p <= t < 0 then t + 12000000 else t
  }

  lemma FourBytes(s: seq<byte>, p: nat)
    requires p + 4 <= |s|
    ensures FromLE(s[p..p + 4]) == StoredAt(s, p)
  {
    var b := s[p..p + 4];
    assert b[1..][1..] == b[2..] && b[2..][1..] == b[3..] && b[3..][1..] == [];
    assert FromLE(b[3..]) == b[3];
    assert FromLE(b[2..]) == b[2] + 256 * FromLE(b[3..]);
    assert FromLE(b[1..]) == b[1] + 256 * FromLE(b[2..]);
  }

  lemma RewriteStored(s: seq<byte>, p: nat, r: seq<byte>, q: nat)
    requires p + 5 <= |s| < HALF && q + 4 <= |r| && r[q..q + 4] == Rewrite(s[p + 1..p + 5], p, true)
    ensures StoredAt(r, q) == Adjusted(SignedAt(s, p + 1), p) % 0x1_0000_0000
  {
    hide LE, FromLE, StoredAt;
    FourBytes(s, p + 1);
    FourBytes(r, q);
    var t := Turn(Target(s[p + 1..p + 5]), p, true);
    RangeValues();
    LERoundTrip(Unsigned(t), 4);
    Fits(s[p + 1..p + 5]);
    PatternOf(t);
  }

  lemma PatternOf(t: int)
    requires -HALF <= t < HALF
    ensures Unsigned(t) == t % 0x1_0000_0000 && Unsigned(t) < 0x1_0000_0000
  {
  }

  lemma {:induction false} TargetAt(s: seq<byte>, from: nat, p: nat)
    requires from <= |s| < HALF && Stops(s, from, p)
    ensures from <= p && p + 10 < |s| && s[p] == 0xe8
    ensures StoredAt(Walk(s[from..], from, true), p + 1 - from) == Adjusted(SignedAt(s, p + 1), p) % 0x1_0000_0000
    decreases |s| - from
  {
    hide Rewrite, Adjusted, SignedAt;
    var rest, r := s[from..], Walk(s[from..], from, true);
    if s[from] != 0xe8 {
      TargetAt(s, from + 1, p);
      assert rest[1..] == s[from + 1..];
      assert r == [s[from]] + Walk(s[from + 1..], from + 1, true);
    } else {
      assert rest[1..5] == s[from + 1..from + 5] && rest[5..] == s[from + 5..];
      var b, more := Rewrite(s[from + 1..from + 5], from, true), Walk(s[from + 5..], from + 5, true);
      assert r == [CALL] + b + more;
      if p == from {
        assert r[1..5] == b;
        RewriteStored(s, p, r, 1);
      } else {
        TargetAt(s, from + 5, p);
      }
    }
  }

  /** The byte at `i` is not one of the four after a stop. */
  ghost predicate Outside(s: seq<byte>, from: nat, i: nat) {
    forall p: nat :: Stops(s, from, p) ==> !(p < i <= p + 4)
  }

  lemma OutsideOn(s: seq<byte>, from: nat, i: nat)
    requires Outside(s, from, i) && from + 10 < |s|
    ensures if s[from] == 0xe8 then !(from < i <= from + 4) && Outside(s, from + 5, i) else Outside(s, from + 1, i)
  {
    assert s[from] == 0xe8 ==> Stops(s, from, from);
    var next := if s[from] == 0xe8 then from + 5 else from + 1;
    forall p: nat | Stops(s, next, p) ensures !(p < i <= p + 4) { assert Stops(s, from, p); }
  }

  lemma {:induction false} OtherAt(s: seq<byte>, from: nat, i: nat)
    requires from <= i < |s| < HALF && Outside(s, from, i)
    ensures Walk(s[from..], from, true)[i - from] == s[i]
    decreases |s| - from
  {
    hide Rewrite;
    var rest, r := s[from..], Walk(s[from..], from, true);
    if from + 10 < |s| {
      OutsideOn(s, from, i);
      if s[from] != 0xe8 {
        assert rest[1..] == s[from + 1..];
        assert r == [s[from]] + Walk(s[from + 1..], from + 1, true);
        if i > from { OtherAt(s, from + 1, i); }
      } else {
        assert rest[1..5] == s[from + 1..from + 5] && rest[5..] == s[from + 5..];
        assert r == [CALL] + Rewrite(s[from + 1..from + 5], from, true) + Walk(s[from + 5..], from + 5, true);
        if i > from { OtherAt(s, from + 5, i); }
      }
    }
  }

  /**
   * Where the scan stops, the target that follows becomes relative if it is below 12000000, moves up by
   * as much if it is negative and reaches no further back than the jump, and stays as it is otherwise; no
   * other byte changes.
   */
  lemma TranslatedBytes(s: seq<byte>)
    requires |s| < HALF
    ensures forall p: nat :: Stops(s, 0, p) ==> p + 10 < |s| && s[p] == 0xe8
    ensures forall p: nat :: Stops(s, 0, p) ==>
              StoredAt(Walk(s, 0, true), p + 1) == Adjusted(SignedAt(s, p + 1), p) % 0x1_0000_0000
    ensures forall i :: 0 <= i < |s| && Outside(s, 0, i) ==> Walk(s, 0, true)[i] == s[i]
  {
    hide Walk, StoredAt, Adjusted, SignedAt, Outside;
    assert s[0..] == s;
    forall p: nat | Stops(s, 0, p)
      ensures p + 10 < |s| && s[p] == 0xe8 && StoredAt(Walk(s, 0, true), p + 1) == Adjusted(SignedAt(s, p + 1), p) % 0x1_0000_0000
    {
      TargetAt(s, 0, p);
    }
    forall i | 0 <= i < |s| && Outside(s, 0, i) ensures Walk(s, 0, true)[i] == s[i] {
      OtherAt(s, 0, i);
    }
  }

  /** lzx_translate_jumps on the first `len` bytes of the output buffer */
  method TranslateJumps(buf: array<byte>, len: nat)
    requires len <= buf.Length && len < HALF
    modifies buf
    ensures buf[..len] == Walk(old(buf[..len]), 0, true)
    ensures buf[len..] == old(buf[len..])
  {
    hide Walk, Rewrite, Put, OnTrack;
    ghost var goal := Walk(buf[..len], 0, true);
    if len < 10 {
      Ending(goal, buf[..len], 0);
      return;
    }
    Beginning(goal, buf[..len]);
    var offset := 0;
    while offset < len - 10
      invariant 0 <= offset <= len && OnTrack(goal, buf[..len], offset)
      invariant buf[len..] == old(buf[len..])
    {
      if buf[offset] != CALL {
        Skip(goal, buf[..len], offset);
        offset := offset + 1;
        continue;
      }
      ghost var was := buf[..len];
      assert was[offset + 1..offset + 5] == buf[offset + 1..offset + 5];
      var b := Translate(buf[offset + 1..offset + 5], offset);
      WriteTarget(buf, offset + 1, b, len);
      Jump(goal, was, offset, b);
      offset := offset + 5;
    }
    Ending(goal, buf[..len], offset);
  }

  /** The translation of one jump target. */
  method Translate(b: seq<byte>, offset: nat) returns (r: seq<byte>)
    requires |b| == 4 && offset < HALF
    ensures r == Rewrite(b, offset, true)
  {
    hide LE, FromLE;
    var target := Target(b);
    if target >= 0 {
      if target < MAGIC { target := target - offset; }
    } else {
      if target >= 0 - offset { target := target + MAGIC; }
    }
    return LE(Unsigned(target), 4);
  }

  method WriteTarget(buf: array<byte>, at: nat, b: seq<byte>, ghost len: nat)
    requires |b| == 4 && at + 4 <= len <= buf.Length
    modifies buf
    ensures buf[..len] == Put(old(buf[..len]), at, b) && buf[len..] == old(buf[len..])
  {
    Blit(buf, at, b);
    PutPrefix(old(buf[..]), len, at, b);
    assert buf[..][..len] == buf[..len] && buf[..][len..] == buf[len..];
    assert old(buf[..][..len]) == old(buf[..len]) && old(buf[..][len..]) == old(buf[len..]);
  }
}
