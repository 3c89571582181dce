/** Exactly when an LZX input determines its output, whatever the buffer held before (src/lzx.c). */
module LzxSettled {
  import opened Bytes
  import opened Lz
  import opened LzxBits
  import opened Lzx
  import opened LzxJumps
  import opened LzxDecoder

  function Max(a: nat, b: nat): nat {
    if a > b then a else b
  }

  /**
   * Along the run, every copy at offset zero stays below `known`, the end of what uncompressed
   * blocks have written: it copies no byte that the run has not written itself.
   */
  ghost predicate Settled(data: seq<byte>, s: State, known: nat)
    requires Sound(data, s)
    decreases Left(data, s.p)
  {
    match Next(data, s)
    case Emit(x, next) => (x.Copy? && x.offset == 0 && x.len > 0 ==> next.out <= known) && Settled(data, next, known)
    case Begin(next, _, bytes) => Settled(data, next, Max(known, s.out + |bytes|))
    case _ => true
  }

  // Settled runs

  lemma {:induction false} CopyAgrees(a: seq<byte>, b: seq<byte>, at: nat, offset: pos, n: nat, known: nat)
    requires |a| == |b| && offset <= at && at + n <= |a| && known <= |a| && at <= known && a[..known] == b[..known]
    ensures CopyWithin(a, at, offset, n)[..Max(known, at + n)] == CopyWithin(b, at, offset, n)[..Max(known, at + n)]
    decreases n
  {
    if n > 0 {
      var a', b' := a[at := a[at - offset]], b[at := b[at - offset]];
      assert a[at - offset] == a[..known][at - offset] == b[at - offset];
      var k := Max(known, at + 1);
      forall i | 0 <= i < k ensures a'[i] == b'[i] {
        if i != at { assert a[i] == a[..known][i] && b[i] == b[..known][i]; }
      }
      assert a'[..k] == b'[..k];
      CopyAgrees(a', b', at + 1, offset, n - 1, k);
    }
  }

  /** Writing a piece keeps two buffers in agreement, a copy at offset zero as far as they agreed before. */
  lemma PieceAgrees(a: seq<byte>, b: seq<byte>, at: nat, x: Piece, known: nat)
    requires |a| == |b| && at + PieceSize(x) <= |a| && known <= |a| && at <= known && a[..known] == b[..known]
    requires x.Copy? ==> x.offset <= at && (x.offset == 0 && x.len > 0 ==> at + x.len <= known)
    ensures Written(a, at, x)[..Max(known, at + PieceSize(x))] == Written(b, at, x)[..Max(known, at + PieceSize(x))]
  {
    hide CopyWithin;
    var k := Max(known, at + PieceSize(x));
    if x.Byte? {
      var a', b' := a[at := x.b], b[at := x.b];
      forall i | 0 <= i < k ensures a'[i] == b'[i] {
        if i != at { assert a[i] == a[..known][i] && b[i] == b[..known][i]; }
      }
      assert a'[..k] == b'[..k];
    } else if x.offset > 0 {
      CopyAgrees(a, b, at, x.offset, x.len, known);
    } else {
      CopyNothing(a, at, x.len);
      CopyNothing(b, at, x.len);
    }
  }

  lemma PutAgrees(a: seq<byte>, b: seq<byte>, at: nat, bytes: seq<byte>, known: nat)
    requires |a| == |b| && at + |bytes| <= |a| && known <= |a| && at <= known && a[..known] == b[..known]
    ensures var k := Max(known, at + |bytes|); Put(a, at, bytes)[..k] == Put(b, at, bytes)[..k]
  {
    var k, a', b' := Max(known, at + |bytes|), Put(a, at, bytes), Put(b, at, bytes);
    forall i | 0 <= i < k ensures a'[i] == b'[i] {
      if !(at <= i < at + |bytes|) { assert a[i] == a[..known][i] && b[i] == b[..known][i]; }
    }
    assert a'[..k] == b'[..k];
  }

  /** What one event does to a settled run. */
  lemma SettledStep(data: seq<byte>, s: State, known: nat)
    requires Sound(data, s) && Settled(data, s, known)
    ensures var e := Next(data, s);
            e.Emit? ==> Settled(data, e.next, known) && (e.x.Copy? && e.x.offset == 0 && e.x.len > 0 ==> e.next.out <= known)
    ensures var e := Next(data, s); e.Begin? ==> Settled(data, e.next, Max(known, s.out + |e.bytes|))
  {
    hide Next;
  }

  /** A settled run leaves two buffers in agreement on its output. */
  lemma {:induction false} SettledAgrees(data: seq<byte>, s: State, known: nat, a: seq<byte>, b: seq<byte>)
    requires Sound(data, s) && Settled(data, s, known) && Parse(data, s).extent <= |a| == |b|
    requires Max(known, s.out) <= |a| && a[..Max(known, s.out)] == b[..Max(known, s.out)]
    ensures Parse(data, s).out <= |a| && Effect(data, s, a)[..Parse(data, s).out] == Effect(data, s, b)[..Parse(data, s).out]
    decreases Left(data, s.p)
  {
    hide Next, Written, Put, Settled, Parse, Effect;
    PlainRun(data, s);
    SettledStep(data, s, known);
    EventRun(data, s);
    EventEffect(data, s, a);
    EventEffect(data, s, b);
    var e, n := Next(data, s), Max(known, s.out);
    if e.Emit? {
      PieceAgrees(a, b, s.out, e.x, n);
      SettledAgrees(data, e.next, known, Written(a, s.out, e.x), Written(b, s.out, e.x));
    } else if e.Begin? {
      PutAgrees(a, b, s.out, e.bytes, n);
      SettledAgrees(data, e.next, Max(known, s.out + |e.bytes|), Put(a, s.out, e.bytes), Put(b, s.out, e.bytes));
    } else {
      assert a[..s.out] == a[..n][..s.out] && b[..s.out] == b[..n][..s.out];
    }
  }

  /** A run without uncompressed blocks has no zero offsets. */
  lemma {:induction false} PlainSettled(data: seq<byte>, s: State, known: nat)
    requires Sound(data, s) && Parse(data, s).plain
    ensures Settled(data, s, known)
    decreases Left(data, s.p)
  {
    hide Next;
    PlainRun(data, s);
    var e := Next(data, s);
    if e.Emit? {
      PlainSettled(data, e.next, known);
    } else if e.Begin? {
      PlainSettled(data, e.next, Max(known, s.out + |e.bytes|));
    }
  }

  // Unsettled runs

  lemma {:induction false} CopyElsewhere(buf: seq<byte>, at: nat, offset: nat, n: nat, p: nat)
    requires offset <= at && at + n <= |buf| && p < |buf| && !(at <= p < at + n)
    ensures CopyWithin(buf, at, offset, n)[p] == buf[p]
    decreases n
  {
    if n > 0 { CopyElsewhere(buf[at := buf[at - offset]], at + 1, offset, n - 1, p); }
  }

  lemma PieceElsewhere(buf: seq<byte>, at: nat, x: Piece, p: nat)
    requires at + PieceSize(x) <= |buf| && (x.Copy? ==> x.offset <= at) && p < |buf| && !(at <= p < at + PieceSize(x))
    ensures Written(buf, at, x)[p] == buf[p]
  {
    hide CopyWithin;
    if x.Copy? { CopyElsewhere(buf, at, x.offset, x.len, p); }
  }

  /** A run never writes below its output position. */
  lemma {:induction false} EffectAbove(data: seq<byte>, s: State, buf: seq<byte>, p: nat)
    requires Sound(data, s) && Parse(data, s).extent <= |buf| && p < s.out <= |buf|
    ensures Effect(data, s, buf)[p] == buf[p]
    decreases Left(data, s.p)
  {
    hide Next, Written, Put;
    var e := Next(data, s);
    if e.Emit? {
      PlainRun(data, e.next);
      PieceElsewhere(buf, s.out, e.x, p);
      EffectAbove(data, e.next, Written(buf, s.out, e.x), p);
    } else if e.Begin? {
      PlainRun(data, e.next);
      EffectAbove(data, e.next, Put(buf, s.out, e.bytes), p);
    }
  }

  /** The byte at `p` comes through the run as it was, in every buffer. */
  ghost predicate Untouched(data: seq<byte>, s: State, p: nat)
    requires Sound(data, s)
  {
    p < Parse(data, s).extent && forall buf :: Parse(data, s).extent <= |buf| ==> Effect(data, s, buf)[p] == buf[p]
  }

  /** An unsettled run leaves some byte of its output untouched. */
  lemma {:induction false} UnsettledByte(data: seq<byte>, s: State, known: nat) returns (p: nat)
    requires Sound(data, s) && !Settled(data, s, known)
    ensures Max(known, s.out) <= p < Parse(data, s).out && Untouched(data, s, p)
    decreases Left(data, s.p)
  {
    hide Next, Parse, Untouched;
    var e := Next(data, s);
    EventRun(data, s);
    PlainRun(data, e.next);
    if e.Begin? {
      p := UnsettledByte(data, e.next, Max(known, s.out + |e.bytes|));
      UntouchedByBlock(data, s, p);
    } else {
      p := Max(known, s.out);
      if !Settled(data, e.next, known) { p := UnsettledByte(data, e.next, known); }
      UntouchedByPiece(data, s, p);
    }
  }

  lemma UntouchedByBlock(data: seq<byte>, s: State, p: nat)
    requires Sound(data, s) && Next(data, s).Begin? && Untouched(data, Next(data, s).next, p) && p >= s.out + |Next(data, s).bytes|
    ensures Untouched(data, s, p)
  {
    hide Next, Parse, Effect;
    var e := Next(data, s);
    EventRun(data, s);
    forall buf | Parse(data, s).extent <= |buf| ensures Effect(data, s, buf)[p] == buf[p] {
      EventEffect(data, s, buf);
      assert Put(buf, s.out, e.bytes)[p] == buf[p];
    }
  }

  /** A byte outside the piece that the rest of the run leaves alone, or one inside a copy at offset zero. */
  lemma UntouchedByPiece(data: seq<byte>, s: State, p: nat)
    requires Sound(data, s) && Next(data, s).Emit? && s.out <= p < Parse(data, s).extent
    requires var e := Next(data, s);
             (p >= e.next.out && Untouched(data, e.next, p)) || (p < e.next.out && e.x.Copy? && e.x.offset == 0)
    ensures Untouched(data, s, p)
  {
    hide Next, Parse, Effect;
    forall buf | Parse(data, s).extent <= |buf| ensures Effect(data, s, buf)[p] == buf[p] {
      EventEffect(data, s, buf);
      EmitKeeps(data, s, buf, p);
    }
  }

  lemma EventRun(data: seq<byte>, s: State)
    requires Sound(data, s)
    ensures var e := Next(data, s);
            e.Emit? || e.Begin? ==> Parse(data, s).out == Parse(data, e.next).out && Parse(data, s).extent >= Parse(data, e.next).extent
    ensures Next(data, s).Begin? ==> s.out + |Next(data, s).bytes| <= Parse(data, s).extent
    ensures !Next(data, s).Emit? && !Next(data, s).Begin? ==> Parse(data, s).out == s.out
  {
    hide Next;
  }

  lemma EventEffect(data: seq<byte>, s: State, buf: seq<byte>)
    requires Sound(data, s) && Parse(data, s).extent <= |buf|
    ensures var e := Next(data, s); e.Emit? || e.Begin? ==> e.next.out <= |buf| && Parse(data, e.next).extent <= |buf|
    ensures var e := Next(data, s); e.Emit? ==> Effect(data, s, buf) == Effect(data, e.next, Written(buf, s.out, e.x))
    ensures var e := Next(data, s); e.Begin? ==> s.out + |e.bytes| <= |buf|
    ensures var e := Next(data, s); e.Begin? ==> Effect(data, s, buf) == Effect(data, e.next, Put(buf, s.out, e.bytes))
    ensures !Next(data, s).Emit? && !Next(data, s).Begin? ==> Effect(data, s, buf) == buf
  {
    hide Next, Written, Put;
    var e := Next(data, s);
    if e.Emit? || e.Begin? { PlainRun(data, e.next); }
  }

  /** A byte outside the piece, or inside a copy at offset zero, is as it was. */
  lemma EmitKeeps(data: seq<byte>, s: State, buf: seq<byte>, p: nat)
    requires Sound(data, s) && Next(data, s).Emit? && Parse(data, s).extent <= |buf| && Parse(data, Next(data, s).next).extent <= |buf|
    requires s.out <= p < |buf| && Next(data, s).next.out <= |buf|
    requires var e := Next(data, s);
             (p >= e.next.out && Effect(data, e.next, Written(buf, s.out, e.x))[p] == Written(buf, s.out, e.x)[p])
             || (p < e.next.out && e.x.Copy? && e.x.offset == 0)
    ensures var e := Next(data, s); Effect(data, e.next, Written(buf, s.out, e.x))[p] == buf[p]
  {
    hide Next, Parse, Effect, CopyWithin;
    var e := Next(data, s);
    if p >= e.next.out {
      PieceElsewhere(buf, s.out, e.x, p);
    } else {
      CopyNothing(buf, s.out, e.x.len);
      EffectAbove(data, e.next, Written(buf, s.out, e.x), p);
    }
  }

  // The exact condition

  /** The first `out` bytes of the buffer after a successful call. */
  ghost function Text(data: seq<byte>, buf: seq<byte>): seq<byte>
    requires Even(|data|) && WholeRun(data).status.Good? && WholeRun(data).extent <= |buf| && WholeRun(data).out < HALF
  {
    StartSound(data);
    PlainRun(data, Start());
    Walk(Effect(data, Start(), buf)[..WholeRun(data).out], 0, true)
  }

  lemma TextOfBuffer(data: seq<byte>, buf: seq<byte>)
    requires Even(|data|) && WholeRun(data).status.Good? && WholeRun(data).extent <= |buf| && WholeRun(data).out < HALF
    ensures WholeRun(data).out <= |buf| && BufferAfter(data, buf)[..WholeRun(data).out] == Text(data, buf)
  {
    hide Parse, Effect, Walk, Sound;
    StartSound(data);
    PlainRun(data, Start());
  }

  ghost predicate SettledFile(data: seq<byte>)
    requires Even(|data|)
  {
    StartSound(data);
    Settled(data, Start(), 0)
  }

  /** Bytes past the extent of a run stay as they are and do not matter to it. */
  lemma {:induction false} EffectPrefix(data: seq<byte>, s: State, a: seq<byte>, tail: seq<byte>)
    requires Sound(data, s) && Parse(data, s).extent <= |a|
    ensures Effect(data, s, a + tail) == Effect(data, s, a) + tail
    decreases Left(data, s.p)
  {
    hide Next, Written, Put;
    var e := Next(data, s);
    if e.Emit? {
      PlainRun(data, e.next);
      WrittenPrefix(a, tail, s.out, e.x);
      EffectPrefix(data, e.next, Written(a, s.out, e.x), tail);
    } else if e.Begin? {
      PlainRun(data, e.next);
      PutPrefixes(a, tail, s.out, e.bytes);
      EffectPrefix(data, e.next, Put(a, s.out, e.bytes), tail);
    }
  }

  lemma PutPrefixes(a: seq<byte>, tail: seq<byte>, at: nat, bytes: seq<byte>)
    requires at + |bytes| <= |a|
    ensures Put(a + tail, at, bytes) == Put(a, at, bytes) + tail
  {
  }

  lemma {:induction false} CopyPrefix(a: seq<byte>, tail: seq<byte>, at: nat, offset: nat, n: nat)
    requires offset <= at && at + n <= |a|
    ensures CopyWithin(a + tail, at, offset, n) == CopyWithin(a, at, offset, n) + tail
    decreases n
  {
    if n > 0 {
      assert (a + tail)[at := (a + tail)[at - offset]] == a[at := a[at - offset]] + tail;
      CopyPrefix(a[at := a[at - offset]], tail, at + 1, offset, n - 1);
    }
  }

  lemma WrittenPrefix(a: seq<byte>, tail: seq<byte>, at: nat, x: Piece)
    requires at + PieceSize(x) <= |a| && (x.Copy? ==> x.offset <= at)
    ensures Written(a + tail, at, x) == Written(a, at, x) + tail
  {
    hide CopyWithin;
    if x.Copy? { CopyPrefix(a, tail, at, x.offset, x.len); } else { assert (a + tail)[at := x.b] == a[at := x.b] + tail; }
  }

  /** Only the bytes below the extent matter to the text. */
  lemma TextBelowExtent(data: seq<byte>, buf: seq<byte>)
    requires Even(|data|) && WholeRun(data).status.Good? && WholeRun(data).extent <= |buf| && WholeRun(data).out < HALF
    ensures Text(data, buf) == Text(data, buf[..WholeRun(data).extent])
  {
    hide Parse, Effect, Walk, Sound;
    StartSound(data);
    PlainRun(data, Start());
    var n := WholeRun(data).extent;
    EffectPrefix(data, Start(), buf[..n], buf[n..]);
    assert buf == buf[..n] + buf[n..];
    var b := Effect(data, Start(), buf[..n]);
    assert (b + buf[n..])[..WholeRun(data).out] == b[..WholeRun(data).out];
  }

  /** A call leaves the buffer past the extent of its run alone. */
  lemma PastExtent(data: seq<byte>, buf: seq<byte>)
    requires Even(|data|) && WholeRun(data).extent <= |buf| && WholeRun(data).out < HALF
    ensures |BufferAfter(data, buf)| == |buf| && BufferAfter(data, buf)[WholeRun(data).extent..] == buf[WholeRun(data).extent..]
  {
    hide Parse, Effect, Walk, Sound;
    StartSound(data);
    PlainRun(data, Start());
    var n, out := WholeRun(data).extent, WholeRun(data).out;
    EffectPrefix(data, Start(), buf[..n], buf[n..]);
    assert buf == buf[..n] + buf[n..];
    var b := Effect(data, Start(), buf);
    assert b[n..] == buf[n..] && b[out..][n - out..] == b[n..];
    assert Translated(b, out)[n..] == b[out..][n - out..];
  }

  lemma SettledText(data: seq<byte>, a: seq<byte>, b: seq<byte>)
    requires Even(|data|) && WholeRun(data).status.Good? && WholeRun(data).out < HALF
    requires WholeRun(data).extent <= |a| && WholeRun(data).extent <= |b| && SettledFile(data)
    ensures Text(data, a) == Text(data, b)
  {
    hide Parse, Effect, Walk, Sound, Settled;
    StartSound(data);
    var n := WholeRun(data).extent;
    TextBelowExtent(data, a);
    TextBelowExtent(data, b);
    assert a[..n][..0] == b[..n][..0];
    SettledAgrees(data, Start(), 0, a[..n], b[..n]);
  }

  /** An input determines its output, whatever the buffer held before, exactly if it is settled. */
  lemma DeterminedExactly(data: seq<byte>)
    requires Even(|data|) && WholeRun(data).status.Good? && WholeRun(data).out < HALF
    ensures (forall a, b :: WholeRun(data).extent <= |a| && WholeRun(data).extent <= |b| ==> Text(data, a) == Text(data, b))
            <==> SettledFile(data)
  {
    hide Parse, Effect, Walk, Sound, Settled, Text;
    if SettledFile(data) {
      forall a, b | WholeRun(data).extent <= |a| && WholeRun(data).extent <= |b| ensures Text(data, a) == Text(data, b) {
        SettledText(data, a, b);
      }
    } else {
      var a, b := UnsettledTexts(data);
      assert Text(data, a) != Text(data, b);
    }
  }

  /** Two buffers that an unsettled input turns into different texts. */
  lemma UnsettledTexts(data: seq<byte>) returns (a: seq<byte>, b: seq<byte>)
    requires Even(|data|) && WholeRun(data).status.Good? && WholeRun(data).out < HALF && !SettledFile(data)
    ensures WholeRun(data).extent <= |a| == |b| && Text(data, a) != Text(data, b)
  {
    hide Parse, Effect, Walk, Sound, Settled;
    StartSound(data);
    PlainRun(data, Start());
    var n, out := WholeRun(data).extent, WholeRun(data).out;
    var p := UnsettledByte(data, Start(), 0);
    a, b := Fill(n, 0), Fill(n, 1);
    var x, y := Effect(data, Start(), a), Effect(data, Start(), b);
    assert x[p] == 0 && y[p] == 1;
    assert x[..out][p] != y[..out][p];
    WalkBijective(x[..out], y[..out]);
  }
}
