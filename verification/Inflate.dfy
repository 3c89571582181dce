/** The decompressors as the WIM reader uses them: a length pass, then a pass into a shared buffer (src/wim.c, src/lzx.c, src/xca.c). */
module Inflate {
  import opened Bytes
  import opened Memory
  import opened Lz
  import LzxBits
  import LzxRuns = Lzx
  import LzxJumps
  import LzxDecoder
  import LzxFiles
  import LzxLiterals
  import LzxSettled
  import XcaRuns = Xca
  import XcaSettled
  import XcaFiles

  datatype Codec = Lzx | Xca | Unknown

  /** A buffer of compressed bytes and whatever lies after it. */
  function Following(z: seq<byte>, after: Source): Source {
    (i: nat) => if i < |z| then z[i] else after(i - |z|)
  }

  const NOTHING: Source := (i: nat) => 0

  ghost function XcaRun(z: seq<byte>, after: Source): XcaRuns.Run {
    XcaRuns.Parse(Following(z, after), |z|, XcaRuns.START)
  }

  ghost predicate LzxGood(z: seq<byte>) {
    LzxBits.Even(|z|) && LzxRuns.WholeRun(z).status.Good?
  }

  /** The value the length pass returns. */
  ghost function Reported(codec: Codec, z: seq<byte>, after: Source): int {
    match codec
    case Lzx => if LzxGood(z) then LzxRuns.WholeRun(z).out else -1
    case Xca => Outcome(XcaRun(z, after).p)
    case Unknown => -1
  }

  /** The decompressor stores no code length out of range. */
  ghost predicate Defined(codec: Codec, z: seq<byte>) {
    codec.Lzx? && LzxBits.Even(|z|) ==> !LzxRuns.WholeRun(z).status.Undefined?
  }

  /** How far into its buffer a run writes. */
  ghost function Extent(codec: Codec, z: seq<byte>, after: Source): nat {
    match codec
    case Lzx => if LzxBits.Even(|z|) then LzxRuns.WholeRun(z).extent else 0
    case Xca => Length(XcaRun(z, after).p.items)
    case Unknown => 0
  }

  /** A run keeps to the first `room` bytes of its buffer. */
  ghost predicate Fits(codec: Codec, z: seq<byte>, after: Source, room: nat) {
    Extent(codec, z, after) <= room && (codec.Lzx? && LzxBits.Even(|z|) ==> LzxRuns.WholeRun(z).out < LzxJumps.HALF)
  }

  /** What a run finds around its input: the memory after it and that below and in its buffer. */
  datatype Surroundings = Surroundings(after: Source, below: Below, buf: seq<byte>)

  /** The bytes a successful run leaves at the start of its buffer. */
  ghost function Output(codec: Codec, z: seq<byte>, u: Surroundings): Option<seq<byte>>
    requires Fits(codec, z, u.after, |u.buf|)
  {
    match codec
    case Lzx => if LzxGood(z) then Some(LzxSettled.Text(z, u.buf)) else None
    case Xca => if XcaRun(z, u.after).p.ok then Some(Expand(u.below, [], XcaRun(z, u.after).p.items)) else None
    case Unknown => None
  }

  /**
   * The condition on compressed bytes to determine the result alone: no zero offset of an LZX run
   * copies a byte the run has not written, an XCA run does not end on what lies past its input, and
   * its matches stay inside its output.
   */
  ghost predicate Steady(codec: Codec, z: seq<byte>) {
    match codec
    case Lzx => LzxGood(z) ==> LzxSettled.SettledFile(z)
    case Xca =>
      var run := XcaRun(z, NOTHING);
      XcaSettled.Contained(Following(z, NOTHING), |z|, XcaRuns.START) && (run.p.ok ==> Grounded(run.p.items))
    case Unknown => true
  }

  /** The decompressed bytes of such an input. */
  ghost function Inflated(codec: Codec, z: seq<byte>): Option<seq<byte>> {
    match codec
    case Lzx =>
      if LzxGood(z) && LzxRuns.WholeRun(z).out < LzxJumps.HALF then
        Some(LzxSettled.Text(z, Fill(LzxRuns.WholeRun(z).extent, 0)))
      else None
    case Xca => if XcaRun(z, NOTHING).p.ok then Some(Expand(LzxRuns.NOWHERE, [], XcaRun(z, NOTHING).p.items)) else None
    case Unknown => None
  }

  /** What follows the compressed bytes does not matter to a contained run. */
  lemma XcaSteady(z: seq<byte>, after: Source)
    requires Steady(Xca, z)
    ensures XcaSettled.Verdict(XcaRun(z, after)) == XcaSettled.Verdict(XcaRun(z, NOTHING))
  {
    hide XcaRuns.Parse, XcaSettled.Contained;
    XcaSettled.ContainedSame(Following(z, NOTHING), Following(z, after), |z|, XcaRuns.START);
  }

  /** The length pass reports the length of the decompressed bytes. */
  lemma SteadyReport(codec: Codec, z: seq<byte>, after: Source)
    requires Steady(codec, z)
    ensures Reported(codec, z, after) == Reported(codec, z, NOTHING)
    ensures Reported(codec, z, after) < LzxJumps.HALF ==> (Reported(codec, z, after) >= 0 <==> Inflated(codec, z).Some?)
    ensures Inflated(codec, z).Some? ==> Reported(codec, z, after) == |Inflated(codec, z).value|
    ensures Reported(codec, z, after) >= 0 ==> Extent(codec, z, after) == Extent(codec, z, NOTHING)
    ensures Reported(codec, z, after) >= 0 && codec.Xca? ==> Extent(codec, z, after) == Reported(codec, z, after)
  {
    hide XcaRuns.Parse, LzxRuns.Parse, LzxSettled.Settled, XcaSettled.Contained;
    match codec {
      case Lzx => if LzxGood(z) && LzxRuns.WholeRun(z).out < LzxJumps.HALF { TextLength(z, Fill(LzxRuns.WholeRun(z).extent, 0)); }
      case Xca => XcaSteady(z, after);
      case Unknown =>
    }
  }

  lemma TextLength(z: seq<byte>, buf: seq<byte>)
    requires LzxGood(z) && LzxRuns.WholeRun(z).out < LzxJumps.HALF && LzxRuns.WholeRun(z).extent <= |buf|
    ensures |LzxSettled.Text(z, buf)| == LzxRuns.WholeRun(z).out
  {
    hide LzxRuns.Parse, LzxRuns.Effect, LzxJumps.Walk;
    LzxRuns.StartSound(z);
    LzxRuns.PlainRun(z, LzxRuns.Start());
  }

  /** Without uncompressed blocks an LZX input is steady, and what it decompresses to is the translated expansion of its items. */
  lemma PlainInflated(z: seq<byte>)
    requires LzxGood(z) && LzxRuns.WholeRun(z).plain && LzxRuns.WholeRun(z).out < LzxJumps.HALF
    ensures Steady(Lzx, z) && Extent(Lzx, z, NOTHING) == Reported(Lzx, z, NOTHING)
    ensures var text := Expand(LzxRuns.NOWHERE, [], LzxRuns.WholeRun(z).items);
            |text| < LzxJumps.HALF && Inflated(Lzx, z) == Some(LzxJumps.Walk(text, 0, true))
  {
    hide LzxRuns.Parse, LzxRuns.Sound, LzxRuns.Effect, LzxJumps.Walk, LzxSettled.Settled, Expand;
    LzxRuns.StartSound(z);
    LzxRuns.PlainRun(z, LzxRuns.Start());
    LzxSettled.PlainSettled(z, LzxRuns.Start(), 0);
    var buf := Fill(LzxRuns.WholeRun(z).extent, 0);
    LzxRuns.PlainEffect(z, LzxRuns.Start(), buf);
    assert buf[..0] == [];
  }

  /** A steady input gives its decompressed bytes in any surroundings. */
  lemma SteadyOutput(codec: Codec, z: seq<byte>, u: Surroundings)
    requires Steady(codec, z) && Fits(codec, z, u.after, |u.buf|)
    ensures Output(codec, z, u) == Inflated(codec, z)
  {
    hide XcaRuns.Parse, LzxRuns.Parse, LzxSettled.SettledFile, LzxSettled.Text, XcaSettled.Contained, Grounded, Expand;
    match codec {
      case Lzx => if LzxGood(z) { LzxSettled.SettledText(z, u.buf, Fill(LzxRuns.WholeRun(z).extent, 0)); }
      case Xca =>
        XcaSteady(z, u.after);
        if XcaRun(z, NOTHING).p.ok { ExpandGrounded(u.below, LzxRuns.NOWHERE, XcaRun(z, NOTHING).p.items); }
      case Unknown =>
    }
  }

  /** An input that is not steady gives different results in some two surroundings. */
  lemma UnsteadyOutputs(codec: Codec, z: seq<byte>) returns (u: Surroundings, v: Surroundings)
    requires !Steady(codec, z) && (codec.Lzx? ==> LzxRuns.WholeRun(z).out < LzxJumps.HALF)
    ensures Fits(codec, z, u.after, |u.buf|) && Fits(codec, z, v.after, |v.buf|) && Output(codec, z, u) != Output(codec, z, v)
  {
    hide XcaRuns.Parse, LzxRuns.Parse, LzxSettled.SettledFile, LzxSettled.Text, XcaSettled.Contained, Expand;
    if codec.Lzx? {
      var a, b := LzxSettled.UnsettledTexts(z);
      u, v := Surroundings(NOTHING, LzxRuns.NOWHERE, a), Surroundings(NOTHING, LzxRuns.NOWHERE, b);
    } else if XcaSettled.Contained(Following(z, NOTHING), |z|, XcaRuns.START) {
      u, v := UngroundedOutputs(z);
    } else {
      u, v := UncontainedOutputs(z);
    }
  }

  lemma UngroundedOutputs(z: seq<byte>) returns (u: Surroundings, v: Surroundings)
    requires XcaRun(z, NOTHING).p.ok && !Grounded(XcaRun(z, NOTHING).p.items)
    ensures Fits(Xca, z, u.after, |u.buf|) && Fits(Xca, z, v.after, |v.buf|) && Output(Xca, z, u) != Output(Xca, z, v)
    ensures u.after == v.after == NOTHING
  {
    hide XcaRuns.Parse, Expand, Grounded;
    var items := XcaRun(z, NOTHING).p.items;
    XcaSettled.ParseSolid(Following(z, NOTHING), |z|, XcaRuns.START);
    var a: Below, b: Below := (i: nat) => 0, (i: nat) => 1;
    ExpandUngrounded(a, b, items);
    u, v := Surroundings(NOTHING, a, Fill(Length(items), 0)), Surroundings(NOTHING, b, Fill(Length(items), 0));
  }

  lemma UncontainedOutputs(z: seq<byte>) returns (u: Surroundings, v: Surroundings)
    requires !XcaSettled.Contained(Following(z, NOTHING), |z|, XcaRuns.START)
    ensures Fits(Xca, z, u.after, |u.buf|) && Fits(Xca, z, v.after, |v.buf|) && Output(Xca, z, u) != Output(Xca, z, v)
  {
    hide XcaRuns.Parse, Expand, XcaSettled.Contained;
    var a, b := XcaSettled.NotContained(Following(z, NOTHING), |z|, XcaRuns.START);
    u := FromMemory(z, a);
    v := FromMemory(z, b);
  }

  /** Surroundings with a given memory after the input and room for the output. */
  lemma FromMemory(z: seq<byte>, src: Source) returns (u: Surroundings)
    requires Alike(Following(z, NOTHING), src, |z|)
    ensures Fits(Xca, z, u.after, |u.buf|) && XcaRun(z, u.after) == XcaRuns.Parse(src, |z|, XcaRuns.START)
  {
    hide XcaRuns.Parse;
    var after: Source := (i: nat) => src(|z| + i);
    var f := Following(z, after);
    forall i: nat ensures f(i) == src(i) {
      if i < |z| { assert Following(z, NOTHING)(i) == src(i); }
    }
    XcaRuns.ParseLocal(src, f, |z|, XcaRuns.START);
    u := Surroundings(after, LzxRuns.NOWHERE, Fill(Length(XcaRun(z, after).p.items), 0));
  }

  /** Compressed bytes determine the result alone exactly if they are steady. */
  lemma SteadyExactly(codec: Codec, z: seq<byte>)
    requires codec.Lzx? && LzxGood(z) ==> LzxRuns.WholeRun(z).out < LzxJumps.HALF
    ensures Steady(codec, z) <==>
            forall u: Surroundings, v: Surroundings :: Fits(codec, z, u.after, |u.buf|) && Fits(codec, z, v.after, |v.buf|) ==>
              Output(codec, z, u) == Output(codec, z, v)
  {
    hide Steady, Fits, Output;
    if Steady(codec, z) {
      forall u: Surroundings, v: Surroundings | Fits(codec, z, u.after, |u.buf|) && Fits(codec, z, v.after, |v.buf|)
        ensures Output(codec, z, u) == Output(codec, z, v)
      {
        SteadyOutput(codec, z, u);
        SteadyOutput(codec, z, v);
      }
    } else {
      UnsteadyIsGood(codec, z);
      var u, v := UnsteadyOutputs(codec, z);
    }
  }

  lemma UnsteadyIsGood(codec: Codec, z: seq<byte>)
    requires !Steady(codec, z)
    ensures codec.Lzx? ==> LzxGood(z)
  {
  }

  // Both passes

  /** The compressed bytes determine whether they are taken for `n` bytes, and for which. */
  ghost predicate SteadyFor(codec: Codec, z: seq<byte>, n: nat) {
    Steady(codec, z) || forall after :: Reported(codec, z, after) != n
  }

  /** Where the length pass reports `n`, the buffer has room for the second. */
  ghost predicate Safe(codec: Codec, z: seq<byte>, n: nat, u: Surroundings) {
    Reported(codec, z, u.after) == n ==> Fits(codec, z, u.after, |u.buf|)
  }

  /** The outcome of a length pass that must report `n` and a second pass. */
  ghost function Accepted(codec: Codec, z: seq<byte>, n: nat, u: Surroundings): Option<seq<byte>>
    requires Safe(codec, z, n, u)
  {
    if Reported(codec, z, u.after) == n then Output(codec, z, u) else None
  }

  lemma InflatedLength(codec: Codec, z: seq<byte>)
    ensures Inflated(codec, z).Some? ==> |Inflated(codec, z).value| == Reported(codec, z, NOTHING)
  {
    hide XcaRuns.Parse, LzxRuns.Parse, LzxSettled.Text;
    if codec.Lzx? && Inflated(codec, z).Some? { TextLength(z, Fill(LzxRuns.WholeRun(z).extent, 0)); }
  }

  /** The two passes come out as the decompressed bytes say, in any surroundings. */
  lemma SteadyAccepted(codec: Codec, z: seq<byte>, n: nat, u: Surroundings)
    requires SteadyFor(codec, z, n) && Safe(codec, z, n, u) && n < LzxJumps.HALF
    ensures Reported(codec, z, u.after) == n <==> Inflated(codec, z).Some? && |Inflated(codec, z).value| == n
    ensures Accepted(codec, z, n, u) == if Reported(codec, z, NOTHING) == n then Inflated(codec, z) else None
  {
    hide Steady, Reported, Fits, Output, Inflated;
    InflatedLength(codec, z);
    if Steady(codec, z) {
      SteadyReport(codec, z, u.after);
      if Reported(codec, z, u.after) == n { SteadyOutput(codec, z, u); }
    }
  }

  lemma NotAccepted(codec: Codec, z: seq<byte>, n: nat, after: Source) returns (u: Surroundings, v: Surroundings)
    requires !Steady(codec, z) && Reported(codec, z, after) == n < LzxJumps.HALF
    ensures Safe(codec, z, n, u) && Safe(codec, z, n, v) && Accepted(codec, z, n, u) != Accepted(codec, z, n, v)
  {
    hide XcaRuns.Parse, LzxRuns.Parse, LzxSettled.SettledFile, LzxSettled.Text, XcaSettled.Contained, Expand, Grounded;
    if codec.Lzx? {
      var a, b := LzxSettled.UnsettledTexts(z);
      u, v := Surroundings(NOTHING, LzxRuns.NOWHERE, a), Surroundings(NOTHING, LzxRuns.NOWHERE, b);
    } else if XcaSettled.Contained(Following(z, NOTHING), |z|, XcaRuns.START) {
      XcaSettled.ContainedSame(Following(z, NOTHING), Following(z, after), |z|, XcaRuns.START);
      u, v := UngroundedOutputs(z);
    } else {
      var a, b := XcaSettled.NotContained(Following(z, NOTHING), |z|, XcaRuns.START);
      u := Surroundings(after, LzxRuns.NOWHERE, Fill(Extent(codec, z, after), 0));
      v := FromMemory(z, b);
    }
  }

  /** Compressed bytes determine the outcome of both passes exactly if they are steady or never report the length. */
  lemma AcceptedExactly(codec: Codec, z: seq<byte>, n: nat)
    requires n < LzxJumps.HALF
    ensures SteadyFor(codec, z, n) <==>
            forall u: Surroundings, v: Surroundings :: Safe(codec, z, n, u) && Safe(codec, z, n, v) ==>
              Accepted(codec, z, n, u) == Accepted(codec, z, n, v)
  {
    hide Steady, Safe, Accepted, Reported;
    if SteadyFor(codec, z, n) {
      forall u: Surroundings, v: Surroundings | Safe(codec, z, n, u) && Safe(codec, z, n, v)
        ensures Accepted(codec, z, n, u) == Accepted(codec, z, n, v)
      {
        SteadyAccepted(codec, z, n, u);
        SteadyAccepted(codec, z, n, v);
      }
    } else {
      var after :| Reported(codec, z, after) == n;
      var u, v := NotAccepted(codec, z, n, after);
    }
  }

  /** One call of a decompressor, with or without a buffer. */
  method Decompress(codec: Codec, z: seq<byte>, after: Source, buf: array?<byte>, below: Below) returns (r: int)
    requires Defined(codec, z) && (buf != null ==> Fits(codec, z, after, buf.Length))
    modifies buf
    ensures r == Reported(codec, z, after)
    ensures buf != null && r >= 0 ==> r <= buf.Length && Output(codec, z, Surroundings(after, below, old(buf[..]))) == Some(buf[..r])
    ensures buf != null ==> buf[Extent(codec, z, after)..] == old(buf[Extent(codec, z, after)..])
    ensures buf != null && codec.Lzx? && LzxBits.Even(|z|) ==> buf[..] == LzxDecoder.BufferAfter(z, old(buf[..]))
  {
    hide XcaRuns.Parse, LzxRuns.Parse, LzxDecoder.BufferAfter, LzxSettled.Text;
    ghost var was, e := if buf == null then [] else buf[..], Extent(codec, z, after);
    match codec {
      case Lzx =>
        r := LzxDecoder.Decompress(z, buf);
        if buf != null && LzxBits.Even(|z|) {
          if r >= 0 { LzxSettled.TextOfBuffer(z, was); }
          LzxSettled.PastExtent(z, was);
          assert r >= 0 ==> buf[..][..r] == buf[..r];
          assert buf[..][e..] == buf[e..] && was[e..] == old(buf[e..]);
        }
      case Xca =>
        r := XcaRuns.Decompress(Following(z, after), |z|, buf, below);
        if buf != null {
          assert was[..0] == [] && buf[..][..e] == buf[..e];
          assert buf[..][e..] == buf[e..] && was[e..] == old(buf[e..]);
        }
      case Unknown =>
        r := -1;
    }
  }

  /** The coding of XCA blocks is steady if no match reaches below the output, and decompresses to what its items expand to. */
  lemma CodedInflates(bs: seq<XcaFiles.Block>)
    requires XcaFiles.ValidBlocks(bs) && Grounded(XcaFiles.ItemsOf(bs))
    ensures Steady(Xca, XcaFiles.Encode(bs))
    ensures Inflated(Xca, XcaFiles.Encode(bs)) == Some(Expand(LzxRuns.NOWHERE, [], XcaFiles.ItemsOf(bs)))
  {
    hide XcaRuns.Parse, XcaFiles.ValidBlocks, XcaFiles.Encode, XcaFiles.ItemsOf, XcaSettled.Contained, Expand, Grounded;
    var z := XcaFiles.Encode(bs);
    assert Slice(Following(z, NOTHING), 0, |z|) == z;
    XcaFiles.EncodeDecodes(Following(z, NOTHING), bs);
    XcaSettled.InsideIsContained(Following(z, NOTHING), |z|, XcaRuns.START);
  }

  /** In either format every byte string has a steady input that decompresses to it and writes nothing else. */
  lemma EveryTextInflates(codec: Codec, original: seq<byte>) returns (z: seq<byte>)
    requires !codec.Unknown? && |original| < LzxJumps.HALF
    ensures Defined(codec, z) && Steady(codec, z) && Inflated(codec, z) == Some(original)
    ensures Extent(codec, z, NOTHING) == |original| && (original != [] ==> |z| > |original|)
  {
    hide LzxFiles.ValidFile, LzxFiles.FileOf, LzxFiles.ItemsOf, LzxRuns.WholeRun, LzxJumps.Walk, LzxSettled.SettledFile;
    hide XcaRun, XcaFiles.ValidBlocks, XcaFiles.Encode, XcaFiles.ItemsOf, XcaSettled.Contained, Expand, Grounded;
    if codec.Lzx? {
      var bs, pad := LzxLiterals.CodingExists(original);
      z := LzxFiles.FileOf(bs, pad);
      LzxFiles.CodingDecodes(bs, pad);
      LzxJumps.WalkInverse(original, 0, false);
      PlainInflated(z);
    } else {
      var bs := XcaFiles.CodingExists(original);
      z := XcaFiles.Encode(bs);
      CodedInflates(bs);
      SteadyReport(codec, z, NOTHING);
    }
  }

  // Inputs that report a full chunk

  /**
   * For any bytes there is an LZX input that reports a full chunk in both passes and writes those
   * bytes and no others, however many: it is steady exactly if they fill the chunk, and writes past
   * the chunk if they are more.
   */
  lemma IdleChunk(bytes: seq<byte>) returns (z: seq<byte>)
    requires |bytes| < 0x1_0000
    ensures Defined(Lzx, z) && LzxBits.Even(|z|) && LzxRuns.WholeRun(z).out < LzxJumps.HALF
    ensures forall after :: Reported(Lzx, z, after) == LzxRuns.DEFAULT_BLOCK_LEN
    ensures forall after :: Extent(Lzx, z, after) == LzxFiles.Larger(|bytes|, LzxRuns.DEFAULT_BLOCK_LEN)
    ensures forall buf :: LzxFiles.Larger(|bytes|, LzxRuns.DEFAULT_BLOCK_LEN) <= |buf| ==>
              LzxDecoder.BufferAfter(z, buf) == LzxDecoder.Translated(Put(buf, 0, bytes), LzxRuns.DEFAULT_BLOCK_LEN)
    ensures Steady(Lzx, z) <==> |bytes| >= LzxRuns.DEFAULT_BLOCK_LEN
  {
    hide LzxRuns.WholeRun, LzxDecoder.BufferAfter, LzxDecoder.Translated, XcaRun, LzxSettled.SettledFile, LzxSettled.Text, Put;
    z := LzxFiles.IdleFile(bytes);
    IdleSteady(z, bytes, LzxRuns.DEFAULT_BLOCK_LEN);
  }

  /** Such an input is steady exactly if the bytes it writes fill what it reports. */
  lemma IdleSteady(z: seq<byte>, bytes: seq<byte>, n: nat)
    requires LzxGood(z) && LzxRuns.WholeRun(z).out == n < LzxJumps.HALF && LzxRuns.WholeRun(z).extent == LzxFiles.Larger(|bytes|, n)
    requires forall buf :: LzxFiles.Larger(|bytes|, n) <= |buf| ==> LzxDecoder.BufferAfter(z, buf) == LzxDecoder.Translated(Put(buf, 0, bytes), n)
    ensures Steady(Lzx, z) <==> |bytes| >= n
  {
    hide LzxRuns.WholeRun, LzxDecoder.BufferAfter, LzxDecoder.Translated, LzxSettled.SettledFile, LzxSettled.Text, LzxJumps.Walk, Put;
    var m := LzxFiles.Larger(|bytes|, n);
    if |bytes| >= n {
      forall a, b | m <= |a| && m <= |b| ensures LzxSettled.Text(z, a) == LzxSettled.Text(z, b) {
        IdleText(z, bytes, n, a);
        IdleText(z, bytes, n, b);
        PutFills(a, bytes, n);
        PutFills(b, bytes, n);
      }
      LzxSettled.DeterminedExactly(z);
    } else {
      var a, b := Fill(m, 0), Fill(m, 1);
      IdleText(z, bytes, n, a);
      IdleText(z, bytes, n, b);
      PutShort(bytes, m, n);
      LzxJumps.WalkBijective(Put(a, 0, bytes)[..n], Put(b, 0, bytes)[..n]);
      if Steady(Lzx, z) { LzxSettled.SettledText(z, a, b); }
    }
  }

  lemma PutFills(buf: seq<byte>, bytes: seq<byte>, n: nat)
    requires n <= |bytes| <= |buf|
    ensures Put(buf, 0, bytes)[..n] == bytes[..n]
  {
  }

  lemma PutShort(bytes: seq<byte>, m: nat, n: nat)
    requires |bytes| < n <= m
    ensures Put(Fill(m, 0), 0, bytes)[..n] != Put(Fill(m, 1), 0, bytes)[..n]
  {
    var x, y := Put(Fill(m, 0), 0, bytes)[..n], Put(Fill(m, 1), 0, bytes)[..n];
    assert x[n - 1] != y[n - 1];
  }

  lemma IdleText(z: seq<byte>, bytes: seq<byte>, n: nat, buf: seq<byte>)
    requires LzxGood(z) && LzxRuns.WholeRun(z).out == n < LzxJumps.HALF && LzxRuns.WholeRun(z).extent <= |buf|
    requires n <= |buf| && |bytes| <= |buf| && LzxDecoder.BufferAfter(z, buf) == LzxDecoder.Translated(Put(buf, 0, bytes), n)
    ensures LzxSettled.Text(z, buf) == LzxJumps.Walk(Put(buf, 0, bytes)[..n], 0, true)
  {
    hide LzxRuns.WholeRun, LzxDecoder.BufferAfter, LzxSettled.Text, LzxJumps.Walk, Put;
    LzxSettled.TextOfBuffer(z, buf);
  }

  /** Some accepted input leaves in the chunk what was there before, so that two buffers come out differently. */
  lemma StaleChunk(a: seq<byte>, b: seq<byte>) returns (z: seq<byte>)
    requires |a| == |b| == LzxRuns.DEFAULT_BLOCK_LEN && a != b
    ensures forall after :: Reported(Lzx, z, after) == LzxRuns.DEFAULT_BLOCK_LEN
    ensures Defined(Lzx, z) && (forall after :: Fits(Lzx, z, after, LzxRuns.DEFAULT_BLOCK_LEN)) && !Steady(Lzx, z)
    ensures LzxBits.Even(|z|) && LzxDecoder.BufferAfter(z, a) != LzxDecoder.BufferAfter(z, b)
  {
    hide LzxRuns.WholeRun, LzxDecoder.BufferAfter, LzxDecoder.Translated, Steady, Defined, Reported, Extent;
    z := IdleChunk([]);
    LengthOfRun(z);
    assert Put(a, 0, []) == a && Put(b, 0, []) == b;
    TranslationsDiffer(a, b, LzxRuns.DEFAULT_BLOCK_LEN);
  }

  lemma LengthOfRun(z: seq<byte>)
    requires LzxBits.Even(|z|)
    ensures forall after :: Extent(Lzx, z, after) == LzxRuns.WholeRun(z).extent
  {
  }

  lemma TranslationsDiffer(a: seq<byte>, b: seq<byte>, n: nat)
    requires |a| == |b| == n < LzxJumps.HALF && a != b
    ensures LzxDecoder.Translated(a, n) != LzxDecoder.Translated(b, n)
  {
    hide LzxJumps.Walk;
    LzxJumps.WalkBijective(a, b);
    assert a[..n] == a && b[..n] == b;
    var x, y := LzxJumps.Walk(a, 0, true), LzxJumps.Walk(b, 0, true);
    assert x + a[n..] == x && y + b[n..] == y;
  }
}
