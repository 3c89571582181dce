/** LZX blocks and tokens (src/lzx.c, src/lzx.h). */
module Lzx {
  import opened Bytes
  import opened Bits
  import opened Huffman
  import opened Lz
  import opened LzxBits

  const LITERALS: nat := 256
  const SLOTS: nat := 30
  const MAIN_CODES: nat := 496
  const LENGTH_CODES: nat := 249
  const ALIGN_CODES: nat := 8
  const PRETREE_CODES: nat := 20
  const DEFAULT_BLOCK_LEN: nat := 32768

  /** lzx_footer_bits */
  function FooterBits(slot: nat): (r: nat)
    ensures r <= 17 && (slot < SLOTS ==> r <= 13)
  {
    if slot < 2 then 0 else if slot < 38 then slot / 2 - 1 else 17
  }

  /** lzx_position_base */
  function PositionBase(slot: nat): (r: nat)
    ensures r >= slot
  {
    if slot == 0 then 0 else
      NumberBound(ToBits(0, FooterBits(slot - 1)));
      PositionBase(slot - 1) + Pow2(FooterBits(slot - 1))
  }

  /** What a token adds to the output. */
  datatype Piece = Byte(b: byte) | Copy(offset: nat, len: nat)

  function PieceSize(x: Piece): nat {
    if x.Byte? then 1 else x.len
  }

  // Code lengths

  /** `n` numbers of `bits` bits each. */
  function ReadLengths(data: seq<byte>, p: Place, n: nat, bits: nat): (r: Res<(seq<nat>, Place)>)
    requires Inside(data, p) && bits <= 4 && n < 0x1_0000
    ensures r.Ok? ==> |r.value.0| == n && ValidLengths(r.value.0) && Inside(data, r.value.1) && Left(data, r.value.1) <= Left(data, p)
    ensures !r.Undef?
    decreases n
  {
    if n == 0 then Ok(([], p)) else
      var before := ReadLengths(data, p, n - 1, bits);
      if !before.Ok? then Fail else
        var (ls, p') := before.value;
        var last := GetBits(data, p', bits);
        if !last.Ok? then Fail else
          SmallPow2(bits);
          Ok((ls + [last.value.0], last.value.1))
  }

  lemma SmallPow2(bits: nat)
    requires bits <= 4
    ensures Pow2(bits) <= 16
  {
    Pow2Values();
  }

  /** The next code length, given its value in the previous block: length, repeats and place. */
  ghost function Change(data: seq<byte>, p: Place, pre: seq<nat>, was: nat): (r: Res<(nat, nat, Place)>)
    requires Inside(data, p) && Built(pre) && |pre| == PRETREE_CODES && was <= 16
    ensures r.Ok? ==> r.value.0 <= 16 && Inside(data, r.value.2) && Left(data, r.value.2) <= Left(data, p)
  {
    var first := DecodeSymbol(data, p, pre);
    if !first.Ok? then Fail else
      var (code, p') := first.value;
      if code <= 16 then Ok(((was + 17 - code) % 17, 0, p'))
      else if code == 17 then Repeat(GetBits(data, p', 4), 3)
      else if code == 18 then Repeat(GetBits(data, p', 5), 19)
      else
        var count := GetBits(data, p', 1);
        if !count.Ok? then Fail else
          var second := DecodeSymbol(data, count.value.1, pre);
          if !second.Ok? then Fail
          else if second.value.0 > was + 17 then Undef
          else Ok(((was + 17 - second.value.0) % 17, count.value.0 + 3, second.value.1))
  }

  function Repeat(count: Res<(nat, Place)>, base: nat): Res<(nat, nat, Place)> {
    if count.Ok? then Ok((0, count.value.0 + base, count.value.1)) else Fail
  }

  /** The code lengths from index `i` on, the next `dup` of them repeating the last. */
  ghost function Lengths(data: seq<byte>, p: Place, pre: seq<nat>, ls: seq<nat>, i: nat, dup: nat): (r: Res<(seq<nat>, Place)>)
    requires Inside(data, p) && Built(pre) && |pre| == PRETREE_CODES && ValidLengths(ls)
    requires i <= |ls| && (dup > 0 ==> i > 0)
    ensures r.Ok? ==> |r.value.0| == |ls| && ValidLengths(r.value.0) && Inside(data, r.value.1) && Left(data, r.value.1) <= Left(data, p)
    decreases |ls| - i
  {
    if i == |ls| then (if dup > 0 then Fail else Ok((ls, p)))
    else if dup > 0 then Lengths(data, p, pre, ls[i := ls[i - 1]], i + 1, dup - 1)
    else
      var c := Change(data, p, pre, ls[i]);
      if !c.Ok? then (if c.Fail? then Fail else Undef)
      else Lengths(data, c.value.2, pre, ls[i := c.value.0], i + 1, c.value.1)
  }

  /** lzx_pretree: a table of code lengths, coded with an alphabet of its own. */
  ghost function Pretree(data: seq<byte>, p: Place, ls: seq<nat>): (r: Res<(seq<nat>, Place)>)
    requires Inside(data, p) && ValidLengths(ls)
    ensures r.Ok? ==> |r.value.0| == |ls| && ValidLengths(r.value.0) && Inside(data, r.value.1) && Left(data, r.value.1) <= Left(data, p)
  {
    var pre := ReadLengths(data, p, PRETREE_CODES, 4);
    if !pre.Ok? || !Built(pre.value.0) then Fail
    else Lengths(data, pre.value.1, pre.value.0, ls, 0, 0)
  }

  // Blocks

  /** The decoder between tokens. It is plain until it meets an uncompressed block. */
  datatype State = State(p: Place, out: nat, limit: nat, aligned: bool, rep: seq<nat>,
                         main: seq<nat>, len: seq<nat>, align: seq<nat>, plain: bool)

  predicate Sound(data: seq<byte>, s: State) {
    && Inside(data, s.p) && |s.rep| == 3 && (s.plain ==> s.rep[0] > 0 && s.rep[1] > 0 && s.rep[2] > 0)
    && |s.main| == MAIN_CODES && |s.len| == LENGTH_CODES && |s.align| == ALIGN_CODES
    && Built(s.main) && Built(s.len) && Built(s.align)
  }

  /** Block type, block length and place. */
  function BlockStart(data: seq<byte>, p: Place): (r: Res<(nat, nat, Place)>)
    requires Inside(data, p)
    ensures r.Ok? ==> Inside(data, r.value.2) && Left(data, r.value.2) < Left(data, p)
    ensures !r.Undef?
  {
    var kind := GetBits(data, p, 3);
    if !kind.Ok? then Fail else
      var def := GetBits(data, kind.value.1, 1);
      if !def.Ok? then Fail
      else if def.value.0 > 0 then Ok((kind.value.0, DEFAULT_BLOCK_LEN, def.value.1))
      else
        var high := GetBits(data, def.value.1, 8);
        if !high.Ok? then Fail else
          var low := GetBits(data, high.value.1, 8);
          if !low.Ok? then Fail else Ok((kind.value.0, 256 * high.value.0 + low.value.0, low.value.1))
  }

  /** lzx_main_alphabet: the lengths of the literals, then those of the match symbols. */
  ghost function MainTable(data: seq<byte>, p: Place, ls: seq<nat>): (r: Res<(seq<nat>, Place)>)
    requires Inside(data, p) && ValidLengths(ls) && |ls| == MAIN_CODES
    ensures r.Ok? ==> |r.value.0| == |ls| && Built(r.value.0) && Inside(data, r.value.1) && Left(data, r.value.1) <= Left(data, p)
  {
    var first := Pretree(data, p, ls[..LITERALS]);
    if !first.Ok? then first else
      var second := Pretree(data, first.value.1, ls[LITERALS..]);
      if !second.Ok? then second else
        var all := first.value.0 + second.value.0;
        if Built(all) then Ok((all, second.value.1)) else Fail
  }

  /** lzx_length_alphabet */
  ghost function LengthTable(data: seq<byte>, p: Place, ls: seq<nat>): (r: Res<(seq<nat>, Place)>)
    requires Inside(data, p) && ValidLengths(ls)
    ensures r.Ok? ==> |r.value.0| == |ls| && Built(r.value.0) && Inside(data, r.value.1) && Left(data, r.value.1) <= Left(data, p)
  {
    var table := Pretree(data, p, ls);
    if !table.Ok? then table
    else if Built(table.value.0) then table else Fail
  }

  /** lzx_alignoffset_alphabet */
  function AlignTable(data: seq<byte>, p: Place): (r: Res<(seq<nat>, Place)>)
    requires Inside(data, p)
    ensures r.Ok? ==> |r.value.0| == ALIGN_CODES && Built(r.value.0) && Inside(data, r.value.1) && Left(data, r.value.1) <= Left(data, p)
  {
    var table := ReadLengths(data, p, ALIGN_CODES, 3);
    if !table.Ok? || Built(table.value.0) then table else Fail
  }

  /** The tables of a verbatim or aligned offset block. */
  ghost function Tables(data: seq<byte>, s: State): (r: Res<State>)
    requires Sound(data, s)
    ensures r.Ok? ==> Sound(data, r.value) && Left(data, r.value.p) <= Left(data, s.p)
    ensures r.Ok? ==> r.value.out == s.out && r.value.plain == s.plain && r.value.limit == s.limit
  {
    var align := if s.aligned then AlignTable(data, s.p) else Ok((s.align, s.p));
    if !align.Ok? then Fail else
      var main := MainTable(data, align.value.1, s.main);
      if !main.Ok? then (if main.Fail? then Fail else Undef) else
        var len := LengthTable(data, main.value.1, s.len);
        if !len.Ok? then (if len.Fail? then Fail else Undef)
        else Ok(s.(p := len.value.1, align := align.value.0, main := main.value.0, len := len.value.0))
  }

  /** The repeated offsets and the bytes of an uncompressed block, which do not count as output. */
  function Uncompressed(data: seq<byte>, s: State, len: nat): (r: Res<(State, seq<byte>)>)
    requires Sound(data, s)
    ensures r.Ok? ==> Sound(data, r.value.0) && Left(data, r.value.0.p) <= Left(data, s.p)
    ensures r.Ok? ==> r.value.0.out == r.value.0.limit == s.out && !r.value.0.plain && |r.value.1| == len
    ensures !r.Undef?
  {
    var pad := GetBits(data, s.p, 1);
    if !pad.Ok? then Fail else
      var at := pad.value.1.offset;
      if at + 12 + len > |data| then Fail else
        var rep := [FromLE(data[at..at + 4]), FromLE(data[at + 4..at + 8]), FromLE(data[at + 8..at + 12])];
        OddSkip(|data|, at, 12);
        OddSkip(|data|, at + 12, len);
        Ok((s.(p := Place(at + 12 + len + len % 2, []), limit := s.out, rep := rep, plain := false),
            data[at + 12..at + 12 + len]))
  }

  /** Type and length of a block. */
  datatype Header = Header(kind: nat, len: nat)

  /** lzx_block_header, and the contents of an uncompressed block. */
  ghost function Block(data: seq<byte>, s: State): (r: Res<(State, Header, seq<byte>)>)
    requires Sound(data, s)
    ensures r.Ok? ==> Sound(data, r.value.0) && Left(data, r.value.0.p) < Left(data, s.p) && r.value.0.out == s.out
    ensures r.Ok? ==> |r.value.2| == (if r.value.1.kind == 3 then r.value.1.len else 0)
    ensures r.Ok? ==> r.value.0.limit == (if r.value.1.kind == 3 then s.out else s.out + r.value.1.len)
    ensures r.Ok? ==> r.value.0.plain == (s.plain && r.value.1.kind != 3)
  {
    var start := BlockStart(data, s.p);
    if !start.Ok? then Fail else
      var (kind, len, p) := start.value;
      var s' := s.(p := p, limit := if kind == 3 then s.out else s.out + len, aligned := kind == 2);
      if kind == 1 || kind == 2 then
        var t := Tables(data, s');
        if t.Ok? then Ok((t.value, Header(kind, len), [])) else if t.Fail? then Fail else Undef
      else if kind == 3 then
        var t := Uncompressed(data, s', len);
        if t.Ok? then Ok((t.value.0, Header(kind, len), t.value.1)) else Fail
      else Fail
  }

  // Tokens

  /** The offset of a match in a position slot, and the repeated offsets after it. */
  ghost function Offset(data: seq<byte>, s: State, p: Place, slot: nat): (r: Res<(nat, seq<nat>, Place)>)
    requires Sound(data, s) && Inside(data, p) && slot < SLOTS
    ensures r.Ok? ==> |r.value.1| == 3 && Inside(data, r.value.2) && Left(data, r.value.2) <= Left(data, p)
    ensures !r.Undef?
    ensures r.Ok? && s.plain ==> r.value.0 > 0 && r.value.1[0] > 0 && r.value.1[1] > 0 && r.value.1[2] > 0
  {
    if slot < 3 then
      Ok((s.rep[slot], s.rep[slot := s.rep[0]][0 := s.rep[slot]], p))
    else
      var n := FooterBits(slot);
      var aligned := s.aligned && n >= 3;
      var verbatim := GetBits(data, p, if aligned then n - 3 else n);
      if !verbatim.Ok? then Fail
      else if !aligned then Ok(Fresh(s, slot, verbatim.value.0, verbatim.value.1))
      else
        var low := DecodeSymbol(data, verbatim.value.1, s.align);
        if !low.Ok? then Fail
        else Ok(Fresh(s, slot, 8 * verbatim.value.0 + low.value.0, low.value.1))
  }

  function Fresh(s: State, slot: nat, footer: nat, p: Place): (r: (nat, seq<nat>, Place))
    requires |s.rep| == 3 && slot >= 3
    ensures r.0 > 0
  {
    var offset := PositionBase(slot) + footer - 2;
    (offset, [offset, s.rep[0], s.rep[1]], p)
  }

  /** lzx_token */
  ghost function Token(data: seq<byte>, s: State): (r: Res<(Piece, State)>)
    requires Sound(data, s)
    ensures r.Ok? ==> Sound(data, r.value.1) && Left(data, r.value.1.p) < Left(data, s.p)
    ensures r.Ok? ==> r.value.1.out == s.out + PieceSize(r.value.0) && r.value.1.plain == s.plain && r.value.1.limit == s.limit
    ensures r.Ok? && r.value.0.Copy? ==> r.value.0.offset <= s.out && (s.plain ==> r.value.0.offset > 0)
    ensures !r.Undef?
  {
    var main := DecodeSymbol(data, s.p, s.main);
    if !main.Ok? then Fail
    else if main.value.0 < LITERALS then Ok((Byte(main.value.0), s.(p := main.value.1, out := s.out + 1)))
    else MatchToken(data, s.(p := main.value.1), main.value.0 - LITERALS)
  }

  ghost function MatchToken(data: seq<byte>, s: State, sym: nat): (r: Res<(Piece, State)>)
    requires Sound(data, s) && sym < MAIN_CODES - LITERALS
    ensures r.Ok? ==> Sound(data, r.value.1) && Left(data, r.value.1.p) <= Left(data, s.p)
    ensures r.Ok? ==> r.value.1.out == s.out + PieceSize(r.value.0) && r.value.1.plain == s.plain && r.value.1.limit == s.limit
    ensures r.Ok? && r.value.0.Copy? ==> r.value.0.offset <= s.out && (s.plain ==> r.value.0.offset > 0)
    ensures !r.Undef?
  {
    var len := if sym % 8 == 7 then DecodeSymbol(data, s.p, s.len) else Ok((0, s.p));
    if !len.Ok? then Fail else
      var n := sym % 8 + 2 + len.value.0;
      var off := Offset(data, s, len.value.1, sym / 8);
      if !off.Ok? then Fail
      else if off.value.0 > s.out then Fail
      else Ok((Copy(off.value.0, n), s.(p := off.value.2, out := s.out + n, rep := off.value.1)))
  }

  // Whole runs

  datatype Event = Emit(x: Piece, next: State) | Begin(next: State, head: Header, bytes: seq<byte>) | End | Error | Unknown

  /** What the decoder does next: a token inside a block, otherwise a block if there is input. */
  ghost function Next(data: seq<byte>, s: State): (e: Event)
    requires Sound(data, s)
    ensures e.Emit? || e.Begin? ==> Sound(data, e.next) && Left(data, e.next.p) < Left(data, s.p)
    ensures e.Emit? ==> e.next.out == s.out + PieceSize(e.x) && e.next.plain == s.plain && e.next.limit == s.limit > s.out
    ensures e.Emit? && e.x.Copy? ==> e.x.offset <= s.out && (s.plain ==> e.x.offset > 0)
    ensures e.Begin? ==> e.next.out == s.out && |e.bytes| == (if e.head.kind == 3 then e.head.len else 0)
    ensures e.Begin? ==> s.limit <= s.out && e.next.limit == (if e.head.kind == 3 then s.out else s.out + e.head.len)
    ensures e.Begin? ==> e.next.plain == (s.plain && e.head.kind != 3)
    ensures e.End? ==> s.limit <= s.out
  {
    if s.out < s.limit then
      match Token(data, s)
      case Ok(t) => Emit(t.0, t.1)
      case Fail => Error
      case Undef => Unknown
    else if s.p.offset >= |data| then End
    else
      match Block(data, s)
      case Ok(t) => Begin(t.0, t.1, t.2)
      case Fail => Error
      case Undef => Unknown
  }

  function ItemOf(x: Piece): (r: Item)
    requires x.Copy? ==> x.offset > 0
    ensures Size(r) == PieceSize(x)
  {
    if x.Byte? then Literal(x.b) else Match(x.offset, x.len)
  }

  datatype Status = Good | Bad | Undefined

  /**
   * A run: how it ends, whether it met no uncompressed block, the length it reports, the
   * extent of what it writes, and the items of its plain part.
   */
  datatype Run = Run(status: Status, plain: bool, out: nat, extent: nat, items: seq<Item>)

  ghost function Parse(data: seq<byte>, s: State): Run
    requires Sound(data, s)
    decreases Left(data, s.p)
  {
    match Next(data, s)
    case End => Run(Good, s.plain, s.out, s.out, [])
    case Error => Run(Bad, s.plain, s.out, s.out, [])
    case Unknown => Run(Undefined, s.plain, s.out, s.out, [])
    case Emit(x, next) =>
      var r := Parse(data, next);
      if s.plain then r.(items := [ItemOf(x)] + r.items) else r
    case Begin(next, _, bytes) =>
      var r := Parse(data, next);
      r.(extent := if s.out + |bytes| > r.extent then s.out + |bytes| else r.extent)
  }

  function NoLengths(n: nat): (r: seq<nat>)
    ensures |r| == n && (forall i :: 0 <= i < n ==> r[i] == 0)
  {
    seq<nat>(n, (i: int) requires 0 <= i => 0)
  }

  function Start(): State {
    State(Place(0, []), 0, 0, false, [1, 1, 1], NoLengths(MAIN_CODES), NoLengths(LENGTH_CODES), NoLengths(ALIGN_CODES), true)
  }

  lemma StartSound(data: seq<byte>)
    requires Even(|data|)
    ensures Sound(data, Start())
  {
  }

  /** The run on a whole input. */
  ghost function WholeRun(data: seq<byte>): Run
    requires Even(|data|)
  {
    StartSound(data);
    Parse(data, Start())
  }

  /** The length reported by a plain run is that of its items, and is all it writes. */
  lemma {:induction false} PlainRun(data: seq<byte>, s: State)
    requires Sound(data, s)
    ensures var r := Parse(data, s);
            && r.out >= s.out && r.extent >= r.out
            && (r.plain ==> s.plain && r.out == s.out + Length(r.items) && r.extent == r.out)
    decreases Left(data, s.p)
  {
    hide Next;
    var e := Next(data, s);
    if e.Emit? {
      PlainRun(data, e.next);
      if s.plain { LengthCons(ItemOf(e.x), Parse(data, e.next).items); }
    } else if e.Begin? {
      PlainRun(data, e.next);
    }
  }

  /** Where the uncompressed blocks of a run end, at most. */
  ghost function StoredEnd(data: seq<byte>, s: State): nat
    requires Sound(data, s)
    decreases Left(data, s.p)
  {
    match Next(data, s)
    case Emit(_, next) => StoredEnd(data, next)
    case Begin(next, _, bytes) =>
      var end := StoredEnd(data, next);
      if bytes != [] && s.out + |bytes| > end then s.out + |bytes| else end
    case _ => 0
  }

  /** A run writes past the length it reports exactly if an uncompressed block ends past it. */
  lemma {:induction false} ExtentOf(data: seq<byte>, s: State)
    requires Sound(data, s)
    ensures var r, end := Parse(data, s), StoredEnd(data, s); r.extent == if end > r.out then end else r.out
    decreases Left(data, s.p)
  {
    hide Next;
    var e := Next(data, s);
    if e.Emit? || e.Begin? {
      PlainRun(data, e.next);
      ExtentOf(data, e.next);
    }
  }

  // The block headers of a run

  /** The headers of the blocks a run comes to, in order. */
  ghost function Blocks(data: seq<byte>, s: State): seq<Header>
    requires Sound(data, s)
    decreases Left(data, s.p)
  {
    match Next(data, s)
    case Emit(_, next) => Blocks(data, next)
    case Begin(next, head, _) => [head] + Blocks(data, next)
    case _ => []
  }

  /** The bytes by which tokens run past the end of their blocks. */
  ghost function Overrun(data: seq<byte>, s: State): nat
    requires Sound(data, s)
    decreases Left(data, s.p)
  {
    match Next(data, s)
    case Emit(_, next) => (if next.out > s.limit then next.out - s.limit else 0) + Overrun(data, next)
    case Begin(next, _, _) => Overrun(data, next)
    case _ => 0
  }

  /** The total length the headers give. */
  function Described(hs: seq<Header>): nat {
    if hs == [] then 0 else hs[0].len + Described(hs[1..])
  }

  /** The length of the uncompressed blocks among them. */
  function Lost(hs: seq<Header>): nat {
    if hs == [] then 0 else (if hs[0].kind == 3 then hs[0].len else 0) + Lost(hs[1..])
  }

  predicate NoneUncompressed(hs: seq<Header>) {
    hs == [] || (hs[0].kind != 3 && NoneUncompressed(hs[1..]))
  }

  /** A run is plain exactly if no header it comes to is that of an uncompressed block. */
  lemma {:induction false} PlainByHeaders(data: seq<byte>, s: State)
    requires Sound(data, s)
    ensures Parse(data, s).plain <==> s.plain && NoneUncompressed(Blocks(data, s))
    decreases Left(data, s.p)
  {
    hide Next;
    var e := Next(data, s);
    if e.Emit? || e.Begin? {
      PlainByHeaders(data, e.next);
    }
    if e.Begin? {
      assert Blocks(data, s)[1..] == Blocks(data, e.next);
    }
  }

  /**
   * The length a successful run reports is what its headers and overruns add up to, less the
   * uncompressed blocks: it is right exactly if those are empty.
   */
  lemma {:induction false} Accounting(data: seq<byte>, s: State)
    requires Sound(data, s) && Parse(data, s).status.Good?
    ensures var hs := Blocks(data, s);
            Parse(data, s).out + Lost(hs) == (if s.out < s.limit then s.limit else s.out) + Described(hs) + Overrun(data, s)
    decreases Left(data, s.p)
  {
    hide Next;
    var e := Next(data, s);
    if e.Emit? {
      Accounting(data, e.next);
    } else if e.Begin? {
      Accounting(data, e.next);
      assert Blocks(data, s)[1..] == Blocks(data, e.next);
    }
  }

  /** The whole input: the report is the described length exactly if no uncompressed block has contents. */
  lemma ReportExact(data: seq<byte>)
    requires Even(|data|) && WholeRun(data).status.Good?
    ensures Sound(data, Start())
    ensures var hs := Blocks(data, Start());
            && (WholeRun(data).out == Described(hs) + Overrun(data, Start()) <==> Lost(hs) == 0)
            && (WholeRun(data).plain <==> NoneUncompressed(hs))
            && (WholeRun(data).plain ==> WholeRun(data).out == Length(WholeRun(data).items))
  {
    hide Parse, Blocks, Overrun, Sound;
    StartSound(data);
    Accounting(data, Start());
    PlainByHeaders(data, Start());
    PlainRun(data, Start());
  }

  // What a run writes

  /** Copying forwards, byte by byte; at offset zero bytes are copied to themselves. */
  function CopyWithin(buf: seq<byte>, at: nat, offset: nat, n: nat): (r: seq<byte>)
    requires offset <= at && at + n <= |buf|
    ensures |r| == |buf|
    decreases n
  {
    if n == 0 then buf else CopyWithin(buf[at := buf[at - offset]], at + 1, offset, n - 1)
  }

  lemma {:induction false} CopyNothing(buf: seq<byte>, at: nat, n: nat)
    requires at + n <= |buf|
    ensures CopyWithin(buf, at, 0, n) == buf
    decreases n
  {
    if n > 0 {
      assert buf[at := buf[at]] == buf;
      CopyNothing(buf, at + 1, n - 1);
    }
  }

  function Written(buf: seq<byte>, at: nat, x: Piece): (r: seq<byte>)
    requires at + PieceSize(x) <= |buf| && (x.Copy? ==> x.offset <= at)
    ensures |r| == |buf|
  {
    if x.Byte? then buf[at := x.b] else CopyWithin(buf, at, x.offset, x.len)
  }

  /** The buffer after a run, uncompressed blocks and zero offsets included. */
  ghost function Effect(data: seq<byte>, s: State, buf: seq<byte>): (r: seq<byte>)
    requires Sound(data, s) && Parse(data, s).extent <= |buf|
    ensures |r| == |buf|
    decreases Left(data, s.p)
  {
    match Next(data, s)
    case Emit(x, next) => PlainRun(data, next); Effect(data, next, Written(buf, s.out, x))
    case Begin(next, _, bytes) => Effect(data, next, Put(buf, s.out, bytes))
    case _ => buf
  }

  /** LZX matches never reach below the buffer, so what lies there is immaterial. */
  const NOWHERE: Below := (n: nat) => 0

  lemma {:induction false} CopySnoc(buf: seq<byte>, at: nat, offset: nat, n: nat)
    requires offset <= at && at + n < |buf|
    ensures var b := CopyWithin(buf, at, offset, n);
            CopyWithin(buf, at, offset, n + 1) == b[at + n := b[at + n - offset]]
    decreases n
  {
    if n > 0 { CopySnoc(buf[at := buf[at - offset]], at + 1, offset, n - 1); }
  }

  /** At a positive offset that is a match of the output language. */
  lemma {:induction false} CopyIsMatch(buf: seq<byte>, at: nat, offset: pos, n: nat)
    requires offset <= at && at + n <= |buf|
    ensures CopyWithin(buf, at, offset, n) == CopyMatch(NOWHERE, buf[..at], offset, n) + buf[at + n..]
    decreases n
  {
    if n > 0 {
      CopyIsMatch(buf, at, offset, n - 1);
      CopySnoc(buf, at, offset, n - 1);
    } else {
      assert buf == buf[..at] + buf[at..];
    }
  }

  lemma WrittenIsApplied(buf: seq<byte>, at: nat, x: Piece)
    requires at + PieceSize(x) <= |buf| && (x.Copy? ==> 0 < x.offset <= at)
    ensures Written(buf, at, x) == Apply(NOWHERE, buf[..at], ItemOf(x)) + buf[at + PieceSize(x)..]
  {
    hide CopyWithin, CopyMatch;
    if x.Copy? { CopyIsMatch(buf, at, x.offset, x.len); }
  }

  /** A plain run writes the expansion of its items and nothing else. */
  lemma {:induction false} PlainEffect(data: seq<byte>, s: State, buf: seq<byte>)
    requires Sound(data, s) && Parse(data, s).plain && Parse(data, s).extent <= |buf|
    ensures var r := Parse(data, s);
            s.out <= r.out <= |buf| && Effect(data, s, buf) == Expand(NOWHERE, buf[..s.out], r.items) + buf[r.out..]
    decreases Left(data, s.p)
  {
    hide Next, Apply, Written, Length;
    PlainRun(data, s);
    var e, r := Next(data, s), Parse(data, s);
    if e.Emit? {
      PlainRun(data, e.next);
      var b := Written(buf, s.out, e.x);
      PlainEffect(data, e.next, b);
      WrittenIsApplied(buf, s.out, e.x);
      var one, rest := [ItemOf(e.x)], Parse(data, e.next).items;
      ExpandAppend(NOWHERE, buf[..s.out], one, rest);
      SingleExpand(buf[..s.out], ItemOf(e.x));
      assert b[..e.next.out] == Apply(NOWHERE, buf[..s.out], ItemOf(e.x));
      assert b[r.out..] == buf[e.next.out..][r.out - e.next.out..];
    } else if e.Begin? {
      PlainRun(data, e.next);
      assert Put(buf, s.out, e.bytes) == buf;
      PlainEffect(data, e.next, buf);
    } else {
      assert buf == buf[..s.out] + buf[s.out..];
    }
  }

  lemma SingleExpand(out: seq<byte>, item: Item)
    ensures Expand(NOWHERE, out, [item]) == Apply(NOWHERE, out, item)
  {
    assert [item][..0] == [];
  }
}
