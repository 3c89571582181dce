/** The cpio "newc" parser (src/cpio.c, src/cpio.h, strtoul in src/string.c). */
module Cpio {
  import opened Bytes
  import opened Memory

  /** Range of size_t and unsigned long. */
  const LONGS: nat := 0x1_0000_0000_0000_0000
  const HEADER_LEN: nat := 110
  const FILESIZE: nat := 54
  const NAMESIZE: nat := 94

  /** "070701" */
  const MAGIC: seq<byte> := [48, 55, 48, 55, 48, 49]

  /** "TRAILER!!!" */
  const TRAILER: seq<byte> := [84, 82, 65, 73, 76, 69, 82, 33, 33, 33]

  // Numbers

  /** The value of a digit, or at least 16 for any other character. */
  function Digit(c: byte): nat {
    if c >= 97 then c - 97 + 10
    else if c >= 65 then c - 65 + 10
    else if c > 57 then c
    else if c >= 48 then c - 48
    else c + 0xffff_ffd0
  }

  predicate IsSpace(c: byte) {
    c == 32 || 9 <= c <= 13
  }

  /** A string is given with its final NUL. */
  predicate IsString(s: seq<byte>) {
    s != [] && s[|s| - 1] == 0
  }

  function SkipSpace(s: seq<byte>, i: nat): (r: nat)
    requires IsString(s) && i < |s|
    ensures i <= r < |s| && !IsSpace(s[r]) && forall k :: i <= k < r ==> IsSpace(s[k])
    decreases |s| - i
  {
    if IsSpace(s[i]) then SkipSpace(s, i + 1) else i
  }

  function Digits(s: seq<byte>, i: nat, v: nat): nat
    requires i < |s| && IsString(s)
    decreases |s| - i
  {
    if Digit(s[i]) >= 16 then v else Digits(s, i + 1, 16 * v + Digit(s[i]))
  }

  /** Where the digits start. */
  function AfterSign(s: seq<byte>): (r: nat)
    requires IsString(s)
    ensures r < |s|
  {
    var i := SkipSpace(s, 0);
    if s[i] == 43 || s[i] == 45 then i + 1 else i
  }

  /** strtoul in base 16, for strings short enough not to overflow. */
  function Number(s: seq<byte>): nat
    requires IsString(s)
  {
    var v := Digits(s, AfterSign(s), 0);
    if s[SkipSpace(s, 0)] == 45 then (LONGS - v) % LONGS else v
  }

  /** cpio_value */
  function Field(src: Source, at: nat): nat {
    Number(Slice(src, at, 8) + [0])
  }

  method ReadField(src: Source, at: nat) returns (v: nat)
    ensures v == Field(src, at)
  {
    var s: seq<byte> := Slice(src, at, 8) + [0];
    var i, negate := 0, false;
    while IsSpace(s[i])
      invariant 0 <= i < |s| && SkipSpace(s, i) == SkipSpace(s, 0)
      decreases |s| - i
    {
      i := i + 1;
    }
    if s[i] == 43 {
      i := i + 1;
    } else if s[i] == 45 {
      i := i + 1;
      negate := true;
    }
    v := 0;
    while Digit(s[i]) < 16
      invariant 0 <= i < |s| && Digits(s, i, v) == Digits(s, AfterSign(s), 0)
      decreases |s| - i
    {
      v := 16 * v + Digit(s[i]);
      i := i + 1;
    }
    if negate { v := (LONGS - v) % LONGS; }
  }

  // Extraction

  /** cpio_align */
  function Align(n: nat): nat {
    (n + 3) % LONGS / 4 * 4
  }

  /** A call of the file handler: where the name is, and where and how long the data is. */
  datatype Call = Call(name: nat, at: nat, len: nat)

  /** What the handler returns for the last of the calls made so far. */
  type Handler = seq<Call> -> int

  /** The parser returns, or stays for ever at an entry of total size zero. */
  datatype Outcome = Returned(rc: int, calls: seq<Call>) | Stays

  /** The calls made once the handler has been called `n` more times for the same entry. */
  function Again(calls: seq<Call>, call: Call, n: nat): seq<Call>
    decreases n
  {
    if n == 0 then calls else Again(calls + [call], call, n - 1)
  }

  predicate Objects(file: Handler, calls: seq<Call>, call: Call, n: nat) {
    file(Again(calls, call, n)) != 0
  }

  /** How often the handler must be called again before it objects. */
  ghost function Patience(file: Handler, calls: seq<Call>, call: Call, n: nat): (r: nat)
    requires Objects(file, calls, call, n)
    ensures r <= n && Objects(file, calls, call, r)
    decreases n
  {
    if Objects(file, calls, call, 0) then 0 else Patience(file, calls + [call], call, n - 1) + 1
  }

  /** Calling the handler for the same entry until it objects. */
  ghost function Repeated(file: Handler, calls: seq<Call>, call: Call): Outcome {
    if exists n: nat :: Objects(file, calls, call, n) then
      var n: nat :| Objects(file, calls, call, n);
      var all := Again(calls, call, Patience(file, calls, call, n));
      Returned(file(all), all)
    else Stays
  }

  predicate ZeroWord(src: Source, at: nat) {
    src(at) == 0 && src(at + 1) == 0 && src(at + 2) == 0 && src(at + 3) == 0
  }

  /** Number of padding bytes before the next entry. */
  function Padding(src: Source, at: nat, len: nat): (n: nat)
    ensures n <= len
    decreases len
  {
    if len >= 4 && ZeroWord(src, at) then 4 + Padding(src, at + 4, len - 4) else 0
  }

  function DataOffset(src: Source, at: nat): nat {
    Align((HEADER_LEN + Field(src, at + NAMESIZE)) % LONGS)
  }

  /** The bytes an entry takes; the last one need not be padded. */
  function EntrySize(src: Source, at: nat, len: nat): nat {
    var n := (DataOffset(src, at) + Field(src, at + FILESIZE)) % LONGS;
    if n < len then Align(n) else n
  }

  predicate IsTrailer(src: Source, name: nat) {
    Slice(src, name, |TRAILER| + 1) == TRAILER + [0]
  }

  datatype Check = Continue(call: Call, size: nat) | Stop(rc: int)

  /** The tests on an entry at `at` with `len` bytes left, after padding. */
  function Examine(src: Source, at: nat, len: nat): (c: Check)
    ensures c.Continue? ==> c.size <= len
  {
    if len == 0 then Stop(0)
    else if len < HEADER_LEN then Stop(-1)
    else if Slice(src, at, |MAGIC|) != MAGIC then Stop(-1)
    else if EntrySize(src, at, len) > len then Stop(-1)
    else if IsTrailer(src, at + HEADER_LEN) then Stop(0)
    else Continue(Call(at + HEADER_LEN, at + DataOffset(src, at), Field(src, at + FILESIZE)), EntrySize(src, at, len))
  }

  ghost function Extraction(src: Source, at: nat, len: nat, file: Handler, done: seq<Call>): Outcome
    decreases len
  {
    var pad := Padding(src, at, len);
    match Examine(src, at + pad, len - pad)
    case Stop(rc) => Returned(rc, done)
    case Continue(call, size) =>
      var calls := done + [call];
      if file(calls) != 0 then Returned(file(calls), calls)
      else if size == 0 then Repeated(file, calls, call)
      else Extraction(src, at + pad + size, len - pad - size, file, calls)
  }

  /** cpio_extract */
  method Extract(src: Source, at0: nat, len0: nat, file: Handler) returns (rc: int, calls: seq<Call>)
    requires !Extraction(src, at0, len0, file, []).Stays?
    ensures Extraction(src, at0, len0, file, []) == Returned(rc, calls)
  {
    hide Examine, Padding;
    var at, len := at0, len0;
    calls := [];
    while true
      invariant at >= 0 && len >= 0 && Extraction(src, at, len, file, calls) == Extraction(src, at0, len0, file, [])
      decreases len
    {
      var pad := SkipPadding(src, at, len);
      at, len := at + pad, len - pad;
      var c := GetEntry(src, at, len);
      if c.Stop? { return c.rc, calls; }
      calls := calls + [c.call];
      rc := file(calls);
      if rc != 0 { return; }
      if c.size == 0 {
        rc, calls := StayAt(file, calls, c.call);
        return;
      }
      at, len := at + c.size, len - c.size;
    }
  }

  /** At an entry of size zero the loop comes back to the same header until the handler objects. */
  method StayAt(file: Handler, calls0: seq<Call>, call: Call) returns (rc: int, calls: seq<Call>)
    requires file(calls0) == 0 && !Repeated(file, calls0, call).Stays?
    ensures Repeated(file, calls0, call) == Returned(rc, calls)
  {
    ghost var n: nat :| Objects(file, calls0, call, n);
    calls, rc := calls0, 0;
    while rc == 0
      invariant rc == file(calls) && Objects(file, calls, call, n)
      invariant Repeated(file, calls0, call) == Repeated(file, calls, call)
      decreases n
    {
      RepeatedStep(file, calls, call, n);
      calls := calls + [call];
      rc := file(calls);
      n := n - 1;
    }
    RepeatedNow(file, calls, call);
  }

  lemma RepeatedNow(file: Handler, calls: seq<Call>, call: Call)
    requires file(calls) != 0
    ensures Repeated(file, calls, call) == Returned(file(calls), calls)
  {
    RepeatedIs(file, calls, call, 0);
  }

  lemma {:induction false} PatienceUnique(file: Handler, calls: seq<Call>, call: Call, m: nat, n: nat)
    requires Objects(file, calls, call, m) && Objects(file, calls, call, n)
    ensures Patience(file, calls, call, m) == Patience(file, calls, call, n)
    decreases m
  {
    if !Objects(file, calls, call, 0) {
      PatienceUnique(file, calls + [call], call, m - 1, n - 1);
    }
  }

  lemma RepeatedIs(file: Handler, calls: seq<Call>, call: Call, n: nat)
    requires Objects(file, calls, call, n)
    ensures var all := Again(calls, call, Patience(file, calls, call, n)); Repeated(file, calls, call) == Returned(file(all), all)
  {
    var m: nat :| Objects(file, calls, call, m) && Repeated(file, calls, call) == Returned(file(Again(calls, call, Patience(file, calls, call, m))), Again(calls, call, Patience(file, calls, call, m)));
    PatienceUnique(file, calls, call, m, n);
  }

  lemma RepeatedStep(file: Handler, calls: seq<Call>, call: Call, n: nat)
    requires file(calls) == 0 && Objects(file, calls, call, n)
    ensures n > 0 && Objects(file, calls + [call], call, n - 1)
    ensures Repeated(file, calls, call) == Repeated(file, calls + [call], call)
  {
    RepeatedIs(file, calls, call, n);
    RepeatedIs(file, calls + [call], call, n - 1);
  }

  method SkipPadding(src: Source, at0: nat, len0: nat) returns (pad: nat)
    ensures pad == Padding(src, at0, len0)
  {
    hide ZeroWord;
    pad := 0;
    while len0 - pad >= 4 && ZeroWord(src, at0 + pad)
      invariant pad <= len0 && Padding(src, at0, len0) == pad + Padding(src, at0 + pad, len0 - pad)
      decreases len0 - pad
    {
      pad := pad + 4;
    }
  }

  method GetEntry(src: Source, at: nat, len: nat) returns (c: Check)
    ensures c == Examine(src, at, len)
  {
    hide Field, IsTrailer, EntrySize, DataOffset, Slice;
    if len == 0 { return Stop(0); }
    if len < HEADER_LEN || Slice(src, at, |MAGIC|) != MAGIC { return Stop(-1); }
    var size := MeasureEntry(src, at, len);
    if size > len { return Stop(-1); }
    if IsTrailer(src, at + HEADER_LEN) { return Stop(0); }
    var n := ReadField(src, at + FILESIZE);
    return Continue(Call(at + HEADER_LEN, at + DataOffset(src, at), n), size);
  }

  method MeasureEntry(src: Source, at: nat, len: nat) returns (size: nat)
    ensures size == EntrySize(src, at, len)
  {
    hide Field;
    var name := ReadField(src, at + NAMESIZE);
    var file := ReadField(src, at + FILESIZE);
    size := (Align((HEADER_LEN + name) % LONGS) + file) % LONGS;
    if size < len { size := Align(size); }
  }

  // The format

  function HexDigit(v: nat, upper: bool): (c: byte)
    requires v < 16
    ensures Digit(c) == v && !IsSpace(c) && c != 43 && c != 45 && c != 0
  {
    if v < 10 then 48 + v else if upper then 65 + v - 10 else 97 + v - 10
  }

  /** A number in `k` hexadecimal digits. */
  function Hex(n: nat, k: nat, upper: bool): (s: seq<byte>)
    ensures |s| == k
    decreases k
  {
    if k == 0 then [] else Hex(n / 16, k - 1, upper) + [HexDigit(n % 16, upper)]
  }

  function HexValue(s: seq<byte>): nat {
    if s == [] then 0 else 16 * HexValue(s[..|s| - 1]) + Digit(s[|s| - 1])
  }

  /** Sixteen to the power `k`. */
  function Pow16(k: nat): nat {
    if k == 0 then 1 else 16 * Pow16(k - 1)
  }

  lemma {:induction false} HexValueOf(n: nat, k: nat, upper: bool)
    requires n < Pow16(k)
    ensures HexValue(Hex(n, k, upper)) == n
    decreases k
  {
    if k > 0 {
      HexValueOf(n / 16, k - 1, upper);
      assert Hex(n, k, upper)[..k - 1] == Hex(n / 16, k - 1, upper);
    }
  }

  predicate IsDigit(c: byte) {
    Digit(c) < 16 && !IsSpace(c) && c != 43 && c != 45
  }

  lemma {:induction false} HexIsDigits(n: nat, k: nat, upper: bool, i: nat)
    requires i < k
    ensures IsDigit(Hex(n, k, upper)[i])
    decreases k
  {
    if i < k - 1 { HexIsDigits(n / 16, k - 1, upper, i); }
  }

  lemma {:induction false} DigitsOf(h: seq<byte>, i: nat)
    requires i <= |h| && forall k :: 0 <= k < |h| ==> IsDigit(h[k])
    ensures Digits(h + [0], i, HexValue(h[..i])) == HexValue(h)
    decreases |h| - i
  {
    if i < |h| {
      assert h[..i + 1][..i] == h[..i];
      DigitsOf(h, i + 1);
    } else {
      assert h[..i] == h;
    }
  }

  /** Printed fields read back. */
  lemma FieldRoundTrip(n: nat, upper: bool, k: nat)
    requires n < Pow16(k) && k > 0
    ensures Number(Hex(n, k, upper) + [0]) == n
  {
    hide Hex, Digit, HexValue;
    var h := Hex(n, k, upper);
    forall i | 0 <= i < |h| ensures IsDigit(h[i]) { HexIsDigits(n, k, upper, i); }
    DigitsOf(h, 0);
    HexValueOf(n, k, upper);
    assert HexValue(h[..0]) == 0 by { EmptyValue(); }
    assert SkipSpace(h + [0], 0) == 0 by { assert IsDigit(h[0]); }
  }

  lemma EmptyValue()
    ensures HexValue([]) == 0
  {
  }

  /** An archive member: its name and data, padding words before it, and the fields the parser ignores. */
  datatype Entry = Entry(name: seq<byte>, data: seq<byte>, words: nat, upper: bool,
                         fields: seq<byte>, devices: seq<byte>, checksum: seq<byte>)

  predicate NoZero(s: seq<byte>) {
    0 !in s
  }

  predicate ValidEntry(e: Entry) {
    && NoZero(e.name) && |e.name| + 1 < 0x1_0000_0000 && |e.data| < 0x1_0000_0000
    && |e.fields| == 48 && |e.devices| == 32 && |e.checksum| == 8
  }

  function Header(e: Entry): (r: seq<byte>)
    requires ValidEntry(e)
    ensures |r| == HEADER_LEN
  {
    MAGIC + (e.fields + (Hex(|e.data|, 8, e.upper) + (e.devices + (Hex(|e.name| + 1, 8, e.upper) + e.checksum))))
  }

  /** Zeros up to a multiple of four. */
  function Fit(n: nat): (r: seq<byte>)
    ensures (n + |r|) % 4 == 0 && |r| < 4
  {
    Zeros((4 - n % 4) % 4)
  }

  /** The header and the name with its NUL, padded. */
  function Head(e: Entry): (r: seq<byte>)
    requires ValidEntry(e)
    ensures |r| % 4 == 0 && HEADER_LEN + |e.name| + 1 <= |r| < HEADER_LEN + |e.name| + 1 + 4
  {
    Header(e) + (e.name + ([0] + Fit(HEADER_LEN + |e.name| + 1)))
  }

  function Member(e: Entry): seq<byte>
    requires ValidEntry(e)
  {
    Head(e) + (e.data + Fit(|e.data|))
  }

  lemma AlignUp(n: nat, m: nat)
    requires n <= m < n + 4 && m % 4 == 0 && n + 3 < LONGS
    ensures Align(n) == m
  {
    assert (n + 3) % LONGS == n + 3;
  }

  lemma FieldHeld(src: Source, at: nat, n: nat, upper: bool)
    requires n < 0x1_0000_0000 && HoldsAt(src, at, Hex(n, 8, upper))
    ensures Field(src, at) == n
  {
    hide Hex, Number, Pow16;
    assert Pow16(8) == 0x1_0000_0000 by { Sixteens(); }
    FieldRoundTrip(n, upper, 8);
  }

  lemma Sixteens()
    ensures Pow16(8) == 0x1_0000_0000
  {
    assert Pow16(4) == 0x1_0000;
  }

  lemma HeaderHeld(src: Source, at: nat, e: Entry)
    requires ValidEntry(e) && HoldsAt(src, at, Header(e))
    ensures HoldsAt(src, at, MAGIC)
    ensures Field(src, at + FILESIZE) == |e.data| && Field(src, at + NAMESIZE) == |e.name| + 1
  {
    hide HoldsAt, Field, Hex;
    var name, size := Hex(|e.name| + 1, 8, e.upper), Hex(|e.data|, 8, e.upper);
    HoldsParts(src, at, MAGIC, e.fields + (size + (e.devices + (name + e.checksum))));
    HoldsParts(src, at + 6, e.fields, size + (e.devices + (name + e.checksum)));
    HoldsParts(src, at + 54, size, e.devices + (name + e.checksum));
    HoldsParts(src, at + 62, e.devices, name + e.checksum);
    HoldsParts(src, at + 94, name, e.checksum);
    FieldHeld(src, at + 54, |e.data|, e.upper);
    FieldHeld(src, at + 94, |e.name| + 1, e.upper);
  }

  /** What the handler is told about a member. */
  function CallOf(e: Entry, at: nat): Call
    requires ValidEntry(e)
  {
    Call(at + HEADER_LEN, at + |Head(e)|, |e.data|)
  }

  /** The name and the data are where the handler is told. */
  ghost predicate Handed(src: Source, e: Entry, call: Call) {
    HoldsAt(src, call.name, e.name + [0]) && HoldsAt(src, call.at, e.data) && call.len == |e.data|
  }

  lemma MemberHeld(src: Source, at: nat, e: Entry)
    requires ValidEntry(e) && HoldsAt(src, at, Member(e))
    ensures HoldsAt(src, at, Header(e)) && Handed(src, e, CallOf(e, at))
  {
    hide HoldsAt, Header;
    var pad := Fit(HEADER_LEN + |e.name| + 1);
    HoldsParts(src, at, Head(e), e.data + Fit(|e.data|));
    HoldsParts(src, at, Header(e), e.name + ([0] + pad));
    assert e.name + ([0] + pad) == e.name + [0] + pad;
    HoldsParts(src, at + HEADER_LEN, e.name + [0], pad);
    HoldsParts(src, at + |Head(e)|, e.data, Fit(|e.data|));
  }

  /** A string is the trailer's name exactly if it is handed over as that name. */
  lemma TrailerName(src: Source, at: nat, name: seq<byte>)
    requires NoZero(name) && HoldsAt(src, at, name + [0])
    ensures IsTrailer(src, at) <==> name == TRAILER
  {
    var s, t := name + [0], TRAILER + [0];
    if IsTrailer(src, at) {
      SameString(src, at, name, TRAILER);
    }
  }

  lemma SameString(src: Source, at: nat, a: seq<byte>, b: seq<byte>)
    requires NoZero(a) && NoZero(b) && HoldsAt(src, at, a + [0]) && HoldsAt(src, at, b + [0])
    ensures a == b
  {
    var s, t := a + [0], b + [0];
    forall i | 0 <= i < |s| && i < |t| ensures s[i] == t[i] {
      assert Slice(src, at, |s|)[i] == s[i] && Slice(src, at, |t|)[i] == t[i];
    }
    NoLonger(src, at, a, b);
    NoLonger(src, at, b, a);
    assert a == s[..|a|] && b == t[..|b|];
  }

  lemma NoLonger(src: Source, at: nat, a: seq<byte>, b: seq<byte>)
    requires NoZero(b) && HoldsAt(src, at, a + [0]) && HoldsAt(src, at, b + [0])
    ensures |b| <= |a|
  {
    var s, t := a + [0], b + [0];
    assert Slice(src, at, |s|)[|a|] == s[|a|] == 0;
    forall p: nat | at <= p < at + |b| ensures src(p) != 0 {
      assert Slice(src, at, |t|)[p - at] == t[p - at] && b[p - at] in b;
    }
  }

  /** The parser takes a member as it was written. */
  lemma MemberExamined(src: Source, at: nat, len: nat, e: Entry)
    requires ValidEntry(e) && HoldsAt(src, at, Member(e)) && |Member(e)| <= len
    ensures Examine(src, at, len) == if e.name == TRAILER then Stop(0) else Continue(CallOf(e, at), |Member(e)|)
  {
    hide HoldsAt, Field, Header, Slice, IsTrailer, Member, Head, EntrySize, DataOffset;
    MemberHeld(src, at, e);
    HeaderHeld(src, at, e);
    MemberMeasured(src, at, len, e);
    MagicHeld(src, at);
    TrailerName(src, at + HEADER_LEN, e.name);
  }

  lemma MemberMeasured(src: Source, at: nat, len: nat, e: Entry)
    requires ValidEntry(e) && |Member(e)| <= len
    requires Field(src, at + FILESIZE) == |e.data| && Field(src, at + NAMESIZE) == |e.name| + 1
    ensures DataOffset(src, at) == |Head(e)| && EntrySize(src, at, len) == |Member(e)| > HEADER_LEN
  {
    hide Field, Head, Member, Align;
    MemberLength(e);
    AlignUp(HEADER_LEN + |e.name| + 1, |Head(e)|);
    AlignUp(|Head(e)| + |e.data|, |Member(e)|);
  }

  lemma MemberLength(e: Entry)
    requires ValidEntry(e)
    ensures var n := |Head(e)| + |e.data|; n <= |Member(e)| < n + 4 && |Member(e)| % 4 == 0
  {
    hide Head;
    Multiples(|Head(e)|, |e.data| + |Fit(|e.data|)|);
  }

  lemma Multiples(a: nat, b: nat)
    requires a % 4 == 0 && b % 4 == 0
    ensures (a + b) % 4 == 0
  {
  }

  lemma MagicHeld(src: Source, at: nat)
    requires HoldsAt(src, at, MAGIC)
    ensures Slice(src, at, |MAGIC|) == MAGIC && !ZeroWord(src, at)
  {
    assert Slice(src, at, |MAGIC|)[0] == MAGIC[0];
  }

  // Archives

  /** Padding words and a member. */
  function EntryBytes(e: Entry): seq<byte>
    requires ValidEntry(e)
  {
    Zeros(4 * e.words) + Member(e)
  }

  const EMPTY := Entry([], [], 0, false, Zeros(48), Zeros(32), Zeros(8))

  /** A member that is not the trailer. */
  type File = e: Entry | ValidEntry(e) && e.name != TRAILER witness EMPTY

  function Files(es: seq<File>): seq<byte>
  {
    if es == [] then [] else EntryBytes(es[0]) + Files(es[1..])
  }

  /** How an archive ends: with a trailer and anything after it, or with padding words only. */
  datatype End = Trailer(e: Entry, tail: seq<byte>) | Bare(words: nat)

  predicate ValidEnd(x: End) {
    x.Trailer? ==> ValidEntry(x.e) && x.e.name == TRAILER
  }

  function EndBytes(x: End): seq<byte>
    requires ValidEnd(x)
  {
    if x.Trailer? then EntryBytes(x.e) + x.tail else Zeros(4 * x.words)
  }

  function Calls(es: seq<File>, at: nat): (r: seq<Call>)
    ensures |r| == |es|
  {
    if es == [] then [] else
      [CallOf(es[0], at + 4 * es[0].words)] + Calls(es[1..], at + |EntryBytes(es[0])|)
  }

  /** Handling files one by one until the handler objects. */
  function Drive(file: Handler, calls: seq<Call>, done: seq<Call>): Outcome
    decreases |calls|
  {
    if calls == [] then Returned(0, done)
    else if file(done + [calls[0]]) != 0 then Returned(file(done + [calls[0]]), done + [calls[0]])
    else Drive(file, calls[1..], done + [calls[0]])
  }

  lemma {:induction false} PaddingHeld(src: Source, at: nat, len: nat, words: nat)
    requires HoldsAt(src, at, Zeros(4 * words)) && 4 * words <= len
    ensures Padding(src, at, len) == 4 * words + Padding(src, at + 4 * words, len - 4 * words)
    decreases words
  {
    hide HoldsAt, ZeroWord;
    if words > 0 {
      assert Zeros(4 * words) == Zeros(4) + Zeros(4 * (words - 1));
      HoldsParts(src, at, Zeros(4), Zeros(4 * (words - 1)));
      ZeroHeld(src, at);
      PaddingHeld(src, at + 4, len - 4, words - 1);
    }
  }

  lemma ZeroHeld(src: Source, at: nat)
    requires HoldsAt(src, at, Zeros(4))
    ensures ZeroWord(src, at)
  {
    var z := Slice(src, at, 4);
    assert z[0] == 0 && z[1] == 0 && z[2] == 0 && z[3] == 0;
  }

  /** Padding stops at a member. */
  lemma EntryPadding(src: Source, at: nat, len: nat, e: Entry)
    requires ValidEntry(e) && HoldsAt(src, at, EntryBytes(e)) && |EntryBytes(e)| <= len
    ensures Padding(src, at, len) == 4 * e.words && HoldsAt(src, at + 4 * e.words, Member(e))
  {
    hide HoldsAt, Member, ZeroWord;
    HoldsParts(src, at, Zeros(4 * e.words), Member(e));
    PaddingHeld(src, at, len, e.words);
    MemberHeld(src, at + 4 * e.words, e);
    HeaderHeld(src, at + 4 * e.words, e);
    MagicHeld(src, at + 4 * e.words);
  }

  lemma EndHeld(src: Source, at: nat, x: End, file: Handler, done: seq<Call>)
    requires ValidEnd(x) && HoldsAt(src, at, EndBytes(x))
    ensures Extraction(src, at, |EndBytes(x)|, file, done) == Returned(0, done)
  {
    hide HoldsAt, Examine, Member;
    var len := |EndBytes(x)|;
    if x.Trailer? {
      HoldsParts(src, at, EntryBytes(x.e), x.tail);
      EntryPadding(src, at, len, x.e);
      MemberExamined(src, at + 4 * x.e.words, len - 4 * x.e.words, x.e);
    } else {
      PaddingHeld(src, at, len, x.words);
      NothingLeft(src, at + len);
    }
  }

  lemma NothingLeft(src: Source, at: nat)
    ensures Padding(src, at, 0) == 0 && Examine(src, at, 0) == Stop(0)
  {
  }

  lemma EntryLength(e: Entry)
    requires ValidEntry(e)
    ensures |EntryBytes(e)| == 4 * e.words + |Member(e)| && |Member(e)| > 0
  {
    hide Member;
    MemberLength(e);
  }

  lemma EntryHeld(src: Source, at: nat, e: Entry)
    requires ValidEntry(e) && HoldsAt(src, at, EntryBytes(e))
    ensures Handed(src, e, CallOf(e, at + 4 * e.words))
  {
    hide HoldsAt, Member;
    HoldsParts(src, at, Zeros(4 * e.words), Member(e));
    MemberHeld(src, at + 4 * e.words, e);
  }

  /** Parsing a printed archive drives the handler over exactly its files, in order. */
  lemma {:induction false} ArchiveRoundTrip(src: Source, at: nat, es: seq<File>, x: End, file: Handler, done: seq<Call>)
    requires ValidEnd(x) && HoldsAt(src, at, Files(es) + EndBytes(x))
    ensures Extraction(src, at, |Files(es) + EndBytes(x)|, file, done) == Drive(file, Calls(es, at), done)
    decreases |es|
  {
    hide HoldsAt, Examine, Member, EndBytes, Padding, EntryBytes, CallOf, ValidEntry, ValidEnd;
    if es == [] {
      assert Files(es) + EndBytes(x) == EndBytes(x);
      EndHeld(src, at, x, file, done);
    } else {
      var e, rest := es[0], Files(es[1..]) + EndBytes(x);
      var len := |Files(es) + EndBytes(x)|;
      assert Files(es) + EndBytes(x) == EntryBytes(e) + rest;
      HoldsParts(src, at, EntryBytes(e), rest);
      EntryPadding(src, at, len, e);
      EntryLength(e);
      MemberExamined(src, at + 4 * e.words, len - 4 * e.words, e);
      ArchiveRoundTrip(src, at + |EntryBytes(e)|, es[1..], x, file, done + [CallOf(e, at + 4 * e.words)]);
    }
  }

  /** Each call is handed the name and the data of its file. */
  lemma {:induction false} FilesHanded(src: Source, at: nat, es: seq<File>, i: nat)
    requires HoldsAt(src, at, Files(es)) && i < |es|
    ensures |Calls(es, at)| == |es| && Handed(src, es[i], Calls(es, at)[i])
    decreases |es|
  {
    hide HoldsAt, Member, Handed, EntryBytes, CallOf, ValidEntry;
    var e := es[0];
    HoldsParts(src, at, EntryBytes(e), Files(es[1..]));
    if i > 0 {
      FilesHanded(src, at + |EntryBytes(e)|, es[1..], i - 1);
    } else {
      EntryHeld(src, at, e);
    }
  }

  // Entries that do not advance

  /** The parser stays at an entry exactly if its sizes add up to nothing in 64 bits, or round up to that. */
  lemma StaysAt(src: Source, at: nat, len: nat)
    requires Examine(src, at, len).Continue?
    ensures var n := (DataOffset(src, at) + Field(src, at + FILESIZE)) % LONGS;
            Examine(src, at, len).size == 0 <==> n == 0 || LONGS - 3 <= n < len
  {
    hide Field, DataOffset, IsTrailer;
    AlignZero((DataOffset(src, at) + Field(src, at + FILESIZE)) % LONGS);
  }

  lemma AlignZero(n: nat)
    requires n < LONGS
    ensures Align(n) == 0 <==> n == 0 || LONGS - 3 <= n
  {
  }

  lemma {:induction false} DigitsBound(s: seq<byte>, i: nat, v: nat)
    requires i < |s| && IsString(s) && v < Pow16(i)
    ensures Digits(s, i, v) < Pow16(|s| - 1)
    decreases |s| - i
  {
    if Digit(s[i]) < 16 {
      DigitsBound(s, i + 1, 16 * v + Digit(s[i]));
    } else {
      Pow16Monotone(i, |s| - 1);
    }
  }

  lemma {:induction false} Pow16Monotone(a: nat, b: nat)
    requires a <= b
    ensures 1 <= Pow16(a) <= Pow16(b)
    decreases b
  {
    if a < b {
      Pow16Monotone(a, b - 1);
    } else if a > 0 {
      Pow16Monotone(a - 1, a - 1);
    }
  }

  /** Without a minus sign a field is a 32-bit number. */
  lemma UnsignedField(src: Source, at: nat)
    requires 45 !in Slice(src, at, 8)
    ensures Field(src, at) < 0x1_0000_0000
  {
    hide Pow16, Digits, Digit;
    var s: seq<byte> := Slice(src, at, 8) + [0];
    var i := AfterSign(s);
    Sixteens();
    Pow16Monotone(0, i);
    assert Pow16(0) == 1 by { OneSixteenth(); }
    DigitsBound(s, i, 0);
  }

  lemma OneSixteenth()
    ensures Pow16(0) == 1
  {
  }

  /** So entries whose sizes carry no minus sign always advance the parser. */
  lemma Advances(src: Source, at: nat, len: nat)
    requires Examine(src, at, len).Continue?
    requires 45 !in Slice(src, at + NAMESIZE, 8) && 45 !in Slice(src, at + FILESIZE, 8)
    ensures Examine(src, at, len).size >= HEADER_LEN
  {
    hide Field, IsTrailer, Slice;
    UnsignedField(src, at + NAMESIZE);
    UnsignedField(src, at + FILESIZE);
    SumBound(Field(src, at + NAMESIZE), Field(src, at + FILESIZE), len);
  }

  lemma SumBound(name: nat, size: nat, len: nat)
    requires name < 0x1_0000_0000 && size < 0x1_0000_0000
    ensures var n := (Align((HEADER_LEN + name) % LONGS) + size) % LONGS; HEADER_LEN <= n && Align(n) >= HEADER_LEN
  {
    hide Align;
    SmallRest(HEADER_LEN + name);
    AlignSmall(HEADER_LEN + name);
    SmallRest(Align(HEADER_LEN + name) + size);
    AlignSmall(Align(HEADER_LEN + name) + size);
  }

  lemma SmallRest(n: nat)
    requires n < LONGS
    ensures n % LONGS == n
  {
  }

  /** Rounding a small number up to a multiple of four. */
  lemma AlignSmall(n: nat)
    requires n + 3 < LONGS
    ensures n <= Align(n) <= n + 3
  {
    SmallRest(n + 3);
  }

  /** A header with a name length of minus 110 and no data. */
  const STUCK: seq<byte> :=
    MAGIC + (Zeros(48) + (Hex(0, 8, false) + (Zeros(32) + (([45] + Hex(HEADER_LEN, 7, false)) + Zeros(8)))))

  const STUCK_MEMORY: Source := (n: nat) => if n < |STUCK| then STUCK[n] else 0

  lemma NegativeField(src: Source, at: nat, n: nat)
    requires 0 < n < Pow16(7) && HoldsAt(src, at, [45] + Hex(n, 7, false))
    ensures Field(src, at) == (LONGS - n) % LONGS
  {
    hide Hex, HexValue, Pow16, Digits;
    var h := Hex(n, 7, false);
    var s, t := [45] + h + [0], h + [0];
    forall i | 0 <= i < |h| ensures IsDigit(h[i]) { HexIsDigits(n, 7, false, i); }
    DigitsOf(h, 0);
    HexValueOf(n, 7, false);
    assert HexValue(h[..0]) == 0 by { EmptyValue(); }
    DigitsShift(s, t, 0, 0);
    assert AfterSign(s) == 1;
  }

  lemma {:induction false} DigitsShift(s: seq<byte>, t: seq<byte>, i: nat, v: nat)
    requires IsString(t) && IsString(s) && i < |t| && s == [s[0]] + t
    ensures Digits(s, i + 1, v) == Digits(t, i, v)
    decreases |t| - i
  {
    if Digit(t[i]) < 16 { DigitsShift(s, t, i + 1, 16 * v + Digit(t[i])); }
  }

  /** On this input the parser never gets past the first entry if the handler always returns zero. */
  lemma StuckExample(file: Handler)
    requires Content(file)
    ensures Extraction(STUCK_MEMORY, 0, |STUCK|, file, []).Stays?
  {
    hide Examine, ZeroWord;
    var src := STUCK_MEMORY;
    StuckHeader();
    MagicHeld(src, 0);
    StuckExamined();
    assert Padding(src, 0, |STUCK|) == 0;
    ContentRepeats(file, [] + [Call(HEADER_LEN, 0, 0)], Call(HEADER_LEN, 0, 0));
  }

  lemma StuckHeader()
    ensures |STUCK| == HEADER_LEN && HoldsAt(STUCK_MEMORY, 0, MAGIC) && !IsTrailer(STUCK_MEMORY, HEADER_LEN)
    ensures Field(STUCK_MEMORY, FILESIZE) == 0 && Field(STUCK_MEMORY, NAMESIZE) == LONGS - HEADER_LEN
  {
    hide Hex, Field, Number, IsTrailer;
    var src, name, size := STUCK_MEMORY, [45] + Hex(HEADER_LEN, 7, false), Hex(0, 8, false);
    assert HoldsAt(src, 0, STUCK);
    assert !IsTrailer(src, HEADER_LEN) by { NoNameHere(src); }
    hide HoldsAt;
    HoldsParts(src, 0, MAGIC, Zeros(48) + (size + (Zeros(32) + (name + Zeros(8)))));
    HoldsParts(src, 6, Zeros(48), size + (Zeros(32) + (name + Zeros(8))));
    HoldsParts(src, 54, size, Zeros(32) + (name + Zeros(8)));
    HoldsParts(src, 62, Zeros(32), name + Zeros(8));
    HoldsParts(src, 94, name, Zeros(8));
    FieldHeld(src, 54, 0, false);
    assert HEADER_LEN < Pow16(7) by { Sevens(); }
    NegativeField(src, 94, HEADER_LEN);
  }

  lemma Sevens()
    ensures Pow16(7) == 0x1000_0000
  {
    assert Pow16(4) == 0x1_0000;
  }

  lemma NoNameHere(src: Source)
    requires src(HEADER_LEN) == 0
    ensures !IsTrailer(src, HEADER_LEN)
  {
    assert Slice(src, HEADER_LEN, |TRAILER| + 1)[0] == 0;
    assert (TRAILER + [0])[0] == 84;
  }

  lemma StuckExamined()
    requires |STUCK| == HEADER_LEN && Slice(STUCK_MEMORY, 0, |MAGIC|) == MAGIC && !IsTrailer(STUCK_MEMORY, HEADER_LEN)
    requires Field(STUCK_MEMORY, FILESIZE) == 0 && Field(STUCK_MEMORY, NAMESIZE) == LONGS - HEADER_LEN
    ensures Examine(STUCK_MEMORY, 0, |STUCK|) == Continue(Call(HEADER_LEN, 0, 0), 0)
  {
    hide Field, IsTrailer, Slice;
  }

  // Whether the parser returns

  /** A handler that never objects. */
  ghost predicate Content(file: Handler) {
    forall calls :: file(calls) == 0
  }

  lemma ContentRepeats(file: Handler, calls: seq<Call>, call: Call)
    requires Content(file)
    ensures Repeated(file, calls, call) == Stays
  {
  }

  /** The size fields of an entry carry no minus sign. */
  predicate UnsignedSizes(src: Source, at: nat) {
    45 !in Slice(src, at + NAMESIZE, 8) && 45 !in Slice(src, at + FILESIZE, 8)
  }

  /** So it is for every entry the parser would come to. */
  predicate AllUnsigned(src: Source, at: nat, len: nat)
    decreases len
  {
    var pad := Padding(src, at, len);
    var c := Examine(src, at + pad, len - pad);
    c.Continue? ==> UnsignedSizes(src, at + pad) && (c.size > 0 ==> AllUnsigned(src, at + pad + c.size, len - pad - c.size))
  }

  /** Then the parser returns, whatever the handler does. */
  lemma {:induction false} UnsignedReturns(src: Source, at: nat, len: nat, file: Handler, done: seq<Call>)
    requires AllUnsigned(src, at, len)
    ensures !Extraction(src, at, len, file, done).Stays?
    decreases len
  {
    hide Examine, Padding, UnsignedSizes;
    var pad := Padding(src, at, len);
    var c := Examine(src, at + pad, len - pad);
    if c.Continue? {
      UnsignedAdvances(src, at + pad, len - pad);
      UnsignedReturns(src, at + pad + c.size, len - pad - c.size, file, done + [c.call]);
    }
  }

  lemma UnsignedAdvances(src: Source, at: nat, len: nat)
    requires Examine(src, at, len).Continue? && UnsignedSizes(src, at)
    ensures Examine(src, at, len).size > 0
  {
    Advances(src, at, len);
  }

  /** The sizes of an entry add up to nothing in 64 bits, or round up to that. */
  predicate SizesVanish(src: Source, at: nat, len: nat) {
    var n := (DataOffset(src, at) + Field(src, at + FILESIZE)) % LONGS;
    n == 0 || LONGS - 3 <= n < len
  }

  /** So it is for some entry the parser comes to. */
  predicate SomeVanish(src: Source, at: nat, len: nat)
    decreases len
  {
    var pad := Padding(src, at, len);
    var c := Examine(src, at + pad, len - pad);
    c.Continue? && (SizesVanish(src, at + pad, len - pad) || (c.size > 0 && SomeVanish(src, at + pad + c.size, len - pad - c.size)))
  }

  /** With a handler that never objects the parser fails to return exactly in that case. */
  lemma {:induction false} StaysExactly(src: Source, at: nat, len: nat, file: Handler, done: seq<Call>)
    requires Content(file)
    ensures Extraction(src, at, len, file, done).Stays? <==> SomeVanish(src, at, len)
    decreases len
  {
    hide Examine, Padding, SizesVanish, Repeated;
    var pad := Padding(src, at, len);
    var c := Examine(src, at + pad, len - pad);
    if c.Continue? {
      VanishIsZero(src, at + pad, len - pad);
      if c.size == 0 {
        ContentRepeats(file, done + [c.call], c.call);
      } else {
        StaysExactly(src, at + pad + c.size, len - pad - c.size, file, done + [c.call]);
      }
    }
  }

  lemma VanishIsZero(src: Source, at: nat, len: nat)
    requires Examine(src, at, len).Continue?
    ensures SizesVanish(src, at, len) <==> Examine(src, at, len).size == 0
  {
    StaysAt(src, at, len);
  }

  /** Whatever the handler, it can stay only where some sizes vanish. */
  lemma {:induction false} StaysOnly(src: Source, at: nat, len: nat, file: Handler, done: seq<Call>)
    requires Extraction(src, at, len, file, done).Stays?
    ensures SomeVanish(src, at, len)
    decreases len
  {
    hide Examine, Padding, SizesVanish, Repeated;
    var pad := Padding(src, at, len);
    var c := Examine(src, at + pad, len - pad);
    VanishIsZero(src, at + pad, len - pad);
    if c.size > 0 { StaysOnly(src, at + pad + c.size, len - pad - c.size, file, done + [c.call]); }
  }
}
