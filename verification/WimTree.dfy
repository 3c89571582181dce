/** Writing a tree of WIM directories: every entry is found by its path, in any letter case (src/wim.c, src/wim.h). */
module WimTree {
  import opened Bytes
  import opened WimDir

  // ---------------------------------------------------------------- the layout of a tree

  /** A file or directory; names are 16-bit units without their NUL. */
  datatype Node = Node(name: seq<nat>, attributes: nat, hash: seq<byte>, dir: bool, children: seq<Node>)

  predicate ValidUnits(us: seq<nat>) {
    |us| < 0x8000 && forall i :: 0 <= i < |us| ==> 0 < us[i] < 0x1_0000
  }

  predicate ValidNode(n: Node) {
    && ValidUnits(n.name) && n.attributes < 0x1_0000_0000 && |n.hash| == 20 && (!n.dir ==> n.children == [])
    && forall i :: 0 <= i < |n.children| ==> ValidNode(n.children[i])
  }

  predicate ValidNodes(es: seq<Node>) {
    forall i :: 0 <= i < |es| ==> ValidNode(es[i])
  }

  /** Two bytes for each unit. */
  function NameBytes(us: seq<nat>): (r: seq<byte>)
    ensures |r| == 2 * |us|
  {
    if us == [] then [] else LE(us[0], 2) + NameBytes(us[1..])
  }

  /** The fixed part of an entry takes 102 bytes, its name and a NUL follow, and the next entry starts at a multiple of eight. */
  function RecordLen(n: Node): (r: nat)
    ensures r >= 104 + 2 * |n.name|
  {
    (104 + 2 * |n.name| + 7) / 8 * 8
  }

  function Fixed(n: Node, sub: nat): (r: seq<byte>)
    requires |n.hash| == 20
    ensures |r| == 102
  {
    LE(RecordLen(n), 8) + LE(n.attributes, 4) + LE(0xffff_ffff, 4) + LE(sub, 8) + Zeros(16) + Zeros(24)
    + n.hash + Zeros(12) + Zeros(2) + Zeros(2) + LE(2 * |n.name|, 2)
  }

  function Record(n: Node, sub: nat): (r: seq<byte>)
    requires |n.hash| == 20
    ensures |r| == RecordLen(n)
  {
    Fixed(n, sub) + (NameBytes(n.name) + ([0, 0] + Zeros(RecordLen(n) - 104 - 2 * |n.name|)))
  }

  /** A directory: its entries, a length of zero, and then the directories of its entries. */
  function TreeLen(es: seq<Node>): nat
    decreases es, 2
  {
    ListLen(es) + 8 + BelowLen(es)
  }

  function ListLen(es: seq<Node>): nat
    decreases es, 0
  {
    if es == [] then 0 else RecordLen(es[0]) + ListLen(es[1..])
  }

  function BelowLen(es: seq<Node>): nat
    decreases es, 1
  {
    if es == [] then 0 else OwnLen(es[0]) + BelowLen(es[1..])
  }

  /** The length of the directory of an entry, with all that is below it. */
  function OwnLen(n: Node): nat
    decreases n, 3
  {
    if n.dir then TreeLen(n.children) else 0
  }

  /** Where the directory of an entry stands, if `sub` is the next free place. */
  function SubOf(n: Node, sub: nat): nat {
    if n.dir then sub else 0
  }

  function ListBytes(es: seq<Node>, sub: nat): (r: seq<byte>)
    requires ValidNodes(es)
    ensures |r| == ListLen(es)
    decreases es, 0
  {
    if es == [] then [] else Record(es[0], SubOf(es[0], sub)) + ListBytes(es[1..], sub + OwnLen(es[0]))
  }

  function BelowBytes(es: seq<Node>, sub: nat): (r: seq<byte>)
    requires ValidNodes(es)
    ensures |r| == BelowLen(es)
    decreases es, 1
  {
    if es == [] then [] else OwnBytes(es[0], sub) + BelowBytes(es[1..], sub + OwnLen(es[0]))
  }

  function OwnBytes(n: Node, sub: nat): (r: seq<byte>)
    requires ValidNode(n)
    ensures |r| == OwnLen(n)
    decreases n, 3
  {
    if n.dir then TreeBytes(n.children, sub) else []
  }

  function TreeBytes(es: seq<Node>, at: nat): (r: seq<byte>)
    requires ValidNodes(es)
    ensures |r| == TreeLen(es)
    decreases es, 2
  {
    ListBytes(es, at + ListLen(es) + 8) + (Zeros(8) + BelowBytes(es, at + ListLen(es) + 8))
  }

  // ---------------------------------------------------------------- what a path should find

  /** Capital letters of the Latin alphabet as small ones. */
  function Lowered(u: nat): nat {
    if 0x41 <= u <= 0x5a then u + 0x20 else u
  }

  predicate SameLetters(a: seq<nat>, b: seq<nat>) {
    |a| == |b| && forall i :: 0 <= i < |a| ==> Lowered(a[i]) == Lowered(b[i])
  }

  /** An entry with its place, nothing, or a path that goes on below a file. */
  datatype Outcome = Hit(at: nat, node: Node, sub: nat) | Miss | BelowFile

  /** The first entry of a list with the name. */
  function FirstNamed(es: seq<Node>, at: nat, sub: nat, us: seq<nat>): Outcome {
    if es == [] then Miss
    else if SameLetters(es[0].name, us) then Hit(at, es[0], SubOf(es[0], sub))
    else FirstNamed(es[1..], at + RecordLen(es[0]), sub + OwnLen(es[0]), us)
  }

  /** The entry at the end of a path from the directory at `at`. */
  function Resolve(es: seq<Node>, at: nat, names: seq<seq<nat>>): Outcome
    requires names != []
    decreases |names|
  {
    var f := FirstNamed(es, at, at + ListLen(es) + 8, names[0]);
    if f.Miss? || |names| == 1 then f
    else if f.BelowFile? || !f.node.dir then BelowFile
    else Resolve(f.node.children, f.sub, names[1..])
  }

  // ---------------------------------------------------------------- bytes in place

  predicate InPlace(m: seq<byte>, at: nat, s: seq<byte>) {
    at + |s| <= |m| && m[at..at + |s|] == s
  }

  lemma InParts(m: seq<byte>, at: nat, a: seq<byte>, b: seq<byte>)
    requires InPlace(m, at, a + b)
    ensures InPlace(m, at, a) && InPlace(m, at + |a|, b)
  {
    assert m[at..at + |a + b|][..|a|] == m[at..at + |a|];
    assert m[at..at + |a + b|][|a|..] == m[at + |a|..at + |a| + |b|];
  }

  lemma ReadsPart(m: seq<byte>, at: nat, s: seq<byte>, i: nat, n: nat)
    requires InPlace(m, at, s) && i + n <= |s|
    ensures Get(ReadingSeq(m), at + i, n) == Some(s[i..i + n])
  {
    SubSlice(m, at, |s|, i, i + n);
  }

  // ---------------------------------------------------------------- one entry

  lemma FixedFields(n: Node, sub: nat)
    requires ValidNode(n) && sub < 0x1_0000_0000_0000_0000
    ensures var e := Fixed(n, sub);
            && FromLE(e[0..8]) == RecordLen(n) && FromLE(e[16..24]) == sub && e[64..84] == n.hash && FromLE(e[100..102]) == 2 * |n.name|
  {
    hide LE, FromLE;
    var e := Fixed(n, sub);
    assert e[0..8] == LE(RecordLen(n), 8) && e[16..24] == LE(sub, 8) && e[100..102] == LE(2 * |n.name|, 2);
    RangeValues();
    LERoundTrip(RecordLen(n), 8);
    LERoundTrip(sub, 8);
    LERoundTrip(2 * |n.name|, 2);
  }

  lemma {:induction false} UnitOfName(us: seq<nat>, i: nat)
    requires ValidUnits(us) && i < |us|
    ensures UnitIn(NameBytes(us), i) == us[i]
  {
    var b := NameBytes(us);
    if i == 0 {
      LowAndHigh(us[0]);
    } else {
      UnitOfName(us[1..], i - 1);
      assert b[2 * i] == NameBytes(us[1..])[2 * (i - 1)] && b[2 * i + 1] == NameBytes(us[1..])[2 * (i - 1) + 1];
    }
  }

  lemma LowAndHigh(u: nat)
    requires u < 0x1_0000
    ensures Join(LE(u, 2)[0], LE(u, 2)[1]) == u
  {
    assert LE(u, 2)[1..] == LE(u / 256, 1);
  }

  /** The unit at index `i` after the fixed part of an entry: its name and then a NUL. */
  lemma UnitOfRecord(n: Node, sub: nat, b: seq<byte>, i: nat)
    requires ValidNode(n) && i <= |n.name| && 2 * i + 1 < |b|
    requires forall k :: 0 <= k < |b| && 102 + k < RecordLen(n) ==> b[k] == Record(n, sub)[102 + k]
    ensures UnitIn(b, i) == if i < |n.name| then n.name[i] else 0
  {
    hide Fixed, NameBytes, LE;
    var r := Record(n, sub);
    assert b[2 * i] == r[102 + 2 * i] && b[2 * i + 1] == r[102 + (2 * i + 1)];
    if i < |n.name| {
      UnitOfName(n.name, i);
      assert r[102 + 2 * i] == NameBytes(n.name)[2 * i] && r[102 + (2 * i + 1)] == NameBytes(n.name)[2 * i + 1];
    }
  }

  lemma UpperIsLower(u: nat, v: nat)
    ensures Upper(u) == Upper(v) <==> Lowered(u) == Lowered(v)
  {
  }

  /** The buffer read after an entry holds the name searched for exactly if the entry has it. */
  lemma NameDecides(n: Node, sub: nat, us: seq<nat>, b: seq<byte>)
    requires ValidNode(n) && ValidUnits(us) && |b| == 2 * (|us| + 1)
    requires forall k :: 0 <= k < |b| && 102 + k < RecordLen(n) ==> b[k] == Record(n, sub)[102 + k]
    ensures NameMatches(us, b) <==> SameLetters(n.name, us)
  {
    hide Record, Upper, Lowered, UnitIn;
    forall i | 0 <= i <= |n.name| && i <= |us| ensures UnitIn(b, i) == if i < |n.name| then n.name[i] else 0 {
      UnitOfRecord(n, sub, b, i);
    }
    if |n.name| < |us| {
      Ends(us[|n.name|]);
      assert Upper(us[|n.name|]) != Upper(UnitIn(b, |n.name|));
    } else if |n.name| == |us| {
      forall i | 0 <= i < |us| ensures Upper(us[i]) == Upper(UnitIn(b, i)) <==> Lowered(n.name[i]) == Lowered(us[i]) {
        UpperIsLower(us[i], n.name[i]);
      }
      forall i | 0 <= i < |us| && NameMatches(us, b) ensures Lowered(n.name[i]) == Lowered(us[i]) {
        assert Upper(us[i]) == Upper(UnitIn(b, i));
      }
    }
  }

  lemma Ends(u: nat)
    requires u > 0
    ensures Upper(u) != Upper(0)
  {
  }

  /** One turn of the search: an entry with the name is found, any other is passed over. */
  lemma LookRecord(m: seq<byte>, at: nat, n: Node, sub: nat, us: seq<nat>)
    requires ValidNode(n) && ValidUnits(us) && sub < 0x1_0000_0000_0000_0000
    requires InPlace(m, at, Record(n, sub)) && at + 104 + 2 * |us| <= |m|
    ensures LookAt(ReadingSeq(m), us, at) == if SameLetters(n.name, us) then Here(Fixed(n, sub)) else Skip(RecordLen(n))
  {
    hide Fixed, FromLE, NameMatches, NameBytes, Get, ReadingSeq, RecordLen;
    var r := Record(n, sub);
    ReadsPart(m, at, r, 0, 8);
    ReadsPart(m, at, r, 0, 102);
    assert r[0..102] == Fixed(n, sub);
    SubSlice(r, 0, 102, 0, 8);
    FixedFields(n, sub);
    var b := m[at + 102..at + 102 + 2 * (|us| + 1)];
    ReadsPart(m, at + 102, b, 0, |b|);
    assert b[0..|b|] == b;
    forall k | 0 <= k < |b| && 102 + k < RecordLen(n) ensures b[k] == r[102 + k] {
      assert m[at..at + |r|][102 + k] == r[102 + k];
    }
    NameDecides(n, sub, us, b);
  }

  // ---------------------------------------------------------------- one directory

  /** What a search reports for an outcome. */
  function FoundOf(o: Outcome): Option<Found>
    requires o.Hit? ==> |o.node.hash| == 20
  {
    if o.Hit? then Some(Found(o.at, Fixed(o.node, o.sub))) else None
  }

  lemma {:induction false} FirstValid(es: seq<Node>, at: nat, sub: nat, us: seq<nat>)
    requires ValidNodes(es)
    ensures FirstNamed(es, at, sub, us).Hit? ==> ValidNode(FirstNamed(es, at, sub, us).node)
    ensures !FirstNamed(es, at, sub, us).BelowFile?
  {
    hide ValidNode, RecordLen, SameLetters;
    if es != [] { FirstValid(es[1..], at + RecordLen(es[0]), sub + OwnLen(es[0]), us); }
  }

  /** Searching a list of entries finds the first with the name, or fails at the length of zero. */
  lemma {:induction false} FindInList(m: seq<byte>, es: seq<Node>, at: nat, sub: nat, us: seq<nat>)
    requires ValidNodes(es) && ValidUnits(us) && InPlace(m, at, ListBytes(es, sub) + Zeros(8))
    requires sub + BelowLen(es) < 0x1_0000_0000_0000_0000 && at + ListLen(es) + 8 + 2 * |us| <= |m|
    ensures FirstNamed(es, at, sub, us).Hit? ==> |FirstNamed(es, at, sub, us).node.hash| == 20
    ensures FindEntry(ReadingSeq(m), |m|, us, at) == FoundOf(FirstNamed(es, at, sub, us))
    decreases |es|
  {
    hide Record, Fixed, SameLetters, LookAt, ReadingSeq;
    FirstValid(es, at, sub, us);
    if es == [] {
      assert ListBytes(es, sub) + Zeros(8) == Zeros(8);
      EndOfList(m, at, us);
    } else {
      var r, more := Record(es[0], SubOf(es[0], sub)), ListBytes(es[1..], sub + OwnLen(es[0]));
      assert ListBytes(es, sub) + Zeros(8) == r + (more + Zeros(8));
      InParts(m, at, r, more + Zeros(8));
      LookRecord(m, at, es[0], SubOf(es[0], sub), us);
      FindInList(m, es[1..], at + RecordLen(es[0]), sub + OwnLen(es[0]), us);
    }
  }

  lemma EndOfList(m: seq<byte>, at: nat, us: seq<nat>)
    requires InPlace(m, at, Zeros(8))
    ensures LookAt(ReadingSeq(m), us, at) == Fail
  {
    hide Get, ReadingSeq;
    ReadsPart(m, at, Zeros(8), 0, 8);
    assert Zeros(8)[0..8] == [0, 0, 0, 0, 0, 0, 0, 0];
    NoLength();
  }

  lemma NoLength()
    ensures FromLE([0, 0, 0, 0, 0, 0, 0, 0]) == 0
  {
    var z: seq<byte> := [0, 0, 0, 0, 0, 0, 0, 0];
    assert z[1..] == [0, 0, 0, 0, 0, 0, 0] && z[4..] == [0, 0, 0, 0];
    assert FromLE([0, 0, 0, 0]) == 0;
  }

  /** The directory of the entry found stands where its entry says, and is no longer than what is left. */
  lemma {:induction false} OwnInPlace(m: seq<byte>, es: seq<Node>, at: nat, sub: nat, us: seq<nat>)
    requires ValidNodes(es) && InPlace(m, sub, BelowBytes(es, sub))
    requires FirstNamed(es, at, sub, us).Hit? && FirstNamed(es, at, sub, us).node.dir
    ensures var f := FirstNamed(es, at, sub, us); ValidNodes(f.node.children) && InPlace(m, f.sub, TreeBytes(f.node.children, f.sub))
    ensures var f := FirstNamed(es, at, sub, us); f.sub + TreeLen(f.node.children) <= sub + BelowLen(es)
    decreases |es|
  {
    hide TreeBytes, TreeLen, SameLetters, RecordLen;
    InParts(m, sub, OwnBytes(es[0], sub), BelowBytes(es[1..], sub + OwnLen(es[0])));
    if !SameLetters(es[0].name, us) {
      OwnInPlace(m, es[1..], at + RecordLen(es[0]), sub + OwnLen(es[0]), us);
    }
  }

  // ---------------------------------------------------------------- whole trees

  predicate ValidPath(names: seq<seq<nat>>) {
    forall i :: 0 <= i < |names| ==> ValidUnits(names[i]) && BACKSLASH !in names[i]
  }

  /** A search may read past the last entry by twice the length of the name it looks for. */
  predicate Room(names: seq<seq<nat>>, n: nat) {
    forall i :: 0 <= i < |names| ==> 2 * |names[i]| <= n
  }

  /** Walking the components of a path comes to the entry at its end, or to none. */
  lemma {:induction false} WalkResolves(m: seq<byte>, es: seq<Node>, at: nat, names: seq<seq<nat>>, pad: nat)
    requires ValidNodes(es) && names != [] && ValidPath(names) && Room(names, pad) && |m| < 0x1_0000_0000_0000_0000
    requires InPlace(m, at, TreeBytes(es, at)) && at + TreeLen(es) + pad <= |m|
    ensures var o := Resolve(es, at, names);
            && (o.Hit? ==> ValidNode(o.node)) && (!o.BelowFile? ==> Walk(ReadingSeq(m), |m|, names, at) == FoundOf(o))
    decreases |names|
  {
    hide FindEntry, FirstNamed, ListBytes, BelowBytes, Fixed, ReadingSeq, ListLen, BelowLen, ValidUnits, FromLE;
    var sub := at + ListLen(es) + 8;
    var o := FirstNamed(es, at, sub, names[0]);
    var list, below := ListBytes(es, sub), BelowBytes(es, sub);
    assert TreeBytes(es, at) == (list + Zeros(8)) + below;
    InParts(m, at, list + Zeros(8), below);
    FindInList(m, es, at, sub, names[0]);
    FirstValid(es, at, sub, names[0]);
    if o.Hit? && |names| > 1 && o.node.dir {
      OwnInPlace(m, es, at, sub, names[0]);
      FixedFields(o.node, o.sub);
      WalkResolves(m, o.node.children, o.sub, names[1..], pad);
    }
  }

  /** The path of some components, each after a backslash. */
  function PathOf(names: seq<seq<nat>>): seq<nat> {
    if names == [] then [] else [BACKSLASH] + (names[0] + PathOf(names[1..]))
  }

  lemma {:induction false} ComponentsOfPath(names: seq<seq<nat>>)
    requires ValidPath(names)
    ensures Components(PathOf(names)) == [[]] + names
    decreases |names|
  {
    hide Components;
    if names == [] {
      NoComponents();
    } else {
      var rest := names[0] + PathOf(names[1..]);
      AfterBackslash(rest);
      ComponentsOfPath(names[1..]);
      assert ValidPath(names[1..]);
      NextComponent(names[0], PathOf(names[1..]));
      if |names| == 1 {
        assert names == [names[0]];
      } else {
        var next := names[1] + PathOf(names[1..][1..]);
        AfterBackslash(next);
        assert ([[]] + Components(next))[1..] == Components(next);
        assert ([[]] + names[1..])[1..] == names[1..];
        assert [names[0]] + names[1..] == names;
      }
    }
  }

  lemma NoComponents()
    ensures Components([]) == [[]]
  {
  }

  lemma AfterBackslash(rest: seq<nat>)
    ensures Components([BACKSLASH] + rest) == [[]] + Components(rest)
  {
    assert ([BACKSLASH] + rest)[1..] == rest;
  }

  /** A name is cut off at the backslash after it. */
  lemma NextComponent(us: seq<nat>, rest: seq<nat>)
    requires BACKSLASH !in us && (rest == [] || rest[0] == BACKSLASH)
    ensures Components(us + rest) == [us] + (if rest == [] then [] else Components(rest[1..]))
  {
    hide Components;
    var all := us + rest;
    assert all[..|us|] == us;
    ComponentsCut(all, |us|);
    if rest != [] { assert all[|us| + 1..] == rest[1..]; } else { assert all == us; }
  }

  /** The directory with the nameless root in it, below which everything else is. */
  function Root(top: seq<Node>): seq<Node> {
    [Node([], 0x10, Zeros(20), true, top)]
  }

  /** Where the directories start: at the first multiple of eight after the security data. */
  function TreeAt(security: seq<byte>): (at: nat)
    ensures at >= |security| + 4
  {
    (|security| + 4 + 7) / 8 * 8
  }

  /** The metadata of an image: security data with its length before it, padding, the directories, and more. */
  function Metadata(security: seq<byte>, top: seq<Node>, more: seq<byte>): seq<byte>
    requires ValidNodes(Root(top))
  {
    var at := TreeAt(security);
    LE(|security| + 4, 4) + (security + Zeros(at - |security| - 4)) + (TreeBytes(Root(top), at) + more)
  }

  /**
   * In the metadata of any tree, searching a path finds the entry that has it, the letters in any case, and the
   * first of several in one directory; and nothing if no entry has it.
   */
  lemma PathFound(security: seq<byte>, top: seq<Node>, more: seq<byte>, names: seq<seq<nat>>)
    requires ValidNodes(Root(top)) && |security| + 4 < 0x1_0000_0000 && |Metadata(security, top, more)| < 0x1_0000_0000_0000_0000
    requires ValidPath(names) && Room(names, |more|)
    ensures var m, o := Metadata(security, top, more), Resolve(Root(top), TreeAt(security), [[]] + names);
            && (o.Hit? ==> ValidNode(o.node))
            && (!o.BelowFile? ==> FindPath(ReadingSeq(m), |m|, PathOf(names)) == FoundOf(o))
  {
    hide TreeBytes, TreeLen, Components, Walk, Resolve, PathOf, ReadingSeq, LE, FromLE, Get, ValidNode, ValidUnits;
    var m, at, all := Metadata(security, top, more), TreeAt(security), [[]] + names;
    var head := LE(|security| + 4, 4) + (security + Zeros(at - |security| - 4));
    ComponentsOfPath(names);
    assert InPlace(m, 0, head + (TreeBytes(Root(top), at) + more)) by { assert m[0..|m|] == m; }
    InParts(m, 0, head, TreeBytes(Root(top), at) + more);
    InParts(m, at, TreeBytes(Root(top), at), more);
    SecurityRead(m, |security| + 4) by { InParts(m, 0, LE(|security| + 4, 4), security + Zeros(at - |security| - 4)); }
    NoUnits();
    assert ValidPath(all) && Room(all, |more|);
    WalkResolves(m, Root(top), at, all, |more|);
    RootAt(security);
  }

  lemma NoUnits()
    ensures ValidUnits([])
  {
  }

  lemma RootAt(security: seq<byte>)
    ensures Align8(|security| + 4) == TreeAt(security)
  {
  }

  /** The length of the security data is read from its first four bytes. */
  lemma SecurityRead(m: seq<byte>, n: nat)
    requires InPlace(m, 0, LE(n, 4)) && n < 0x1_0000_0000 && |m| >= 8
    ensures Get(ReadingSeq(m), 0, 8).Some? && FromLE(Get(ReadingSeq(m), 0, 8).value[0..4]) == n
  {
    hide LE, FromLE;
    assert m[0..8][0..4] == m[0..4];
    RangeValues();
    LERoundTrip(n, 4);
  }
}
