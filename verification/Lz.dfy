/** Literals and matches: the output language shared by the three decompressors. */
module Lz {
  import opened Bytes

  type pos = x: int | x > 0 witness 1

  datatype Item = Literal(b: byte) | Match(offset: pos, len: nat)

  /** The memory below an output buffer, by distance from its start. */
  type Below = nat -> byte

  /** What a decoder makes of its input: the items found, and whether it ends well. */
  datatype Parsed = Parsed(ok: bool, items: seq<Item>)

  function After(done: seq<Item>, p: Parsed): Parsed {
    Parsed(p.ok, done + p.items)
  }

  lemma AfterAfter(a: seq<Item>, b: seq<Item>, p: Parsed)
    ensures After(a, After(b, p)) == After(a + b, p)
  {
    assert a + (b + p.items) == a + b + p.items;
  }

  /** The value a decoder returns. */
  function Outcome(p: Parsed): int {
    if p.ok then Length(p.items) else -1
  }

  function Size(item: Item): nat {
    if item.Literal? then 1 else item.len
  }

  function Length(items: seq<Item>): nat {
    if items == [] then 0 else Length(items[..|items| - 1]) + Size(items[|items| - 1])
  }

  /** The byte `offset` places before the end of the output. */
  function Back(below: Below, out: seq<byte>, offset: pos): byte
  {
    if offset <= |out| then out[|out| - offset] else below(offset - |out|)
  }

  /** A match appends, one by one, bytes found `offset` places back. */
  function CopyMatch(below: Below, out: seq<byte>, offset: pos, n: nat): (r: seq<byte>)
    ensures |r| == |out| + n && r[..|out|] == out
    decreases n
  {
    if n == 0 then out else
      var s := CopyMatch(below, out, offset, n - 1);
      s + [Back(below, s, offset)]
  }

  function Apply(below: Below, out: seq<byte>, item: Item): (r: seq<byte>)
    ensures |r| == |out| + Size(item) && r[..|out|] == out
  {
    if item.Literal? then out + [item.b] else CopyMatch(below, out, item.offset, item.len)
  }

  function Expand(below: Below, out: seq<byte>, items: seq<Item>): (r: seq<byte>)
    ensures |r| == |out| + Length(items) && r[..|out|] == out
  {
    if items == [] then out else
      var n := |items| - 1;
      var s := Expand(below, out, items[..n]);
      assert s[..|out|] == out;
      Apply(below, s, items[n])
  }

  lemma SingleLength(item: Item)
    ensures Length([item]) == Size(item)
  {
    assert [item][..0] == [];
  }

  lemma {:induction false} LengthAppend(a: seq<Item>, b: seq<Item>)
    ensures Length(a + b) == Length(a) + Length(b)
    decreases |b|
  {
    if b == [] {
      assert a + b == a;
    } else {
      var n := |b| - 1;
      assert (a + b)[..|a + b| - 1] == a + b[..n];
      LengthAppend(a, b[..n]);
    }
  }

  lemma LengthCons(item: Item, items: seq<Item>)
    ensures Length([item] + items) == Size(item) + Length(items)
  {
    SingleLength(item);
    LengthAppend([item], items);
  }

  lemma {:induction false} ExpandAppend(below: Below, out: seq<byte>, a: seq<Item>, b: seq<Item>)
    ensures Expand(below, out, a + b) == Expand(below, Expand(below, out, a), b)
    decreases |b|
  {
    if b == [] {
      assert a + b == a;
    } else {
      var n := |b| - 1;
      assert (a + b)[..|a + b| - 1] == a + b[..n];
      ExpandAppend(below, out, a, b[..n]);
    }
  }

  function Literals(s: seq<byte>): (r: seq<Item>)
    ensures |r| == |s|
  {
    seq(|s|, (i: int) requires 0 <= i < |s| => Literal(s[i]))
  }

  lemma {:induction false} ExpandLiterals(below: Below, out: seq<byte>, s: seq<byte>)
    ensures Length(Literals(s)) == |s| && Expand(below, out, Literals(s)) == out + s
  {
    if s != [] {
      var n := |s| - 1;
      ExpandLiterals(below, out, s[..n]);
      assert Literals(s)[..n] == Literals(s[..n]);
      assert out + s[..n] + [s[n]] == out + s;
    }
  }

  lemma LiteralsCut(text: seq<byte>, n: nat)
    requires n <= |text|
    ensures Literals(text[..n]) + Literals(text[n..]) == Literals(text)
  {
  }

  /** `i` modulo `m` */
  function Phase(i: nat, m: pos): (r: nat)
    ensures r < m
  {
    if i < m then i else Phase(i - m, m)
  }

  /** An overlapping match repeats the last `offset` bytes of the output periodically. */
  lemma {:induction false} MatchPeriodic(below: Below, out: seq<byte>, offset: pos, n: nat, i: nat)
    requires offset <= |out| && i < n
    ensures CopyMatch(below, out, offset, n)[|out| + i] == out[|out| - offset + Phase(i, offset)]
    decreases n
  {
    if i < n - 1 {
      MatchPeriodic(below, out, offset, n - 1, i);
    } else if i >= offset {
      MatchPeriodic(below, out, offset, n - 1, i - offset);
    } else {
      var s := CopyMatch(below, out, offset, n - 1);
      assert s[|out| + i - offset] == s[..|out|][|out| + i - offset];
    }
  }

  /** The buffer holds the expansion of `items` after its first `base` bytes and is otherwise untouched. */
  ghost predicate Wrote(now: seq<byte>, before: seq<byte>, below: Below, base: nat, items: seq<Item>) {
    var n := base + Length(items);
    |now| == |before| && n <= |now| && now[..n] == Expand(below, before[..base], items) && now[n..] == before[n..]
  }

  lemma WroteAppend(a: seq<byte>, b: seq<byte>, c: seq<byte>, below: Below, x: seq<Item>, y: seq<Item>)
    requires Wrote(b, a, below, 0, x) && Wrote(c, b, below, Length(x), y)
    ensures Wrote(c, a, below, 0, x + y)
  {
    hide Expand, Length;
    var m, n := Length(x), Length(x) + Length(y);
    LengthAppend(x, y);
    ExpandAppend(below, a[..0], x, y);
    assert b[n..] == b[m..][n - m..] && a[n..] == a[m..][n - m..];
  }

  /** Store one item after the first `at` bytes; without a buffer there is nothing to do. */
  method Write(buf: array?<byte>, at: nat, item: Item, below: Below)
    requires buf != null ==> at + Size(item) <= buf.Length
    modifies buf
    ensures buf != null ==> buf[..at + Size(item)] == Apply(below, old(buf[..at]), item)
    ensures buf != null ==> buf[at + Size(item)..] == old(buf[at + Size(item)..])
  {
    if buf == null { return; }
    if item.Literal? {
      buf[at] := item.b;
      assert buf[..at + 1] == old(buf[..at]) + [item.b];
      return;
    }
    ghost var out, n := buf[..at], item.len;
    for i := 0 to item.len
      invariant buf[..at + i] == CopyMatch(below, out, item.offset, i)
      invariant buf[at + n..] == old(buf[at + n..])
    {
      var b := if item.offset <= at + i then buf[at + i - item.offset] else below(item.offset - (at + i));
      assert b == Back(below, buf[..at + i], item.offset);
      buf[at + i] := b;
      assert buf[..at + i + 1] == CopyMatch(below, out, item.offset, i) + [b];
    }
  }

  lemma ExpandOne(below: Below, out: seq<byte>, done: seq<Item>, item: Item)
    ensures Expand(below, out, done + [item]) == Apply(below, Expand(below, out, done), item)
    ensures Length(done + [item]) == Length(done) + Size(item)
  {
    assert (done + [item])[..|done|] == done;
  }

  lemma WroteItem(before: seq<byte>, mid: seq<byte>, now: seq<byte>, below: Below, base: nat, done: seq<Item>, item: Item)
    requires Wrote(mid, before, below, base, done) && |now| == |mid|
    requires var at := base + Length(done);
             && at + Size(item) <= |now| && now[..at + Size(item)] == Apply(below, mid[..at], item)
             && now[at + Size(item)..] == mid[at + Size(item)..]
    ensures Wrote(now, before, below, base, done + [item])
  {
    hide Expand, Length, Apply;
    var at := base + Length(done);
    var n := at + Size(item);
    ExpandOne(below, before[..base], done, item);
    assert mid[n..] == mid[at..][Size(item)..] && before[n..] == before[at..][Size(item)..];
  }

  /** The next item goes after those already written. */
  method Append(buf: array?<byte>, ghost before: seq<byte>, base: nat, at: nat, ghost done: seq<Item>, item: Item, below: Below)
    requires at == base + Length(done)
    requires buf != null ==> at + Size(item) <= buf.Length && Wrote(buf[..], before, below, base, done)
    modifies buf
    ensures buf != null ==> Wrote(buf[..], before, below, base, done + [item])
  {
    hide Wrote, Apply, Length;
    ghost var mid := if buf == null then [] else buf[..];
    Write(buf, at, item, below);
    if buf != null {
      var n := at + Size(item);
      assert buf[..][..n] == buf[..n] && mid[..at] == old(buf[..at]);
      assert buf[..][n..] == buf[n..] && mid[n..] == old(buf[n..]);
      WroteItem(before, mid, buf[..], below, base, done, item);
    }
  }

  /** No match reaches back past the start of the output. */
  predicate Grounded(items: seq<Item>) {
    items == [] ||
    var n := |items| - 1;
    Grounded(items[..n]) && (items[n].Match? ==> items[n].offset <= Length(items[..n]))
  }

  lemma {:induction false} LiteralsGrounded(s: seq<byte>)
    ensures Grounded(Literals(s))
  {
    if s != [] {
      LiteralsGrounded(s[..|s| - 1]);
      assert Literals(s)[..|s| - 1] == Literals(s[..|s| - 1]);
    }
  }

  lemma {:induction false} MatchGrounded(a: Below, b: Below, out: seq<byte>, offset: pos, n: nat)
    requires offset <= |out|
    ensures CopyMatch(a, out, offset, n) == CopyMatch(b, out, offset, n)
    decreases n
  {
    if n > 0 { MatchGrounded(a, b, out, offset, n - 1); }
  }

  /** The expansion of such items does not depend on the memory below the buffer. */
  lemma {:induction false} ExpandGrounded(a: Below, b: Below, items: seq<Item>)
    requires Grounded(items)
    ensures Expand(a, [], items) == Expand(b, [], items)
  {
    if items != [] {
      var n := |items| - 1;
      ExpandGrounded(a, b, items[..n]);
      if items[n].Match? { MatchGrounded(a, b, Expand(a, [], items[..n]), items[n].offset, items[n].len); }
    }
  }

  lemma {:induction false} MatchFirst(below: Below, out: seq<byte>, offset: pos, n: nat)
    requires n > 0
    ensures CopyMatch(below, out, offset, n)[|out|] == Back(below, out, offset)
    decreases n
  {
    if n > 1 { MatchFirst(below, out, offset, n - 1); }
  }

  /** A match that reaches below the buffer copies what it finds there. */
  lemma {:induction false} ExpandUngrounded(a: Below, b: Below, items: seq<Item>)
    requires !Grounded(items) && forall i :: 0 <= i < |items| && items[i].Match? ==> items[i].len > 0
    requires forall i: nat :: a(i) != b(i)
    ensures Expand(a, [], items) != Expand(b, [], items)
  {
    hide CopyMatch;
    var n := |items| - 1;
    var x, y := Expand(a, [], items[..n]), Expand(b, [], items[..n]);
    if !Grounded(items[..n]) {
      ExpandUngrounded(a, b, items[..n]);
      assert Expand(a, [], items)[..|x|] == x && Expand(b, [], items)[..|y|] == y;
    } else {
      ExpandGrounded(a, b, items[..n]);
      MatchFirst(a, x, items[n].offset, items[n].len);
      MatchFirst(b, x, items[n].offset, items[n].len);
    }
  }

  /** Items determine their expansion, whatever lies below the buffer, exactly if they are grounded. */
  lemma GroundedExactly(items: seq<Item>)
    requires forall i :: 0 <= i < |items| && items[i].Match? ==> items[i].len > 0
    ensures Grounded(items) <==> forall a, b :: Expand(a, [], items) == Expand(b, [], items)
  {
    hide Expand, Grounded;
    if Grounded(items) {
      forall a, b ensures Expand(a, [], items) == Expand(b, [], items) { ExpandGrounded(a, b, items); }
    } else {
      var a: Below, b: Below := (i: nat) => 0, (i: nat) => 1;
      ExpandUngrounded(a, b, items);
    }
  }
}
