/**
 The bytes of the structure block: what it means that a block holds a tree, and what a
 reader meets that goes through it token by token.
 */
module FdtBytes {
  import opened FdtTree

  // The k bytes at p as a big-endian number.
  function BigEndian(b: seq<Byte>, p: nat, k: nat): nat
    requires p + k <= |b|
  {
    if k == 0 then 0 else
    var last: nat := b[p + k - 1];
    BigEndian(b, p, k - 1) * 256 + last
  }

  function Be32At(b: seq<Byte>, p: nat): nat
    requires p + 4 <= |b|
  {
    BigEndian(b, p, 4)
  }

  // The first byte weighs most.
  lemma FourBytes(b: seq<Byte>, p: nat)
    requires p + 4 <= |b|
    ensures Be32At(b, p) == 0x100_0000 * (b[p] as int) + 0x1_0000 * (b[p + 1] as int) + 0x100 * (b[p + 2] as int) + b[p + 3] as int
  {
    assert BigEndian(b, p, 1) == b[p];
    assert BigEndian(b, p, 2) == 256 * (b[p] as int) + b[p + 1] as int;
    assert BigEndian(b, p, 3) == 256 * BigEndian(b, p, 2) + b[p + 2] as int;
  }

  // Of eight bytes the first four are the high half.
  lemma EightBytes(b: seq<Byte>, p: nat)
    requires p + 8 <= |b|
    ensures BigEndian(b, p, 8) == 0x1_0000_0000 * BigEndian(b, p, 4) + BigEndian(b, p + 4, 4)
  {
    NextBytes(b, p, 1);
    NextBytes(b, p, 2);
    NextBytes(b, p, 3);
    NextBytes(b, p, 4);
  }

  lemma {:induction false} NextBytes(b: seq<Byte>, p: nat, k: nat)
    requires p + 4 + k <= |b| && 0 < k <= 4
    ensures BigEndian(b, p, 4 + k) == BigEndian(b, p, 4) * (if k == 1 then 0x100 else if k == 2 then 0x1_0000 else if k == 3 then 0x100_0000 else 0x1_0000_0000) + BigEndian(b, p + 4, k)
  {
    if k > 1 {
      NextBytes(b, p, k - 1);
    } else {
      assert BigEndian(b, p + 4, 0) == 0;
    }
  }

  predicate Word(b: seq<Byte>, p: nat, x: nat)
  {
    p + 4 <= |b| && Be32At(b, p) == x
  }

  predicate Bytes(b: seq<Byte>, p: nat, v: seq<Byte>)
  {
    true == (p + |v| <= |b| && b[p..p + |v|] == v)
  }

  // The zero-terminated string s starts at p.
  predicate CString(b: seq<Byte>, p: nat, s: seq<Byte>)
  {
    0 !in s && p + |s| < |b| && b[p..p + |s|] == s && b[p + |s|] == 0
  }

  // The position of the first zero byte at or after p, |b| when there is none.
  function NulAt(b: seq<Byte>, p: nat): (q: nat)
    requires p <= |b|
    ensures p <= q <= |b| && (q < |b| ==> b[q] == 0) && 0 !in b[p..q]
    decreases |b| - p
  {
    if p == |b| || b[p] == 0 then p else
    var q := NulAt(b, p + 1);
    assert b[p..q] == [b[p]] + b[p + 1..q];
    q
  }

  // A string that ends inside the blob starts at q.
  predicate Terminated(b: seq<Byte>, q: nat)
  {
    q <= |b| && NulAt(b, q) < |b|
  }

  // The structure block b holds f from p on, as sections 5.4.1 and 5.4.2 lay it out, and
  // the property names are strings of the strings block.
  predicate Holds(b: seq<Byte>, strs: seq<Byte>, p: nat, f: Forest)
    decreases f
  {
    true == match f
            case Empty => true
            case Nop(r) => Word(b, p, NOP) && Holds(b, strs, p + 4, r)
            case Prop(o, v, r) =>
              && Word(b, p, PROP) && Word(b, p + 4, |v|) && Word(b, p + 8, o) && Terminated(strs, o)
              && Bytes(b, p + 12, v) && Holds(b, strs, p + PropSize(v), r)
            case Node(n, c, r) =>
              var q := p + HeadSize(n) + Size(c);
              && Word(b, p, BEGIN_NODE) && CString(b, p + 4, n) && Holds(b, strs, p + HeadSize(n), c)
              && Word(b, q, END_NODE) && Holds(b, strs, q + 4, r)
  }

  // What a reader has before it: f is what remains of the innermost open node, outer what
  // remains around it. Top is outside the first node a reader opens.
  datatype Rest = Top(f: Forest) | In(f: Forest, name: seq<Byte>, outer: Rest)

  // A reader at pos.
  datatype Cursor = Cursor(pos: nat, rest: Rest)

  function Depth(s: Rest): nat
  {
    match s
    case Top(_) => 0
    case In(_, _, outer) => 1 + Depth(outer)
  }

  // From p on the block holds what remains, and then the word last.
  predicate Remains(b: seq<Byte>, strs: seq<Byte>, p: nat, s: Rest, last: nat)
    decreases s
  {
    true == match s
            case Top(f) => Holds(b, strs, p, f) && Word(b, p + Size(f), last)
            case In(f, _, outer) =>
              Holds(b, strs, p, f) && Word(b, p + Size(f), END_NODE) && Remains(b, strs, p + Size(f) + 4, outer, last)
  }

  predicate Reading(b: seq<Byte>, strs: seq<Byte>, c: Cursor, last: nat)
  {
    true == (Align4(c.pos) == c.pos && Remains(b, strs, c.pos, c.rest, last))
  }

  // The reader is at the word last.
  predicate Ended(c: Cursor)
  {
    c.rest.Top? && c.rest.f.Empty?
  }

  // The reader behind one more token.
  function Next(c: Cursor): Cursor
    requires !Ended(c)
  {
    match c.rest.f
    case Empty => Cursor(c.pos + 4, c.rest.outer)
    case Nop(r) => Cursor(c.pos + 4, c.rest.(f := r))
    case Prop(_, v, r) => Cursor(c.pos + PropSize(v), c.rest.(f := r))
    case Node(n, k, r) => Cursor(c.pos + HeadSize(n), In(k, n, c.rest.(f := r)))
  }

  // The token a reader meets.
  predicate Meets(b: seq<Byte>, strs: seq<Byte>, c: Cursor, last: nat)
  {
    true == match c.rest.f
            case Empty => Word(b, c.pos, if c.rest.Top? then last else END_NODE)
            case Nop(_) => Word(b, c.pos, NOP)
            case Prop(o, v, _) =>
              Word(b, c.pos, PROP) && Word(b, c.pos + 4, |v|) && Word(b, c.pos + 8, o) && Terminated(strs, o)
            case Node(n, _, _) => Word(b, c.pos, BEGIN_NODE) && CString(b, c.pos + 4, n)
  }

  lemma HeaderEnd(p: nat, n: seq<Byte>)
    requires Align4(p) == p
    ensures Align4(p + 4 + |n| + 1) == p + HeadSize(n) && Align4(p + HeadSize(n)) == p + HeadSize(n)
  {
    HeadSizeAligned(n);
    Align4Sum(p, 4 + |n| + 1);
    Align4Sum(4, |n| + 1);
    AlignedSum(p, HeadSize(n));
  }

  lemma PropEnd(p: nat, v: seq<Byte>)
    requires Align4(p) == p
    ensures Align4(p + 12 + |v|) == p + PropSize(v) && Align4(p + PropSize(v)) == p + PropSize(v)
  {
    PropSizeAligned(v);
    Align4Sum(p, 12 + |v|);
    PropSizeAligned([]);
    Align4Sum(12, |v|);
    AlignedSum(p, PropSize(v));
  }

  // What remains behind a part of the innermost node.
  lemma Resume(b: seq<Byte>, strs: seq<Byte>, p: nat, s: Rest, q: nat, r: Forest, last: nat)
    requires Remains(b, strs, p, s, last) && Holds(b, strs, q, r) && q + Size(r) == p + Size(s.f)
    ensures Remains(b, strs, q, s.(f := r), last)
  {
    match s
    case Top(_) => assert Remains(b, strs, q, Top(r), last);
    case In(_, name, outer) => assert Remains(b, strs, q, In(r, name, outer), last);
  }

  lemma BeginReads(b: seq<Byte>, strs: seq<Byte>, p: nat, n: seq<Byte>, k: Forest, r: Forest, s: Rest, last: nat)
    requires Align4(p) == p && s.f == Node(n, k, r) && Remains(b, strs, p, s, last)
    ensures Word(b, p, BEGIN_NODE) && CString(b, p + 4, n)
    ensures Remains(b, strs, p + HeadSize(n), In(k, n, s.(f := r)), last)
  {
    hide BigEndian, Align4;
    var q := p + HeadSize(n) + Size(k) + 4;
    assert Holds(b, strs, p + HeadSize(n), k) && Word(b, q - 4, END_NODE) && Holds(b, strs, q, r);
    assert q + Size(r) == p + Size(s.f);
    Resume(b, strs, p, s, q, r, last);
    Inside(b, strs, p + HeadSize(n), k, n, s.(f := r), last);
  }

  // The content of a node, its end, and what remains behind it.
  lemma Inside(b: seq<Byte>, strs: seq<Byte>, p: nat, k: Forest, n: seq<Byte>, s: Rest, last: nat)
    requires Holds(b, strs, p, k) && Word(b, p + Size(k), END_NODE) && Remains(b, strs, p + Size(k) + 4, s, last)
    ensures Remains(b, strs, p, In(k, n, s), last)
  {
  }

  lemma PropReads(b: seq<Byte>, strs: seq<Byte>, p: nat, o: nat, v: seq<Byte>, r: Forest, s: Rest, last: nat)
    requires s.f == Prop(o, v, r) && Remains(b, strs, p, s, last)
    ensures Word(b, p, PROP) && Word(b, p + 4, |v|) && Word(b, p + 8, o) && Terminated(strs, o)
    ensures Remains(b, strs, p + PropSize(v), s.(f := r), last)
  {
    var q := p + PropSize(v);
    assert Holds(b, strs, q, r) && q + Size(r) == p + Size(s.f);
    Resume(b, strs, p, s, q, r, last);
  }

  lemma PassReads(b: seq<Byte>, strs: seq<Byte>, p: nat, r: Forest, s: Rest, last: nat)
    requires s.f == Nop(r) && Remains(b, strs, p, s, last)
    ensures Word(b, p, NOP) && Remains(b, strs, p + 4, s.(f := r), last)
  {
    var q := p + 4;
    assert Holds(b, strs, q, r) && q + Size(r) == p + Size(s.f);
    Resume(b, strs, p, s, q, r, last);
  }

  lemma EndReads(b: seq<Byte>, strs: seq<Byte>, p: nat, s: Rest, last: nat)
    requires s.f.Empty? && Remains(b, strs, p, s, last)
    ensures Word(b, p, if s.Top? then last else END_NODE)
    ensures s.In? ==> Remains(b, strs, p + 4, s.outer, last)
  {
  }

  // The padding a reader skips is the padding of the layout.
  predicate PaddingSkipped(c: Cursor)
    requires !Ended(c)
  {
    && (c.rest.f.Prop? ==> Next(c).pos == Align4(c.pos + 12 + |c.rest.f.value|))
    && (c.rest.f.Node? ==> Next(c).pos == Align4(c.pos + 4 + |c.rest.f.name| + 1))
  }

  lemma NextBegin(b: seq<Byte>, strs: seq<Byte>, c: Cursor, last: nat)
    requires Reading(b, strs, c, last) && c.rest.f.Node?
    ensures Meets(b, strs, c, last) && Reading(b, strs, Next(c), last) && PaddingSkipped(c)
  {
    hide BigEndian, Align4, Remains, Holds;
    var Node(n, k, r) := c.rest.f;
    HeaderEnd(c.pos, n);
    BeginReads(b, strs, c.pos, n, k, r, c.rest, last);
    assert Next(c) == Cursor(c.pos + HeadSize(n), In(k, n, c.rest.(f := r)));
  }

  lemma NextProp(b: seq<Byte>, strs: seq<Byte>, c: Cursor, last: nat)
    requires Reading(b, strs, c, last) && c.rest.f.Prop?
    ensures Meets(b, strs, c, last) && Reading(b, strs, Next(c), last) && PaddingSkipped(c)
  {
    hide BigEndian, Align4, Remains, Holds;
    PropEnd(c.pos, c.rest.f.value);
    PropReads(b, strs, c.pos, c.rest.f.nameOff, c.rest.f.value, c.rest.f.rest, c.rest, last);
  }

  lemma NextPass(b: seq<Byte>, strs: seq<Byte>, c: Cursor, last: nat)
    requires Reading(b, strs, c, last) && c.rest.f.Nop?
    ensures Meets(b, strs, c, last) && Reading(b, strs, Next(c), last) && PaddingSkipped(c)
  {
    PartSum(c.pos, 4, c.pos + 4);
    PassReads(b, strs, c.pos, c.rest.f.rest, c.rest, last);
  }

  lemma NextEnd(b: seq<Byte>, strs: seq<Byte>, c: Cursor, last: nat)
    requires Reading(b, strs, c, last) && c.rest.f.Empty? && c.rest.In?
    ensures Meets(b, strs, c, last) && Reading(b, strs, Next(c), last) && PaddingSkipped(c)
  {
    PartSum(c.pos, 4, c.pos + 4);
    EndReads(b, strs, c.pos, c.rest, last);
  }

  // A reader meets the tokens of the tree one by one.
  lemma NextReads(b: seq<Byte>, strs: seq<Byte>, c: Cursor, last: nat)
    requires Reading(b, strs, c, last)
    ensures Meets(b, strs, c, last)
    ensures !Ended(c) ==> Reading(b, strs, Next(c), last) && PaddingSkipped(c)
  {
    if Ended(c) {
      EndReads(b, strs, c.pos, c.rest, last);
    } else {
      match c.rest.f
      case Prop(_, _, _) => NextProp(b, strs, c, last);
      case Node(_, _, _) => NextBegin(b, strs, c, last);
      case Nop(_) => NextPass(b, strs, c, last);
      case Empty => NextEnd(b, strs, c, last);
    }
  }
}
