/**
 The flattened devicetree as the Devicetree Specification defines it (sections 5.4 and 5.5):
 trees, the sizes of their encodings, and what a search in a tree finds.
 */
module FdtTree {

  type Byte = b: nat | b < 256

  const SLASH: Byte := 47
  const AT_SIGN: Byte := 64

  const BEGIN_NODE: nat := 1
  const END_NODE: nat := 2
  const PROP: nat := 3
  const NOP: nat := 4
  const END: nat := 9

  // The pieces inside one node, in document order. Node(..., rest) is followed by its
  // later siblings.
  datatype Forest =
    | Empty
    | Nop(rest: Forest)
    | Prop(nameOff: nat, value: seq<Byte>, rest: Forest)
    | Node(name: seq<Byte>, children: Forest, rest: Forest)

  // ---------- sizes ----------

  // The least multiple of four at or above x.
  function Align4(x: int): (y: nat)
    ensures x <= y && (0 <= x ==> y < x + 4)
  {
    if x <= 0 then 0 else 4 + Align4(x - 4)
  }

  lemma {:induction false} Align4Sum(p: nat, k: nat)
    requires Align4(p) == p
    ensures Align4(p + k) == p + Align4(k)
  {
    if p > 0 {
      assert 4 <= p;
      Align4Sum(p - 4, k);
    }
  }

  // Four bytes for the token, the name with its zero byte, and padding.
  function HeadSize(name: seq<Byte>): nat
  {
    4 + Align4(|name| + 1)
  }

  function PropSize(value: seq<Byte>): nat
  {
    12 + Align4(|value|)
  }

  function Size(f: Forest): nat
  {
    match f
    case Empty => 0
    case Nop(r) => 4 + Size(r)
    case Prop(_, v, r) => PropSize(v) + Size(r)
    case Node(n, c, r) => HeadSize(n) + Size(c) + 4 + Size(r)
  }

  lemma {:induction false} Align4Twice(x: int)
    ensures Align4(Align4(x)) == Align4(x)
  {
    if x > 0 {
      Align4Twice(x - 4);
    }
  }

  lemma AlignedSum(p: nat, q: nat)
    requires Align4(p) == p && Align4(q) == q
    ensures Align4(p + q) == p + q
  {
    Align4Sum(p, q);
  }

  lemma {:induction false} AlignedIsMultiple(p: nat)
    ensures Align4(p) == p <==> p % 4 == 0
  {
    if p >= 4 {
      AlignedIsMultiple(p - 4);
    }
  }

  lemma NodeSum(a: nat, b: nat, c: nat, total: nat)
    requires Align4(a) == a && Align4(b) == b && Align4(c) == c && total == a + b + 4 + c
    ensures Align4(total) == total
  {
    hide Align4;
    AlignedIsMultiple(a);
    AlignedIsMultiple(b);
    AlignedIsMultiple(c);
    SumMultiple(a, b, c);
    AlignedIsMultiple(total);
  }

  lemma SumMultiple(a: nat, b: nat, c: nat)
    requires a % 4 == 0 && b % 4 == 0 && c % 4 == 0
    ensures (a + b + 4 + c) % 4 == 0
  {
  }

  lemma PartSum(a: nat, b: nat, total: nat)
    requires Align4(a) == a && Align4(b) == b && total == a + b
    ensures Align4(total) == total
  {
    AlignedSum(a, b);
  }

  lemma {:induction false} SizeAligned(f: Forest)
    ensures Align4(Size(f)) == Size(f)
  {
    match f
    case Empty =>
    case Nop(r) =>
      SizeAligned(r);
      PartSum(4, Size(r), Size(f));
    case Prop(_, v, r) =>
      SizeAligned(r);
      PropSizeAligned(v);
      PartSum(PropSize(v), Size(r), Size(f));
    case Node(n, c, r) =>
      SizeAligned(c);
      SizeAligned(r);
      HeadSizeAligned(n);
      NodeSum(HeadSize(n), Size(c), Size(r), Size(f));
  }

  lemma HeadSizeAligned(n: seq<Byte>)
    ensures Align4(HeadSize(n)) == HeadSize(n)
  {
    Align4Twice(|n| + 1);
    AlignedSum(4, Align4(|n| + 1));
  }

  lemma PropSizeAligned(v: seq<Byte>)
    ensures Align4(PropSize(v)) == PropSize(v)
  {
    assert Align4(4) == 4 && Align4(8) == 8;
    AlignedSum(4, 4);
    Align4Twice(|v|);
    AlignedSum(12, Align4(|v|));
  }

  // ---------- paths ----------

  // The parts of path from q on between slashes; a slash at the end opens no further part.
  function Segments(path: seq<Byte>, q: nat): seq<seq<Byte>>
    decreases |path| - q
  {
    if q >= |path| then [] else
    var e := SegmentEnd(path, q);
    [path[q..e]] + Segments(path, e + 1)
  }

  // The first slash at or after q, |path| when there is none.
  function SegmentEnd(path: seq<Byte>, q: nat): (e: nat)
    requires q <= |path|
    ensures q <= e <= |path| && (e < |path| ==> path[e] == SLASH)
    ensures forall i :: q <= i < e ==> path[i] != SLASH
    decreases |path| - q
  {
    if q == |path| || path[q] == SLASH then q else SegmentEnd(path, q + 1)
  }

  // A segment names a node exactly, or up to the unit address.
  predicate NameMatch(name: seq<Byte>, seg: seq<Byte>)
  {
    seg <= name && (|name| == |seg| || name[|seg|] == AT_SIGN)
  }

  // How many leading names match their segments.
  function MatchLen(chain: seq<seq<Byte>>, segs: seq<seq<Byte>>): (k: nat)
    ensures k <= |chain| && k <= |segs|
  {
    if chain == [] || segs == [] || !NameMatch(chain[0], segs[0]) then 0 else 1 + MatchLen(chain[1..], segs[1..])
  }

  predicate ChainMatch(chain: seq<seq<Byte>>, segs: seq<seq<Byte>>)
  {
    |chain| == |segs| && forall i :: 0 <= i < |chain| ==> NameMatch(chain[i], segs[i])
  }

  // ---------- document order ----------

  // A node by the offset of its encoding and the names from below the root down to it.
  datatype Entry = Entry(off: nat, chain: seq<seq<Byte>>)

  // The nodes of f in document order; f is encoded at off inside the node chain leads to.
  function PreOrder(f: Forest, off: nat, chain: seq<seq<Byte>>): seq<Entry>
  {
    match f
    case Empty => []
    case Nop(r) => PreOrder(r, off + 4, chain)
    case Prop(o, v, r) => PreOrder(r, off + PropSize(v), chain)
    case Node(n, c, r) =>
      [Entry(off, chain + [n])]
      + PreOrder(c, off + HeadSize(n), chain + [n])
      + PreOrder(r, off + HeadSize(n) + Size(c) + 4, chain)
  }

  // The nodes of a whole structure block, in which the root has the empty path.
  function DocumentOrder(f: Forest, off: nat): seq<Entry>
  {
    match f
    case Empty => []
    case Nop(r) => DocumentOrder(r, off + 4)
    case Prop(o, v, r) => DocumentOrder(r, off + PropSize(v))
    case Node(n, c, r) =>
      [Entry(off, [])]
      + PreOrder(c, off + HeadSize(n), [])
      + DocumentOrder(r, off + HeadSize(n) + Size(c) + 4)
  }

  // The offset of the first node whose chain of names matches the segments, -1 if none.
  function FirstMatch(entries: seq<Entry>, segs: seq<seq<Byte>>): int
  {
    if entries == [] then -1
    else if ChainMatch(entries[0].chain, segs) then entries[0].off
    else FirstMatch(entries[1..], segs)
  }

  // What a path leads to: only absolute paths lead anywhere.
  function PathTarget(top: Forest, path: seq<Byte>): int
  {
    if path == [] || path[0] != SLASH then -1 else FirstMatch(DocumentOrder(top, 0), Segments(path, 1))
  }

  // A property by the offset of its name in the strings block and the place of its value.
  datatype PropEntry = PropEntry(nameOff: nat, at: nat, len: nat)

  // The properties of f and of the nodes in it, in document order.
  function PropOrder(f: Forest, off: nat): seq<PropEntry>
  {
    match f
    case Empty => []
    case Nop(r) => PropOrder(r, off + 4)
    case Prop(o, v, r) => [PropEntry(o, off + 12, |v|)] + PropOrder(r, off + PropSize(v))
    case Node(n, c, r) => PropOrder(c, off + HeadSize(n)) + PropOrder(r, off + HeadSize(n) + Size(c) + 4)
  }

  // The node's own properties only.
  function OwnProps(f: Forest, off: nat): seq<PropEntry>
  {
    match f
    case Empty => []
    case Nop(r) => OwnProps(r, off + 4)
    case Prop(o, v, r) => [PropEntry(o, off + 12, |v|)] + OwnProps(r, off + PropSize(v))
    case Node(n, c, r) => OwnProps(r, off + HeadSize(n) + Size(c) + 4)
  }

  // Section 5.4.2: the properties of a node come before its child nodes.
  predicate PropsFirst(f: Forest)
  {
    match f
    case Empty => true
    case Nop(r) => PropsFirst(r)
    case Prop(_, _, r) => PropsFirst(r)
    case Node(_, _, r) => NoOwnProps(r)
  }

  predicate NoOwnProps(f: Forest)
  {
    match f
    case Empty => true
    case Nop(r) => NoOwnProps(r)
    case Prop(_, _, _) => false
    case Node(_, _, r) => NoOwnProps(r)
  }

  // The string that starts at o in the strings block is name.
  predicate NameAt(strings: seq<Byte>, o: nat, name: seq<Byte>)
  {
    o + |name| < |strings| && strings[o..o + |name|] == name && strings[o + |name|] == 0
  }

  datatype Found = NotFound | At(offset: nat, len: nat)

  function FirstNamed(entries: seq<PropEntry>, strings: seq<Byte>, name: seq<Byte>): Found
  {
    if entries == [] then NotFound
    else if NameAt(strings, entries[0].nameOff, name) then At(entries[0].at, entries[0].len)
    else FirstNamed(entries[1..], strings, name)
  }

  lemma {:induction false} FirstNamedConcat(a: seq<PropEntry>, b: seq<PropEntry>, strings: seq<Byte>, name: seq<Byte>)
    ensures FirstNamed(a + b, strings, name) ==
              if FirstNamed(a, strings, name) != NotFound then FirstNamed(a, strings, name) else FirstNamed(b, strings, name)
  {
    if a == [] {
      assert a + b == b;
    } else {
      assert (a + b)[1..] == a[1..] + b;
      FirstNamedConcat(a[1..], b, strings, name);
    }
  }

  lemma {:induction false} FirstMatchConcat(a: seq<Entry>, b: seq<Entry>, segs: seq<seq<Byte>>)
    ensures FirstMatch(a + b, segs) == if FirstMatch(a, segs) >= 0 then FirstMatch(a, segs) else FirstMatch(b, segs)
    ensures FirstMatch(a, segs) >= -1
  {
    if a == [] {
      assert a + b == b;
    } else {
      assert (a + b)[1..] == a[1..] + b;
      FirstMatchConcat(a[1..], b, segs);
    }
  }

  lemma {:induction false} NoOwn(f: Forest, off: nat)
    requires NoOwnProps(f)
    ensures OwnProps(f, off) == []
  {
    match f
    case Empty =>
    case Nop(r) => NoOwn(r, off + 4);
    case Prop(_, _, _) =>
    case Node(n, c, r) => NoOwn(r, off + HeadSize(n) + Size(c) + 4);
  }

  // In a tree that follows section 5.4.2 the first property of a name in the subtree is
  // the node's own whenever the node has one.
  lemma {:induction false} OwnComesFirst(f: Forest, off: nat, strings: seq<Byte>, name: seq<Byte>)
    requires PropsFirst(f) && FirstNamed(OwnProps(f, off), strings, name) != NotFound
    ensures FirstNamed(PropOrder(f, off), strings, name) == FirstNamed(OwnProps(f, off), strings, name)
  {
    match f
    case Empty =>
    case Nop(r) => OwnComesFirst(r, off + 4, strings, name);
    case Prop(o, v, r) =>
      var next := off + PropSize(v);
      FirstNamedConcat([PropEntry(o, off + 12, |v|)], OwnProps(r, next), strings, name);
      FirstNamedConcat([PropEntry(o, off + 12, |v|)], PropOrder(r, next), strings, name);
      if !NameAt(strings, o, name) {
        OwnComesFirst(r, next, strings, name);
      }
    case Node(n, c, r) => NoOwn(r, off + HeadSize(n) + Size(c) + 4);
  }

  lemma {:induction false} MatchLenSnoc(chain: seq<seq<Byte>>, n: seq<Byte>, segs: seq<seq<Byte>>)
    ensures MatchLen(chain + [n], segs) ==
              if MatchLen(chain, segs) == |chain| && |chain| < |segs| && NameMatch(n, segs[|chain|])
              then |chain| + 1 else MatchLen(chain, segs)
  {
    if chain == [] {
      assert [n][1..] == [];
    } else if segs != [] {
      assert (chain + [n])[1..] == chain[1..] + [n];
      MatchLenSnoc(chain[1..], n, segs[1..]);
    }
  }

  lemma {:induction false} MatchLenIsMatch(chain: seq<seq<Byte>>, segs: seq<seq<Byte>>)
    ensures ChainMatch(chain, segs) <==> |chain| == |segs| == MatchLen(chain, segs)
  {
    if chain != [] && segs != [] {
      MatchLenIsMatch(chain[1..], segs[1..]);
      if ChainMatch(chain[1..], segs[1..]) && NameMatch(chain[0], segs[0]) {
        forall i | 0 <= i < |chain|
          ensures NameMatch(chain[i], segs[i])
        {
          assert i > 0 ==> NameMatch(chain[1..][i - 1], segs[1..][i - 1]);
        }
      }
    }
  }

  // ---------- what the parts of a path are ----------

  // The segments with a slash between each two.
  function Join(segs: seq<seq<Byte>>): seq<Byte>
  {
    if segs == [] then [] else if |segs| == 1 then segs[0] else segs[0] + [SLASH] + Join(segs[1..])
  }

  lemma SegmentEndIs(path: seq<Byte>, q: nat, e: nat)
    requires q <= e <= |path| && (e < |path| ==> path[e] == SLASH) && forall i :: q <= i < e ==> path[i] != SLASH
    ensures SegmentEnd(path, q) == e
  {
  }

  lemma {:induction false} SlashFree(path: seq<Byte>, q: nat)
    ensures forall s :: s in Segments(path, q) ==> SLASH !in s
    decreases |path| - q
  {
    if q < |path| {
      SlashFree(path, SegmentEnd(path, q) + 1);
    }
  }

  lemma JoinCons(s: seq<Byte>, rest: seq<seq<Byte>>)
    ensures Join([s] + rest) == if rest == [] then s else s + [SLASH] + Join(rest)
  {
    assert ([s] + rest)[1..] == rest;
  }

  // The slash at the end of a path, which opens no segment.
  function LastSlash(path: seq<Byte>, q: nat): seq<Byte>
    requires q <= |path|
  {
    if q < |path| && path[|path| - 1] == SLASH then [SLASH] else []
  }

  lemma SegmentsCons(path: seq<Byte>, q: nat)
    requires q < |path|
    ensures var e := SegmentEnd(path, q);
            Segments(path, q) == [path[q..e]] + Segments(path, e + 1) && (Segments(path, e + 1) == [] <==> |path| <= e + 1)
  {
  }

  // Joining these segments gives the path from q on, up to one slash at its end.
  predicate Rejoined(path: seq<Byte>, q: nat, segs: seq<seq<Byte>>)
    requires q <= |path|
  {
    true == (path[q..] == Join(segs) + LastSlash(path, q))
  }

  lemma {:induction false} SegmentsJoin(path: seq<Byte>, q: nat)
    requires q <= |path|
    ensures Rejoined(path, q, Segments(path, q))
    decreases |path| - q
  {
    if q < |path| {
      hide Rejoined, Segments;
      var e := SegmentEnd(path, q);
      SegmentsCons(path, q);
      if e < |path| {
        SegmentsJoin(path, e + 1);
        SlashBehind(path, q, e, Segments(path, e + 1));
      } else {
        NoSlashBehind(path, q);
      }
    }
  }

  lemma NoSlashBehind(path: seq<Byte>, q: nat)
    requires q < |path| && SegmentEnd(path, q) == |path|
    ensures Rejoined(path, q, [path[q..|path|]] + [])
  {
    JoinCons(path[q..|path|], []);
  }

  lemma SlashBehind(path: seq<Byte>, q: nat, e: nat, rest: seq<seq<Byte>>)
    requires q <= e < |path| && path[e] == SLASH && Rejoined(path, e + 1, rest) && (rest == [] <==> |path| <= e + 1)
    ensures Rejoined(path, q, [path[q..e]] + rest)
  {
    hide Join;
    var s := path[q..e];
    JoinCons(s, rest);
    assert path[q..] == s + [SLASH] + path[e + 1..];
    if rest != [] {
      assert s + [SLASH] + (Join(rest) + LastSlash(path, q)) == s + [SLASH] + Join(rest) + LastSlash(path, q);
    }
  }

  // The segments of an absolute path hold no slash, and joining them gives the path again, up
  // to one slash at its end.
  lemma PathJoined(path: seq<Byte>)
    requires path != [] && path[0] == 47
    ensures forall s :: s in Segments(path, 1) ==> 47 !in s
    ensures path[1..] == Join(Segments(path, 1)) + if |path| > 1 && path[|path| - 1] == 47 then [47] else []
  {
    SlashFree(path, 1);
    SegmentsJoin(path, 1);
  }

  lemma FirstSegment(prefix: seq<Byte>, s: seq<Byte>, more: seq<Byte>)
    requires SLASH !in s && (more == [] || more[0] == SLASH) && s + more != []
    ensures Segments(prefix + s + more, |prefix|) == [s] + Segments(prefix + s + more, |prefix| + |s| + 1)
  {
    var path, e := prefix + s + more, |prefix| + |s|;
    assert path[|prefix|..e] == s;
    forall i | |prefix| <= i < e
      ensures path[i] != SLASH
    {
      assert path[i] == s[i - |prefix|];
    }
    SegmentEndIs(path, |prefix|, e);
  }

  // Behind any prefix the segments of a joined list are that list, unless its last one is
  // empty and so leaves no trace.
  lemma {:induction false} JoinSegments(prefix: seq<Byte>, segs: seq<seq<Byte>>)
    requires forall s :: s in segs ==> SLASH !in s
    requires segs == [] || segs[|segs| - 1] != []
    ensures Segments(prefix + Join(segs), |prefix|) == segs
    decreases |segs|
  {
    if |segs| == 1 {
      JoinLast(prefix, segs[0]);
      assert Join(segs) == segs[0];
    } else if segs != [] {
      JoinNext(prefix, segs[0], Join(segs[1..]));
      JoinSegments(prefix + segs[0] + [SLASH], segs[1..]);
      assert Join(segs) == segs[0] + [SLASH] + Join(segs[1..]);
    }
  }

  lemma JoinLast(prefix: seq<Byte>, s: seq<Byte>)
    requires SLASH !in s && s != []
    ensures Segments(prefix + s, |prefix|) == [s]
  {
    FirstSegment(prefix, s, []);
    assert prefix + s + [] == prefix + s;
  }

  lemma JoinNext(prefix: seq<Byte>, s: seq<Byte>, rest: seq<Byte>)
    requires SLASH !in s
    ensures Segments(prefix + (s + [SLASH] + rest), |prefix|)
            == [s] + Segments(prefix + s + [SLASH] + rest, |prefix + s + [SLASH]|)
  {
    hide Segments;
    FirstSegment(prefix, s, [SLASH] + rest);
    Regroup(prefix, s, SLASH, rest);
  }

  lemma Regroup(a: seq<Byte>, b: seq<Byte>, x: Byte, c: seq<Byte>)
    ensures a + (b + [x] + c) == a + b + [x] + c == a + b + ([x] + c)
  {
  }

  // The absolute path of a list of slash-free segments has just these segments, exactly if
  // the list is empty or its last segment is not.
  lemma PathOfSegments(segs: seq<seq<Byte>>)
    requires forall s :: s in segs ==> SLASH !in s
    ensures Segments([SLASH] + Join(segs), 1) == segs <==> segs == [] || segs[|segs| - 1] != []
  {
    if segs == [] || segs[|segs| - 1] != [] {
      JoinSegments([SLASH], segs);
    } else {
      var path := [SLASH] + Join(segs);
      SegmentsJoin(path, 1);
      JoinEnds(segs);
    }
  }

  lemma {:induction false} JoinEnds(segs: seq<seq<Byte>>)
    requires segs != [] && segs[|segs| - 1] == []
    ensures |segs| == 1 ==> Join(segs) == []
    ensures |segs| > 1 ==> Join(segs) != [] && Join(segs)[|Join(segs)| - 1] == SLASH
    decreases |segs|
  {
    if |segs| > 1 {
      JoinEnds(segs[1..]);
    }
  }

  // A name matches a segment that is the name, or the name up to an at sign.
  lemma NameMatchMeans(name: seq<Byte>, seg: seq<Byte>)
    ensures NameMatch(name, seg) <==> name == seg || exists unit: seq<Byte> :: name == seg + [64] + unit
  {
    if NameMatch(name, seg) && name != seg {
      assert name == seg + [64] + name[|seg| + 1..];
    }
  }

  // ---------- what a path leads to ----------

  // From the nodes of f on, one level down for each segment, the path leads to the node at x.
  predicate Leads(f: Forest, off: nat, segs: seq<seq<Byte>>, x: nat)
  {
    match f
    case Empty => false
    case Nop(r) => Leads(r, off + 4, segs, x)
    case Prop(_, v, r) => Leads(r, off + PropSize(v), segs, x)
    case Node(n, c, r) =>
      || (segs != [] && NameMatch(n, segs[0]) && if |segs| == 1 then x == off else Leads(c, off + HeadSize(n), segs[1..], x))
      || Leads(r, off + HeadSize(n) + Size(c) + 4, segs, x)
  }

  // From a root node on, whose own name does not count.
  predicate LeadsFromRoot(f: Forest, off: nat, segs: seq<seq<Byte>>, x: nat)
  {
    match f
    case Empty => false
    case Nop(r) => LeadsFromRoot(r, off + 4, segs, x)
    case Prop(_, v, r) => LeadsFromRoot(r, off + PropSize(v), segs, x)
    case Node(n, c, r) =>
      || (if segs == [] then x == off else Leads(c, off + HeadSize(n), segs, x))
      || LeadsFromRoot(r, off + HeadSize(n) + Size(c) + 4, segs, x)
  }

  lemma {:induction false} LeadsInside(f: Forest, off: nat, segs: seq<seq<Byte>>, x: nat)
    requires Leads(f, off, segs, x)
    ensures off <= x < off + Size(f)
    decreases f
  {
    match f
    case Empty =>
    case Nop(r) => LeadsInside(r, off + 4, segs, x);
    case Prop(_, v, r) => LeadsInside(r, off + PropSize(v), segs, x);
    case Node(n, c, r) =>
      if Leads(r, off + HeadSize(n) + Size(c) + 4, segs, x) {
        LeadsInside(r, off + HeadSize(n) + Size(c) + 4, segs, x);
      } else if |segs| > 1 {
        LeadsInside(c, off + HeadSize(n), segs[1..], x);
      }
  }

  // t is the least x with this property, -1 if there is none.
  ghost predicate LeastLed(f: Forest, off: nat, segs: seq<seq<Byte>>, t: int)
  {
    true == ((t >= 0 ==> Leads(f, off, segs, t)) && t >= -1 && forall x: nat :: Leads(f, off, segs, x) ==> 0 <= t <= x)
  }

  // Names deeper than the segments reach match none of them.
  lemma {:induction false} TooDeep(f: Forest, off: nat, chain: seq<seq<Byte>>, segs: seq<seq<Byte>>)
    requires |segs| <= |chain|
    ensures FirstMatch(PreOrder(f, off, chain), segs) == -1
    decreases f
  {
    match f
    case Empty =>
    case Nop(r) => TooDeep(r, off + 4, chain, segs);
    case Prop(_, v, r) => TooDeep(r, off + PropSize(v), chain, segs);
    case Node(n, c, r) =>
      var h, q := off + HeadSize(n), off + HeadSize(n) + Size(c) + 4;
      TooDeep(c, h, chain + [n], segs);
      TooDeep(r, q, chain, segs);
      ThreeParts([Entry(off, chain + [n])], PreOrder(c, h, chain + [n]), PreOrder(r, q, chain), segs);
  }

  lemma ThreeParts(a: seq<Entry>, b: seq<Entry>, c: seq<Entry>, segs: seq<seq<Byte>>)
    ensures FirstMatch(a + b + c, segs) ==
              if FirstMatch(a, segs) >= 0 then FirstMatch(a, segs)
              else if FirstMatch(b, segs) >= 0 then FirstMatch(b, segs) else FirstMatch(c, segs)
    ensures FirstMatch(a, segs) >= -1 && FirstMatch(b, segs) >= -1 && FirstMatch(c, segs) >= -1
  {
    FirstMatchConcat(a + b, c, segs);
    FirstMatchConcat(a, b, segs);
    FirstMatchConcat(b, c, segs);
    FirstMatchConcat(c, [], segs);
    assert c + [] == c;
  }

  // Nodes below a chain that does not match the first segments match nothing.
  lemma {:induction false} WrongWay(f: Forest, off: nat, chain: seq<seq<Byte>>, segs: seq<seq<Byte>>)
    requires |chain| <= |segs| && !ChainMatch(chain, segs[..|chain|])
    ensures FirstMatch(PreOrder(f, off, chain), segs) == -1
    decreases f
  {
    match f
    case Empty =>
    case Nop(r) => WrongWay(r, off + 4, chain, segs);
    case Prop(_, v, r) => WrongWay(r, off + PropSize(v), chain, segs);
    case Node(n, c, r) =>
      var h, q := off + HeadSize(n), off + HeadSize(n) + Size(c) + 4;
      var i :| 0 <= i < |chain| && !NameMatch(chain[i], segs[..|chain|][i]);
      assert !NameMatch((chain + [n])[i], segs[i]);
      if |chain| < |segs| {
        assert segs[..|chain| + 1][i] == segs[i];
        WrongWay(c, h, chain + [n], segs);
      } else {
        TooDeep(c, h, chain + [n], segs);
      }
      WrongWay(r, q, chain, segs);
      ThreeParts([Entry(off, chain + [n])], PreOrder(c, h, chain + [n]), PreOrder(r, q, chain), segs);
  }

  lemma MatchSnoc(chain: seq<seq<Byte>>, n: seq<Byte>, pre: seq<seq<Byte>>, s: seq<Byte>)
    requires ChainMatch(chain, pre)
    ensures ChainMatch(chain + [n], pre + [s]) <==> NameMatch(n, s)
  {
    assert (chain + [n])[|chain|] == n && (pre + [s])[|chain|] == s;
  }

  // The node at off itself.
  lemma SearchHead(off: nat, n: seq<Byte>, chain: seq<seq<Byte>>, pre: seq<seq<Byte>>, segs: seq<seq<Byte>>)
    requires ChainMatch(chain, pre)
    ensures FirstMatch([Entry(off, chain + [n])], pre + segs) == if |segs| == 1 && NameMatch(n, segs[0]) then off else -1
  {
    assert [Entry(off, chain + [n])][1..] == [];
    if |segs| == 1 {
      assert segs == [segs[0]];
      MatchSnoc(chain, n, pre, segs[0]);
    }
  }

  // No node below one whose name does not match, or at which the path ends, is a target.
  lemma SearchNoFurther(n: seq<Byte>, c: Forest, h: nat, chain: seq<seq<Byte>>, pre: seq<seq<Byte>>, segs: seq<seq<Byte>>)
    requires ChainMatch(chain, pre) && (|segs| <= 1 || !NameMatch(n, segs[0]))
    ensures FirstMatch(PreOrder(c, h, chain + [n]), pre + segs) == -1
  {
    if |segs| <= 1 {
      TooDeep(c, h, chain + [n], pre + segs);
    } else {
      assert (pre + segs)[..|chain| + 1] == pre + [segs[0]];
      MatchSnoc(chain, n, pre, segs[0]);
      WrongWay(c, h, chain + [n], pre + segs);
    }
  }

  // Below a chain that matches pre, the first match in document order is the least node the
  // rest of the path leads to.
  lemma {:induction false} SearchLeads(f: Forest, off: nat, chain: seq<seq<Byte>>, pre: seq<seq<Byte>>, segs: seq<seq<Byte>>)
    requires ChainMatch(chain, pre)
    ensures LeastLed(f, off, segs, FirstMatch(PreOrder(f, off, chain), pre + segs))
    decreases f
  {
    match f
    case Empty =>
    case Nop(r) => SearchLeads(r, off + 4, chain, pre, segs);
    case Prop(_, v, r) => SearchLeads(r, off + PropSize(v), chain, pre, segs);
    case Node(n, c, r) =>
      var h, q := off + HeadSize(n), off + HeadSize(n) + Size(c) + 4;
      SearchLeads(r, q, chain, pre, segs);
      ThreeParts([Entry(off, chain + [n])], PreOrder(c, h, chain + [n]), PreOrder(r, q, chain), pre + segs);
      SearchHead(off, n, chain, pre, segs);
      if |segs| > 1 && NameMatch(n, segs[0]) {
        MatchSnoc(chain, n, pre, segs[0]);
        assert pre + [segs[0]] + segs[1..] == pre + segs;
        SearchLeads(c, h, chain + [n], pre + [segs[0]], segs[1..]);
      } else {
        SearchNoFurther(n, c, h, chain, pre, segs);
      }
      LeastOfNode(f, off, segs, FirstMatch(PreOrder(c, h, chain + [n]), pre + segs), FirstMatch(PreOrder(r, q, chain), pre + segs));
  }

  // A node comes before what is in it, and this before the later siblings.
  lemma LeastOfNode(f: Forest, off: nat, segs: seq<seq<Byte>>, inner: int, later: int)
    requires f.Node? && inner >= -1 && LeastLed(f.rest, off + HeadSize(f.name) + Size(f.children) + 4, segs, later)
    requires if |segs| > 1 && NameMatch(f.name, segs[0]) then LeastLed(f.children, off + HeadSize(f.name), segs[1..], inner) else inner == -1
    ensures LeastLed(f, off, segs,
                     if |segs| == 1 && NameMatch(f.name, segs[0]) then off else if inner >= 0 then inner else later)
  {
    var h, q := off + HeadSize(f.name), off + HeadSize(f.name) + Size(f.children) + 4;
    forall x: nat | Leads(f, off, segs, x)
      ensures off <= x
      ensures Leads(f.rest, q, segs, x) ==> q <= x && 0 <= later <= x
      ensures |segs| > 1 && NameMatch(f.name, segs[0]) && Leads(f.children, h, segs[1..], x) ==> 0 <= inner <= x < q
    {
      LeadsInside(f, off, segs, x);
      if Leads(f.rest, q, segs, x) {
        LeadsInside(f.rest, q, segs, x);
      }
      if |segs| > 1 && NameMatch(f.name, segs[0]) && Leads(f.children, h, segs[1..], x) {
        LeadsInside(f.children, h, segs[1..], x);
      }
    }
    if |segs| > 1 && inner >= 0 {
      LeadsInside(f.children, h, segs[1..], inner);
    }
  }

  ghost predicate LeastFromRoot(f: Forest, off: nat, segs: seq<seq<Byte>>, t: int)
  {
    true == ((t >= 0 ==> LeadsFromRoot(f, off, segs, t)) && t >= -1
             && forall x: nat :: LeadsFromRoot(f, off, segs, x) ==> 0 <= t <= x)
  }

  lemma {:induction false} RootInside(f: Forest, off: nat, segs: seq<seq<Byte>>, x: nat)
    requires LeadsFromRoot(f, off, segs, x)
    ensures off <= x < off + Size(f)
    decreases f
  {
    match f
    case Empty =>
    case Nop(r) => RootInside(r, off + 4, segs, x);
    case Prop(_, v, r) => RootInside(r, off + PropSize(v), segs, x);
    case Node(n, c, r) =>
      if LeadsFromRoot(r, off + HeadSize(n) + Size(c) + 4, segs, x) {
        RootInside(r, off + HeadSize(n) + Size(c) + 4, segs, x);
      } else if segs != [] {
        LeadsInside(c, off + HeadSize(n), segs, x);
      }
  }

  lemma LeastOfRoot(f: Forest, off: nat, segs: seq<seq<Byte>>, inner: int, later: int)
    requires f.Node? && inner >= -1 && LeastFromRoot(f.rest, off + HeadSize(f.name) + Size(f.children) + 4, segs, later)
    requires if segs != [] then LeastLed(f.children, off + HeadSize(f.name), segs, inner) else inner == -1
    ensures LeastFromRoot(f, off, segs, if segs == [] then off else if inner >= 0 then inner else later)
  {
    var h, q := off + HeadSize(f.name), off + HeadSize(f.name) + Size(f.children) + 4;
    forall x: nat | LeadsFromRoot(f, off, segs, x)
      ensures off <= x
      ensures LeadsFromRoot(f.rest, q, segs, x) ==> q <= x && 0 <= later <= x
      ensures segs != [] && Leads(f.children, h, segs, x) ==> 0 <= inner <= x < q
    {
      RootInside(f, off, segs, x);
      if LeadsFromRoot(f.rest, q, segs, x) {
        RootInside(f.rest, q, segs, x);
      }
      if segs != [] && Leads(f.children, h, segs, x) {
        LeadsInside(f.children, h, segs, x);
      }
    }
    if inner >= 0 {
      LeadsInside(f.children, h, segs, inner);
    }
  }

  lemma {:induction false} SearchFromRoot(f: Forest, off: nat, segs: seq<seq<Byte>>)
    ensures LeastFromRoot(f, off, segs, FirstMatch(DocumentOrder(f, off), segs))
    decreases f
  {
    match f
    case Empty =>
    case Nop(r) => SearchFromRoot(r, off + 4, segs);
    case Prop(_, v, r) => SearchFromRoot(r, off + PropSize(v), segs);
    case Node(n, c, r) =>
      var h, q := off + HeadSize(n), off + HeadSize(n) + Size(c) + 4;
      SearchFromRoot(r, q, segs);
      ThreeParts([Entry(off, [])], PreOrder(c, h, []), DocumentOrder(r, q), segs);
      assert [Entry(off, [])][1..] == [];
      if segs == [] {
        TooDeep(c, h, [], segs);
      } else {
        assert [] + segs == segs;
        SearchLeads(c, h, [], [], segs);
      }
      LeastOfRoot(f, off, segs, FirstMatch(PreOrder(c, h, []), segs), FirstMatch(DocumentOrder(r, q), segs));
  }

  // An absolute path has the least node it leads to as its target, and no target exactly if
  // it leads to no node; a relative path has none.
  lemma PathTargetMeans(top: Forest, path: seq<Byte>)
    ensures path == [] || path[0] != 47 ==> PathTarget(top, path) == -1
    ensures path != [] && path[0] == 47 ==>
              && (PathTarget(top, path) >= 0 ==> LeadsFromRoot(top, 0, Segments(path, 1), PathTarget(top, path)))
              && (forall x: nat :: LeadsFromRoot(top, 0, Segments(path, 1), x) ==> 0 <= PathTarget(top, path) <= x)
              && PathTarget(top, path) >= -1
  {
    if path != [] && path[0] == 47 {
      SearchFromRoot(top, 0, Segments(path, 1));
    }
  }

  // ---------- what a search for a property finds ----------

  // Among the pieces of f, at any depth, is a property of the name with this value at x.
  predicate HasProp(f: Forest, off: nat, strings: seq<Byte>, name: seq<Byte>, x: nat, value: seq<Byte>)
  {
    match f
    case Empty => false
    case Nop(r) => HasProp(r, off + 4, strings, name, x, value)
    case Prop(o, v, r) => (NameAt(strings, o, name) && x == off + 12 && value == v) || HasProp(r, off + PropSize(v), strings, name, x, value)
    case Node(n, c, r) =>
      || HasProp(c, off + HeadSize(n), strings, name, x, value)
      || HasProp(r, off + HeadSize(n) + Size(c) + 4, strings, name, x, value)
  }

  // The property of the name at the least offset, with its bytes in b as its value.
  ghost predicate LeastProp(b: seq<Byte>, f: Forest, off: nat, strings: seq<Byte>, name: seq<Byte>, found: Found)
  {
    true == match found
            case NotFound => forall x: nat, v :: !HasProp(f, off, strings, name, x, v)
            case At(o, len) =>
              && o + len <= |b| && HasProp(f, off, strings, name, o, b[o..o + len])
              && forall x: nat, v :: HasProp(f, off, strings, name, x, v) ==> o <= x
  }

  lemma {:induction false} PropInside(f: Forest, off: nat, strings: seq<Byte>, name: seq<Byte>, x: nat, value: seq<Byte>)
    requires HasProp(f, off, strings, name, x, value)
    ensures off <= x <= off + Size(f)
    decreases f
  {
    match f
    case Empty =>
    case Nop(r) => PropInside(r, off + 4, strings, name, x, value);
    case Prop(_, v, r) =>
      if HasProp(r, off + PropSize(v), strings, name, x, value) {
        PropInside(r, off + PropSize(v), strings, name, x, value);
      }
    case Node(n, c, r) =>
      if HasProp(c, off + HeadSize(n), strings, name, x, value) {
        PropInside(c, off + HeadSize(n), strings, name, x, value);
      } else {
        PropInside(r, off + HeadSize(n) + Size(c) + 4, strings, name, x, value);
      }
  }

  lemma LeastOfProp(b: seq<Byte>, f: Forest, off: nat, strings: seq<Byte>, name: seq<Byte>, later: Found)
    requires f.Prop? && LeastProp(b, f.rest, off + PropSize(f.value), strings, name, later)
    requires off + 12 + |f.value| <= |b| && b[off + 12..off + 12 + |f.value|] == f.value
    ensures LeastProp(b, f, off, strings, name, if NameAt(strings, f.nameOff, name) then At(off + 12, |f.value|) else later)
  {
    var q := off + PropSize(f.value);
    forall x: nat, v | HasProp(f.rest, q, strings, name, x, v)
      ensures off + 12 <= x
    {
      PropInside(f.rest, q, strings, name, x, v);
    }
  }

  lemma LeastOfBoth(b: seq<Byte>, f: Forest, off: nat, strings: seq<Byte>, name: seq<Byte>, inner: Found, later: Found)
    requires f.Node? && LeastProp(b, f.children, off + HeadSize(f.name), strings, name, inner)
    requires LeastProp(b, f.rest, off + HeadSize(f.name) + Size(f.children) + 4, strings, name, later)
    ensures LeastProp(b, f, off, strings, name, if inner != NotFound then inner else later)
  {
    var h, q := off + HeadSize(f.name), off + HeadSize(f.name) + Size(f.children) + 4;
    forall x: nat, v | HasProp(f.rest, q, strings, name, x, v)
      ensures q <= x
    {
      PropInside(f.rest, q, strings, name, x, v);
    }
    if inner.At? {
      PropInside(f.children, h, strings, name, inner.offset, b[inner.offset..inner.offset + inner.len]);
    }
  }

  // ---------- nodes by offset ----------

  datatype Place = Nowhere | Place(name: seq<Byte>, children: Forest)

  // The node whose encoding starts at x.
  function NodeAt(f: Forest, off: nat, x: nat): Place
  {
    match f
    case Empty => Nowhere
    case Nop(r) => NodeAt(r, off + 4, x)
    case Prop(_, v, r) => NodeAt(r, off + PropSize(v), x)
    case Node(n, c, r) =>
      if x == off then Place(n, c) else
      var inside := NodeAt(c, off + HeadSize(n), x);
      if inside != Nowhere then inside else NodeAt(r, off + HeadSize(n) + Size(c) + 4, x)
  }

  lemma {:induction false} MatchIsNode(f: Forest, off: nat, chain: seq<seq<Byte>>, segs: seq<seq<Byte>>)
    requires FirstMatch(PreOrder(f, off, chain), segs) >= 0
    ensures NodeAt(f, off, FirstMatch(PreOrder(f, off, chain), segs)) != Nowhere
    decreases f
  {
    match f
    case Empty =>
    case Nop(r) => MatchIsNode(r, off + 4, chain, segs);
    case Prop(_, v, r) => MatchIsNode(r, off + PropSize(v), chain, segs);
    case Node(n, c, r) =>
      var h, q := off + HeadSize(n), off + HeadSize(n) + Size(c) + 4;
      var first, inner, later := [Entry(off, chain + [n])], PreOrder(c, h, chain + [n]), PreOrder(r, q, chain);
      FirstMatchConcat(first + inner, later, segs);
      FirstMatchConcat(first, inner, segs);
      if !ChainMatch(chain + [n], segs) {
        if FirstMatch(inner, segs) >= 0 {
          MatchIsNode(c, h, chain + [n], segs);
        } else {
          MatchIsNode(r, q, chain, segs);
        }
      }
  }

  // What a path leads to is a node.
  lemma {:induction false} TargetIsNode(f: Forest, off: nat, segs: seq<seq<Byte>>)
    requires FirstMatch(DocumentOrder(f, off), segs) >= 0
    ensures NodeAt(f, off, FirstMatch(DocumentOrder(f, off), segs)) != Nowhere
    decreases f
  {
    match f
    case Empty =>
    case Nop(r) => TargetIsNode(r, off + 4, segs);
    case Prop(_, v, r) => TargetIsNode(r, off + PropSize(v), segs);
    case Node(n, c, r) =>
      var h, q := off + HeadSize(n), off + HeadSize(n) + Size(c) + 4;
      var first, inner, later := [Entry(off, [])], PreOrder(c, h, []), DocumentOrder(r, q);
      FirstMatchConcat(first + inner, later, segs);
      FirstMatchConcat(first, inner, segs);
      if !ChainMatch([], segs) {
        if FirstMatch(inner, segs) >= 0 {
          MatchIsNode(c, h, [], segs);
        } else {
          TargetIsNode(r, q, segs);
        }
      }
  }

  // The first property of the name at the node the path leads to or below it.
  function PropertyAt(top: Forest, path: seq<Byte>, strings: seq<Byte>, name: seq<Byte>): Found
  {
    var t := PathTarget(top, path);
    if t < 0 then NotFound else
    match NodeAt(top, 0, t)
    case Nowhere => NotFound
    case Place(n, c) => FirstNamed(PropOrder(c, t + HeadSize(n)), strings, name)
  }
}
