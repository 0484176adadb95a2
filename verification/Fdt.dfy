/**
 The scans of fdt.c: one pass over the tokens with depth counters, proved to be a search in
 the tree. A pointer into the blob is an offset into the structure block blk or the strings
 block strs, each the bytes of the blob from its start on.
 */
module Fdt {
  import opened FdtTree
  import opened FdtBytes
  import opened Bits

  const MAGIC: nat := 0xd00dfeed

  // ---------- the search that remains ----------

  // The names from below the root down to the innermost open node.
  function Chain(s: Rest): seq<seq<Byte>>
  {
    match s
    case Top(_) => []
    case In(_, name, outer) => if outer.Top? then [] else Chain(outer) + [name]
  }

  lemma ChainLength(s: Rest)
    ensures |Chain(s)| == if Depth(s) == 0 then 0 else Depth(s) - 1
  {
    match s
    case Top(_) =>
    case In(_, _, outer) => ChainLength(outer);
  }

  // The nodes that remain, in document order.
  function Targets(c: Cursor): seq<Entry>
    decreases c.rest
  {
    match c.rest
    case Top(f) => DocumentOrder(f, c.pos)
    case In(f, _, outer) => PreOrder(f, c.pos, Chain(c.rest)) + Targets(Cursor(c.pos + Size(f) + 4, outer))
  }

  // The properties that remain.
  function Props(c: Cursor): seq<PropEntry>
    decreases c.rest
  {
    match c.rest
    case Top(f) => PropOrder(f, c.pos)
    case In(f, _, outer) => PropOrder(f, c.pos) + Props(Cursor(c.pos + Size(f) + 4, outer))
  }

  // A node's header is one of the nodes that remain; other tokens are none.
  lemma OpenTargets(c: Cursor)
    requires c.rest.f.Node?
    ensures Targets(c) == [Entry(c.pos, Chain(Next(c).rest))] + Targets(Next(c))
  {
    var s := c.rest;
    var n, k, r := s.f.name, s.f.children, s.f.rest;
    var chain := Chain(Next(c).rest);
    var h, q := c.pos + HeadSize(n), c.pos + HeadSize(n) + Size(k) + 4;
    var first, inner, later := [Entry(c.pos, chain)], PreOrder(k, h, chain), Targets(Cursor(q, s.(f := r)));
    assert Targets(Next(c)) == inner + later;
    if s.In? {
      var own, beyond := PreOrder(r, q, Chain(s)), Targets(Cursor(c.pos + Size(s.f) + 4, s.outer));
      assert q + Size(r) == c.pos + Size(s.f);
      assert later == own + beyond;
      assert Targets(c) == (first + inner + own) + beyond;
      Regroup(first, inner, own, beyond);
    } else {
      assert Targets(c) == first + inner + later;
      Regroup(first, inner, later, []);
    }
  }

  lemma Regroup(a: seq<Entry>, b: seq<Entry>, c: seq<Entry>, d: seq<Entry>)
    ensures (a + b + c) + d == a + (b + (c + d)) && a + b + c == a + (b + c)
  {
  }

  // A token that leaves a node open leaves what is around it.
  lemma SameBeyond(c: Cursor)
    requires c.rest.In? && (c.rest.f.Nop? || c.rest.f.Prop?)
    ensures Next(c).rest.In? && Next(c).rest.outer == c.rest.outer && Next(c).rest.f == c.rest.f.rest
    ensures Next(c).pos + Size(Next(c).rest.f) + 4 == c.pos + Size(c.rest.f) + 4
  {
  }

  lemma PassTargets(c: Cursor)
    requires !Ended(c) && !c.rest.f.Node?
    ensures Targets(c) == Targets(Next(c))
  {
    if c.rest.f.Empty? {
      var t := Targets(Next(c));
      assert [] + t == t;
    } else if c.rest.In? {
      SameBeyond(c);
      PassInside(c, Next(c), c.rest.outer);
    }
  }

  lemma PassInside(c: Cursor, d: Cursor, outer: Rest)
    requires c.rest.In? && (c.rest.f.Nop? || c.rest.f.Prop?) && d == Next(c)
    requires d.rest == In(c.rest.f.rest, c.rest.name, outer) && c.rest.outer == outer
    requires d.pos + Size(d.rest.f) + 4 == c.pos + Size(c.rest.f) + 4
    ensures Targets(c) == Targets(d)
  {
    SamePreOrder(c.rest.f, c.pos, d.pos, Chain(c.rest));
    SameChain(c.rest, d.rest);
    InsideTargets(c);
    InsideTargets(d);
  }

  // Behind the innermost open node.
  function Beyond(c: Cursor): Cursor
    requires c.rest.In?
  {
    Cursor(c.pos + Size(c.rest.f) + 4, c.rest.outer)
  }

  lemma InsideTargets(c: Cursor)
    requires c.rest.In?
    ensures Targets(c) == PreOrder(c.rest.f, c.pos, Chain(c.rest)) + Targets(Beyond(c))
  {
  }

  lemma SameChain(a: Rest, b: Rest)
    requires a.In? && b.In? && a.name == b.name && a.outer == b.outer
    ensures Chain(a) == Chain(b)
  {
  }

  lemma SamePreOrder(f: Forest, p: nat, q: nat, chain: seq<seq<Byte>>)
    requires f.Nop? || f.Prop?
    requires q + Size(f.rest) == p + Size(f)
    ensures PreOrder(f, p, chain) == PreOrder(f.rest, q, chain)
  {
  }

  lemma NextChain(c: Cursor)
    requires !Ended(c)
    ensures match c.rest.f
            case Empty => Chain(c.rest) == if c.rest.outer.Top? then [] else Chain(Next(c).rest) + [c.rest.name]
            case Node(n, _, _) => Chain(Next(c).rest) == if c.rest.Top? then [] else Chain(c.rest) + [n]
            case _ => Chain(Next(c).rest) == Chain(c.rest)
  {
  }

  lemma PropProps(c: Cursor)
    requires c.rest.f.Prop?
    ensures Props(c) == [PropEntry(c.rest.f.nameOff, c.pos + 12, |c.rest.f.value|)] + Props(Next(c))
  {
  }

  lemma OpenProps(c: Cursor)
    requires c.rest.f.Node?
    ensures Props(c) == Props(Next(c))
  {
    var n, k, r := c.rest.f.name, c.rest.f.children, c.rest.f.rest;
    var h, q := c.pos + HeadSize(n), c.pos + HeadSize(n) + Size(k) + 4;
    var inner, own := PropOrder(k, h), PropOrder(r, q);
    if c.rest.In? {
      assert q + Size(r) == c.pos + Size(c.rest.f);
      var beyond := Props(Cursor(c.pos + Size(c.rest.f) + 4, c.rest.outer));
      assert (inner + own) + beyond == inner + (own + beyond);
    }
  }

  lemma PassProps(c: Cursor)
    requires !Ended(c) && !c.rest.f.Prop?
    ensures Props(c) == Props(Next(c))
  {
    if c.rest.f.Empty? {
      var t := Props(Next(c));
      assert [] + t == t;
    } else if c.rest.f.Node? {
      OpenProps(c);
    } else if c.rest.In? {
      SameBeyond(c);
      PassPropsInside(c, Next(c), c.rest.outer);
    }
  }

  lemma PassPropsInside(c: Cursor, d: Cursor, outer: Rest)
    requires c.rest.In? && c.rest.f.Nop? && d == Next(c)
    requires d.rest == In(c.rest.f.rest, c.rest.name, outer) && c.rest.outer == outer
    requires d.pos + Size(d.rest.f) + 4 == c.pos + Size(c.rest.f) + 4
    ensures Props(c) == Props(d)
  {
    assert PropOrder(c.rest.f, c.pos) == PropOrder(d.rest.f, d.pos);
  }

  lemma NextDepth(c: Cursor)
    requires !Ended(c)
    ensures Depth(Next(c).rest) ==
              Depth(c.rest) + if c.rest.f.Empty? then -1 else if c.rest.f.Node? then 1 else 0
  {
  }

  // ---------- numbers and strings ----------

  lemma Pow2Byte(k: nat)
    ensures Pow2(k + 8) == 256 * Pow2(k)
  {
    assert Pow2(k + 2) == 4 * Pow2(k);
    assert Pow2(k + 4) == 4 * Pow2(k + 2);
    assert Pow2(k + 6) == 4 * Pow2(k + 4);
  }

  lemma OrNextByte(h: nat, v: nat, k: nat)
    requires v < 256
    ensures Or(h * Pow2(k + 8), v * Pow2(k)) == (h * 256 + v) * Pow2(k)
  {
    Pow2Byte(k);
    ByteProducts(h, v, Pow2(k));
    OrLow(h, v * Pow2(k), k + 8);
  }

  lemma ByteProducts(h: nat, v: nat, q: nat)
    requires v < 256 && q > 0
    ensures v * q < 256 * q && h * (256 * q) + v * q == (h * 256 + v) * q
  {
    MulMono(v, 255, q);
  }

  // Or-ing in byte i, shifted by k.
  method OrByte(b: seq<Byte>, p: nat, i: nat, k: nat, x: nat) returns (y: nat)
    requires p + i < |b| && x == BigEndian(b, p, i) * Pow2(k + 8)
    ensures y == BigEndian(b, p, i + 1) * Pow2(k)
  {
    OrNextByte(BigEndian(b, p, i), b[p + i], k);
    y := Or(x, b[p + i] * Pow2(k));
  }

  // fdt32: the four bytes at p as a big-endian number.
  method Fdt32(b: seq<Byte>, p: nat) returns (x: nat)
    requires p + 4 <= |b|
    ensures x == Be32At(b, p)
  {
    x := b[p] * Pow2(24);
    assert x == BigEndian(b, p, 1) * Pow2(24);
    x := OrByte(b, p, 1, 16, x);
    x := OrByte(b, p, 2, 8, x);
    x := OrByte(b, p, 3, 0, x);
  }

  method OrFourBytes(b: seq<Byte>, p: nat, i: nat, k: nat, x: nat) returns (y: nat)
    requires p + i + 4 <= |b| && x == BigEndian(b, p, i) * Pow2(k + 32)
    ensures y == BigEndian(b, p, i + 4) * Pow2(k)
  {
    y := OrByte(b, p, i, k + 24, x);
    y := OrByte(b, p, i + 1, k + 16, y);
    y := OrByte(b, p, i + 2, k + 8, y);
    y := OrByte(b, p, i + 3, k, y);
  }

  // fdt64: the eight bytes at p as a big-endian number.
  method Fdt64(b: seq<Byte>, p: nat) returns (x: nat)
    requires p + 8 <= |b|
    ensures x == BigEndian(b, p, 8)
  {
    assert BigEndian(b, p, 0) == 0;
    x := OrFourBytes(b, p, 0, 32, 0);
    x := OrFourBytes(b, p, 4, 0, x);
  }

  // kstrlen of the string at p.
  method Strlen(b: seq<Byte>, p: nat, ghost s: seq<Byte>) returns (n: nat)
    requires CString(b, p, s)
    ensures n == |s|
  {
    n := 0;
    while b[p + n] != 0
      invariant n <= |s|
      decreases |s| - n
    {
      assert n < |s|;
      n := n + 1;
    }
  }

  // The character at i of a string whose terminating zero is not stored.
  function CharAt(path: seq<Byte>, i: nat): Byte
    requires i <= |path|
  {
    if i < |path| then path[i] else 0
  }

  // node_name_match for the name at p and the len characters of path from seg on.
  method NodeNameMatch(b: seq<Byte>, p: nat, ghost name: seq<Byte>, path: seq<Byte>, seg: nat, len: nat) returns (r: bool)
    requires CString(b, p, name) && 0 !in path && seg + len <= |path|
    ensures r == NameMatch(name, path[seg..seg + len])
  {
    ghost var part := path[seg..seg + len];
    var i := 0;
    while i < len && b[p + i] != 0 && b[p + i] == path[seg + i]
      invariant i <= len && i <= |name| && part[..i] == name[..i]
    {
      assert b[p + i] == b[p..p + |name|][i] || i == |name|;
      assert part[..i + 1] == part[..i] + [part[i]];
      i := i + 1;
    }
    assert b[p + i] == if i == |name| then 0 else name[i];
    if i < len {
      assert part[i] == path[seg + i] && path[seg + i] != 0;
      return false;
    }
    assert part == part[..len];
    r := b[p + len] == 0 || b[p + len] == AT_SIGN;
  }

  // kstrcmp of the string at o in the strings block with name is 0.
  method SameString(strs: seq<Byte>, o: nat, name: seq<Byte>) returns (r: bool)
    requires Terminated(strs, o) && 0 !in name
    ensures r == NameAt(strs, o, name)
  {
    var i := 0;
    ghost var e := NulAt(strs, o);
    while i < |name| && strs[o + i] != 0 && strs[o + i] == name[i]
      invariant i <= |name| && o + i <= e && strs[o..o + i] == name[..i]
    {
      assert strs[o..o + i + 1] == strs[o..o + i] + [strs[o + i]];
      assert name[..i + 1] == name[..i] + [name[i]];
      i := i + 1;
    }
    r := strs[o + i] == CharAt(name, i);
    if i < |name| {
      assert name[i] != 0;
    }
  }

  // ---------- segments of the path ----------

  function Drop(segs: seq<seq<Byte>>, k: nat): seq<seq<Byte>>
  {
    if k <= |segs| then segs[k..] else []
  }

  // The end of the segment that starts at q.
  method FindSegmentEnd(path: seq<Byte>, q: nat) returns (e: nat)
    requires q <= |path| && 0 !in path
    ensures e == SegmentEnd(path, q)
  {
    e := q;
    while CharAt(path, e) != 0 && CharAt(path, e) != SLASH
      invariant q <= e <= |path| && SegmentEnd(path, e) == SegmentEnd(path, q)
      decreases |path| - e
    {
      e := e + 1;
    }
    assert e < |path| ==> path[e] in path;
  }

  // One step of the loops over segments: past the segment at q and the slash behind it.
  method NextSegment(path: seq<Byte>, q: nat) returns (t: nat)
    requires q <= |path| && 0 !in path
    ensures q <= t <= |path| && Segments(path, t) == Drop(Segments(path, q), 1)
    ensures q < |path| ==> q < t
  {
    t := FindSegmentEnd(path, q);
    if CharAt(path, t) == SLASH {
      t := t + 1;
    }
  }

  // The start of segment k, the end of the path when there are no more than k.
  method SegmentStart(path: seq<Byte>, k: nat) returns (q: nat)
    requires path != [] && 0 !in path
    ensures 1 <= q <= |path| && Segments(path, q) == Drop(Segments(path, 1), k)
  {
    q := 1;
    for i := 0 to k
      invariant 1 <= q <= |path| && Segments(path, q) == Drop(Segments(path, 1), i)
    {
      q := NextSegment(path, q);
    }
  }

  method CountSegments(path: seq<Byte>) returns (count: nat)
    requires path != [] && 0 !in path
    ensures count == |Segments(path, 1)|
  {
    var q := 1;
    count := 0;
    while CharAt(path, q) != 0
      invariant 1 <= q <= |path| && count + |Segments(path, q)| == |Segments(path, 1)|
      decreases |path| - q
    {
      q := NextSegment(path, q);
      count := count + 1;
    }
  }

  // The segment that starts where k segments are past is segment k.
  lemma SegmentIs(path: seq<Byte>, q: nat, k: nat)
    requires path != [] && q <= |path| && Segments(path, q) == Drop(Segments(path, 1), k)
    ensures q == |path| <==> k >= |Segments(path, 1)|
    ensures q < |path| ==> path[q..SegmentEnd(path, q)] == Segments(path, 1)[k]
  {
    assert q < |path| ==> Segments(path, q)[0] == path[q..SegmentEnd(path, q)];
  }

  // What matched_depth becomes at the header of a node below the root.
  method MatchNode(blk: seq<Byte>, p: nat, ghost name: seq<Byte>, path: seq<Byte>, depth: nat, matched: nat, ghost chain: seq<seq<Byte>>)
    returns (m: nat)
    requires CString(blk, p, name) && 0 !in path && path != [] && path[0] == SLASH
    requires depth == |chain| + 1 && matched == MatchLen(chain, Segments(path, 1))
    ensures m == MatchLen(chain + [name], Segments(path, 1))
  {
    MatchLenSnoc(chain, name, Segments(path, 1));
    m := matched;
    var cur := depth - 1;
    var seg := SegmentStart(path, cur);
    SegmentIs(path, seg, cur);
    if CharAt(path, seg) != 0 {
      var e := FindSegmentEnd(path, seg);
      var same := NodeNameMatch(blk, p, name, path, seg, e - seg);
      if cur == matched && same {
        m := matched + 1;
      }
    }
  }

  // The state of the scan: matched_depth is the length of the match along the open nodes,
  // no open node is the target, and the target is the first match that remains.
  predicate Searching(c: Cursor, matched: int, segs: seq<seq<Byte>>, target: int)
  {
    && (c.rest.In? ==> matched == MatchLen(Chain(c.rest), segs) < |segs|)
    && target == FirstMatch(Targets(c), segs)
  }

  // What FDT_END_NODE leaves of matched_depth when depth is d behind it.
  function Lowered(matched: int, d: int): int
  {
    var m := if matched > d - 1 then d - 1 else matched;
    if m < 0 then 0 else m
  }

  // A token other than a node's header.
  lemma SearchPass(c: Cursor, matched: int, segs: seq<seq<Byte>>, target: int)
    requires !Ended(c) && !c.rest.f.Node? && Searching(c, matched, segs, target)
    ensures Searching(Next(c), if c.rest.f.Empty? then Lowered(matched, Depth(Next(c).rest)) else matched, segs, target)
  {
    PassTargets(c);
    NextChain(c);
    var outer := Next(c).rest;
    if c.rest.f.Empty? && outer.In? {
      ChainLength(outer);
      MatchLenSnoc(Chain(outer), c.rest.name, segs);
    }
  }

  lemma SearchOpen(c: Cursor, matched: int, m: int, segs: seq<seq<Byte>>, target: int)
    requires c.rest.f.Node? && Searching(c, matched, segs, target)
    requires m == MatchLen(if c.rest.Top? then [] else Chain(c.rest) + [c.rest.f.name], segs)
    ensures m == |segs| ==> target == c.pos
    ensures m != |segs| ==> Searching(Next(c), m, segs, target)
  {
    OpenTargets(c);
    NextChain(c);
    var chain := Chain(Next(c).rest);
    MatchLenIsMatch(chain, segs);
    if c.rest.In? {
      MatchLenSnoc(Chain(c.rest), c.rest.f.name, segs);
    }
  }

  lemma {:induction false} AlignUpIsAlign4(x: nat)
    ensures AlignUp(x, 4) == Align4(x)
  {
    if x >= 4 {
      AlignUpIsAlign4(x - 4);
    }
  }

  // align_up_ptr to the next word.
  method AlignUp4(x: nat) returns (y: nat)
    ensures y == Align4(x)
  {
    AlignUpIsAlign4(x);
    y := AlignUp(x, 4);
  }

  // The word behind the zero byte of the name at p.
  method AfterName(b: seq<Byte>, p: nat, ghost name: seq<Byte>) returns (q: nat)
    requires CString(b, p, name)
    ensures q == Align4(p + |name| + 1)
  {
    var n := Strlen(b, p, name);
    q := AlignUp4(p + n + 1);
  }

  // A relative path leads nowhere, and the scan runs to the end.
  predicate Seeking(c: Cursor, matched: int, path: seq<Byte>, target: int)
  {
    true == if CharAt(path, 0) == SLASH then Searching(c, matched, Segments(path, 1), target) else target == -1
  }

  // The header of a node whose name is at p: the match along the open nodes, and whether
  // this node is the target.
  method EnterNode(blk: seq<Byte>, p: nat, path: seq<Byte>, depth: nat, matched: int, ghost c: Cursor, ghost target: int)
    returns (found: bool, m: int)
    requires c.rest.f.Node? && CString(blk, p, c.rest.f.name) && 0 !in path && depth == Depth(c.rest)
    requires Seeking(c, matched, path, target)
    ensures found ==> target == c.pos
    ensures !found ==> Seeking(Next(c), m, path, target)
  {
    m := matched;
    if depth == 0 {
      m := 0;
    } else if CharAt(path, 0) == SLASH {
      ChainLength(c.rest);
      m := MatchNode(blk, p, c.rest.f.name, path, depth, matched, Chain(c.rest));
    }
    found := false;
    if CharAt(path, 0) == SLASH {
      SearchOpen(c, matched, m, Segments(path, 1), target);
      var count := CountSegments(path);
      found := m == count;
    }
  }

  // The effect of FDT_END_NODE on matched_depth.
  method LeaveNode(depth: int, matched: int) returns (m: int)
    ensures m == Lowered(matched, depth)
  {
    m := matched;
    if m > depth - 1 {
      m := depth - 1;
    }
    if m < 0 {
      m := 0;
    }
  }

  lemma PassToken(c: Cursor, matched: int, path: seq<Byte>, target: int)
    requires !Ended(c) && !c.rest.f.Node? && Seeking(c, matched, path, target)
    ensures Seeking(Next(c), if c.rest.f.Empty? then Lowered(matched, Depth(Next(c).rest)) else matched, path, target)
  {
    if CharAt(path, 0) == SLASH {
      SearchPass(c, matched, Segments(path, 1), target);
    }
  }

  lemma NothingLeft(c: Cursor, matched: int, path: seq<Byte>, target: int)
    requires Ended(c) && Seeking(c, matched, path, target)
    ensures target == -1
  {
  }

  // The reader c is at the token at p, inside depth nodes.
  predicate AtToken(blk: seq<Byte>, strs: seq<Byte>, c: Cursor, last: nat, p: nat, depth: int)
  {
    true == (c.pos == p <= |blk| && depth == Depth(c.rest) && Reading(blk, strs, c, last))
  }

  lemma NextToken(blk: seq<Byte>, strs: seq<Byte>, c: Cursor, last: nat, p: nat, depth: int)
    requires AtToken(blk, strs, c, last, p, depth) && !Ended(c)
    ensures AtToken(blk, strs, Next(c), last, Next(c).pos, depth + if c.rest.f.Empty? then -1 else if c.rest.f.Node? then 1 else 0)
    ensures p < Next(c).pos
  {
    NextReads(blk, strs, c, last);
    NextDepth(c);
    ReadsInside(blk, strs, Next(c), last);
  }

  lemma ReadsInside(blk: seq<Byte>, strs: seq<Byte>, c: Cursor, last: nat)
    requires Reading(blk, strs, c, last)
    ensures c.pos + 4 <= |blk|
  {
    NextReads(blk, strs, c, last);
  }

  // The loop of fdt_path_offset over the tokens.
  method ScanPath(blk: seq<Byte>, ghost strs: seq<Byte>, path: seq<Byte>, ghost top: Forest) returns (r: int)
    requires Holds(blk, strs, 0, top) && Word(blk, Size(top), END) && 0 !in path
    ensures r == PathTarget(top, path)
  {
    var p, depth: int, matched: int, done := 0, 0, 0, false;
    ghost var c, target := Cursor(0, Top(top)), PathTarget(top, path);
    r := -1;
    while !done
      invariant done ==> r == target
      invariant !done ==> AtToken(blk, strs, c, END, p, depth) && Seeking(c, matched, path, target)
      decreases !done, |blk| - p
    {
      done, r, p, depth, matched := PathTurn(blk, strs, path, p, depth, matched, c, target);
      if !done {
        c := Next(c);
      }
    }
  }

  // Past a property's length, name and value.
  method SkipValue(blk: seq<Byte>, ghost strs: seq<Byte>, p: nat, ghost c: Cursor) returns (q: nat)
    requires Reading(blk, strs, c, END) && c.rest.f.Prop? && p == c.pos + 4
    ensures q == Next(c).pos
  {
    NextReads(blk, strs, c, END);
    var len := Fdt32(blk, p);
    q := p + 4;
    q := q + 4;
    q := AlignUp4(q + len);
  }

  // One turn of the loop. It ends the search with the offset of a node, or at FDT_END.
  method PathTurn(blk: seq<Byte>, ghost strs: seq<Byte>, path: seq<Byte>, p: nat, depth: int, matched: int, ghost c: Cursor, ghost target: int)
    returns (done: bool, r: int, q: nat, d: int, m: int)
    requires AtToken(blk, strs, c, END, p, depth) && Seeking(c, matched, path, target) && 0 !in path
    ensures done ==> r == target
    ensures !done ==> !Ended(c) && p < q && AtToken(blk, strs, Next(c), END, q, d) && Seeking(Next(c), m, path, target)
  {
    NextReads(blk, strs, c, END);
    var token := Fdt32(blk, p);
    done, r, q, d, m := false, -1, p + 4, depth, matched;
    if token == BEGIN_NODE {
      NextToken(blk, strs, c, END, p, depth);
      done, m := EnterNode(blk, q, path, depth, matched, c, target);
      q := AfterName(blk, q, c.rest.f.name);
      if done {
        r := p;
      } else {
        d := depth + 1;
      }
    } else if token == END_NODE {
      NextToken(blk, strs, c, END, p, depth);
      PassToken(c, matched, path, target);
      d := depth - 1;
      m := LeaveNode(d, matched);
    } else if token == PROP {
      NextToken(blk, strs, c, END, p, depth);
      PassToken(c, matched, path, target);
      q := SkipValue(blk, strs, q, c);
    } else if token == NOP {
      NextToken(blk, strs, c, END, p, depth);
      PassToken(c, matched, path, target);
    } else {
      NothingLeft(c, matched, path, target);
      done := true;
    }
  }

  // The blob of section 5.2 whose structure block holds the tree top. Offsets are ints.
  predicate WellFormed(blob: seq<Byte>, top: Forest)
  {
    && 40 <= |blob| < 0x8000_0000 && Be32At(blob, 8) <= |blob| && Be32At(blob, 12) <= |blob|
    && Contains(Structure(blob), Strings(blob), top)
  }

  predicate Contains(blk: seq<Byte>, strs: seq<Byte>, top: Forest)
  {
    true == (Holds(blk, strs, 0, top) && Word(blk, Size(top), END))
  }

  function Structure(blob: seq<Byte>): seq<Byte>
    requires 40 <= |blob| && Be32At(blob, 8) <= |blob|
  {
    blob[Be32At(blob, 8)..]
  }

  function Strings(blob: seq<Byte>): seq<Byte>
    requires 40 <= |blob| && Be32At(blob, 12) <= |blob|
  {
    blob[Be32At(blob, 12)..]
  }

  // fdt_path_offset; top is the tree the blob holds.
  method PathOffset(blob: seq<Byte>, path: seq<Byte>, ghost top: Forest) returns (r: int)
    requires 40 <= |blob| && 0 !in path && (Be32At(blob, 0) == MAGIC ==> WellFormed(blob, top))
    ensures r == if Be32At(blob, 0) == MAGIC then PathTarget(top, path) else -1
  {
    var magic := Fdt32(blob, 0);
    if magic != MAGIC {
      return -1;
    }
    var start := Fdt32(blob, 8);
    r := ScanPath(blob[start..], Strings(blob), path, top);
  }

  // ---------- fdt_getprop ----------

  // The block holds a node at off.
  predicate NodeHeld(b: seq<Byte>, strs: seq<Byte>, off: nat, n: seq<Byte>, k: Forest)
  {
    true == (&& Align4(off) == off && Word(b, off, BEGIN_NODE) && CString(b, off + 4, n)
             && Reading(b, strs, Cursor(off + HeadSize(n), Top(k)), END_NODE))
  }

  // The first property of this name among those that remain is target.
  predicate Looking(c: Cursor, strs: seq<Byte>, name: seq<Byte>, target: Found)
  {
    true == (FirstNamed(Props(c), strs, name) == target)
  }

  lemma LookNext(c: Cursor, strs: seq<Byte>, name: seq<Byte>, target: Found)
    requires !Ended(c) && Looking(c, strs, name, target)
    ensures c.rest.f.Prop? && NameAt(strs, c.rest.f.nameOff, name) ==> target == At(c.pos + 12, |c.rest.f.value|)
    ensures !(c.rest.f.Prop? && NameAt(strs, c.rest.f.nameOff, name)) ==> Looking(Next(c), strs, name, target)
  {
    if c.rest.f.Prop? {
      PropProps(c);
    } else {
      PassProps(c);
    }
  }

  lemma NothingFound(c: Cursor, strs: seq<Byte>, name: seq<Byte>, target: Found)
    requires Ended(c) && Looking(c, strs, name, target)
    ensures target == NotFound
  {
  }

  // The length of the property whose token ends at p, and whether its name is this one.
  method TestProp(blk: seq<Byte>, strs: seq<Byte>, p: nat, name: seq<Byte>) returns (same: bool, len: nat)
    requires p + 8 <= |blk| && Terminated(strs, Be32At(blk, p + 4)) && 0 !in name
    ensures len == Be32At(blk, p) && same == NameAt(strs, Be32At(blk, p + 4), name)
  {
    len := Fdt32(blk, p);
    var nameOff := Fdt32(blk, p + 4);
    same := SameString(strs, nameOff, name);
  }

  // The loop of fdt_getprop over the pieces of the node.
  method ScanProps(blk: seq<Byte>, strs: seq<Byte>, start: nat, name: seq<Byte>, ghost k: Forest) returns (r: Found)
    requires Reading(blk, strs, Cursor(start, Top(k)), END_NODE) && 0 !in name
    ensures Looking(Cursor(start, Top(k)), strs, name, r)
  {
    var p, depth, done := start, 0, false;
    ghost var c := Cursor(start, Top(k));
    ghost var target := FirstNamed(Props(c), strs, name);
    ReadsInside(blk, strs, c, END_NODE);
    r := NotFound;
    while !done
      invariant done ==> r == target
      invariant !done ==> AtToken(blk, strs, c, END_NODE, p, depth) && Looking(c, strs, name, target)
      decreases !done, |blk| - p
    {
      done, r, p, depth := PropTurn(blk, strs, p, depth, name, c, target);
      if !done {
        c := Next(c);
      }
    }
  }

  // One turn of the loop. It ends the search at the property of the name, or at the end of
  // the node.
  method PropTurn(blk: seq<Byte>, strs: seq<Byte>, p: nat, depth: int, name: seq<Byte>, ghost c: Cursor, ghost target: Found)
    returns (done: bool, r: Found, q: nat, d: int)
    requires AtToken(blk, strs, c, END_NODE, p, depth) && Looking(c, strs, name, target) && 0 !in name
    ensures done ==> r == target
    ensures !done ==> !Ended(c) && p < q && AtToken(blk, strs, Next(c), END_NODE, q, d) && Looking(Next(c), strs, name, target)
  {
    NextReads(blk, strs, c, END_NODE);
    var token := Fdt32(blk, p);
    done, r, q, d := false, NotFound, p + 4, depth;
    if token == END_NODE && depth == 0 {
      NothingFound(c, strs, name, target);
      done := true;
      return;
    }
    NextToken(blk, strs, c, END_NODE, p, depth);
    LookNext(c, strs, name, target);
    if token == PROP {
      var same, len := TestProp(blk, strs, q, name);
      q := q + 8;
      if same {
        return true, At(q, len), q, d;
      }
      q := AlignUp4(q + len);
    } else {
      q, d := PassNode(blk, strs, q, token, depth, c);
    }
  }

  // The turn of the loop for a token that is no property.
  method PassNode(blk: seq<Byte>, ghost strs: seq<Byte>, p: nat, token: nat, depth: int, ghost c: Cursor) returns (q: nat, d: int)
    requires Reading(blk, strs, c, END_NODE) && !Ended(c) && c.pos + 4 <= |blk|
    requires p == c.pos + 4 && token == Be32At(blk, c.pos) && token != PROP && depth == Depth(c.rest)
    ensures q == Next(c).pos && d == Depth(Next(c).rest)
  {
    NextReads(blk, strs, c, END_NODE);
    NextDepth(c);
    q, d := p, depth;
    if token == BEGIN_NODE {
      d := depth + 1;
      q := AfterName(blk, p, c.rest.f.name);
    } else if token == END_NODE {
      d := depth - 1;
    }
  }

  // fdt_getprop behind the header.
  method NodeProp(blk: seq<Byte>, strs: seq<Byte>, off: nat, name: seq<Byte>, ghost n: seq<Byte>, ghost k: Forest) returns (r: Found)
    requires off + 4 <= |blk| && 0 !in name && (Be32At(blk, off) == BEGIN_NODE ==> NodeHeld(blk, strs, off, n, k))
    ensures r == if Be32At(blk, off) == BEGIN_NODE then FirstNamed(PropOrder(k, off + HeadSize(n)), strs, name) else NotFound
  {
    var token := Fdt32(blk, off);
    if token != BEGIN_NODE {
      return NotFound;
    }
    HeadRead(blk, strs, off, n, k);
    var p := AfterName(blk, off + 4, n);
    r := ScanProps(blk, strs, p, name, k);
    PropsOfTree(off + HeadSize(n), k, strs, name, r);
  }

  lemma HeadRead(b: seq<Byte>, strs: seq<Byte>, off: nat, n: seq<Byte>, k: Forest)
    requires NodeHeld(b, strs, off, n, k)
    ensures Align4(off) == off && CString(b, off + 4, n) && Reading(b, strs, Cursor(off + HeadSize(n), Top(k)), END_NODE)
    ensures Align4(off + 4 + |n| + 1) == off + HeadSize(n)
  {
    HeaderEnd(off, n);
  }

  lemma PropsOfTree(p: nat, k: Forest, strs: seq<Byte>, name: seq<Byte>, r: Found)
    requires Looking(Cursor(p, Top(k)), strs, name, r)
    ensures r == FirstNamed(PropOrder(k, p), strs, name)
  {
  }

  // fdt_getprop; n and k are the name and the content of the node at off.
  method GetProp(blob: seq<Byte>, off: nat, name: seq<Byte>, ghost n: seq<Byte>, ghost k: Forest) returns (r: Found)
    requires 40 <= |blob| && 0 !in name
    requires Be32At(blob, 0) == MAGIC ==>
               && Be32At(blob, 8) <= |blob| && Be32At(blob, 12) <= |blob|
               && off + 4 <= |Structure(blob)|
               && (Be32At(Structure(blob), off) == BEGIN_NODE ==> NodeHeld(Structure(blob), Strings(blob), off, n, k))
    ensures r == if Be32At(blob, 0) == MAGIC && Be32At(Structure(blob), off) == BEGIN_NODE
                 then FirstNamed(PropOrder(k, off + HeadSize(n)), Strings(blob), name)
                 else NotFound
  {
    var magic := Fdt32(blob, 0);
    if magic != MAGIC {
      return NotFound;
    }
    var structStart := Fdt32(blob, 8);
    var stringsStart := Fdt32(blob, 12);
    r := NodeProp(blob[structStart..], blob[stringsStart..], off, name, n, k);
  }

  lemma HeldHere(b: seq<Byte>, strs: seq<Byte>, off: nat, n: seq<Byte>, k: Forest, r: Forest)
    requires Align4(off) == off && Holds(b, strs, off, Node(n, k, r))
    ensures NodeHeld(b, strs, off, n, k)
  {
    hide Align4, BigEndian;
    HeaderEnd(off, n);
    assert Remains(b, strs, off + HeadSize(n), Top(k), END_NODE);
  }

  lemma NodeAligned(off: nat, n: seq<Byte>, k: Forest)
    requires Align4(off) == off
    ensures Align4(off + HeadSize(n)) == off + HeadSize(n)
    ensures Align4(off + HeadSize(n) + Size(k) + 4) == off + HeadSize(n) + Size(k) + 4
  {
    HeaderEnd(off, n);
    SizeAligned(k);
    NodeSum(off + HeadSize(n), Size(k), 0, off + HeadSize(n) + Size(k) + 4);
  }

  // A well-formed block holds every node of its tree at the node's offset.
  lemma {:induction false} NodeAtHeld(b: seq<Byte>, strs: seq<Byte>, off: nat, f: Forest, x: nat, node: Place)
    requires Align4(off) == off && Holds(b, strs, off, f) && NodeAt(f, off, x) == node != Nowhere
    ensures NodeHeld(b, strs, x, node.name, node.children)
    decreases f, 1
  {
    match f
    case Empty =>
    case Nop(r) =>
      PartSum(off, 4, off + 4);
      NodeAtHeld(b, strs, off + 4, r, x, node);
    case Prop(_, v, r) =>
      PropEnd(off, v);
      NodeAtHeld(b, strs, off + PropSize(v), r, x, node);
    case Node(n, k, r) =>
      if x == off {
        HeldHere(b, strs, off, n, k, r);
      } else {
        NodeBelowHeld(b, strs, off, n, k, r, x, node);
      }
  }

  lemma NodeAtBelow(n: seq<Byte>, k: Forest, r: Forest, off: nat, x: nat)
    requires x != off
    ensures NodeAt(Node(n, k, r), off, x) ==
              if NodeAt(k, off + HeadSize(n), x) != Nowhere then NodeAt(k, off + HeadSize(n), x)
              else NodeAt(r, off + HeadSize(n) + Size(k) + 4, x)
  {
  }

  lemma NodeParts(b: seq<Byte>, strs: seq<Byte>, p: nat, n: seq<Byte>, k: Forest, r: Forest)
    requires Holds(b, strs, p, Node(n, k, r))
    ensures Holds(b, strs, p + HeadSize(n), k) && Holds(b, strs, p + HeadSize(n) + Size(k) + 4, r)
  {
  }

  lemma {:induction false} NodeBelowHeld(b: seq<Byte>, strs: seq<Byte>, off: nat, n: seq<Byte>, k: Forest, r: Forest, x: nat, node: Place)
    requires Align4(off) == off && Holds(b, strs, off, Node(n, k, r)) && x != off && node != Nowhere
    requires NodeAt(Node(n, k, r), off, x) == node
    ensures NodeHeld(b, strs, x, node.name, node.children)
    decreases Node(n, k, r), 0
  {
    var h := off + HeadSize(n);
    NodeAligned(off, n, k);
    NodeParts(b, strs, off, n, k, r);
    NodeAtBelow(n, k, r, off, x);
    if NodeAt(k, h, x) != Nowhere {
      NodeAtHeld(b, strs, h, k, x, node);
    } else {
      NodeAtHeld(b, strs, h + Size(k) + 4, r, x, node);
    }
  }

  // What is found ends inside the block.
  predicate Within(r: Found, limit: nat)
  {
    true == (r.At? ==> r.offset + r.len <= limit)
  }

  lemma EitherWithin(a: seq<PropEntry>, b: seq<PropEntry>, strs: seq<Byte>, name: seq<Byte>, limit: nat)
    requires Within(FirstNamed(a, strs, name), limit) && Within(FirstNamed(b, strs, name), limit)
    ensures Within(FirstNamed(a + b, strs, name), limit)
  {
    FirstNamedConcat(a, b, strs, name);
  }

  lemma OneWithin(e: PropEntry, strs: seq<Byte>, name: seq<Byte>, limit: nat)
    requires e.at + e.len <= limit
    ensures Within(FirstNamed([e], strs, name), limit)
  {
    assert [e][1..] == [];
  }

  lemma {:induction false} FoundWithin(b: seq<Byte>, strs: seq<Byte>, p: nat, f: Forest, name: seq<Byte>)
    requires Holds(b, strs, p, f)
    ensures Within(FirstNamed(PropOrder(f, p), strs, name), |b|)
    decreases f
  {
    match f
    case Empty =>
    case Nop(r) => FoundWithin(b, strs, p + 4, r, name);
    case Prop(o, v, r) =>
      var q := p + PropSize(v);
      FoundWithin(b, strs, q, r, name);
      PropWithin(p, o, v, r, strs, name, |b|);
    case Node(n, k, r) =>
      NodeParts(b, strs, p, n, k, r);
      FoundWithin(b, strs, p + HeadSize(n), k, name);
      FoundWithin(b, strs, p + HeadSize(n) + Size(k) + 4, r, name);
      NodeWithin(p, n, k, r, strs, name, |b|);
  }

  lemma PropWithin(p: nat, o: nat, v: seq<Byte>, r: Forest, strs: seq<Byte>, name: seq<Byte>, limit: nat)
    requires p + 12 + |v| <= limit && Within(FirstNamed(PropOrder(r, p + PropSize(v)), strs, name), limit)
    ensures Within(FirstNamed(PropOrder(Prop(o, v, r), p), strs, name), limit)
  {
    OneWithin(PropEntry(o, p + 12, |v|), strs, name, limit);
    EitherWithin([PropEntry(o, p + 12, |v|)], PropOrder(r, p + PropSize(v)), strs, name, limit);
  }

  lemma NodeWithin(p: nat, n: seq<Byte>, k: Forest, r: Forest, strs: seq<Byte>, name: seq<Byte>, limit: nat)
    requires Within(FirstNamed(PropOrder(k, p + HeadSize(n)), strs, name), limit)
    requires Within(FirstNamed(PropOrder(r, p + HeadSize(n) + Size(k) + 4), strs, name), limit)
    ensures Within(FirstNamed(PropOrder(Node(n, k, r), p), strs, name), limit)
  {
    EitherWithin(PropOrder(k, p + HeadSize(n)), PropOrder(r, p + HeadSize(n) + Size(k) + 4), strs, name, limit);
  }

  // The search for a property finds the first one of the name, and its value.
  lemma {:induction false} FoundIsLeast(b: seq<Byte>, strs: seq<Byte>, p: nat, f: Forest, name: seq<Byte>)
    requires Holds(b, strs, p, f)
    ensures LeastProp(b, f, p, strs, name, FirstNamed(PropOrder(f, p), strs, name))
    decreases f
  {
    hide LeastProp, FirstNamed;
    match f
    case Empty => EmptyIsLeast(b, strs, p, name);
    case Nop(r) =>
      FoundIsLeast(b, strs, p + 4, r, name);
      NopIsLeast(b, strs, p, r, name);
    case Prop(o, v, r) =>
      FoundIsLeast(b, strs, p + PropSize(v), r, name);
      PropIsLeast(b, strs, p, o, v, r, name);
    case Node(n, k, r) =>
      var h, q := p + HeadSize(n), p + HeadSize(n) + Size(k) + 4;
      NodeParts(b, strs, p, n, k, r);
      FoundIsLeast(b, strs, h, k, name);
      FoundIsLeast(b, strs, q, r, name);
      NodeIsLeast(b, strs, p, n, k, r, name);
  }

  lemma EmptyIsLeast(b: seq<Byte>, strs: seq<Byte>, p: nat, name: seq<Byte>)
    ensures LeastProp(b, Empty, p, strs, name, FirstNamed(PropOrder(Empty, p), strs, name))
  {
  }

  lemma NopIsLeast(b: seq<Byte>, strs: seq<Byte>, p: nat, r: Forest, name: seq<Byte>)
    requires LeastProp(b, r, p + 4, strs, name, FirstNamed(PropOrder(r, p + 4), strs, name))
    ensures LeastProp(b, Nop(r), p, strs, name, FirstNamed(PropOrder(Nop(r), p), strs, name))
  {
  }

  lemma PropIsLeast(b: seq<Byte>, strs: seq<Byte>, p: nat, o: nat, v: seq<Byte>, r: Forest, name: seq<Byte>)
    requires Bytes(b, p + 12, v) && LeastProp(b, r, p + PropSize(v), strs, name, FirstNamed(PropOrder(r, p + PropSize(v)), strs, name))
    ensures LeastProp(b, Prop(o, v, r), p, strs, name, FirstNamed(PropOrder(Prop(o, v, r), p), strs, name))
  {
    var first, later := PropEntry(o, p + 12, |v|), PropOrder(r, p + PropSize(v));
    FirstNamedConcat([first], later, strs, name);
    FirstOfOne(first, strs, name);
    LeastOfProp(b, Prop(o, v, r), p, strs, name, FirstNamed(later, strs, name));
  }

  lemma NodeIsLeast(b: seq<Byte>, strs: seq<Byte>, p: nat, n: seq<Byte>, k: Forest, r: Forest, name: seq<Byte>)
    requires LeastProp(b, k, p + HeadSize(n), strs, name, FirstNamed(PropOrder(k, p + HeadSize(n)), strs, name))
    requires var q := p + HeadSize(n) + Size(k) + 4; LeastProp(b, r, q, strs, name, FirstNamed(PropOrder(r, q), strs, name))
    ensures LeastProp(b, Node(n, k, r), p, strs, name, FirstNamed(PropOrder(Node(n, k, r), p), strs, name))
  {
    var inner, later := PropOrder(k, p + HeadSize(n)), PropOrder(r, p + HeadSize(n) + Size(k) + 4);
    FirstNamedConcat(inner, later, strs, name);
    LeastOfBoth(b, Node(n, k, r), p, strs, name, FirstNamed(inner, strs, name), FirstNamed(later, strs, name));
  }

  lemma FirstOfOne(e: PropEntry, strs: seq<Byte>, name: seq<Byte>)
    ensures FirstNamed([e], strs, name) == if NameAt(strs, e.nameOff, name) then At(e.at, e.len) else NotFound
  {
    assert [e][1..] == [];
  }

  lemma HeldWithin(b: seq<Byte>, strs: seq<Byte>, off: nat, n: seq<Byte>, k: Forest, name: seq<Byte>)
    requires NodeHeld(b, strs, off, n, k)
    ensures off + 4 <= |b| && Word(b, off, BEGIN_NODE)
    ensures Within(FirstNamed(PropOrder(k, off + HeadSize(n)), strs, name), |b|)
  {
    ReadsTree(b, strs, off + HeadSize(n), k, END_NODE);
    FoundWithin(b, strs, off + HeadSize(n), k, name);
  }

  lemma ReadsTree(b: seq<Byte>, strs: seq<Byte>, p: nat, k: Forest, last: nat)
    requires Reading(b, strs, Cursor(p, Top(k)), last)
    ensures Holds(b, strs, p, k)
  {
  }

  // The node a path leads to is held by the block.
  lemma TargetHeld(blk: seq<Byte>, strs: seq<Byte>, path: seq<Byte>, top: Forest, off: nat)
    requires Holds(blk, strs, 0, top) && PathTarget(top, path) == off
    ensures var node := NodeAt(top, 0, off);
            node != Nowhere && NodeHeld(blk, strs, off, node.name, node.children)
  {
    TargetIsNode(top, 0, Segments(path, 1));
    NodeAtHeld(blk, strs, 0, top, off, NodeAt(top, 0, off));
  }

  lemma PropertyOf(top: Forest, path: seq<Byte>, strs: seq<Byte>, name: seq<Byte>, off: nat, node: Place)
    requires PathTarget(top, path) == off && NodeAt(top, 0, off) == node != Nowhere
    ensures PropertyAt(top, path, strs, name) == FirstNamed(PropOrder(node.children, off + HeadSize(node.name)), strs, name)
  {
  }

  lemma TargetProperty(blob: seq<Byte>, path: seq<Byte>, top: Forest, name: seq<Byte>, off: nat, node: Place)
    requires WellFormed(blob, top) && PathTarget(top, path) == off && NodeAt(top, 0, off) == node
    ensures node.Place? && NodeHeld(Structure(blob), Strings(blob), off, node.name, node.children)
    ensures off + 4 <= |Structure(blob)| && Be32At(Structure(blob), off) == BEGIN_NODE
    ensures var found := FirstNamed(PropOrder(node.children, off + HeadSize(node.name)), Strings(blob), name);
            PropertyAt(top, path, Strings(blob), name) == found && Within(found, |Structure(blob)|)
  {
    hide NodeHeld, Within, PathTarget, PropertyAt, FirstNamed;
    TargetHeld(Structure(blob), Strings(blob), path, top, off);
    PropertyOf(top, path, Strings(blob), name, off, node);
    HeldWithin(Structure(blob), Strings(blob), off, node.name, node.children, name);
  }

  lemma NoTarget(top: Forest, path: seq<Byte>, strs: seq<Byte>, name: seq<Byte>)
    requires PathTarget(top, path) < 0
    ensures PropertyAt(top, path, strs, name) == NotFound
  {
  }

  // The first half of dtb_get_u64_prop: the property of the name at the path.
  method FindProperty(blob: seq<Byte>, path: seq<Byte>, name: seq<Byte>, ghost top: Forest) returns (r: Found)
    requires WellFormed(blob, top) && Be32At(blob, 0) == MAGIC && 0 !in path && 0 !in name
    ensures r == PropertyAt(top, path, Strings(blob), name) && Within(r, |Structure(blob)|)
  {
    var off := PathOffset(blob, path, top);
    if off < 0 {
      NoTarget(top, path, Strings(blob), name);
      return NotFound;
    }
    hide NodeHeld, PathTarget, PropertyAt, FirstNamed;
    ghost var node := NodeAt(top, 0, off);
    TargetProperty(blob, path, top, name, off, node);
    r := GetProp(blob, off, name, node.name, node.children);
  }

  // What is found is the first property of the name in the node the path leads to or below
  // it, with its value, and nothing exactly where there is no such node or property.
  lemma PropertyMeans(blk: seq<Byte>, strs: seq<Byte>, path: seq<Byte>, top: Forest, name: seq<Byte>)
    requires Holds(blk, strs, 0, top)
    ensures var t, found := PathTarget(top, path), PropertyAt(top, path, strs, name);
            if t < 0 then found == NotFound else
            var node := NodeAt(top, 0, t);
            node.Place? && LeastProp(blk, node.children, t + HeadSize(node.name), strs, name, found)
  {
    hide NodeHeld, LeastProp, PathTarget, FirstNamed;
    var t := PathTarget(top, path);
    if t >= 0 {
      var node := NodeAt(top, 0, t);
      TargetHeld(blk, strs, path, top, t);
      PropertyOf(top, path, strs, name, t, node);
      LeastBelow(blk, strs, t, node.name, node.children, name);
    }
  }

  lemma LeastBelow(b: seq<Byte>, strs: seq<Byte>, off: nat, n: seq<Byte>, k: Forest, name: seq<Byte>)
    requires NodeHeld(b, strs, off, n, k)
    ensures LeastProp(b, k, off + HeadSize(n), strs, name, FirstNamed(PropOrder(k, off + HeadSize(n)), strs, name))
  {
    ReadsTree(b, strs, off + HeadSize(n), k, END_NODE);
    FoundIsLeast(b, strs, off + HeadSize(n), k, name);
  }

  // dtb_get_u64_prop: the first eight bytes of the property's value.
  method GetU64Prop(blob: seq<Byte>, path: seq<Byte>, name: seq<Byte>, ghost top: Forest) returns (r: nat)
    requires WellFormed(blob, top) && Be32At(blob, 0) == MAGIC && 0 !in path && 0 !in name
    ensures var found := PropertyAt(top, path, Strings(blob), name);
            && Within(found, |Structure(blob)|)
            && r == if found.At? && found.len >= 8 then BigEndian(Structure(blob), found.offset, 8) else 0
  {
    var prop := FindProperty(blob, path, name, top);
    if prop == NotFound || prop.len < 8 {
      return 0;
    }
    var start := Fdt32(blob, 8);
    r := Fdt64(blob[start..], prop.offset);
  }
}
