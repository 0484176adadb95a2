/**
 Sequences without repetition, and the removal of one element, which every linked list of the
 kernel stands for.
 */
module Sequences {

  ghost predicate NoDup(l: seq<nat>)
  {
    forall a, b :: 0 <= a < b < |l| ==> l[a] != l[b]
  }

  // l without the first occurrence of i.
  function Without(l: seq<nat>, i: nat): (r: seq<nat>)
    ensures |r| == if i in l then |l| - 1 else |l|
    ensures i !in l ==> r == l
  {
    if l == [] then []
    else if l[0] == i then l[1..]
    else [l[0]] + Without(l[1..], i)
  }

  lemma {:induction false} WithoutElems(l: seq<nat>, i: nat)
    requires NoDup(l)
    ensures NoDup(Without(l, i)) && |Without(l, i)| <= |l|
    ensures forall x: nat :: x in Without(l, i) <==> x in l && x != i
  {
    if l != [] {
      NoDupTail(l);
      WithoutElems(l[1..], i);
      if l[0] != i {
        NoDupCons(l[0], Without(l[1..], i));
      }
    }
  }

  lemma NoDupTail(l: seq<nat>)
    requires NoDup(l) && l != []
    ensures NoDup(l[1..]) && l[0] !in l[1..]
    ensures forall x: nat :: x in l <==> x == l[0] || x in l[1..]
  {
    var t := l[1..];
    assert l == [l[0]] + t;
    assert forall a :: 0 <= a < |t| ==> t[a] == l[a + 1];
  }

  lemma NoDupCons(x: nat, t: seq<nat>)
    requires NoDup(t) && x !in t
    ensures NoDup([x] + t)
  {
    var l := [x] + t;
    assert forall a :: 0 < a < |l| ==> l[a] == t[a - 1];
  }

  lemma ConsSplit(l: seq<nat>, j: nat)
    requires 0 < j < |l|
    ensures [l[0]] + (l[1..][..j - 1] + l[1..][j..]) == l[..j] + l[j + 1..]
  {
  }

  lemma {:induction false} WithoutAt(l: seq<nat>, j: nat)
    requires NoDup(l) && j < |l|
    ensures Without(l, l[j]) == l[..j] + l[j + 1..]
  {
    if j > 0 {
      assert NoDup(l[1..]) && l[1..][j - 1] == l[j] && l[0] != l[j];
      WithoutAt(l[1..], j - 1);
      ConsSplit(l, j);
    }
  }
}
