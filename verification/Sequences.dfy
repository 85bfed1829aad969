/** Small facts about concatenation and slicing that the structures share. */
module Sequences {

  /** Vector erasure. */
  function Cut<E>(s: seq<E>, i: nat): (r: seq<E>)
    requires i < |s|
    ensures |r| == |s| - 1
    ensures forall a :: 0 <= a < |r| ==> r[a] == s[if a < i then a else a + 1]
  {
    s[..i] + s[i + 1..]
  }

  /** Vector insertion. */
  function Splice<E>(s: seq<E>, i: nat, e: E): (r: seq<E>)
    requires i <= |s|
    ensures |r| == |s| + 1 && r[i] == e
    ensures forall a :: 0 <= a < i ==> r[a] == s[a]
    ensures forall a :: i < a < |r| ==> r[a] == s[a - 1]
  {
    s[..i] + [e] + s[i..]
  }

  lemma SpliceTail<E>(s: seq<E>, i: nat, e: E)
    requires 0 < i <= |s|
    ensures Splice(s, i, e) == [s[0]] + Splice(s[1..], i - 1, e)
  {
  }

  lemma UpdateTail<E>(s: seq<E>, i: nat, e: E)
    requires 0 < i < |s|
    ensures s[1..][i - 1] == s[i] && s[i := e] == [s[0]] + s[1..][i - 1 := e]
  {
  }

  lemma CutTail<E>(s: seq<E>, i: nat)
    requires 0 < i < |s|
    ensures s[1..][i - 1] == s[i] && Cut(s, i) == [s[0]] + Cut(s[1..], i - 1)
  {
  }

  /** What is not at the cut stays. */
  lemma CutKeeps<E>(s: seq<E>, i: nat, j: nat)
    requires i < |s| && j < |s| && j != i
    ensures s[j] in Cut(s, i)
  {
    assert Cut(s, i)[if j < i then j else j - 1] == s[j];
  }

  lemma CutIsPart<E>(s: seq<E>, i: nat)
    requires i < |s|
    ensures forall x :: x in Cut(s, i) ==> x in s
  {
  }

  lemma CutLast<E>(s: seq<E>)
    requires |s| > 0
    ensures Cut(s, |s| - 1) == s[..|s| - 1]
  {
  }

  /** The same elements, one of them moved to the front. */
  lemma MoveKeeps<E>(s: seq<E>, i: nat)
    requires i < |s|
    ensures var r := [s[i]] + Cut(s, i); |r| == |s| && forall x :: x in r <==> x in s
  {
    var r := [s[i]] + Cut(s, i);
    forall x | x in s ensures x in r {
      var j :| 0 <= j < |s| && s[j] == x;
      if j != i {
        CutKeeps(s, i, j);
      }
    }
  }

  lemma Assoc<E>(a: seq<E>, b: seq<E>, c: seq<E>)
    ensures a + (b + c) == a + b + c
  {
  }

  lemma Prefixed<E>(e: E, a: seq<E>, b: seq<E>, c: seq<E>)
    ensures [e] + a + b + c == [e] + (a + b + c)
  {
  }

  lemma Headed<E>(e: E, a: seq<E>, b: seq<E>)
    ensures [e] + a + b == [e] + (a + b)
  {
  }

  lemma Leading<E>(a: seq<E>, b: seq<E>)
    ensures [] + a + b == a + b
  {
  }

  /** Moving the last of `l` across a separator. */
  lemma ShiftRight<E>(l: seq<E>, e: seq<E>, r: seq<E>)
    requires |l| > 0
    ensures l[..|l| - 1] + [l[|l| - 1]] + (e + r) == l + e + r
    ensures l[..|l| - 1] + ([l[|l| - 1]] + r) == l + r
  {
  }

  /** Moving the first of `r` across a separator. */
  lemma ShiftLeft<E>(l: seq<E>, e: seq<E>, r: seq<E>)
    requires |r| > 0
    ensures l + e + [r[0]] + r[1..] == l + e + r
    ensures l + [r[0]] + r[1..] == l + r
  {
  }

  lemma Regroup<E>(a: seq<E>, l: seq<E>, e: E, r: seq<E>, c: seq<E>)
    ensures a + (l + [e] + r) + c == a + l + [e] + (r + c)
  {
  }

  lemma RegroupPair<E>(a: seq<E>, l: seq<E>, r: seq<E>, c: seq<E>)
    ensures a + (l + r) + c == a + l + (r + c)
  {
  }
}
