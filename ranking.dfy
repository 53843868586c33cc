/** The order in which `retrieve` lists its candidates:
    `sorted(zip(candidates, scores), key=score, reverse=True)`. Python's sort is
    stable and `reverse=True` keeps it stable, so the result lists candidate
    positions by descending score and, among equal scores, by ascending
    position. That is a strict total order on positions, so the sorted order is
    unique; RankOrder computes it by insertion sort over positions. */
module Ranking {

  /** Position i comes before position j: a higher score, or the same score
      and an earlier position. */
  predicate Before(key: seq<real>, i: nat, j: nat)
    requires i < |key| && j < |key|
  {
    key[i] > key[j] || (key[i] == key[j] && i < j)
  }

  predicate InRange(s: seq<nat>, n: nat) {
    forall k :: 0 <= k < |s| ==> s[k] < n
  }

  /** Every earlier entry of s comes Before every later one. */
  predicate Ordered(key: seq<real>, s: seq<nat>)
    requires InRange(s, |key|)
  {
    forall j, k :: 0 <= j < k < |s| ==> Before(key, s[j], s[k])
  }

  predicate Distinct(s: seq<nat>) {
    forall j, k :: 0 <= j < k < |s| ==> s[j] != s[k]
  }

  lemma BeforeTotal(key: seq<real>, i: nat, j: nat)
    requires i < |key| && j < |key| && i != j
    ensures Before(key, i, j) != Before(key, j, i)
  {
  }

  lemma BeforeTransitive(key: seq<real>, i: nat, j: nat, k: nat)
    requires i < |key| && j < |key| && k < |key|
    requires Before(key, i, j) && Before(key, j, k)
    ensures Before(key, i, k)
  {
  }

  /** Puts i into s in front of the first entry it comes Before. */
  function Insert(key: seq<real>, i: nat, s: seq<nat>): (r: seq<nat>)
    requires i < |key| && InRange(s, |key|)
    ensures multiset(r) == multiset(s) + multiset{i}
    ensures InRange(r, |key|)
  {
    if s == [] || Before(key, i, s[0]) then
      assert s == [] || s == [s[0]] + s[1..];
      [i] + s
    else
      assert s == [s[0]] + s[1..];
      [s[0]] + Insert(key, i, s[1..])
  }

  /** Inserting a new position into an Ordered sequence keeps it Ordered. */
  lemma {:induction false} InsertOrdered(key: seq<real>, i: nat, s: seq<nat>)
    requires i < |key| && InRange(s, |key|)
    requires Ordered(key, s) && i !in s
    ensures Ordered(key, Insert(key, i, s))
  {
    var r := Insert(key, i, s);
    if s == [] {
    } else if Before(key, i, s[0]) {
      forall k | 0 < k < |s| ensures Before(key, i, s[k]) {
        BeforeTransitive(key, i, s[0], s[k]);
      }
      assert forall k :: 0 < k < |r| ==> r[k] == s[k - 1];
    } else {
      var tail := s[1..];
      var rest := Insert(key, i, tail);
      InsertOrdered(key, i, tail);
      BeforeTotal(key, i, s[0]);
      forall k | 0 <= k < |rest| ensures Before(key, s[0], rest[k]) {
        assert rest[k] in multiset(rest);
        if rest[k] != i {
          assert rest[k] in multiset(tail);
          var m :| 0 <= m < |tail| && tail[m] == rest[k];
          assert s[m + 1] == rest[k];
        }
      }
      assert r == [s[0]] + rest;
    }
  }

  /** Insertion sort of positions by Before. */
  function SortDesc(key: seq<real>, s: seq<nat>): (r: seq<nat>)
    requires InRange(s, |key|)
    ensures multiset(r) == multiset(s)
    ensures InRange(r, |key|)
  {
    if s == [] then []
    else
      assert s == [s[0]] + s[1..];
      Insert(key, s[0], SortDesc(key, s[1..]))
  }

  /** Sorting distinct positions yields an Ordered sequence. */
  lemma {:induction false} SortDescOrdered(key: seq<real>, s: seq<nat>)
    requires InRange(s, |key|) && Distinct(s)
    ensures Ordered(key, SortDesc(key, s))
  {
    if s != [] {
      var tail := s[1..];
      assert s == [s[0]] + tail;
      SortDescOrdered(key, tail);
      assert s[0] !in multiset(tail);
      InsertOrdered(key, s[0], SortDesc(key, tail));
    }
  }

  /** The positions 0..n-1 in increasing order: the candidates' search order. */
  function Range(n: nat): (r: seq<nat>)
    ensures |r| == n && forall k :: 0 <= k < n ==> r[k] == k
  {
    seq(n, k requires 0 <= k < n => k)
  }

  /** The positions of the scored candidates in the order `sorted(...,
      reverse=True)` returns them: each position exactly once, scores never
      increasing, and equal scores in search order. */
  function RankOrder(key: seq<real>): (o: seq<nat>)
    ensures |o| == |key| && InRange(o, |key|)
    ensures forall i :: 0 <= i < |key| ==> i in o
    ensures Distinct(o)
    ensures forall j, k :: 0 <= j < k < |o| ==> key[o[j]] >= key[o[k]]
    ensures forall j, k :: 0 <= j < k < |o| && key[o[j]] == key[o[k]] ==> o[j] < o[k]
  {
    var s := Range(|key|);
    var o := SortDesc(key, s);
    SortDescOrdered(key, s);
    assert |o| == |s| by {
      assert |multiset(o)| == |multiset(s)|;
    }
    forall i | 0 <= i < |key| ensures i in o {
      assert s[i] == i;
      assert i in multiset(s);
    }
    o
  }

  /** Two Ordered listings of the same positions start alike: each head
      would otherwise come Before the other. */
  lemma HeadsAgree(key: seq<real>, a: seq<nat>, b: seq<nat>)
    requires InRange(a, |key|) && InRange(b, |key|)
    requires Ordered(key, a) && Ordered(key, b)
    requires multiset(a) == multiset(b) && a != [] && b != []
    ensures a[0] == b[0]
  {
    assert a[0] in multiset(b) && b[0] in multiset(a);
    var ia :| 0 <= ia < |b| && b[ia] == a[0];
    var ib :| 0 <= ib < |a| && a[ib] == b[0];
    assert Before(key, a[0], b[0]) || ib == 0;
    assert Before(key, b[0], a[0]) || ia == 0;
  }

  /** Any listing of the positions that puts every earlier one Before every
      later one is the same listing: the stable descending order is unique. */
  lemma {:induction false} OrderedUnique(key: seq<real>, a: seq<nat>, b: seq<nat>)
    requires InRange(a, |key|) && InRange(b, |key|)
    requires Ordered(key, a) && Ordered(key, b)
    requires multiset(a) == multiset(b)
    ensures a == b
  {
    assert |a| == |multiset(a)| == |multiset(b)| == |b|;
    if a != [] {
      HeadsAgree(key, a, b);
      var ta, tb := a[1..], b[1..];
      TailsAgree(a, b);
      assert Ordered(key, ta) && Ordered(key, tb);
      OrderedUnique(key, ta, tb);
      assert a == [a[0]] + ta && b == [b[0]] + tb;
    }
  }

  /** Two permutations of each other with the same head have tails that
      are permutations of each other. */
  lemma TailsAgree(a: seq<nat>, b: seq<nat>)
    requires multiset(a) == multiset(b) && a != [] && b != [] && a[0] == b[0]
    ensures multiset(a[1..]) == multiset(b[1..])
  {
    assert a == [a[0]] + a[1..] && b == [b[0]] + b[1..];
    assert multiset(a) == multiset{a[0]} + multiset(a[1..]);
    assert multiset(b) == multiset{b[0]} + multiset(b[1..]);
    assert forall y :: multiset(a[1..])[y] == multiset(a)[y] - multiset{a[0]}[y];
  }

  /** RankOrder is a permutation of the search positions that is Ordered, and
      so the only one. */
  lemma RankOrderIsTheStableOrder(key: seq<real>, o: seq<nat>)
    requires InRange(o, |key|) && Ordered(key, o)
    requires multiset(o) == multiset(Range(|key|))
    ensures o == RankOrder(key)
  {
    SortDescOrdered(key, Range(|key|));
    OrderedUnique(key, o, SortDesc(key, Range(|key|)));
  }
}
