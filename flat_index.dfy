/** Positional bookkeeping shared by the vector index and the `docs` list.
    A FAISS IndexFlatIP addresses its vectors by position 0..ntotal-1, and
    `remove_ids` on it drops the selected positions and closes the gaps, which
    is exactly what deleting list items by position does to `docs`. Both are
    modelled by Keep below; Zip pairs vector i with doc i so that "aligned by
    position" can be stated as an equation. */
module FlatIndex {

  /** The elements of s at positions not in drop, in their original order. */
  function Keep<T>(s: seq<T>, drop: set<int>): (r: seq<T>)
    ensures |r| <= |s|
    ensures forall x :: x in r ==> x in s
  {
    if s == [] then []
    else Keep(s[..|s| - 1], drop) + (if |s| - 1 in drop then [] else [s[|s| - 1]])
  }

  /** Positions 0..|s|-1 whose element satisfies f. */
  function Matching<T>(s: seq<T>, f: T -> bool): set<int> {
    set i | 0 <= i < |s| && f(s[i])
  }

  /** The elements of s that do not satisfy f, in their original order. */
  function Without<T>(s: seq<T>, f: T -> bool): (r: seq<T>)
    ensures forall x :: x in r ==> x in s && !f(x)
  {
    if s == [] then []
    else Without(s[..|s| - 1], f) + (if f(s[|s| - 1]) then [] else [s[|s| - 1]])
  }

  /** Vector i paired with document i. */
  function Zip<A, B>(a: seq<A>, b: seq<B>): (r: seq<(A, B)>)
    requires |a| == |b|
    ensures |r| == |a|
    ensures forall i :: 0 <= i < |a| ==> r[i] == (a[i], b[i])
  {
    seq(|a|, i requires 0 <= i < |a| => (a[i], b[i]))
  }

  /** Only the positions below |s| matter to Keep. */
  lemma {:induction false} KeepOnlyInRange<T>(s: seq<T>, d1: set<int>, d2: set<int>)
    requires forall i :: 0 <= i < |s| ==> (i in d1 <==> i in d2)
    ensures Keep(s, d1) == Keep(s, d2)
  {
    if s != [] {
      KeepOnlyInRange(s[..|s| - 1], d1, d2);
    }
  }

  /** Dropping no position of s leaves s as it is. */
  lemma {:induction false} KeepNone<T>(s: seq<T>, drop: set<int>)
    requires forall i :: 0 <= i < |s| ==> i !in drop
    ensures Keep(s, drop) == s
  {
    if s != [] {
      KeepNone(s[..|s| - 1], drop);
    }
  }

  /** Removing the positions whose element matches f is filtering out the
      elements that match f: the positional delete leaves every other element,
      in order, and none that matches. */
  lemma {:induction false} KeepMatchingIsWithout<T>(s: seq<T>, f: T -> bool)
    ensures Keep(s, Matching(s, f)) == Without(s, f)
  {
    if s != [] {
      var init := s[..|s| - 1];
      KeepMatchingIsWithout(init, f);
      KeepOnlyInRange(init, Matching(s, f), Matching(init, f));
    }
  }

  /** When every dropped position lies above p, position p of the survivors is
      still position p of the original, and dropping p as well deletes exactly
      that one element. This is why the descending `del docs[i]` loop removes
      the collected positions and nothing else. */
  lemma {:induction false} KeepOneMore<T>(s: seq<T>, drop: set<int>, p: int)
    requires 0 <= p < |s| && p !in drop
    requires forall d :: d in drop ==> d > p
    ensures |Keep(s, drop)| > p
    ensures Keep(s, drop)[p] == s[p]
    ensures Keep(s, drop + {p}) == Keep(s, drop)[..p] + Keep(s, drop)[p + 1..]
  {
    var init := s[..|s| - 1];
    if |s| == p + 1 {
      KeepNone(init, drop);
      KeepNone(init, drop + {p});
    } else {
      KeepOneMore(init, drop, p);
      var k := Keep(init, drop);
      var tail := if |s| - 1 in drop then [] else [s[|s| - 1]];
      assert Keep(s, drop) == k + tail;
      assert Keep(s, drop + {p}) == Keep(init, drop + {p}) + tail;
      assert (k + tail)[..p] + (k + tail)[p + 1..] == k[..p] + k[p + 1..] + tail;
    }
  }

  /** Removing the same positions from two sequences of equal length keeps
      them of equal length and keeps each surviving pair together. */
  lemma {:induction false} KeepZip<A, B>(a: seq<A>, b: seq<B>, drop: set<int>)
    requires |a| == |b|
    ensures |Keep(a, drop)| == |Keep(b, drop)|
    ensures Keep(Zip(a, b), drop) == Zip(Keep(a, drop), Keep(b, drop))
  {
    if a != [] {
      var n := |a| - 1;
      KeepZip(a[..n], b[..n], drop);
      assert Zip(a, b)[..n] == Zip(a[..n], b[..n]);
    }
  }

  /** Appending to both sequences appends the new pairs. */
  lemma ZipAppend<A, B>(a: seq<A>, b: seq<B>, c: seq<A>, d: seq<B>)
    requires |a| == |b| && |c| == |d|
    ensures Zip(a + c, b + d) == Zip(a, b) + Zip(c, d)
  {
  }
}
