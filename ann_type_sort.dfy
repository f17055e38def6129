/**
 * The announcement types arrive in any order and are sorted in place by
 * ascending `id` with a stable sort (`list.sort((a, b) => a.id - b.id)`).
 * `SortById` is the specification: a stable insertion sort on sequences;
 * `SortAnnTypes` is the in-place sort on an array, proved equal to it.
 */
module AnnTypeSort {

  import opened Lookup

  ghost predicate AscendingById(s: seq<Named>)
  {
    forall i, j :: 0 <= i < j < |s| ==> s[i].id <= s[j].id
  }

  /** The elements of `s` whose id is `id`, in their order in `s`. */
  function WithId(s: seq<Named>, id: int): seq<Named>
  {
    if s == [] then []
    else WithId(s[..|s| - 1], id) + (if s[|s| - 1].id == id then [s[|s| - 1]] else [])
  }

  /** Puts `x` into `t` just after the last element, counted from the right, whose id is not larger than `x`'s. */
  function Insert(t: seq<Named>, x: Named): (r: seq<Named>)
    ensures |r| == |t| + 1
    ensures multiset(r) == multiset(t) + multiset{x}
  {
    if t == [] || t[|t| - 1].id <= x.id then t + [x]
    else
      var n := |t| - 1;
      assert t == t[..n] + [t[n]];
      Insert(t[..n], x) + [t[n]]
  }

  /** Stable sort by ascending id. */
  function SortById(s: seq<Named>): (r: seq<Named>)
    ensures |r| == |s|
  {
    if s == [] then [] else Insert(SortById(s[..|s| - 1]), s[|s| - 1])
  }

  lemma WithIdAppend(s: seq<Named>, y: Named, id: int)
    ensures WithId(s + [y], id) == WithId(s, id) + (if y.id == id then [y] else [])
  {
    assert (s + [y])[..|s|] == s;
  }

  lemma {:induction false} InsertAscending(t: seq<Named>, x: Named)
    requires AscendingById(t)
    ensures AscendingById(Insert(t, x))
  {
    if t == [] || t[|t| - 1].id <= x.id {
    } else {
      var n := |t| - 1;
      var r' := Insert(t[..n], x);
      InsertAscending(t[..n], x);
      forall e | e in r'
        ensures e.id <= t[n].id
      {
        assert e in multiset(r');
        assert e in multiset(t[..n]) || e == x;
      }
      assert Insert(t, x) == r' + [t[n]];
      forall i, j | 0 <= i < j < |r'| + 1
        ensures (r' + [t[n]])[i].id <= (r' + [t[n]])[j].id
      {
        if j == |r'| {
          assert r'[i] in r';
        }
      }
    }
  }

  /** Inserting `x` adds it to the end of the elements that share its id and changes no other id's elements. */
  lemma {:induction false} InsertKeepsOrderPerId(t: seq<Named>, x: Named, id: int)
    ensures WithId(Insert(t, x), id) == WithId(t, id) + (if x.id == id then [x] else [])
  {
    if t == [] || t[|t| - 1].id <= x.id {
      WithIdAppend(t, x, id);
    } else {
      var n := |t| - 1;
      assert t == t[..n] + [t[n]];
      InsertKeepsOrderPerId(t[..n], x, id);
      WithIdAppend(Insert(t[..n], x), t[n], id);
      WithIdAppend(t[..n], t[n], id);
    }
  }

  /** The result is in ascending id order. */
  lemma {:induction false} SortedIsAscending(s: seq<Named>)
    ensures AscendingById(SortById(s))
  {
    if s != [] {
      SortedIsAscending(s[..|s| - 1]);
      InsertAscending(SortById(s[..|s| - 1]), s[|s| - 1]);
    }
  }

  /** The result holds exactly the input's elements. */
  lemma {:induction false} SortedIsPermutation(s: seq<Named>)
    ensures multiset(SortById(s)) == multiset(s)
  {
    if s != [] {
      var n := |s| - 1;
      SortedIsPermutation(s[..n]);
      assert s == s[..n] + [s[n]];
      assert multiset(SortById(s)) == multiset(SortById(s[..n])) + multiset{s[n]};
    }
  }

  /** The sort is stable: the types sharing an id keep their relative order. */
  lemma {:induction false} SortedIsStable(s: seq<Named>, id: int)
    ensures WithId(SortById(s), id) == WithId(s, id)
  {
    if s != [] {
      var n := |s| - 1;
      SortedIsStable(s[..n], id);
      InsertKeepsOrderPerId(SortById(s[..n]), s[n], id);
    }
  }

  /** One step of `Insert` past a larger last element. */
  lemma InsertPastLarger(t: seq<Named>, x: Named)
    requires t != [] && t[|t| - 1].id > x.id
    ensures Insert(t, x) == Insert(t[..|t| - 1], x) + [t[|t| - 1]]
  {
  }

  lemma DropThenSplitLast(p: seq<Named>, j: int)
    requires 0 <= j < |p|
    ensures p[j..] == p[..|p| - 1][j..] + [p[|p| - 1]]
  {
  }

  /** Element by element, `p[..j] + [x] + p[j..]` is `p` with `x` slotted in at `j`. */
  lemma SpliceAt(p: seq<Named>, x: Named, j: int)
    requires 0 <= j <= |p|
    ensures |p[..j] + [x] + p[j..]| == |p| + 1
    ensures forall k :: 0 <= k < j ==> (p[..j] + [x] + p[j..])[k] == p[k]
    ensures (p[..j] + [x] + p[j..])[j] == x
    ensures forall k :: j < k <= |p| ==> (p[..j] + [x] + p[j..])[k] == p[k - 1]
  {
  }

  /** Where the shifting loop of `SortAnnTypes` stops, `Insert` puts `x`. */
  lemma {:induction false} InsertAt(p: seq<Named>, x: Named, j: int)
    requires 0 <= j <= |p|
    requires j == 0 || p[j - 1].id <= x.id
    requires forall k :: j <= k < |p| ==> p[k].id > x.id
    ensures Insert(p, x) == p[..j] + [x] + p[j..]
    decreases |p|
  {
    if j == |p| {
      assert p[..j] == p;
    } else {
      var n := |p| - 1;
      var q := p[..n];
      assert p[n].id > x.id;
      InsertPastLarger(p, x);
      assert j == 0 || q[j - 1].id <= x.id;
      assert forall k :: j <= k < |q| ==> q[k].id > x.id;
      InsertAt(q, x, j);
      assert q[..j] == p[..j];
      DropThenSplitLast(p, j);
    }
  }

  /** A sequence that is `p` with `x` slotted in where the shifting loop stopped is `Insert(p, x)`. */
  lemma InsertedSequence(r: seq<Named>, p: seq<Named>, x: Named, j: int)
    requires 0 <= j <= |p| && |r| == |p| + 1
    requires j == 0 || p[j - 1].id <= x.id
    requires forall k :: j <= k < |p| ==> p[k].id > x.id
    requires forall k :: 0 <= k < j ==> r[k] == p[k]
    requires r[j] == x
    requires forall k :: j < k <= |p| ==> r[k] == p[k - 1]
    ensures r == Insert(p, x)
  {
    InsertAt(p, x, j);
    SpliceAt(p, x, j);
  }

  /** Moves `a[i]` left past the larger ids before it, so that `a[..i+1]` becomes `Insert(a[..i], a[i])`. */
  method InsertLast(a: array<Named>, i: int)
    requires 0 <= i < a.Length
    modifies a
    ensures a[..i + 1] == Insert(old(a[..i]), old(a[i]))
    ensures forall k :: i < k < a.Length ==> a[k] == old(a[k])
  {
    ghost var p := a[..i];
    var x := a[i];
    var j := i;
    while j > 0 && a[j - 1].id > x.id
      invariant 0 <= j <= i
      invariant forall k :: 0 <= k < j ==> a[k] == p[k]
      invariant forall k :: j < k <= i ==> a[k] == p[k - 1]
      invariant forall k :: j <= k < i ==> p[k].id > x.id
      invariant forall k :: i < k < a.Length ==> a[k] == old(a[k])
    {
      a[j] := a[j - 1];
      j := j - 1;
    }
    a[j] := x;
    assert j == 0 || p[j - 1].id <= x.id;
    InsertedSequence(a[..i + 1], p, x, j);
  }

  /** Sorting the fetched announcement types in place by ascending id, stably (here by insertion). */
  method SortAnnTypes(a: array<Named>)
    modifies a
    ensures a[..] == SortById(old(a[..]))
  {
    ghost var s := a[..];
    var i := 0;
    while i < a.Length
      invariant 0 <= i <= a.Length
      invariant a[..i] == SortById(s[..i])
      invariant forall k :: i <= k < a.Length ==> a[k] == s[k]
    {
      InsertLast(a, i);
      assert s[..i + 1][..i] == s[..i];
      i := i + 1;
    }
    assert a[..] == a[..a.Length];
    assert s == s[..a.Length];
  }
}
