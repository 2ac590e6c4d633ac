/** Binary heaps as sequences, ordered by a caller's comparison. */
module Heap {
  import opened Sequences

  function Parent(i: nat): nat
    requires i > 0
  {
    (i - 1) / 2
  }

  function Swap<T>(s: seq<T>, i: nat, j: nat): (r: seq<T>)
    requires i < |s| && j < |s|
    ensures |r| == |s|
  {
    s[i := s[j]][j := s[i]]
  }

  lemma SwapPermutes<T>(s: seq<T>, i: nat, j: nat)
    requires i < |s| && j < |s|
    ensures multiset(Swap(s, i, j)) == multiset(s)
  {
  }

  ghost predicate Fits<T>(less: (T, T) -> bool, s: seq<T>, i: nat)
    requires 0 < i < |s|
  {
    !less(s[i], s[Parent(i)])
  }

  /** No item comes before its parent. */
  ghost predicate IsHeap<T>(less: (T, T) -> bool, s: seq<T>) {
    forall i :: 0 < i < |s| ==> Fits(less, s, i)
  }

  /** A heap but for the item at `k`: the others fit, and the children of `k` fit its parent. */
  ghost predicate IsHeapAround<T>(less: (T, T) -> bool, s: seq<T>, k: nat)
    requires k < |s|
  {
    && (forall i :: 0 < i < |s| && i != k && Parent(i) != k ==> Fits(less, s, i))
    && (forall i :: 0 < i < |s| && Parent(i) == k && k > 0 ==> !less(s[i], s[Parent(k)]))
  }

  ghost predicate ChildrenFit<T>(less: (T, T) -> bool, s: seq<T>, k: nat)
    requires k < |s|
  {
    forall i :: 0 < i < |s| && Parent(i) == k ==> Fits(less, s, i)
  }

  // ---------------------------------------------------------------- sifting

  function SiftUp<T>(less: (T, T) -> bool, s: seq<T>, j: nat): (r: seq<T>)
    requires j < |s|
    ensures |r| == |s|
    decreases j
  {
    if j == 0 || !less(s[j], s[Parent(j)]) then s
    else SiftUp(less, Swap(s, Parent(j), j), Parent(j))
  }

  /** The child that a sift down compares with: the one that comes first. */
  function FirstChild<T>(less: (T, T) -> bool, s: seq<T>, i: nat): (c: nat)
    requires 2 * i + 1 < |s|
    ensures i < c < |s| && Parent(c) == i
  {
    if 2 * i + 2 < |s| && less(s[2 * i + 2], s[2 * i + 1]) then 2 * i + 2 else 2 * i + 1
  }

  function SiftDown<T>(less: (T, T) -> bool, s: seq<T>, i: nat): (r: seq<T>)
    requires i < |s|
    ensures |r| == |s|
    decreases |s| - i
  {
    if 2 * i + 1 >= |s| then s
    else
      var c := FirstChild(less, s, i);
      if less(s[c], s[i]) then SiftDown(less, Swap(s, i, c), c) else s
  }

  lemma {:induction false} SiftUpPermutes<T>(less: (T, T) -> bool, s: seq<T>, j: nat)
    requires j < |s|
    ensures multiset(SiftUp(less, s, j)) == multiset(s)
    decreases j
  {
    if j > 0 && less(s[j], s[Parent(j)]) {
      SwapPermutes(s, Parent(j), j);
      SiftUpPermutes(less, Swap(s, Parent(j), j), Parent(j));
    }
  }

  lemma {:induction false} SiftDownPermutes<T>(less: (T, T) -> bool, s: seq<T>, i: nat)
    requires i < |s|
    ensures multiset(SiftDown(less, s, i)) == multiset(s)
    decreases |s| - i
  {
    if 2 * i + 1 < |s| && less(s[FirstChild(less, s, i)], s[i]) {
      var c := FirstChild(less, s, i);
      SwapPermutes(s, i, c);
      SiftDownPermutes(less, Swap(s, i, c), c);
    }
  }

  lemma {:induction false} SiftUpHeap<T(!new)>(less: (T, T) -> bool, s: seq<T>, j: nat)
    requires WeakOrder(less) && j < |s| && IsHeapAround(less, s, j) && ChildrenFit(less, s, j)
    ensures IsHeap(less, SiftUp(less, s, j))
    decreases j
  {
    if j > 0 && less(s[j], s[Parent(j)]) {
      var p := Parent(j);
      var t := Swap(s, p, j);
      assert t[p] == s[j] && t[j] == s[p];
      forall i | 0 < i < |t| && Parent(i) == p ensures Fits(less, t, i) {
        if i != j { assert Fits(less, s, i); }
      }
      forall i | 0 < i < |t| && i != p && Parent(i) != p ensures Fits(less, t, i) {
        if Parent(i) == j { assert !less(s[i], s[p]); } else { assert Fits(less, s, i); }
      }
      forall i | 0 < i < |t| && Parent(i) == p && p > 0 ensures !less(t[i], t[Parent(p)]) {
        assert Fits(less, s, p);
        if i != j { assert Fits(less, s, i); }
      }
      SiftUpHeap(less, t, p);
    } else {
      forall i | 0 < i < |s| ensures Fits(less, s, i) {
      }
    }
  }

  lemma {:induction false} SiftDownHeap<T(!new)>(less: (T, T) -> bool, s: seq<T>, k: nat)
    requires WeakOrder(less) && k < |s| && IsHeapAround(less, s, k) && (k > 0 ==> Fits(less, s, k))
    ensures IsHeap(less, SiftDown(less, s, k))
    decreases |s| - k
  {
    if 2 * k + 1 < |s| && less(s[FirstChild(less, s, k)], s[k]) {
      var c := FirstChild(less, s, k);
      var t := Swap(s, k, c);
      assert t[k] == s[c] && t[c] == s[k];
      forall i | 0 < i < |t| && i != c && Parent(i) != c ensures Fits(less, t, i) {
        if i == k { assert !less(s[c], s[Parent(k)]); }
        else if Parent(i) == k { assert i == 2 * k + 1 || i == 2 * k + 2; }
        else { assert Fits(less, s, i); }
      }
      forall i | 0 < i < |t| && Parent(i) == c ensures !less(t[i], t[k]) {
        assert Fits(less, s, i);
      }
      SiftDownHeap(less, t, c);
    } else {
      forall i | 0 < i < |s| ensures Fits(less, s, i) {
        if Parent(i) == k { assert i == 2 * k + 1 || i == 2 * k + 2; }
      }
    }
  }

  /** The first item of a heap is one that no other comes before. */
  lemma {:induction false} RootIsFirst<T(!new)>(less: (T, T) -> bool, s: seq<T>, i: nat)
    requires WeakOrder(less) && IsHeap(less, s) && i < |s|
    ensures !less(s[i], s[0])
    decreases i
  {
    if i > 0 {
      RootIsFirst(less, s, Parent(i));
      assert Fits(less, s, i);
    }
  }

  lemma PrefixIsHeap<T>(less: (T, T) -> bool, s: seq<T>, n: nat)
    requires IsHeap(less, s) && n <= |s|
    ensures IsHeap(less, s[..n])
  {
    forall i | 0 < i < n ensures Fits(less, s[..n], i) { assert Fits(less, s, i); }
  }
}
