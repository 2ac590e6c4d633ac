/** Sequences in the order of a caller's comparison, and sequences of the same items. */
module Sequences {

  /** A consistent comparison: "comes before" is asymmetric, and not coming before is transitive. */
  ghost predicate WeakOrder<T(!new)>(less: (T, T) -> bool) {
    && (forall a, b :: less(a, b) ==> !less(b, a))
    && (forall a, b, c :: !less(b, a) && !less(c, b) ==> !less(c, a))
  }

  lemma NotBefore<T(!new)>(less: (T, T) -> bool, a: T, b: T, c: T)
    requires WeakOrder(less) && !less(b, a) && !less(c, b)
    ensures !less(c, a)
  {
  }

  ghost predicate Sorted<T>(less: (T, T) -> bool, s: seq<T>) {
    forall i, j :: 0 <= i < j < |s| ==> !less(s[j], s[i])
  }

  /** The comparison decides between any two different items of `m`. */
  ghost predicate TotalOn<T(!new)>(less: (T, T) -> bool, m: multiset<T>) {
    forall a, b :: a in m && b in m && a != b ==> less(a, b) || less(b, a)
  }

  lemma ConsSorted<T>(less: (T, T) -> bool, x: T, tail: seq<T>)
    requires Sorted(less, tail) && forall y <- tail :: !less(y, x)
    ensures Sorted(less, [x] + tail)
  {
  }

  lemma NothingSorted<T>(less: (T, T) -> bool)
    ensures Sorted(less, [])
  {
  }

  lemma SameHead<T(!new)>(less: (T, T) -> bool, a: seq<T>, b: seq<T>)
    requires Sorted(less, a) && Sorted(less, b) && a != [] && b != []
    requires multiset(a) == multiset(b) && TotalOn(less, multiset(a))
    ensures a[0] == b[0]
  {
    assert a[0] in multiset(a) && b[0] in multiset(b);
    var i :| 0 <= i < |b| && b[i] == a[0];
    var j :| 0 <= j < |a| && a[j] == b[0];
  }

  lemma DropItem<T>(s: seq<T>, i: nat)
    requires i < |s|
    ensures multiset(s[..i] + s[i + 1..]) == multiset(s) - multiset{s[i]}
  {
    assert s == s[..i] + [s[i]] + s[i + 1..];
  }

  lemma TailItems<T>(a: seq<T>)
    requires a != []
    ensures multiset(a[1..]) == multiset(a) - multiset{a[0]}
  {
    assert a == [a[0]] + a[1..];
  }

  lemma TailSorted<T>(less: (T, T) -> bool, a: seq<T>)
    requires Sorted(less, a) && a != []
    ensures Sorted(less, a[1..])
  {
  }

  lemma TailTotal<T(!new)>(less: (T, T) -> bool, a: seq<T>)
    requires TotalOn(less, multiset(a)) && a != []
    ensures TotalOn(less, multiset(a[1..]))
  {
    TailItems(a);
  }

  lemma TailsAlike<T>(a: seq<T>, b: seq<T>)
    requires multiset(a) == multiset(b) && a != [] && b != [] && a[0] == b[0]
    ensures multiset(a[1..]) == multiset(b[1..])
  {
    TailItems(a);
    TailItems(b);
  }

  lemma SameLength<T>(a: seq<T>, b: seq<T>)
    requires multiset(a) == multiset(b)
    ensures |a| == |b|
  {
    assert |a| == |multiset(a)| && |b| == |multiset(b)|;
  }

  /** Sorted sequences of the same items are equal, if the comparison decides between the items. */
  lemma {:induction false} OneSortedOrder<T(!new)>(less: (T, T) -> bool, a: seq<T>, b: seq<T>)
    requires Sorted(less, a) && Sorted(less, b)
    requires multiset(a) == multiset(b) && TotalOn(less, multiset(a))
    ensures a == b
    decreases |a|
  {
    hide Sorted, TotalOn;
    SameLength(a, b);
    if a != [] {
      SameHead(less, a, b);
      TailsAlike(a, b);
      TailSorted(less, a);
      TailSorted(less, b);
      TailTotal(less, a);
      OneSortedOrder(less, a[1..], b[1..]);
      assert a == [a[0]] + a[1..] && b == [b[0]] + b[1..];
    }
  }

  ghost predicate StrictlySorted<T(!new)>(less: (T, T) -> bool, s: seq<T>) {
    (forall a, b :: less(a, b) ==> !less(b, a)) && forall i, j :: 0 <= i < j < |s| ==> less(s[i], s[j])
  }

  lemma TailMembers<T(!new)>(less: (T, T) -> bool, a: seq<T>, x: T)
    requires StrictlySorted(less, a) && a != []
    ensures x in a[1..] <==> x in a && x != a[0]
  {
    if x in a && x != a[0] {
      var i :| 0 <= i < |a| && a[i] == x;
      assert a[1..][i - 1] == x;
    }
    if x in a[1..] {
      var i :| 0 <= i < |a[1..]| && a[1..][i] == x;
      assert a[i + 1] == x && less(a[0], x);
    }
  }

  lemma SameStrictHead<T(!new)>(less: (T, T) -> bool, a: seq<T>, b: seq<T>)
    requires StrictlySorted(less, a) && StrictlySorted(less, b) && a != [] && b != [] && a[0] in b && b[0] in a
    ensures a[0] == b[0]
  {
    var i :| 0 <= i < |b| && b[i] == a[0];
    var j :| 0 <= j < |a| && a[j] == b[0];
  }

  /** Two strictly sorted sequences with the same members are equal. */
  lemma {:induction false} StrictOrderIsUnique<T(!new)>(less: (T, T) -> bool, a: seq<T>, b: seq<T>)
    requires StrictlySorted(less, a) && StrictlySorted(less, b) && forall x :: x in a <==> x in b
    ensures a == b
    decreases |a|
  {
    assert b != [] ==> b[0] in b;
    if a != [] {
      assert a[0] in a && a[0] in b && b[0] in b;
      SameStrictHead(less, a, b);
      forall x ensures x in a[1..] <==> x in b[1..] {
        TailMembers(less, a, x);
        TailMembers(less, b, x);
      }
      StrictOrderIsUnique(less, a[1..], b[1..]);
      assert a == [a[0]] + a[1..] && b == [b[0]] + b[1..];
    }
  }

  // ---------------------------------------------------------------- building

  lemma InsertItem<T>(s: seq<T>, i: nat, x: T)
    requires i <= |s|
    ensures multiset(s[..i] + [x] + s[i..]) == multiset(s) + multiset{x}
  {
    assert s == s[..i] + s[i..];
  }

  lemma AllBehind<T(!new)>(less: (T, T) -> bool, s: seq<T>, i: nat, x: T)
    requires WeakOrder(less) && Sorted(less, s) && i < |s| && less(x, s[i])
    ensures forall j :: i <= j < |s| ==> !less(s[j], x)
  {
    forall j | i <= j < |s| ensures !less(s[j], x) {
      assert !less(s[i], x);
      assert j == i || !less(s[j], s[i]);
    }
  }

  lemma InsertedSorted<T(!new)>(less: (T, T) -> bool, s: seq<T>, i: nat, x: T)
    requires WeakOrder(less) && Sorted(less, s) && i <= |s|
    requires (forall j :: 0 <= j < i ==> !less(x, s[j])) && (i < |s| ==> less(x, s[i]))
    ensures Sorted(less, s[..i] + [x] + s[i..])
  {
    hide WeakOrder;
    if i < |s| { AllBehind(less, s, i, x); }
    var r := s[..i] + [x] + s[i..];
    forall a, b | 0 <= a < b < |r| ensures !less(r[b], r[a]) {
      assert r[a] == if a < i then s[a] else if a == i then x else s[a - 1];
      assert r[b] == if b < i then s[b] else if b == i then x else s[b - 1];
    }
  }

  /** Puts an item behind all that it does not come before. */
  method Insert<T(!new)>(less: (T, T) -> bool, s: seq<T>, x: T) returns (r: seq<T>)
    requires WeakOrder(less) && Sorted(less, s)
    ensures Sorted(less, r) && multiset(r) == multiset(s) + multiset{x}
  {
    hide WeakOrder, Sorted;
    var i := 0;
    while i < |s| && !less(x, s[i])
      invariant 0 <= i <= |s| && forall j :: 0 <= j < i ==> !less(x, s[j])
    {
      i := i + 1;
    }
    InsertedSorted(less, s, i, x);
    InsertItem(s, i, x);
    r := s[..i] + [x] + s[i..];
  }

  /** The items of a set, in some order. */
  method Listed<T(==)>(items: set<T>) returns (list: seq<T>)
    ensures forall x :: x in list <==> x in items
    ensures forall i, j :: 0 <= i < j < |list| ==> list[i] != list[j]
  {
    list := [];
    var left := items;
    while left != {}
      invariant forall x :: x in items <==> x in list || x in left
      invariant forall i :: 0 <= i < |list| ==> list[i] !in left
      invariant forall i, j :: 0 <= i < j < |list| ==> list[i] != list[j]
      decreases left
    {
      var x :| x in left;
      left := left - {x};
      ghost var before := list;
      list := list + [x];
      assert list[|before|] == x && forall i :: 0 <= i < |before| ==> list[i] == before[i];
      assert forall y :: y in list <==> y in before || y == x;
    }
  }
}
