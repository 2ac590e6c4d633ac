/** The scheduler's bounded priority queue. */
module PriorityQueue {
  import opened Options
  import opened Heap
  import opened Sequences

  const INFINITE := -1

  function Pushed<T>(less: (T, T) -> bool, s: seq<T>, x: T): (r: seq<T>)
    ensures |r| == |s| + 1
  {
    SiftUp(less, s + [x], |s|)
  }

  /** Does a sift down from `i` move the item? */
  predicate Sinks<T>(less: (T, T) -> bool, s: seq<T>, i: nat)
    requires i < |s|
  {
    2 * i + 1 < |s| && less(s[FirstChild(less, s, i)], s[i])
  }

  /** heap.Fix */
  function Fixed<T>(less: (T, T) -> bool, s: seq<T>, i: nat): (r: seq<T>)
    requires i < |s|
    ensures |r| == |s|
  {
    if Sinks(less, s, i) then SiftDown(less, s, i) else SiftUp(less, s, i)
  }

  /** heap.Remove, the items that stay. */
  function Removed<T>(less: (T, T) -> bool, s: seq<T>, i: nat): (r: seq<T>)
    requires i < |s|
    ensures |r| == |s| - 1
  {
    var n := |s| - 1;
    if i == n then s[..n] else Fixed(less, Swap(s, i, n)[..n], i)
  }

  /** Push: over the bound, whatever sits in the last slot goes. */
  function PushedWithin<T>(less: (T, T) -> bool, s: seq<T>, x: T, max: int): (r: seq<T>)
    requires max >= INFINITE
  {
    var t := Pushed(less, s, x);
    if max != INFINITE && |t| > max then Removed(less, t, max) else t
  }

  /** Pop, the items that stay. */
  function Rest<T>(less: (T, T) -> bool, s: seq<T>): (r: seq<T>)
    requires |s| > 0
    ensures |r| == |s| - 1
  {
    var t := Swap(s, 0, |s| - 1)[..|s| - 1];
    if t == [] then [] else SiftDown(less, t, 0)
  }

  // ---------------------------------------------------------------- what each call keeps

  lemma PushedHeap<T(!new)>(less: (T, T) -> bool, s: seq<T>, x: T)
    requires WeakOrder(less) && IsHeap(less, s)
    ensures IsHeap(less, Pushed(less, s, x)) && multiset(Pushed(less, s, x)) == multiset(s) + multiset{x}
  {
    SiftUpPermutes(less, s + [x], |s|);
    var t := s + [x];
    forall i | 0 < i < |t| && i != |s| ensures Fits(less, t, i) { assert Fits(less, s, i); }
    SiftUpHeap(less, t, |s|);
  }

  /** Fix restores the order if only the item at `i` is out of place. */
  lemma FixedHeap<T(!new)>(less: (T, T) -> bool, s: seq<T>, i: nat)
    requires WeakOrder(less) && i < |s| && IsHeapAround(less, s, i)
    ensures IsHeap(less, Fixed(less, s, i)) && multiset(Fixed(less, s, i)) == multiset(s)
  {
    SiftUpPermutes(less, s, i);
    SiftDownPermutes(less, s, i);
    if Sinks(less, s, i) {
      var c := FirstChild(less, s, i);
      assert i > 0 ==> !less(s[c], s[Parent(i)]);
      assert i > 0 ==> Fits(less, s, i);
      SiftDownHeap(less, s, i);
    } else {
      forall k | 0 < k < |s| && Parent(k) == i ensures Fits(less, s, k) {
        assert k == 2 * i + 1 || k == 2 * i + 2;
      }
      SiftUpHeap(less, s, i);
    }
  }

  lemma LastForRemoved<T>(s: seq<T>, i: nat)
    requires i < |s|
    ensures multiset(Swap(s, i, |s| - 1)[..|s| - 1]) == multiset(s) - multiset{s[i]}
  {
    var n := |s| - 1;
    SwapPermutes(s, i, n);
    assert Swap(s, i, n) == Swap(s, i, n)[..n] + [s[i]];
  }

  lemma AroundRemoved<T(!new)>(less: (T, T) -> bool, s: seq<T>, i: nat)
    requires WeakOrder(less) && IsHeap(less, s) && i < |s| - 1
    ensures IsHeapAround(less, Swap(s, i, |s| - 1)[..|s| - 1], i)
  {
    hide WeakOrder;
    var n := |s| - 1;
    var t := Swap(s, i, n)[..n];
    assert forall k :: 0 <= k < n && k != i ==> t[k] == s[k];
    forall k | 0 < k < n && k != i && Parent(k) != i ensures Fits(less, t, k) { assert Fits(less, s, k); }
    forall k | 0 < k < n && Parent(k) == i && i > 0 ensures !less(t[k], t[Parent(i)]) {
      assert Fits(less, s, k) && Fits(less, s, i);
      NotBefore(less, s[Parent(i)], s[i], s[k]);
    }
  }

  lemma RemovedHeap<T(!new)>(less: (T, T) -> bool, s: seq<T>, i: nat)
    requires WeakOrder(less) && IsHeap(less, s) && i < |s|
    ensures IsHeap(less, Removed(less, s, i))
    ensures multiset(Removed(less, s, i)) == multiset(s) - multiset{s[i]}
  {
    hide WeakOrder, IsHeap, Fixed, Swap;
    var n := |s| - 1;
    if i == n {
      PrefixIsHeap(less, s, n);
      DropItem(s, n);
      assert s[..n] + s[n + 1..] == s[..n];
    } else {
      LastForRemoved(s, i);
      AroundRemoved(less, s, i);
      FixedHeap(less, Swap(s, i, n)[..n], i);
    }
  }

  lemma RestItems<T>(less: (T, T) -> bool, s: seq<T>)
    requires |s| > 0
    ensures multiset(Rest(less, s)) == multiset(s) - multiset{s[0]}
  {
    hide SiftDown, Swap;
    LastForRemoved(s, 0);
    var t := Swap(s, 0, |s| - 1)[..|s| - 1];
    if t != [] { SiftDownPermutes(less, t, 0); }
  }

  lemma RestHeap<T(!new)>(less: (T, T) -> bool, s: seq<T>)
    requires WeakOrder(less) && IsHeap(less, s) && |s| > 0
    ensures IsHeap(less, Rest(less, s)) && multiset(Rest(less, s)) == multiset(s) - multiset{s[0]}
    ensures forall x <- Rest(less, s) :: !less(x, s[0])
  {
    hide WeakOrder, IsHeap, Swap, SiftDown;
    RestItems(less, s);
    var n := |s| - 1;
    if n > 0 {
      AroundRemoved(less, s, 0);
      SiftDownHeap(less, Swap(s, 0, n)[..n], 0);
    } else {
      TrivialHeap(less, Rest(less, s));
    }
    forall x | x in Rest(less, s) ensures !less(x, s[0]) {
      assert x in multiset(Rest(less, s));
      assert x in multiset(s);
      var i :| 0 <= i < |s| && s[i] == x;
      RootIsFirst(less, s, i);
    }
  }

  lemma TrivialHeap<T>(less: (T, T) -> bool, s: seq<T>)
    requires |s| <= 1
    ensures IsHeap(less, s)
  {
  }

  /** A bounded push drops the last slot of the heap and nothing else; with room for at least one item
      the first item is one that nothing comes before, the new item included. */
  lemma PushedWithinKeeps<T(!new)>(less: (T, T) -> bool, s: seq<T>, x: T, max: int)
    requires WeakOrder(less) && IsHeap(less, s) && max >= INFINITE && (max != INFINITE ==> |s| <= max)
    ensures var r, t := PushedWithin(less, s, x, max), Pushed(less, s, x);
            && IsHeap(less, r) && (max != INFINITE ==> |r| <= max)
            && (r == t || (|s| == max && r == t[..max]))
            && (max != 0 ==> |r| > 0 && forall y <- s + [x] :: !less(y, r[0]))
  {
    PushedHeap(less, s, x);
    var t := Pushed(less, s, x);
    if max != INFINITE && |t| > max {
      RemovedHeap(less, t, max);
    }
    forall y | y in s + [x] ensures !less(y, t[0]) {
      assert multiset(t) == multiset(s + [x]);
      assert y in multiset(t);
      var i :| 0 <= i < |t| && t[i] == y;
      RootIsFirst(less, t, i);
    }
  }

  // ---------------------------------------------------------------- runs

  datatype Call<T> = DoPush(item: T) | DoPop

  /** `since` are the items left by the last Pop and those pushed after it. */
  datatype Contents<T> = Contents(items: seq<T>, since: seq<T>)

  function After<T>(less: (T, T) -> bool, max: int, calls: seq<Call<T>>): Contents<T>
    requires max >= INFINITE
  {
    if calls == [] then Contents([], [])
    else
      var q := After(less, max, calls[..|calls| - 1]);
      match calls[|calls| - 1]
      case DoPush(x) => Contents(PushedWithin(less, q.items, x, max), q.since + [x])
      case DoPop => if q.items == [] then q else Contents(Rest(less, q.items), Rest(less, q.items))
  }

  /** After every run of pushes and pops the bounded queue is a heap within its bound, and its first item
      is still the best of everything that was there after the last Pop or came since. */
  lemma {:induction false} BestIsNeverLost<T(!new)>(less: (T, T) -> bool, max: int, calls: seq<Call<T>>)
    requires WeakOrder(less) && (max == INFINITE || max >= 1)
    ensures var q := After(less, max, calls);
            && IsHeap(less, q.items) && (max != INFINITE ==> |q.items| <= max)
            && (q.since != [] ==> |q.items| > 0 && forall y <- q.since :: !less(y, q.items[0]))
            && (q.items != [] ==> q.since != [])
    decreases |calls|
  {
    if calls != [] {
      var before := calls[..|calls| - 1];
      BestIsNeverLost(less, max, before);
      var q := After(less, max, before);
      match calls[|calls| - 1]
      case DoPush(x) =>
        PushedWithinKeeps(less, q.items, x, max);
        var r := PushedWithin(less, q.items, x, max);
        forall y | y in q.since + [x] ensures !less(y, r[0]) {
          if y != x {
            assert !less(y, q.items[0]);
            assert q.items[0] in q.items + [x];
          } else {
            assert x in q.items + [x];
          }
        }
      case DoPop =>
        if q.items != [] {
          RestHeap(less, q.items);
          var rest := Rest(less, q.items);
          forall y | y in rest ensures !less(y, rest[0]) {
            var i :| 0 <= i < |rest| && rest[i] == y;
            RootIsFirst(less, rest, i);
          }
        }
    }
  }

  // ---------------------------------------------------------------- which bounds keep the best items

  function Pushes<T>(xs: seq<T>): (r: seq<Call<T>>)
    ensures |r| == |xs|
  {
    if xs == [] then [] else Pushes(xs[..|xs| - 1]) + [DoPush(xs[|xs| - 1])]
  }

  /** The queue after the items of `xs` were pushed into it. */
  function Filled<T>(less: (T, T) -> bool, max: int, xs: seq<T>): seq<T>
    requires max >= INFINITE
  {
    After(less, max, Pushes(xs)).items
  }

  /** The queue holds as many of the items as it may, and none that was dropped comes before one it holds. */
  ghost predicate KeepsBest<T(!new)>(less: (T, T) -> bool, max: int, xs: seq<T>)
    requires max >= INFINITE
  {
    var kept := Filled(less, max, xs);
    && multiset(kept) <= multiset(xs) && |kept| == (if max == INFINITE || |xs| <= max then |xs| else max)
    && forall x, y :: x in multiset(xs) - multiset(kept) && y in kept ==> !less(x, y)
  }

  lemma FilledStep<T>(less: (T, T) -> bool, max: int, xs: seq<T>)
    requires max >= INFINITE && xs != []
    ensures Filled(less, max, xs) == PushedWithin(less, Filled(less, max, xs[..|xs| - 1]), xs[|xs| - 1], max)
  {
    var calls := Pushes(xs);
    assert calls[..|calls| - 1] == Pushes(xs[..|xs| - 1]);
  }

  /** A bounded push, as items: they are those of before and the new one, less the one that is dropped. */
  lemma PushedWithinItems<T(!new)>(less: (T, T) -> bool, s: seq<T>, x: T, max: int)
    requires WeakOrder(less) && IsHeap(less, s) && max >= INFINITE && (max != INFINITE ==> |s| <= max)
    ensures var r := PushedWithin(less, s, x, max);
            && multiset(r) <= multiset(s) + multiset{x}
            && |r| == (if max != INFINITE && |s| == max then max else |s| + 1)
            && (max == INFINITE || |s| < max ==> multiset(r) == multiset(s) + multiset{x})
  {
    PushedHeap(less, s, x);
    if max != INFINITE && |s| == max { RemovedHeap(less, Pushed(less, s, x), max); }
  }

  lemma {:induction false} FilledHolds<T(!new)>(less: (T, T) -> bool, max: int, xs: seq<T>)
    requires WeakOrder(less) && max >= INFINITE
    ensures var kept := Filled(less, max, xs);
            && IsHeap(less, kept) && multiset(kept) <= multiset(xs)
            && |kept| == (if max == INFINITE || |xs| <= max then |xs| else max)
            && (max == INFINITE ==> multiset(kept) == multiset(xs))
    decreases |xs|
  {
    hide WeakOrder, IsHeap, PushedWithin, Filled;
    if xs == [] {
      assert Filled(less, max, xs) == [] by { FilledNothing(less, max); }
      TrivialHeap(less, []);
    } else {
      var before, x := xs[..|xs| - 1], xs[|xs| - 1];
      assert multiset(xs) == multiset(before) + multiset{x} by { assert xs == before + [x]; }
      FilledHolds(less, max, before);
      FilledStep(less, max, xs);
      var s := Filled(less, max, before);
      PushedWithinHeap(less, s, x, max);
      PushedWithinItems(less, s, x, max);
    }
  }

  lemma FilledNothing<T>(less: (T, T) -> bool, max: int)
    requires max >= INFINITE
    ensures Filled(less, max, []) == []
  {
  }

  lemma PushedWithinHeap<T(!new)>(less: (T, T) -> bool, s: seq<T>, x: T, max: int)
    requires WeakOrder(less) && IsHeap(less, s) && max >= INFINITE && (max != INFINITE ==> |s| <= max)
    ensures IsHeap(less, PushedWithin(less, s, x, max))
  {
    PushedWithinKeeps(less, s, x, max);
  }

  /** With room for one item the queue holds the best one so far. */
  lemma {:induction false} FilledWithOne<T(!new)>(less: (T, T) -> bool, xs: seq<T>)
    requires WeakOrder(less) && xs != []
    ensures |Filled(less, 1, xs)| == 1 && forall x <- xs :: !less(x, Filled(less, 1, xs)[0])
    decreases |xs|
  {
    hide WeakOrder, IsHeap, PushedWithin, Filled;
    var before, x := xs[..|xs| - 1], xs[|xs| - 1];
    FilledHolds(less, 1, before);
    FilledHolds(less, 1, xs);
    FilledStep(less, 1, xs);
    var s, r := Filled(less, 1, before), Filled(less, 1, xs);
    PushedWithinKeeps(less, s, x, 1);
    if before != [] { FilledWithOne(less, before); }
    forall y | y in xs ensures !less(y, r[0]) {
      if y in before { BestOfTwo(less, y, s, x, r); } else { assert y == x && x in s + [x]; }
    }
  }

  lemma BestOfTwo<T(!new)>(less: (T, T) -> bool, y: T, s: seq<T>, x: T, r: seq<T>)
    requires WeakOrder(less) && |s| > 0 && |r| > 0 && !less(y, s[0])
    requires forall z <- s + [x] :: !less(z, r[0])
    ensures !less(y, r[0])
  {
    assert s[0] in s + [x];
    NotBefore(less, r[0], s[0], y);
  }

  /** With no bound, no room or room for one item, every run of pushes keeps the best items. */
  lemma SmallBoundKeepsBest<T(!new)>(less: (T, T) -> bool, max: int, xs: seq<T>)
    requires WeakOrder(less) && INFINITE <= max < 2
    ensures KeepsBest(less, max, xs)
  {
    hide WeakOrder;
    FilledHolds(less, max, xs);
    var kept := Filled(less, max, xs);
    forall x, y | x in multiset(xs) - multiset(kept) && y in kept ensures !less(x, y) {
      if max == 1 {
        assert x in multiset(xs) && y == kept[0];
        assert x in xs;
        FilledWithOne(less, xs);
      }
    }
  }

  function Copies<T>(x: T, n: nat): (r: seq<T>)
    ensures |r| == n
  {
    seq(n, _ => x)
  }

  /** Pushing an item that does not come before its parent leaves it in the last slot. */
  lemma {:induction false} FilledWithCopies<T(!new)>(less: (T, T) -> bool, max: int, a: T, n: nat)
    requires WeakOrder(less) && n <= max
    ensures Filled(less, max, Copies(a, n)) == Copies(a, n)
    decreases n
  {
    if n == 0 {
      assert Copies(a, 0) == [];
    } else {
      var xs := Copies(a, n);
      assert xs[..n - 1] == Copies(a, n - 1);
      FilledWithCopies(less, max, a, n - 1);
      FilledStep(less, max, xs);
      assert Copies(a, n - 1) + [a] == xs;
    }
  }

  /** The first item many times, then a later one, then the first item once more. */
  function Overfill<T>(max: nat, a: T, b: T): seq<T>
    requires max >= 2
  {
    Copies(a, max - 1) + [b, a]
  }

  /** An item that does not come before its parent stays in the last slot, and goes if that is over the bound. */
  lemma PushedLast<T(!new)>(less: (T, T) -> bool, s: seq<T>, x: T, max: int)
    requires max >= INFINITE && (max != INFINITE ==> |s| <= max)
    requires |s| > 0 ==> !less(x, s[Parent(|s|)])
    ensures PushedWithin(less, s, x, max) == if |s| == max then s else s + [x]
  {
    var t := s + [x];
    assert |s| > 0 ==> t[Parent(|s|)] == s[Parent(|s|)];
    assert Pushed(less, s, x) == t;
    assert t[..|s|] == s;
  }

  lemma FilledOverfill<T(!new)>(less: (T, T) -> bool, max: nat, a: T, b: T)
    requires WeakOrder(less) && max >= 2 && less(a, b)
    ensures Filled(less, max, Overfill(max, a, b)) == Copies(a, max - 1) + [b]
  {
    hide Filled, PushedWithin;
    var xs, copies := Overfill(max, a, b), Copies(a, max - 1);
    var two := copies + [b];
    assert xs[..max] == two && xs[max] == a && two[..max - 1] == copies && two[max - 1] == b;
    FilledWithCopies(less, max, a, max - 1);
    FilledStep(less, max, two);
    assert copies[Parent(max - 1)] == a by { assert Parent(max - 1) < max - 1; }
    PushedLast(less, copies, b, max);
    FilledStep(less, max, xs);
    assert two[Parent(max)] == a by { assert Parent(max) < max - 1; }
    PushedLast(less, two, a, max);
  }

  /** With room for two or more, whatever order tells two items apart has a run of one push too many
      that drops an item and keeps one that comes after it. */
  lemma LargeBoundDropsBetter<T(!new)>(less: (T, T) -> bool, max: nat, a: T, b: T)
    requires WeakOrder(less) && max >= 2 && less(a, b)
    ensures var xs := Overfill(max, a, b);
            && |xs| == max + 1 && a in multiset(xs) - multiset(Filled(less, max, xs)) && b in Filled(less, max, xs)
            && !KeepsBest(less, max, xs)
  {
    hide Filled, WeakOrder, Copies;
    FilledOverfill(less, max, a, b);
    var xs, kept := Overfill(max, a, b), Copies(a, max - 1) + [b];
    assert xs == kept + [a];
    assert kept[max - 1] == b;
    assert multiset(xs) == multiset(kept) + multiset{a};
  }

  /** The bounded queue keeps the best items in every run of pushes if and only if its bound is less than
      two or its order tells no two items apart. */
  lemma KeepsBestIff<T(!new)>(less: (T, T) -> bool, max: int)
    requires WeakOrder(less) && max >= INFINITE
    ensures (forall xs: seq<T> :: KeepsBest(less, max, xs)) <==> (max < 2 || forall a, b :: !less(a, b))
  {
    hide WeakOrder, Filled;
    if max < 2 || forall a, b :: !less(a, b) {
      forall xs: seq<T> ensures KeepsBest(less, max, xs) {
        if max < 2 { SmallBoundKeepsBest(less, max, xs); } else { FilledHolds(less, max, xs); }
      }
    } else {
      var a, b :| less(a, b);
      LargeBoundDropsBetter(less, max, a, b);
    }
  }

  // ---------------------------------------------------------------- draining

  function Drained<T>(less: (T, T) -> bool, s: seq<T>): seq<T>
    decreases |s|
  {
    if s == [] then [] else [s[0]] + Drained(less, Rest(less, s))
  }

  lemma {:induction false} DrainsInOrder<T(!new)>(less: (T, T) -> bool, s: seq<T>)
    requires WeakOrder(less) && IsHeap(less, s)
    ensures Sorted(less, Drained(less, s)) && multiset(Drained(less, s)) == multiset(s)
    decreases |s|
  {
    hide WeakOrder, IsHeap, Rest, Sorted;
    if s != [] {
      var rest := Rest(less, s);
      RestHeap(less, s);
      DrainsInOrder(less, rest);
      var tail := Drained(less, rest);
      forall y | y in tail ensures !less(y, s[0]) {
        assert y in multiset(tail);
      }
      ConsSorted(less, s[0], tail);
      assert s[0] in multiset(s);
      assert multiset([s[0]] + tail) == multiset{s[0]} + multiset(tail);
    } else {
      assert Sorted(less, Drained(less, s)) by { NothingSorted(less); }
    }
  }

  function PushedAll<T>(less: (T, T) -> bool, xs: seq<T>): (s: seq<T>) {
    if xs == [] then []
    else
      Pushed(less, PushedAll(less, xs[..|xs| - 1]), xs[|xs| - 1])
  }

  lemma {:induction false} PushedAllHeap<T(!new)>(less: (T, T) -> bool, xs: seq<T>)
    requires WeakOrder(less)
    ensures IsHeap(less, PushedAll(less, xs)) && multiset(PushedAll(less, xs)) == multiset(xs)
  {
    if xs != [] {
      assert xs == xs[..|xs| - 1] + [xs[|xs| - 1]];
      PushedAllHeap(less, xs[..|xs| - 1]);
      PushedHeap(less, PushedAll(less, xs[..|xs| - 1]), xs[|xs| - 1]);
    }
  }

  /** An unbounded queue drains the same items in the same, sorted, order however they were pushed. */
  lemma DrainIsCanonical<T(!new)>(less: (T, T) -> bool, xs: seq<T>, ys: seq<T>)
    requires WeakOrder(less) && multiset(xs) == multiset(ys) && TotalOn(less, multiset(xs))
    ensures Drained(less, PushedAll(less, xs)) == Drained(less, PushedAll(less, ys))
    ensures Sorted(less, Drained(less, PushedAll(less, xs)))
    ensures multiset(Drained(less, PushedAll(less, xs))) == multiset(xs)
  {
    PushedAllHeap(less, xs);
    PushedAllHeap(less, ys);
    DrainsInOrder(less, PushedAll(less, xs));
    DrainsInOrder(less, PushedAll(less, ys));
    OneSortedOrder(less, Drained(less, PushedAll(less, xs)), Drained(less, PushedAll(less, ys)));
  }

  // ---------------------------------------------------------------- sifting in part of the slice

  function FirstChildWithin<T>(less: (T, T) -> bool, s: seq<T>, i: nat, n: nat): (c: nat)
    requires 2 * i + 1 < n <= |s|
    ensures i < c < n
  {
    if 2 * i + 2 < n && less(s[2 * i + 2], s[2 * i + 1]) then 2 * i + 2 else 2 * i + 1
  }

  predicate SinksWithin<T>(less: (T, T) -> bool, s: seq<T>, i: nat, n: nat)
    requires i < n <= |s|
  {
    2 * i + 1 < n && less(s[FirstChildWithin(less, s, i, n)], s[i])
  }

  function SiftDownWithin<T>(less: (T, T) -> bool, s: seq<T>, i: nat, n: nat): (r: seq<T>)
    requires i < n <= |s|
    ensures |r| == |s|
    decreases n - i
  {
    if !SinksWithin(less, s, i, n) then s
    else
      var c := FirstChildWithin(less, s, i, n);
      SiftDownWithin(less, Swap(s, i, c), c, n)
  }

  lemma SiftStep<T>(less: (T, T) -> bool, s: seq<T>, i: nat, n: nat)
    requires i < n <= |s|
    ensures SinksWithin(less, s, i, n) ==>
              var c := FirstChildWithin(less, s, i, n);
              SiftDownWithin(less, s, i, n) == SiftDownWithin(less, Swap(s, i, c), c, n)
    ensures !SinksWithin(less, s, i, n) ==> SiftDownWithin(less, s, i, n) == s
  {
  }

  /** Sifting in the first `n` items is sifting those items. */
  lemma {:induction false} WithinIsPrefix<T>(less: (T, T) -> bool, s: seq<T>, t: seq<T>, i: nat)
    requires i < |s|
    ensures SinksWithin(less, s + t, i, |s|) == Sinks(less, s, i)
    ensures SiftDownWithin(less, s + t, i, |s|) == SiftDown(less, s, i) + t
    decreases |s| - i
  {
    if Sinks(less, s, i) {
      var c := FirstChild(less, s, i);
      assert Swap(s + t, i, c) == Swap(s, i, c) + t;
      WithinIsPrefix(less, Swap(s, i, c), t, c);
    }
  }

  // ---------------------------------------------------------------- the object

  class PriorityQueue<T(!new)> {
    const less: (T, T) -> bool
    const max: int
    var items: seq<T>

    constructor (less: (T, T) -> bool, max: int)
      requires WeakOrder(less) && max >= INFINITE
      ensures Valid() && items == [] && this.less == less && this.max == max
    {
      this.less, this.max, items := less, max, [];
    }

    ghost predicate Valid()
      reads this
    {
      WeakOrder(less) && IsHeap(less, items) && max >= INFINITE && (max != INFINITE ==> |items| <= max)
    }

    method Exchange(i: nat, j: nat)
      requires i < |items| && j < |items|
      modifies this
      ensures items == Swap(old(items), i, j)
    {
      items := items[i := items[j]][j := items[i]];
    }

    /** heap.up */
    method Up(start: nat)
      requires start < |items|
      modifies this
      ensures items == SiftUp(less, old(items), start)
    {
      var j := start;
      while j > 0 && less(items[j], items[(j - 1) / 2])
        invariant 0 <= j < |items| && |items| == |old(items)|
        invariant SiftUp(less, items, j) == SiftUp(less, old(items), start)
      {
        var i := (j - 1) / 2;
        Exchange(i, j);
        j := i;
      }
    }

    /** heap.down on the first `n` items. */
    method Down(start: nat, n: nat) returns (moved: bool)
      requires start < n <= |items|
      modifies this
      ensures items == SiftDownWithin(less, old(items), start, n)
      ensures moved == SinksWithin(less, old(items), start, n)
      ensures !moved ==> items == old(items)
    {
      hide SiftDownWithin;
      var i := start;
      while 2 * i + 1 < n
        invariant start <= i < n <= |items| == |old(items)|
        invariant SiftDownWithin(less, items, i, n) == SiftDownWithin(less, old(items), start, n)
        invariant i == start ==> items == old(items)
        invariant i > start ==> SinksWithin(less, old(items), start, n)
        decreases n - i
      {
        SiftStep(less, items, i, n);
        var j := 2 * i + 1;
        if j + 1 < n && less(items[j + 1], items[j]) {
          j := j + 1;
        }
        if !less(items[j], items[i]) {
          break;
        }
        Exchange(i, j);
        i := j;
      }
      SiftStep(less, items, i, n);
      moved := i > start;
    }

    /** heap.Fix after the item at `i` has changed its place in the order. */
    method Fix(i: nat)
      requires WeakOrder(less) && i < |items| && IsHeapAround(less, items, i)
      modifies this
      ensures items == Fixed(less, old(items), i) && IsHeap(less, items)
    {
      FixedHeap(less, items, i);
      WithinIsPrefix(less, items, [], i);
      assert items + [] == items;
      var moved := Down(i, |items|);
      if !moved {
        Up(i);
      }
    }

    /** heap.Remove */
    method RemoveAt(i: nat) returns (item: T)
      requires WeakOrder(less) && IsHeap(less, items) && i < |items|
      modifies this
      ensures items == Removed(less, old(items), i) && IsHeap(less, items)
    {
      hide WeakOrder, IsHeap;
      RemovedHeap(less, items, i);
      var n := |items| - 1;
      if i != n {
        Exchange(i, n);
        ghost var t, last := items[..n], items[n];
        assert items == t + [last];
        WithinIsPrefix(less, t, [last], i);
        SiftUpIgnoresTail(less, t, last, i);
        var moved := Down(i, n);
        if !moved {
          Up(i);
        }
        assert items == Fixed(less, t, i) + [last];
      }
      item := items[n];
      items := items[..n];
    }

    method Push(x: T)
      requires Valid()
      modifies this
      ensures Valid() && items == PushedWithin(less, old(items), x, max)
      ensures max != 0 ==> |items| > 0 && forall y <- old(items) + [x] :: !less(y, items[0])
    {
      PushedWithinKeeps(less, items, x, max);
      PushedHeap(less, items, x);
      items := items + [x];
      Up(|items| - 1);
      if max != INFINITE && |items| > max {
        var dropped := RemoveAt(max);
      }
    }

    method Pop() returns (item: Option<T>)
      requires Valid()
      modifies this
      ensures Valid() && (item.None? <==> old(items) == [])
      ensures item.Some? ==> item.value == old(items)[0] && items == Rest(less, old(items))
      ensures item.Some? ==> forall y <- old(items) :: !less(y, item.value)
      ensures item.None? ==> items == []
    {
      if |items| == 0 {
        return None;
      }
      hide WeakOrder;
      RestHeap(less, items);
      forall i | 0 <= i < |items| ensures !less(items[i], items[0]) { RootIsFirst(less, items, i); }
      var n := |items| - 1;
      Exchange(0, n);
      ghost var t, last := items[..n], items[n];
      assert items == t + [last];
      if n > 0 {
        WithinIsPrefix(less, t, [last], 0);
        var moved := Down(0, n);
      }
      item := Some(items[n]);
      items := items[..n];
    }

    method Peek() returns (item: Option<T>)
      requires Valid()
      ensures item.None? <==> items == []
      ensures item.Some? ==> item.value in items && forall y <- items :: !less(y, item.value)
    {
      if |items| == 0 {
        return None;
      }
      forall i | 0 <= i < |items| ensures !less(items[i], items[0]) { RootIsFirst(less, items, i); }
      item := Some(items[0]);
    }
  }

  lemma {:induction false} SiftUpIgnoresTail<T>(less: (T, T) -> bool, s: seq<T>, last: T, i: nat)
    requires i < |s|
    ensures SiftUp(less, s + [last], i) == SiftUp(less, s, i) + [last]
    decreases i
  {
    if i > 0 && less(s[i], s[Parent(i)]) {
      assert Swap(s + [last], Parent(i), i) == Swap(s, Parent(i), i) + [last];
      SiftUpIgnoresTail(less, Swap(s, Parent(i), i), last, Parent(i));
    }
  }
}
