/** The hand-written binary min-heap of the live reorder buffer, and the same sift operations as
    used by the replay merger through `container/heap`, for an arbitrary order. */
module Heap {

  /** A strict weak order: what `less` has to be for a heap to make sense. */
  ghost predicate StrictWeakOrder<T(!new)>(less: (T, T) -> bool) {
    && (forall a, b :: less(a, b) ==> !less(b, a))
    && (forall a, b, c :: less(a, b) && less(b, c) ==> less(a, c))
    && (forall a, b, c :: !less(b, a) && !less(c, b) ==> !less(c, a))
  }

  /** `x` is not after any element of `s`. */
  ghost predicate Least<T>(less: (T, T) -> bool, x: T, s: multiset<T>) {
    forall y :: y in s ==> !less(y, x)
  }

  class MinHeap<T(!new)> {
    const less: (T, T) -> bool
    var items: seq<T>

    constructor (less: (T, T) -> bool)
      ensures this.less == less && items == []
    {
      this.less := less;
      items := [];
    }

    /** No item is before its parent. */
    ghost predicate Valid()
      reads this
    {
      StrictWeakOrder(less) && Ordered(items)
    }

    ghost predicate Ordered(s: seq<T>) {
      OrderedFrom(s, 0)
    }

    /** No item whose parent is at `lo` or after it is before that parent. */
    ghost predicate OrderedFrom(s: seq<T>, lo: nat) {
      forall j :: 1 <= j < |s| && (j - 1) / 2 >= lo ==> Edge(s, j)
    }

    /** Item `j` is not before its parent. */
    ghost predicate Edge(s: seq<T>, j: nat)
      requires 1 <= j < |s|
    {
      !less(s[j], s[(j - 1) / 2])
    }

    /** If `j` is a child of `i`, it is not before the parent of `i`. */
    ghost predicate Bridge(s: seq<T>, i: nat, j: nat)
      requires i < |s| && 1 <= j < |s|
    {
      i > 0 && (j - 1) / 2 == i ==> !less(s[j], s[(i - 1) / 2])
    }

    /** A heap except that item `i` may be before its parent. */
    ghost predicate OrderedAbove(s: seq<T>, i: nat)
      requires i < |s|
    {
      && (forall j :: 1 <= j < |s| && j != i ==> Edge(s, j))
      && (forall j :: 1 <= j < |s| ==> Bridge(s, i, j))
    }

    /** In order from `lo` on, except that item `i` may be after its children. */
    ghost predicate OrderedBelow(s: seq<T>, lo: nat, i: nat)
      requires i < |s|
    {
      && (forall j :: 1 <= j < |s| && (j - 1) / 2 >= lo && (j - 1) / 2 != i ==> Edge(s, j))
      && (forall j :: 1 <= j < |s| && (i - 1) / 2 >= lo ==> Bridge(s, i, j))
    }

    /** Swapping an item with a parent it is before moves the fault to the parent. */
    lemma SwapUp(s: seq<T>, i: nat)
      requires StrictWeakOrder(less) && 1 <= i < |s| && OrderedAbove(s, i) && less(s[i], s[(i - 1) / 2])
      ensures OrderedAbove(s[i := s[(i - 1) / 2]][(i - 1) / 2 := s[i]], (i - 1) / 2)
    {
      var p := (i - 1) / 2;
      var t := s[i := s[p]][p := s[i]];
      assert forall j :: 1 <= j < |s| && j != i ==> Edge(s, j);
      forall j | 1 <= j < |t| && j != p
        ensures Edge(t, j)
      {
        if j == i {
        } else if (j - 1) / 2 == i {
          assert Bridge(s, i, j);
        } else {
          assert Edge(s, j);
        }
      }
      forall j | 1 <= j < |t|
        ensures Bridge(t, p, j)
      {
        if p > 0 && (j - 1) / 2 == p {
          assert Edge(s, p);
          if j != i { assert Edge(s, j); }
        }
      }
    }

    /** Swapping an item with its lesser child moves the fault to that child. */
    lemma SwapDown(s: seq<T>, lo: nat, i: nat, m: nat)
      requires StrictWeakOrder(less) && lo <= i < m < |s| && (m - 1) / 2 == i && OrderedBelow(s, lo, i)
               && less(s[m], s[i])
      requires forall j :: i < j < |s| && (j - 1) / 2 == i ==> !less(s[j], s[m])
      ensures OrderedBelow(s[i := s[m]][m := s[i]], lo, m)
    {
      var t := s[i := s[m]][m := s[i]];
      forall j | 1 <= j < |t| && (j - 1) / 2 >= lo && (j - 1) / 2 != m
        ensures Edge(t, j)
      {
        if j == m {
        } else if j == i {
          assert Bridge(s, i, m);
        } else if (j - 1) / 2 == i {
          assert i < j;
        } else {
          assert Edge(s, j);
        }
      }
      forall j | 1 <= j < |t|
        ensures Bridge(t, m, j)
      {
        if (j - 1) / 2 == m { assert Edge(s, j); }
      }
    }

    /** In a valid heap the root is least. */
    lemma RootIsLeast()
      requires Valid() && items != []
      ensures Least(less, items[0], multiset(items))
    {
      forall y | y in multiset(items)
        ensures !less(y, items[0])
      {
        assert y in items;
        var j :| 0 <= j < |items| && items[j] == y;
        AncestorNotAfter(j);
      }
    }

    lemma {:induction false} AncestorNotAfter(j: nat)
      requires Valid() && j < |items|
      ensures !less(items[j], items[0])
    {
      if j > 0 {
        AncestorNotAfter((j - 1) / 2);
        assert Edge(items, j);
      }
    }

    /** Only the root of `t` can be out of place if the rest is taken over from a heap. */
    lemma KeepBelowRoot(s: seq<T>, t: seq<T>)
      requires Ordered(s) && 1 <= |t| <= |s| && t[1..] == s[1..|t|]
      ensures OrderedBelow(t, 0, 0)
    {
      forall j | 1 <= j < |t| && (j - 1) / 2 != 0
        ensures Edge(t, j)
      {
        assert Edge(s, j);
        assert t[j] == t[1..][j - 1] && s[j] == s[1..|t|][j - 1];
        assert t[(j - 1) / 2] == t[1..][(j - 1) / 2 - 1] && s[(j - 1) / 2] == s[1..|t|][(j - 1) / 2 - 1];
      }
    }

    method Swap(i: nat, j: nat)
      requires i < |items| && j < |items|
      modifies this
      ensures items == old(items)[i := old(items)[j]][j := old(items)[i]]
      ensures multiset(items) == multiset(old(items))
    {
      items := items[i := items[j]][j := items[i]];
    }

    method PushItem(x: T)
      requires Valid()
      modifies this
      ensures Valid() && multiset(items) == multiset(old(items)) + multiset{x}
    {
      ghost var before := items;
      items := items + [x];
      forall j | 1 <= j < |items|
        ensures j != |items| - 1 ==> Edge(items, j)
        ensures Bridge(items, |items| - 1, j)
      {
        if j < |before| { assert Edge(before, j); }
      }
      SiftUp(|items| - 1);
    }

    /** Removes the root: a least item, and exactly that item. */
    method PopItem() returns (x: T)
      requires Valid() && items != []
      modifies this
      ensures Valid() && x == old(items)[0] && Least(less, x, multiset(old(items)))
      ensures multiset(items) == multiset(old(items)) - multiset{x}
    {
      RootIsLeast();
      var n := |items|;
      x := items[0];
      ghost var before := items;
      items := items[0 := items[n - 1]];
      items := items[..n - 1];
      MoveLastToRoot(before);
      if n > 1 {
        KeepBelowRoot(before, items);
        SiftDown(0);
      }
    }

    lemma MoveLastToRoot(s: seq<T>)
      requires s != []
      ensures var t := s[0 := s[|s| - 1]][..|s| - 1];
              && multiset(t) == multiset(s) - multiset{s[0]}
              && (|t| > 0 ==> t[1..] == s[1..|t|])
    {
      var n := |s|;
      var t := s[0 := s[n - 1]][..n - 1];
      if n > 1 {
        assert s == [s[0]] + s[1..n - 1] + [s[n - 1]];
        assert t == [s[n - 1]] + s[1..n - 1];
      } else {
        assert s == [s[0]] && t == [];
      }
    }

    /** Replaces the root by `x` and restores the heap: `container/heap.Fix` at index 0. */
    method ReplaceRoot(x: T)
      requires Valid() && items != []
      modifies this
      ensures Valid()
      ensures multiset(items) == multiset(old(items)) - multiset{old(items)[0]} + multiset{x}
    {
      ghost var before := items;
      items := items[0 := x];
      assert before == [before[0]] + before[1..];
      assert items == [x] + before[1..];
      KeepBelowRoot(before, items);
      SiftDown(0);
    }

    method PeekItem() returns (x: T)
      requires Valid() && items != []
      ensures x == items[0] && Least(less, x, multiset(items))
    {
      RootIsLeast();
      x := items[0];
    }

    method SiftUp(k: nat)
      requires StrictWeakOrder(less) && k < |items| && OrderedAbove(items, k)
      modifies this
      ensures Valid() && multiset(items) == multiset(old(items))
    {
      var i := k;
      while i > 0
        invariant 0 <= i < |items| && multiset(items) == multiset(old(items)) && OrderedAbove(items, i)
      {
        var p := (i - 1) / 2;
        if !less(items[i], items[p]) {
          break;
        }
        SwapUp(items, i);
        Swap(i, p);
        i := p;
      }
    }

    /** Establishes the heap order from the last parent to the root: `container/heap.Init`. */
    method Heapify()
      requires StrictWeakOrder(less)
      modifies this
      ensures Valid() && multiset(items) == multiset(old(items))
    {
      var i := |items| / 2;
      while i > 0
        invariant 0 <= i <= |items| / 2 && multiset(items) == multiset(old(items)) && |items| == |old(items)|
        invariant OrderedFrom(items, i)
      {
        i := i - 1;
        SiftDown(i, i);
      }
    }

    /** Moves item `k` down until it is not after its children; the order from `lo` on is then complete. */
    method SiftDown(k: nat, ghost lo: nat := 0)
      requires StrictWeakOrder(less) && lo <= k < |items| && OrderedBelow(items, lo, k)
      modifies this
      ensures OrderedFrom(items, lo) && multiset(items) == multiset(old(items)) && |items| == |old(items)|
    {
      var i := k;
      var n := |items|;
      while true
        invariant 0 <= i < |items| == n && multiset(items) == multiset(old(items)) && lo <= i
                  && OrderedBelow(items, lo, i)
        decreases n - i
      {
        var left := 2 * i + 1;
        if left >= n {
          break;
        }
        var smallest := left;
        var right := left + 1;
        if right < n && less(items[right], items[left]) {
          smallest := right;
        }
        if !less(items[smallest], items[i]) {
          break;
        }
        SwapDown(items, lo, i, smallest);
        Swap(i, smallest);
        i := smallest;
      }
    }
  }
}
