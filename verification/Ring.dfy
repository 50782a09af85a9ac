/** A ring over a fixed array, as the micro tracker keeps its quotes and trades: a head index and a count. */
module Ring {
  import opened Modular

  /** Appending to a bounded list that drops its oldest element when full. */
  function PushBounded<T>(s: seq<T>, x: T, capacity: nat): (r: seq<T>)
    requires 0 < capacity && |s| <= capacity
    ensures |r| <= capacity && r != [] && r[|r| - 1] == x
  {
    if |s| < capacity then s + [x] else s[1..] + [x]
  }

  /** The slot of element `k` when the oldest one is at `head`. */
  function Place(head: nat, k: nat, n: nat): (i: nat)
    requires n > 0
    ensures i < n
  {
    (head + k) % n
  }

  /** Positions less than a ring apart use different slots. */
  lemma SlotsDiffer(head: nat, j: nat, k: nat, n: nat)
    requires n > 0 && j < k < j + n
    ensures Place(head, j, n) != Place(head, k, n)
  {
    ShiftChangesRemainder(head + j, k - j, n);
  }

  /** Advancing the head shifts every position by one. */
  lemma Wrap(head: nat, k: nat, n: nat)
    requires head < n
    ensures Place(Place(head, 1, n), k, n) == Place(head, k + 1, n)
  {
    if head + 1 == n {
      DivModUnique(head + 1, n, 1, 0);
      AddMultiple(k, 1, n);
      assert head + (k + 1) == k + 1 * n;
    } else {
      DivModUnique(head + 1, n, 0, head + 1);
      assert head + 1 + k == head + (k + 1);
    }
  }

  lemma FullCircle(head: nat, n: nat)
    requires head < n
    ensures Place(head, 0, n) == head && Place(head, n, n) == head
  {
    DivModUnique(head, n, 0, head);
    DivModUnique(head + n, n, 1, head);
  }

  class Ring<T> {
    const slots: array<T>
    var head: nat
    var count: nat

    constructor (capacity: nat, fill: T)
      requires capacity > 0
      ensures Valid() && Contents() == [] && fresh(slots) && slots.Length == capacity
    {
      slots := new T[capacity](_ => fill);
      head, count := 0, 0;
    }

    ghost predicate Valid()
      reads this
    {
      head < slots.Length && count <= slots.Length
    }

    /** The elements, oldest first. */
    ghost function Contents(): (s: seq<T>)
      requires Valid()
      reads this, slots
      ensures |s| == count
      ensures forall k :: 0 <= k < count ==> s[k] == slots[Place(head, k, slots.Length)]
    {
      seq(count, k requires 0 <= k < count reads this, slots => slots[Place(head, k, slots.Length)])
    }

    method Get(k: nat) returns (x: T)
      requires Valid() && k < count
      ensures x == Contents()[k]
    {
      x := slots[Place(head, k, slots.Length)];
    }

    method Push(x: T)
      requires Valid()
      modifies this, slots
      ensures Valid() && Contents() == PushBounded(old(Contents()), x, slots.Length)
    {
      hide Place;
      ghost var before := Contents();
      ghost var h, c, n := head, count, slots.Length;
      if count < slots.Length {
        slots[Place(head, count, slots.Length)] := x;
        count := count + 1;
        forall k | 0 <= k < c
          ensures Contents()[k] == before[k]
        {
          SlotsDiffer(h, k, c, n);
        }
        assert Contents() == before + [x];
      } else {
        slots[head] := x;
        head := Place(head, 1, slots.Length);
        FullCircle(h, n);
        forall k | 0 <= k < c - 1
          ensures Contents()[k] == before[k + 1]
        {
          Wrap(h, k, n);
          SlotsDiffer(h, 0, k + 1, n);
        }
        Wrap(h, c - 1, n);
        assert Contents() == before[1..] + [x];
      }
    }

    method DropFirst()
      requires Valid() && count > 0
      modifies this`head, this`count
      ensures Valid() && Contents() == old(Contents())[1..]
    {
      hide Place;
      ghost var h, n := head, slots.Length;
      ghost var before := Contents();
      head := Place(head, 1, slots.Length);
      count := count - 1;
      forall k | 0 <= k < count
        ensures Contents()[k] == before[k + 1]
      {
        Wrap(h, k, n);
      }
    }

    method Clear()
      requires Valid()
      modifies this`head, this`count
      ensures Valid() && Contents() == []
    {
      head, count := 0, 0;
    }
  }
}
