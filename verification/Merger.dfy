/** The K-way merge of recorded tick streams: one heap entry for each reader that still has a tick. */
module Merger {
  import opened Feed
  import opened Heap

  /** A reader from which `rest` can still be read; `fails` tells whether its stream then ends with an error. */
  datatype Reader = Reader(rest: seq<Tick>, fails: bool)

  datatype Entry = Entry(reader: nat, tick: Tick)

  predicate EntryLess(a: Entry, b: Entry) {
    TickLess(a.tick, b.tick)
  }

  lemma EntryOrder()
    ensures StrictWeakOrder(EntryLess)
  {
    forall a: Entry, b: Entry | EntryLess(a, b)
      ensures !EntryLess(b, a)
    {
      TickLessAsymmetric(a.tick, b.tick);
    }
    forall a: Entry, b: Entry, c: Entry | EntryLess(a, b) && EntryLess(b, c)
      ensures EntryLess(a, c)
    {
      TickLessTransitive(a.tick, b.tick, c.tick);
    }
    forall a: Entry, b: Entry, c: Entry | !EntryLess(b, a) && !EntryLess(c, b)
      ensures !EntryLess(c, a)
    {
      TickNotLaterTransitive(a.tick, b.tick, c.tick);
    }
  }

  // ---------- What a merge is ----------

  function HeadOf(queues: seq<seq<Tick>>, i: nat): multiset<Entry>
    requires i < |queues|
  {
    if queues[i] == [] then multiset{} else multiset{Entry(i, queues[i][0])}
  }

  /** The first tick of every stream that has one. */
  function Heads(queues: seq<seq<Tick>>, n: nat): multiset<Entry>
    requires n <= |queues|
  {
    if n == 0 then multiset{} else Heads(queues, n - 1) + HeadOf(queues, n - 1)
  }

  /** One step: the head of stream `e.reader` is taken, and no other head is before it. */
  ghost predicate Picks(queues: seq<seq<Tick>>, e: Entry) {
    && e.reader < |queues| && queues[e.reader] != [] && queues[e.reader][0] == e.tick
    && forall i :: 0 <= i < |queues| && queues[i] != [] ==> NotBefore(queues[i][0], e.tick)
  }

  predicate NotBefore(a: Tick, b: Tick) {
    !TickLess(a, b)
  }

  function Advance(queues: seq<seq<Tick>>, r: nat): (q: seq<seq<Tick>>)
    ensures |q| == |queues|
  {
    if r < |queues| && queues[r] != [] then queues[r := queues[r][1..]] else queues
  }

  /** What calling `Next` until it returns false yields. */
  ghost predicate IsMerge(queues: seq<seq<Tick>>, out: seq<Entry>)
    decreases |out|
  {
    if out == [] then forall i :: 0 <= i < |queues| ==> queues[i] == []
    else Picks(queues, out[0]) && IsMerge(Advance(queues, out[0].reader), out[1..])
  }

  // ---------- The merger ----------

  function Streams(sources: seq<Reader>): (q: seq<seq<Tick>>)
    ensures |q| == |sources| && forall i :: 0 <= i < |q| ==> q[i] == sources[i].rest
  {
    seq(|sources|, i requires 0 <= i < |sources| => sources[i].rest)
  }

  /** A reader after its first tick has been read, if it has one. */
  function Opened(r: Reader): Reader {
    if r.rest == [] then r else r.(rest := r.rest[1..])
  }

  predicate EmptyAndFails(r: Reader) {
    r.rest == [] && r.fails
  }

  predicate AnyFails(sources: seq<Reader>, n: nat)
    requires n <= |sources|
  {
    n > 0 && (AnyFails(sources, n - 1) || EmptyAndFails(sources[n - 1]))
  }

  lemma {:induction false} AnyFailsMeans(sources: seq<Reader>, n: nat)
    requires n <= |sources|
    ensures AnyFails(sources, n) <==> exists i :: 0 <= i < n && EmptyAndFails(sources[i])
  {
    if n > 0 { AnyFailsMeans(sources, n - 1); }
  }

  class Merger {
    const h: MinHeap<Entry>
    var readers: seq<Reader>
    var current: Tick
    var err: bool
    /** What each stream still has to give, the tick already in the heap included. */
    ghost var queues: seq<seq<Tick>>

    ghost predicate Valid()
      reads this, h
    {
      && h.Valid() && h.less == EntryLess
      && |queues| == |readers|
      && multiset(h.items) == Heads(queues, |queues|)
      && forall i :: 0 <= i < |readers| ==> Buffered(i)
    }

    ghost predicate Buffered(i: nat)
      requires i < |readers| && |queues| == |readers|
      reads this
    {
      readers[i].rest == if queues[i] == [] then [] else queues[i][1..]
    }

    constructor (sources: seq<Reader>, blank: Tick)
      ensures Valid() && fresh(h)
      ensures queues == Streams(sources)
      ensures err == exists i :: 0 <= i < |sources| && EmptyAndFails(sources[i])
    {
      EntryOrder();
      h := new MinHeap<Entry>(EntryLess);
      readers := sources;
      current := blank;
      err := false;
      queues := Streams(sources);
      new;
      OpenAll(sources);
      h.Heapify();
    }

    /** Reads the first tick of every reader; readers that are empty from the start stay out of the heap. */
    method OpenAll(sources: seq<Reader>)
      requires readers == sources && queues == Streams(sources) && h.items == [] && !err
      modifies this`readers, this`err, h`items
      ensures |readers| == |sources| && forall k :: 0 <= k < |sources| ==> readers[k] == Opened(sources[k])
      ensures multiset(h.items) == Heads(queues, |queues|)
      ensures err == exists i :: 0 <= i < |sources| && EmptyAndFails(sources[i])
    {
      hide Heads, HeadOf, Opened, EmptyAndFails, Streams;
      var i := 0;
      assert multiset(h.items) == Heads(queues, 0) by { NoneYet(queues); }
      while i < |sources|
        invariant 0 <= i <= |sources| == |readers|
        invariant queues == Streams(sources) && multiset(h.items) == Heads(queues, i)
        invariant forall k :: 0 <= k < i ==> readers[k] == Opened(sources[k])
        invariant forall k :: i <= k < |sources| ==> readers[k] == sources[k]
        invariant err == AnyFails(sources, i)
      {
        assert readers[i] == sources[i];
        var more, t := ReadNext(i);
        ghost var next := if more then h.items + [Entry(i, t)] else h.items;
        AddHead(queues, i, h.items, next);
        if more {
          h.items := h.items + [Entry(i, t)];
        }
        assert h.items == next;
        i := i + 1;
      }
      AnyFailsMeans(sources, i);
    }

    /** Reads on in one stream; at its end, an error is kept. */
    method ReadNext(i: nat) returns (more: bool, t: Tick)
      requires i < |readers|
      modifies this`readers, this`err
      ensures more == (old(readers)[i].rest != []) && (more ==> t == old(readers)[i].rest[0])
      ensures readers == old(readers)[i := Opened(old(readers)[i])]
      ensures err == (old(err) || EmptyAndFails(old(readers)[i]))
    {
      var r := readers[i];
      t := current;
      more := r.rest != [];
      if more {
        t := r.rest[0];
        readers := readers[i := r.(rest := r.rest[1..])];
      } else if r.fails {
        err := true;
      }
    }

    /** Puts the next entry of the least stream in place of its head, or removes it. */
    method Refill(again: bool, e: Entry)
      requires h.Valid() && h.items != []
      modifies h
      ensures h.Valid()
      ensures multiset(h.items) ==
              multiset(old(h.items)) - multiset{old(h.items)[0]} + (if again then multiset{e} else multiset{})
    {
      hide MinHeap.Valid;
      if again {
        h.ReplaceRoot(e);
      } else {
        var x := h.PopItem();
      }
    }

    /** Moves on to the next tick; false once every stream is used up. */
    method Next() returns (more: bool)
      requires Valid()
      modifies this, h
      ensures Valid() && |queues| == |old(queues)|
      ensures !more ==> unchanged(this) && forall i :: 0 <= i < |queues| ==> queues[i] == []
      ensures more ==> exists r: nat :: Picks(old(queues), Entry(r, current)) && queues == Advance(old(queues), r) &&
                         (err == (old(err) || (queues[r] == [] && readers[r].fails)))
    {
      hide Heads, Picks, MinHeap.Valid, Least, TickLess, EntryLess, MinHeap.Ordered, StrictWeakOrder;
      if |h.items| == 0 {
        NoHeads(queues, multiset(h.items));
        return false;
      }
      ghost var before := queues;
      var top := h.PeekItem();
      HeadFrom(queues, |queues|, top);
      var r := top.reader;
      PickStep(queues, multiset(h.items), top);
      assert Buffered(r);
      current := top.tick;
      var again, t := ReadNext(r);
      queues := Advance(queues, r);
      assert HeadOf(queues, r) == if again then multiset{Entry(r, t)} else multiset{};
      hide HeadOf;
      Refill(again, Entry(r, t));
      forall i | 0 <= i < |readers| && i != r
        ensures Buffered(i)
      {
        assert old(Buffered(i));
      }
      more := true;
    }
  }

  lemma NoHeads(queues: seq<seq<Tick>>, items: multiset<Entry>)
    requires items == Heads(queues, |queues|) && items == multiset{}
    ensures forall i :: 0 <= i < |queues| ==> queues[i] == []
  {
    forall i | 0 <= i < |queues|
      ensures queues[i] == []
    {
      if queues[i] != [] { HeadIn(queues, i); }
    }
  }

  /** Replacing the least head by the next tick of its stream keeps exactly the heads. */
  lemma PickStep(queues: seq<seq<Tick>>, items: multiset<Entry>, top: Entry)
    requires items == Heads(queues, |queues|) && top in items && Least(EntryLess, top, items)
    ensures Picks(queues, top)
    ensures var q := Advance(queues, top.reader);
            Heads(q, |q|) == items - multiset{top} + HeadOf(q, top.reader)
  {
    HeadFrom(queues, |queues|, top);
    HeadsAreNotBefore(queues, items, top);
    var q := Advance(queues, top.reader);
    HeadsAdvance(queues, top.reader, |queues|);
    assert HeadOf(queues, top.reader) == multiset{top};
    Cancel(Heads(q, |q|), items, HeadOf(q, top.reader), top);
  }

  lemma {:induction false} HeadFrom(queues: seq<seq<Tick>>, n: nat, e: Entry)
    requires n <= |queues| && e in Heads(queues, n)
    ensures e.reader < n && queues[e.reader] != [] && queues[e.reader][0] == e.tick
  {
    if e !in HeadOf(queues, n - 1) { HeadFrom(queues, n - 1, e); }
  }

  lemma {:induction false} HeadWithin(queues: seq<seq<Tick>>, n: nat, i: nat)
    requires i < n <= |queues| && queues[i] != []
    ensures Entry(i, queues[i][0]) in Heads(queues, n)
  {
    if i < n - 1 { HeadWithin(queues, n - 1, i); }
  }

  lemma HeadIn(queues: seq<seq<Tick>>, i: nat)
    requires i < |queues| && queues[i] != []
    ensures Entry(i, queues[i][0]) in Heads(queues, |queues|)
  {
    HeadWithin(queues, |queues|, i);
  }

  lemma HeadsAreNotBefore(queues: seq<seq<Tick>>, items: multiset<Entry>, top: Entry)
    requires items == Heads(queues, |queues|) && Least(EntryLess, top, items)
    ensures forall i :: 0 <= i < |queues| && queues[i] != [] ==> NotBefore(queues[i][0], top.tick)
  {
    forall i | 0 <= i < |queues| && queues[i] != []
      ensures NotBefore(queues[i][0], top.tick)
    {
      HeadIn(queues, i);
    }
  }

  lemma Exchange<T>(a: multiset<T>, b: multiset<T>, c: multiset<T>)
    ensures a + b + c == a + c + b
  {
  }

  lemma Regroup<T>(a: multiset<T>, b: multiset<T>, g: multiset<T>, x: multiset<T>, y: multiset<T>)
    requires a + x == b + y
    ensures a + g + x == b + g + y
  {
    Exchange(a, g, x);
    Exchange(b, g, y);
  }

  lemma {:induction false} HeadsBefore(queues: seq<seq<Tick>>, r: nat, n: nat)
    requires n <= r < |queues|
    ensures Heads(Advance(queues, r), n) == Heads(queues, n)
  {
    if n > 0 {
      HeadsBefore(queues, r, n - 1);
      assert HeadOf(Advance(queues, r), n - 1) == HeadOf(queues, n - 1);
      hide HeadOf, Advance;
    }
  }

  /** Taking the head of a stream replaces it by the next tick of that stream, if any. */
  lemma {:induction false} HeadsAdvance(queues: seq<seq<Tick>>, r: nat, n: nat)
    requires r < n <= |queues| && queues[r] != []
    ensures Heads(Advance(queues, r), n) + HeadOf(queues, r) == Heads(queues, n) + HeadOf(Advance(queues, r), r)
  {
    var q := Advance(queues, r);
    if r == n - 1 {
      HeadsBefore(queues, r, n - 1);
      assert Heads(q, n) == Heads(queues, n - 1) + HeadOf(q, r);
      assert Heads(queues, n) == Heads(queues, n - 1) + HeadOf(queues, r);
      hide HeadOf, Heads, Advance;
      Exchange(Heads(queues, n - 1), HeadOf(q, r), HeadOf(queues, r));
    } else {
      HeadsAdvance(queues, r, n - 1);
      assert HeadOf(q, n - 1) == HeadOf(queues, n - 1);
      assert Heads(q, n) == Heads(q, n - 1) + HeadOf(queues, n - 1);
      assert Heads(queues, n) == Heads(queues, n - 1) + HeadOf(queues, n - 1);
      hide HeadOf, Heads, Advance;
      Regroup(Heads(q, n - 1), Heads(queues, n - 1), HeadOf(queues, n - 1), HeadOf(queues, r), HeadOf(q, r));
    }
  }

  lemma NoneYet(queues: seq<seq<Tick>>)
    ensures Heads(queues, 0) == multiset{}
  {
  }

  lemma AddHead(queues: seq<seq<Tick>>, i: nat, s: seq<Entry>, t: seq<Entry>)
    requires i < |queues| && multiset(s) == Heads(queues, i)
    requires t == if queues[i] == [] then s else s + [Entry(i, queues[i][0])]
    ensures multiset(t) == Heads(queues, i + 1)
  {
  }

  lemma Cancel<T>(a: multiset<T>, b: multiset<T>, c: multiset<T>, x: T)
    requires a + multiset{x} == b + c
    ensures x in b ==> a == b - multiset{x} + c
  {
    if x in b {
      forall y
        ensures a[y] == (b - multiset{x} + c)[y]
      {
        assert (a + multiset{x})[y] == (b + c)[y];
      }
    }
  }

  // ---------- What a merge of ordered streams gives ----------

  ghost predicate Ordered(s: seq<Tick>) {
    forall i :: 0 <= i < |s| - 1 ==> Adjacent(s, i)
  }

  ghost predicate Adjacent(s: seq<Tick>, i: nat)
    requires i + 1 < |s|
  {
    NotBefore(s[i + 1], s[i])
  }

  ghost predicate AllOrdered(queues: seq<seq<Tick>>) {
    forall i :: 0 <= i < |queues| ==> Ordered(queues[i])
  }

  lemma AdvanceKeepsOrdered(queues: seq<seq<Tick>>, r: nat)
    requires AllOrdered(queues)
    ensures AllOrdered(Advance(queues, r))
  {
    if r < |queues| && queues[r] != [] {
      var t := queues[r][1..];
      forall i | 0 <= i < |t| - 1
        ensures Adjacent(t, i)
      {
        assert Adjacent(queues[r], i + 1);
      }
    }
  }

  /** Nothing that is not before every head is overtaken by a later output. */
  lemma {:induction false} OutputNotBefore(queues: seq<seq<Tick>>, out: seq<Entry>, x: Tick, k: nat)
    requires IsMerge(queues, out) && AllOrdered(queues) && k < |out|
    requires forall i :: 0 <= i < |queues| && queues[i] != [] ==> NotBefore(queues[i][0], x)
    ensures NotBefore(out[k].tick, x)
    decreases |out|
  {
    if k > 0 {
      var r := out[0].reader;
      var next := Advance(queues, r);
      AdvanceKeepsOrdered(queues, r);
      forall i | 0 <= i < |next| && next[i] != []
        ensures NotBefore(next[i][0], x)
      {
        if i == r {
          assert Adjacent(queues[r], 0);
          TickNotLaterTransitive(x, queues[r][0], queues[r][1]);
        }
      }
      OutputNotBefore(next, out[1..], x, k - 1);
    }
  }

  /** The merge is in order: timestamps never go back, quotes precede trades at one timestamp, and symbols
      are in order among ticks of one kind at one timestamp. */
  lemma {:induction false} MergeIsOrdered(queues: seq<seq<Tick>>, out: seq<Entry>, j: nat, k: nat)
    requires IsMerge(queues, out) && AllOrdered(queues) && j < k < |out|
    ensures NotBefore(out[k].tick, out[j].tick)
    ensures out[j].tick.ts <= out[k].tick.ts
    ensures out[j].tick.ts == out[k].tick.ts && out[k].tick.kind == TickQuote ==> out[j].tick.kind == TickQuote
    decreases |out|
  {
    var r := out[0].reader;
    var next := Advance(queues, r);
    AdvanceKeepsOrdered(queues, r);
    if j == 0 {
      forall i | 0 <= i < |next| && next[i] != []
        ensures NotBefore(next[i][0], out[0].tick)
      {
        if i == r { assert Adjacent(queues[r], 0); }
      }
      OutputNotBefore(next, out[1..], out[0].tick, k - 1);
    } else {
      MergeIsOrdered(next, out[1..], j - 1, k - 1);
    }
  }

  /** What the output holds from reader `i`, in output order. */
  function From(out: seq<Entry>, i: nat): seq<Tick> {
    if out == [] then [] else (if out[0].reader == i then [out[0].tick] else []) + From(out[1..], i)
  }

  /** The merge is complete and stable: what it holds from each reader is exactly that reader's stream. */
  lemma {:induction false} MergeKeepsStreams(queues: seq<seq<Tick>>, out: seq<Entry>, i: nat)
    requires IsMerge(queues, out) && i < |queues|
    ensures From(out, i) == queues[i]
    decreases |out|
  {
    if out != [] {
      var r := out[0].reader;
      MergeKeepsStreams(Advance(queues, r), out[1..], i);
      if r == i { assert queues[i] == [queues[i][0]] + queues[i][1..]; }
    }
  }

  /** Nothing comes from anywhere else. */
  lemma {:induction false} MergeReadersExist(queues: seq<seq<Tick>>, out: seq<Entry>, k: nat)
    requires IsMerge(queues, out) && k < |out|
    ensures out[k].reader < |queues|
    decreases |out|
  {
    if k > 0 { MergeReadersExist(Advance(queues, out[0].reader), out[1..], k - 1); }
  }

  function Total(queues: seq<seq<Tick>>): nat {
    if queues == [] then 0 else |queues[0]| + Total(queues[1..])
  }

  lemma {:induction false} AdvanceShrinks(queues: seq<seq<Tick>>, r: nat)
    requires r < |queues| && queues[r] != []
    ensures Total(Advance(queues, r)) == Total(queues) - 1
  {
    if r > 0 {
      assert Advance(queues, r)[1..] == Advance(queues[1..], r - 1);
      AdvanceShrinks(queues[1..], r - 1);
    }
  }

  /** Merges are as long as their streams together, so `Next` returns false after that many calls. */
  lemma {:induction false} MergeLength(queues: seq<seq<Tick>>, out: seq<Entry>)
    requires IsMerge(queues, out)
    ensures |out| == Total(queues)
    decreases |out|
  {
    if out == [] {
      TotalEmpty(queues);
    } else {
      AdvanceShrinks(queues, out[0].reader);
      MergeLength(Advance(queues, out[0].reader), out[1..]);
    }
  }

  lemma {:induction false} TotalEmpty(queues: seq<seq<Tick>>)
    requires forall i :: 0 <= i < |queues| ==> queues[i] == []
    ensures Total(queues) == 0
  {
    if queues != [] { TotalEmpty(queues[1..]); }
  }

  // ---------- The loop over a merger ----------

  /** The streams after the ticks of `out` have been taken. */
  function After(queues: seq<seq<Tick>>, out: seq<Entry>): (q: seq<seq<Tick>>)
    ensures |q| == |queues|
  {
    if out == [] then queues else Advance(After(queues, out[..|out| - 1]), out[|out| - 1].reader)
  }

  ghost predicate Legal(queues: seq<seq<Tick>>, out: seq<Entry>) {
    out != [] ==> Legal(queues, out[..|out| - 1]) && Picks(After(queues, out[..|out| - 1]), out[|out| - 1])
  }

  lemma {:induction false} AfterFirst(queues: seq<seq<Tick>>, out: seq<Entry>)
    requires out != [] && Legal(queues, out)
    ensures After(queues, out) == After(Advance(queues, out[0].reader), out[1..])
    ensures Picks(queues, out[0]) && Legal(Advance(queues, out[0].reader), out[1..])
    decreases |out|
  {
    if |out| > 1 {
      assert out[..|out| - 1][1..] == out[1..][..|out| - 2];
      AfterFirst(queues, out[..|out| - 1]);
    } else {
      assert out[..0] == [];
    }
  }

  lemma {:induction false} LegalIsMerge(queues: seq<seq<Tick>>, out: seq<Entry>)
    requires Legal(queues, out) && forall i :: 0 <= i < |queues| ==> After(queues, out)[i] == []
    ensures IsMerge(queues, out)
    decreases |out|
  {
    if out != [] {
      AfterFirst(queues, out);
      LegalIsMerge(Advance(queues, out[0].reader), out[1..]);
    } else {
      assert After(queues, out) == queues;
    }
  }

  function Ticks(out: seq<Entry>): seq<Tick> {
    if out == [] then [] else Ticks(out[..|out| - 1]) + [out[|out| - 1].tick]
  }

  /** The replay loop takes ticks until `Next` returns false; what it sees is a merge of the streams. */
  method ReadAll(m: Merger) returns (ticks: seq<Tick>, ghost out: seq<Entry>)
    requires m.Valid()
    modifies m, m.h
    ensures m.Valid() && IsMerge(old(m.queues), out) && ticks == Ticks(out)
  {
    hide Picks, IsMerge, Heads, MinHeap.Valid;
    ticks, out := [], [];
    var more := true;
    while more
      invariant m.Valid()
      invariant ticks == Ticks(out)
      invariant Legal(old(m.queues), out) && m.queues == After(old(m.queues), out)
      invariant !more ==> forall i :: 0 <= i < |m.queues| ==> m.queues[i] == []
      decreases Total(m.queues), more
    {
      ghost var before := m.queues;
      more := m.Next();
      if more {
        ghost var r: nat :| Picks(before, Entry(r, m.current)) && m.queues == Advance(before, r);
        PicksNonEmpty(before, Entry(r, m.current));
        AdvanceShrinks(before, r);
        ticks := ticks + [m.current];
        ghost var next := out + [Entry(r, m.current)];
        assert next[..|out|] == out;
        out := next;
      }
    }
    LegalIsMerge(old(m.queues), out);
  }

  lemma PicksNonEmpty(queues: seq<seq<Tick>>, e: Entry)
    requires Picks(queues, e)
    ensures e.reader < |queues| && queues[e.reader] != []
  {
  }
}
