/** The retained quotes of one symbol: which quote prevailed one millisecond before a trade.
    The projector keeps a buffer, a cursor that follows the trades, and now and then drops
    quotes from the front; the reference is the last suitable quote of the whole history. */
module QuoteBook {
  import opened Floats

  datatype QuoteEntry = QuoteEntry(sip: int, part: int, bid: Float, ask: Float, valid: bool)

  const COMPACT_LEN := 8192
  const COMPACT_PTR := 4096
  const COMPACT_MIN := 2048
  const COMPACT_NS := 100_000_000

  /** `first` is meaningful when `hasAny`; `ptr` counts the quotes known to be at or before the last target. */
  datatype Book = Book(hasAny: bool, first: QuoteEntry, buf: seq<QuoteEntry>, ptr: nat)

  // ---------- What the code computes ----------

  /** Walks back from `k` to a quote before the cutoff, or to 0. */
  function KeepFrom(buf: seq<QuoteEntry>, k: nat, cutoff: int): (r: nat)
    ensures r <= k
    ensures r > 0 && r < |buf| ==> buf[r].sip < cutoff
  {
    if k > 0 && k < |buf| && buf[k].sip >= cutoff then KeepFrom(buf, k - 1, cutoff) else k
  }

  function Append(b: Book, q: QuoteEntry): Book {
    Book(true, if b.hasAny then b.first else q, b.buf + [q], b.ptr)
  }

  /** Drops old quotes once the buffer is long and the cursor is far in. */
  function Compact(b: Book, newest: int): Book {
    if |b.buf| > COMPACT_LEN && b.ptr > COMPACT_PTR then
      var keep := KeepFrom(b.buf, b.ptr - 1, newest - COMPACT_NS);
      if keep > COMPACT_MIN && keep <= |b.buf| then Book(true, b.first, b.buf[keep..], b.ptr - keep) else b
    else b
  }

  function Record(b: Book, q: QuoteEntry): Book {
    Compact(Append(b, q), q.sip)
  }

  /** Moves forward over quotes at or before the target. */
  function ScanForward(buf: seq<QuoteEntry>, p: nat, target: int): (r: nat)
    ensures p <= |buf| ==> p <= r <= |buf|
    decreases |buf| - p
  {
    if p < |buf| && buf[p].sip <= target then ScanForward(buf, p + 1, target) else p
  }

  /** Binary search for the first quote after the target. */
  function Search(buf: seq<QuoteEntry>, lo: nat, hi: nat, target: int): (r: nat)
    requires lo <= hi <= |buf|
    ensures lo <= r <= hi
    decreases hi - lo
  {
    if lo >= hi then lo
    else
      var mid := (lo + hi) / 2;
      if buf[mid].sip <= target then Search(buf, mid + 1, hi, target) else Search(buf, lo, mid, target)
  }

  function MovePtr(b: Book, target: int): nat {
    if 0 < b.ptr <= |b.buf| && b.buf[b.ptr - 1].sip > target then Search(b.buf, 0, |b.buf|, target)
    else ScanForward(b.buf, b.ptr, target)
  }

  /** The quote at the cursor: the last one passed, or the first quote ever. */
  function AtPtr(b: Book): QuoteEntry {
    if b.ptr > 0 && b.buf != [] then b.buf[if b.ptr - 1 < |b.buf| then b.ptr - 1 else |b.buf| - 1] else b.first
  }

  function Locate(b: Book, target: int): Book {
    b.(ptr := MovePtr(b, target))
  }

  // ---------- The reference and the refinement ----------

  /** The last quote of the whole history at or before the target, or the first quote if there is none. */
  function Prevailing(full: seq<QuoteEntry>, target: int): QuoteEntry
    requires full != []
  {
    if |full| == 1 || full[|full| - 1].sip <= target then full[|full| - 1]
    else Prevailing(full[..|full| - 1], target)
  }

  ghost predicate NotAfter(full: seq<QuoteEntry>, i: nat, j: nat)
    requires i <= j < |full|
  {
    full[i].sip <= full[j].sip
  }

  ghost predicate Nondecreasing(full: seq<QuoteEntry>) {
    forall i, j :: 0 <= i <= j < |full| ==> NotAfter(full, i, j)
  }

  /** Number of quotes that compaction has dropped. */
  ghost function Dropped(b: Book, full: seq<QuoteEntry>): int {
    |full| - |b.buf|
  }

  /** The book holds the end of `full`; whatever it dropped lies 100 ms or more behind the newest quote. */
  ghost predicate Holds(b: Book, full: seq<QuoteEntry>) {
    && 0 <= Dropped(b, full)
    && b.buf == full[Dropped(b, full)..]
    && b.ptr <= |b.buf|
    && b.hasAny == (full != [])
    && (full != [] ==> b.first == full[0])
    && (Dropped(b, full) > 0 ==> b.buf != [] && b.buf[0].sip < full[|full| - 1].sip - COMPACT_NS)
  }

  lemma AppendHolds(b: Book, full: seq<QuoteEntry>, q: QuoteEntry)
    requires Holds(b, full) && Nondecreasing(full + [q])
    ensures Holds(Append(b, q), full + [q])
  {
    var d := Dropped(b, full);
    assert b.buf + [q] == (full + [q])[d..];
    if full != [] { assert NotAfter(full + [q], |full| - 1, |full|); }
    if d > 0 { assert (b.buf + [q])[0] == b.buf[0]; }
  }

  lemma DropTwice(s: seq<QuoteEntry>, d: nat, k: nat)
    requires d + k <= |s|
    ensures s[d..][k..] == s[d + k..]
  {
  }

  lemma DropHolds(b: Book, full: seq<QuoteEntry>, keep: nat)
    requires Holds(b, full) && 0 < keep < |b.buf| && keep <= b.ptr
    requires b.buf[keep].sip < full[|full| - 1].sip - COMPACT_NS
    ensures Holds(Book(true, b.first, b.buf[keep..], b.ptr - keep), full)
  {
    DropTwice(full, Dropped(b, full), keep);
  }

  lemma CompactHolds(b: Book, full: seq<QuoteEntry>)
    requires Holds(b, full) && full != []
    ensures Holds(Compact(b, full[|full| - 1].sip), full)
  {
    assert b.ptr <= |b.buf| <= |full|;
    hide Holds, KeepFrom;
    if |b.buf| > COMPACT_LEN && b.ptr > COMPACT_PTR {
      var keep := KeepFrom(b.buf, b.ptr - 1, full[|full| - 1].sip - COMPACT_NS);
      if keep > COMPACT_MIN {
        DropHolds(b, full, keep);
      }
    }
  }

  lemma RecordHolds(b: Book, full: seq<QuoteEntry>, q: QuoteEntry)
    requires Holds(b, full) && Nondecreasing(full + [q])
    ensures Holds(Record(b, q), full + [q])
  {
    hide Holds, Compact, Append, Nondecreasing;
    AppendHolds(b, full, q);
    assert (full + [q])[|full + [q]| - 1] == q;
    CompactHolds(Append(b, q), full + [q]);
  }

  lemma {:induction false} ScanForwardSplits(buf: seq<QuoteEntry>, p: nat, target: int)
    requires Nondecreasing(buf) && p <= |buf| && (p > 0 ==> buf[p - 1].sip <= target)
    ensures forall i :: 0 <= i < ScanForward(buf, p, target) ==> buf[i].sip <= target
    ensures forall i :: ScanForward(buf, p, target) <= i < |buf| ==> buf[i].sip > target
    decreases |buf| - p
  {
    forall i | 0 <= i < p
      ensures buf[i].sip <= target
    {
      assert NotAfter(buf, i, p - 1);
    }
    if p < |buf| && buf[p].sip <= target {
      ScanForwardSplits(buf, p + 1, target);
    } else {
      forall i | p <= i < |buf|
        ensures buf[i].sip > target
      {
        assert NotAfter(buf, p, i);
      }
    }
  }

  lemma {:induction false} SearchSplits(buf: seq<QuoteEntry>, lo: nat, hi: nat, target: int)
    requires Nondecreasing(buf) && lo <= hi <= |buf|
    requires forall i :: 0 <= i < lo ==> buf[i].sip <= target
    requires forall i :: hi <= i < |buf| ==> buf[i].sip > target
    ensures forall i :: 0 <= i < Search(buf, lo, hi, target) ==> buf[i].sip <= target
    ensures forall i :: Search(buf, lo, hi, target) <= i < |buf| ==> buf[i].sip > target
    decreases hi - lo
  {
    if lo < hi {
      var mid := (lo + hi) / 2;
      forall i | 0 <= i < |buf|
        ensures i <= mid ==> buf[i].sip <= buf[mid].sip
        ensures i >= mid ==> buf[mid].sip <= buf[i].sip
      {
        assert i <= mid ==> NotAfter(buf, i, mid);
        assert i >= mid ==> NotAfter(buf, mid, i);
      }
      if buf[mid].sip <= target { SearchSplits(buf, mid + 1, hi, target); } else { SearchSplits(buf, lo, mid, target); }
    }
  }

  /** Where the split of the history between "at or before" and "after" the target falls, the reference is known. */
  lemma {:induction false} PrevailingAtSplit(full: seq<QuoteEntry>, k: nat, target: int)
    requires full != [] && k <= |full|
    requires k > 0 ==> full[k - 1].sip <= target
    requires forall i :: k <= i < |full| ==> full[i].sip > target
    ensures Prevailing(full, target) == full[if k > 0 then k - 1 else 0]
  {
    if k < |full| && |full| > 1 {
      PrevailingAtSplit(full[..|full| - 1], k, target);
    }
  }

  /** The cursor separates the retained quotes at the target, whichever way it was found. */
  lemma MovePtrSplits(b: Book, target: int)
    requires Nondecreasing(b.buf) && b.ptr <= |b.buf|
    ensures MovePtr(b, target) <= |b.buf|
    ensures forall i :: 0 <= i < MovePtr(b, target) ==> b.buf[i].sip <= target
    ensures forall i :: MovePtr(b, target) <= i < |b.buf| ==> b.buf[i].sip > target
  {
    if 0 < b.ptr && b.buf[b.ptr - 1].sip > target {
      SearchSplits(b.buf, 0, |b.buf|, target);
    } else {
      ScanForwardSplits(b.buf, b.ptr, target);
    }
  }

  /** The quote that `Locate` arrives at is exactly the reference whenever the retained quotes reach back
      to the target; otherwise it is the first quote ever. */
  lemma LocateIsPrevailing(b: Book, full: seq<QuoteEntry>, target: int)
    requires Holds(b, full) && Nondecreasing(full) && full != []
    ensures Holds(Locate(b, target), full)
    ensures AtPtr(Locate(b, target)) ==
            if Dropped(b, full) == 0 || b.buf[0].sip <= target then Prevailing(full, target) else full[0]
  {
    hide MovePtr, Search, ScanForward;
    var d := Dropped(b, full);
    var p := MovePtr(b, target);
    BufferInOrder(b, full);
    MovePtrSplits(b, target);
    if d == 0 || b.buf[0].sip <= target {
      forall i | d + p <= i < |full|
        ensures full[i].sip > target
      {
        assert full[i] == b.buf[i - d];
      }
      PrevailingAtSplit(full, d + p, target);
    }
  }

  lemma BufferInOrder(b: Book, full: seq<QuoteEntry>)
    requires Holds(b, full) && Nondecreasing(full)
    ensures Nondecreasing(b.buf)
  {
    var d := Dropped(b, full);
    forall i, j | 0 <= i <= j < |b.buf|
      ensures NotAfter(b.buf, i, j)
    {
      assert NotAfter(full, d + i, d + j);
    }
  }

  // ---------- Whole runs ----------

  datatype Event = Quote(q: QuoteEntry) | Trade(target: int)

  function Step(b: Book, e: Event): Book {
    match e
    case Quote(q) => Record(b, q)
    case Trade(target) => if b.hasAny && b.buf != [] then Locate(b, target) else b
  }

  function Run(b: Book, es: seq<Event>): Book {
    if es == [] then b else Step(Run(b, es[..|es| - 1]), es[|es| - 1])
  }

  /** Every quote of the run, none dropped. */
  function Quotes(es: seq<Event>): seq<QuoteEntry> {
    if es == [] then []
    else Quotes(es[..|es| - 1]) + (if es[|es| - 1].Quote? then [es[|es| - 1].q] else [])
  }

  const EMPTY := Book(false, QuoteEntry(0, 0, Num(0.0), Num(0.0), false), [], 0)

  lemma {:induction false} RunHolds(es: seq<Event>)
    requires Nondecreasing(Quotes(es))
    ensures Holds(Run(EMPTY, es), Quotes(es))
  {
    if es != [] {
      var before := es[..|es| - 1];
      var full := Quotes(before);
      forall i, j | 0 <= i <= j < |full|
        ensures NotAfter(full, i, j)
      {
        assert NotAfter(Quotes(es), i, j);
      }
      RunHolds(before);
      match es[|es| - 1]
      case Quote(q) => RecordHolds(Run(EMPTY, before), full, q);
      case Trade(target) =>
        if full != [] {
          LocateIsPrevailing(Run(EMPTY, before), full, target);
          assert Quotes(es) == full;
        }
    }
  }

  /** For any stream of quotes in time order and of trades none of which is more than about 100 ms
      behind the newest quote, of any length and whatever was compacted away, a trade is matched with
      the prevailing quote of the full history. */
  lemma ReferenceQuoteIsExact(es: seq<Event>, target: int)
    requires Nondecreasing(Quotes(es)) && Quotes(es) != []
    requires target >= Quotes(es)[|Quotes(es)| - 1].sip - COMPACT_NS
    ensures AtPtr(Run(EMPTY, es + [Trade(target)])) == Prevailing(Quotes(es), target)
  {
    RunHolds(es);
    LocateIsPrevailing(Run(EMPTY, es), Quotes(es), target);
    assert (es + [Trade(target)])[..|es|] == es;
  }

  // ---------- A trade too far behind ----------

  const MS := 1_000_000

  /** Quote number `i` of a line of quotes 1 ms apart. */
  function OnLine(i: nat): QuoteEntry {
    QuoteEntry(i * MS, i * MS, Num(i as real), Num(i as real + 1.0), true)
  }

  function Line(n: nat): (r: seq<QuoteEntry>)
    ensures |r| == n && forall i :: 0 <= i < n ==> r[i] == OnLine(i)
  {
    seq(n, i requires 0 <= i < n => OnLine(i))
  }

  function LineEvents(n: nat): (r: seq<Event>)
    ensures |r| == n
  {
    if n == 0 then [] else LineEvents(n - 1) + [Quote(OnLine(n - 1))]
  }

  lemma LineInOrder(n: nat)
    ensures Nondecreasing(Line(n))
  {
    forall i, j | 0 <= i <= j < n
      ensures NotAfter(Line(n), i, j)
    {
    }
  }

  /** Nothing is dropped while no trade has moved the cursor. */
  lemma {:induction false} LineRun(n: nat)
    ensures Quotes(LineEvents(n)) == Line(n)
    ensures n > 0 ==> Run(EMPTY, LineEvents(n)) == Book(true, OnLine(0), Line(n), 0)
  {
    hide OnLine;
    if n > 0 {
      LineRun(n - 1);
      assert LineEvents(n)[..n - 1] == LineEvents(n - 1);
      assert Line(n) == Line(n - 1) + [OnLine(n - 1)];
    }
  }

  /** Compaction walks back to the first quote that is more than 100 ms old. */
  lemma {:induction false} KeepOnLine(k: nat)
    requires 8092 <= k <= 8100
    ensures KeepFrom(Line(8194), k, 8193 * MS - COMPACT_NS) == 8092
  {
    if k > 8092 { KeepOnLine(k - 1); }
  }

  /** A trade as of 8.1 s and one more quote drop the first 8092 quotes. */
  function LateEvents(): seq<Event> {
    LineEvents(8193) + [Trade(8100 * MS)] + [Quote(OnLine(8193))]
  }

  lemma LineScanned()
    ensures Locate(Book(true, OnLine(0), Line(8193), 0), 8100 * MS) == Book(true, OnLine(0), Line(8193), 8101)
  {
    var buf := Line(8193);
    LineInOrder(8193);
    assert buf[8100].sip <= 8100 * MS < buf[8101].sip;
    ScanForwardSplits(buf, 0, 8100 * MS);
  }

  lemma LineCompacted()
    ensures Record(Book(true, OnLine(0), Line(8193), 8101), OnLine(8193))
            == Book(true, OnLine(0), Line(8194)[8092..], 9)
  {
    hide KeepFrom;
    assert Line(8193) + [OnLine(8193)] == Line(8194);
    KeepOnLine(8100);
  }

  lemma LateRun()
    ensures Quotes(LateEvents()) == Line(8194)
    ensures Run(EMPTY, LateEvents()) == Book(true, OnLine(0), Line(8194)[8092..], 9)
  {
    hide Locate, Record, OnLine;
    var es := LineEvents(8193);
    var traded := es + [Trade(8100 * MS)];
    LineRun(8193);
    assert traded[..8193] == es && LateEvents()[..8194] == traded;
    LineScanned();
    LineCompacted();
    assert Quotes(es) + [] == Quotes(es);
    assert Line(8194) == Line(8193) + [OnLine(8193)];
  }

  /** The search finds no quote at or before 5 s among those left. */
  lemma NothingLeftAtFive()
    ensures var left := Line(8194)[8092..];
            Locate(Book(true, OnLine(0), left, 9), 5000 * MS) == Book(true, OnLine(0), left, 0)
  {
    var buf := Line(8194)[8092..];
    var b := Book(true, OnLine(0), buf, 9);
    forall i, j | 0 <= i <= j < |buf|
      ensures NotAfter(buf, i, j)
    {
    }
    assert buf[0].sip > 5000 * MS;
    MovePtrSplits(b, 5000 * MS);
  }

  lemma RunAppend(es: seq<Event>, e: Event)
    ensures Run(EMPTY, es + [e]) == Step(Run(EMPTY, es), e)
  {
    assert (es + [e])[..|es|] == es;
  }
  lemma FiveSecondsIn()
    ensures Nondecreasing(Line(8194)) && Prevailing(Line(8194), 5000 * MS) == OnLine(5000) != OnLine(0)
  {
    hide Prevailing;
    LineInOrder(8194);
    PrevailingAtSplit(Line(8194), 5001, 5000 * MS);
  }

  /** A reachable book that has dropped a prevailing quote: a trade as of 5 s, more than 3 s behind the newest quote, is
      matched with the first quote ever instead of the one that prevailed then. */
  lemma LateTradeMisled()
    ensures Nondecreasing(Quotes(LateEvents())) && |Quotes(LateEvents())| == 8194
    ensures Prevailing(Quotes(LateEvents()), 5000 * MS) == OnLine(5000)
    ensures AtPtr(Run(EMPTY, LateEvents() + [Trade(5000 * MS)])) == OnLine(0) != OnLine(5000)
  {
    hide LateEvents, Locate, Run, Quotes, OnLine, Prevailing, Nondecreasing;
    LateRun();
    FiveSecondsIn();
    RunAppend(LateEvents(), Trade(5000 * MS));
    NothingLeftAtFive();
    assert Line(8194)[8092..] != [];
  }
}
