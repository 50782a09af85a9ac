/** Market ticks and the order in which they are merged and replayed. */
module Feed {
  import opened Floats

  datatype TickType = TickQuote | TickTrade

  /** A normalised tick. `ts` is the SIP timestamp and `part` the participant timestamp,
      both in nanoseconds since the Unix epoch. */
  datatype Tick = Tick(ts: nat, part: int, symbol: string, kind: TickType, isDark: bool,
                       bidExch: int, askExch: int, tradeExch: int,
                       price: Float, size: Float,
                       bidPx: Float, askPx: Float, bidSz: Float, askSz: Float)

  /** Go's `<` on strings: byte by byte, a proper prefix first. */
  predicate StringLess(a: string, b: string) {
    if |b| == 0 then false
    else if |a| == 0 then true
    else a[0] < b[0] || (a[0] == b[0] && StringLess(a[1..], b[1..]))
  }

  lemma {:induction false} StringLessIrreflexive(a: string)
    ensures !StringLess(a, a)
  {
    if |a| > 0 { StringLessIrreflexive(a[1..]); }
  }

  lemma {:induction false} StringLessTransitive(a: string, b: string, c: string)
    requires StringLess(a, b) && StringLess(b, c)
    ensures StringLess(a, c)
  {
    if |a| > 0 && a[0] == b[0] && b[0] == c[0] { StringLessTransitive(a[1..], b[1..], c[1..]); }
  }

  lemma {:induction false} StringLessTotal(a: string, b: string)
    ensures a == b || StringLess(a, b) || StringLess(b, a)
  {
    if |a| > 0 && |b| > 0 && a[0] == b[0] {
      StringLessTotal(a[1..], b[1..]);
      assert a == [a[0]] + a[1..] && b == [b[0]] + b[1..];
    }
  }

  /** The order of the replay merger: timestamp, then quotes before trades, then symbol. */
  predicate TickLess(a: Tick, b: Tick) {
    if a.ts != b.ts then a.ts < b.ts
    else if a.kind != b.kind then a.kind == TickQuote
    else StringLess(a.symbol, b.symbol)
  }

  lemma TickLessTransitive(a: Tick, b: Tick, c: Tick)
    requires TickLess(a, b) && TickLess(b, c)
    ensures TickLess(a, c)
  {
    if a.ts == b.ts == c.ts && a.kind == b.kind == c.kind { StringLessTransitive(a.symbol, b.symbol, c.symbol); }
  }

  /** Not being later is transitive too, so ticks that the order cannot separate form one class. */
  lemma TickNotLaterTransitive(a: Tick, b: Tick, c: Tick)
    requires !TickLess(b, a) && !TickLess(c, b)
    ensures !TickLess(c, a)
  {
    if TickLess(c, a) {
      StringLessTotal(a.symbol, b.symbol);
      StringLessTotal(b.symbol, c.symbol);
      StringLessIrreflexive(a.symbol);
      StringLessIrreflexive(b.symbol);
      if TickLess(a, b) { TickLessTransitive(c, a, b); }
      else if TickLess(b, c) { TickLessTransitive(b, c, a); }
    }
  }

  lemma TickLessAsymmetric(a: Tick, b: Tick)
    requires TickLess(a, b)
    ensures !TickLess(b, a)
  {
    if TickLess(b, a) {
      TickLessTransitive(a, b, a);
      StringLessIrreflexive(a.symbol);
    }
  }
}
