/** Progress callbacks of a disk download: percentages, thinned to one per 5% bucket. */
module Progress {
  import opened Bytes

  /** The last percentage logged, -1 before the first, and all those logged, in order. */
  datatype Meter = Meter(lastPct: int, emitted: seq<int>)

  const FRESH: Meter := Meter(-1, [])

  /** Go's integer division, which truncates toward zero. */
  function Quotient(a: int, b: int): int
    requires b > 0
  {
    if a >= 0 then a / b else -((-a) / b)
  }

  function Percent(written: int, total: int): int
    requires total > 0
  {
    var pct := Quotient(Int64(written * 100), total);
    if pct > 100 then 100 else pct
  }

  predicate ShouldLog(pct: int, lastLogged: int)
  {
    if pct == lastLogged then false
    else if pct == 0 || pct == 100 || lastLogged < 0 then true
    else Quotient(pct, 5) > Quotient(lastLogged, 5)
  }

  /** One progress callback. */
  function Tick(m: Meter, written: int, total: int): Meter
  {
    if total <= 0 then m
    else
      var pct := Percent(written, total);
      if ShouldLog(pct, m.lastPct) then Meter(pct, m.emitted + [pct]) else m
  }

  /** The callback's captured state, updated in place. */
  class ProgressMeter {
    var lastPct: int
    var emitted: seq<int>
    const listening: bool

    constructor (listening: bool)
      ensures State() == FRESH && this.listening == listening
    {
      lastPct, emitted := -1, [];
      this.listening := listening;
    }

    function State(): Meter
      reads this
    {
      Meter(lastPct, emitted)
    }

    method Report(written: int, total: int)
      modifies this
      ensures State() == if listening then Tick(old(State()), written, total) else old(State())
    {
      if total <= 0 || !listening {
        return;
      }
      var scaled := Int64(written * 100);
      var pct := Quotient(scaled, total);
      if pct > 100 {
        pct := 100;
      }
      if ShouldLog(pct, lastPct) {
        lastPct := pct;
        emitted := emitted + [pct];
      }
    }
  }

  /** The callbacks for a sequence of byte counts. */
  function Ticks(m: Meter, written: seq<int>, total: int): Meter
    decreases |written|
  {
    if written == [] then m else Ticks(Tick(m, written[0], total), written[1..], total)
  }

  /** Byte counts a decode reports: they start at a lower bound, never fall, and do not overflow. */
  predicate Climbing(from: int, written: seq<int>)
  {
    && (forall i :: 0 <= i < |written| ==> 0 <= from <= written[i] && written[i] * 100 <= MAX_INT64)
    && (forall i, j :: 0 <= i < j < |written| ==> written[i] <= written[j])
  }

  predicate StrictlyIncreasing(s: seq<int>)
  {
    forall i, j :: 0 <= i < j < |s| ==> s[i] < s[j]
  }

  /** What holds of the meter after callbacks up to a byte count of at most high. */
  predicate Sound(m: Meter, high: int, total: int)
  {
    && total > 0
    && StrictlyIncreasing(m.emitted)
    && (forall pct <- m.emitted :: 0 <= pct <= 100)
    && (if m.emitted == [] then m.lastPct == -1
        else m.lastPct == m.emitted[|m.emitted| - 1] && m.lastPct <= Percent(high, total))
    && |m.emitted| <= (if m.emitted == [] then 0 else m.lastPct / 5 + 1)
  }

  /** The percentage as unbounded arithmetic would have it. */
  function TruePercent(written: nat, total: int): int
    requires total > 0
  {
    if written * 100 / total > 100 then 100 else written * 100 / total
  }

  lemma DivMonotone(a: nat, b: nat, c: int)
    requires a <= b && c > 0
    ensures 0 <= a / c <= b / c
  {
    var q, r := a / c, b / c;
    assert q * c <= a && b < r * c + c;
    LessByProduct(q, r + 1, c);
  }

  lemma LessByProduct(x: int, y: int, c: int)
    requires c > 0 && x * c < y * c
    ensures x < y
  {
    assert 0 < (y - x) * c;
  }

  lemma PercentMonotone(a: int, b: int, total: int)
    requires 0 <= a <= b && b * 100 <= MAX_INT64 && total > 0
    ensures 0 <= Percent(a, total) <= Percent(b, total) <= 100
  {
    DivMonotone(a * 100, b * 100, total);
    assert Int64(a * 100) == a * 100 && Int64(b * 100) == b * 100;
  }

  lemma TickSound(m: Meter, high: int, next: int, total: int)
    requires Sound(m, high, total) && 0 <= high <= next && next * 100 <= MAX_INT64
    ensures Sound(Tick(m, next, total), next, total)
  {
    PercentMonotone(high, next, total);
  }

  /** Over any climbing byte counts: strictly increasing percentages in 0..100, at most 21. */
  lemma {:induction false} AtMost21Callbacks(m: Meter, from: int, written: seq<int>, total: int)
    requires Sound(m, from, total) && 0 <= from && from * 100 <= MAX_INT64 && Climbing(from, written)
    ensures var r := Ticks(m, written, total);
            && StrictlyIncreasing(r.emitted) && (forall pct <- r.emitted :: 0 <= pct <= 100) && |r.emitted| <= 21
    decreases |written|
  {
    if written != [] {
      TickSound(m, from, written[0], total);
      AtMost21Callbacks(Tick(m, written[0], total), written[0], written[1..], total);
    } else {
      PercentMonotone(from, from, total);
    }
  }

  /** Without the bound on the byte count a percentage can come out negative, at the end of a disk of whole sectors. */
  lemma OverflowedPercent()
    ensures var w := 92233720368547840; w % 512 == 0 && Tick(FRESH, w, w).emitted == [-99]
  {
    var w := 92233720368547840;
    assert w * 100 == 9223372036854784000;
    assert Int64(w * 100) == w * 100 - TWO_64;
    assert 99 * w <= TWO_64 - w * 100 < 100 * w;
  }

  /**
   The percentage is the true one, capped, exactly while the scaled count fits int64, but for
   counts beyond the total that happen to wrap to a hundred percent or more.
   */
  lemma PercentExact(written: nat, total: int)
    requires 0 < total <= MAX_INT64
    ensures Percent(written, total) == TruePercent(written, total) <==>
              written * 100 <= MAX_INT64 || (written > total && Int64(written * 100) >= 100 * total)
  {
    hide Int64, Quotient;
    var scaled, wrapped := written * 100, Int64(written * 100);
    NotNegative(scaled, total);
    if scaled <= MAX_INT64 {
    } else if written > total {
      HundredIff(scaled, total);
      HundredIff(wrapped, total);
    } else {
      WrappedLow(scaled);
      QuotientLow(scaled, wrapped, total);
      FullAtMost(scaled, total);
    }
  }

  lemma NotNegative(x: nat, total: int)
    requires total > 0
    ensures Quotient(x, total) == x / total
  {
  }

  lemma QuotientIs(a: nat, c: int, q: int)
    requires c > 0 && q == a / c
    ensures 0 <= q && q * c <= a < q * c + c
  {
    DivMonotone(0, a, c);
  }

  /** A quotient of at least a hundred is that of at least a hundred totals. */
  lemma HundredIff(x: int, total: int)
    requires total > 0
    ensures Quotient(x, total) >= 100 <==> x >= 100 * total
  {
    if x >= 0 {
      var q := x / total;
      QuotientIs(x, total, q);
      if x >= 100 * total {
        LessByProduct(100, q + 1, total);
      } else {
        LessByProduct(q, 100, total);
      }
    } else {
      DivMonotone(0, -x, total);
    }
  }

  /** A count that is not beyond the total is at most a hundred percent of it. */
  lemma FullAtMost(x: nat, total: int)
    requires total > 0 && x <= 100 * total
    ensures x / total <= 100
  {
    var q := x / total;
    QuotientIs(x, total, q);
    LessByProduct(q, 101, total);
  }

  /** A count that does not fit wraps to one lower by 2^64 or more. */
  lemma WrappedLow(x: int)
    requires x > MAX_INT64
    ensures Int64(x) <= x - TWO_64
  {
    assert (x - Int64(x)) / TWO_64 >= 1;
  }

  lemma QuotientLow(x: nat, y: int, total: int)
    requires 0 < total <= MAX_INT64 && y <= x - TWO_64
    ensures Quotient(y, total) < Quotient(x, total)
  {
    var r := x / total;
    QuotientIs(x, total, r);
    if y >= 0 {
      var q := y / total;
      QuotientIs(y, total, q);
      LessByProduct(q + 1, r + 1, total);
    } else {
      var q := (-y) / total;
      QuotientIs(-y, total, q);
      assert q * total + total + (r * total + total) == (q + r + 2) * total;
      LessByProduct(2, q + r + 2, total);
    }
  }
}
