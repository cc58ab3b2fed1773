/**
 Apportioning a report's message count over the calendar days its interval touches
 (`_bucket_interval_by_day` and `_append_parsed_record` in parsedmarc/__init__.py).

 A moment is the number of microseconds since some midnight on the wall clock of the time zone that
 both ends share; Python's arithmetic on two datetimes with the same `tzinfo` is wall-clock arithmetic.
 Shares are exact: a bucket's share of the count is `weight * total / interval`, its floor is the
 integer quotient and its fractional part is the integer remainder over `interval`.
 */
module DayBuckets {
  import opened Wrappers

  const DAY: int := 86_400_000_000
  const SECOND: int := 1_000_000

  datatype Error = BeginAfterEnd | NegativeCount | NotANumber

  datatype Span = Span(begin: int, end: int) {
    function Length(): int { end - begin }
  }

  datatype Bucket = Bucket(begin: int, end: int, count: nat)

  /* ---------- Step 1: the calendar days touched by the interval ---------- */

  function Midnight(t: int): int {
    t - t % DAY
  }

  function Min(a: int, b: int): int {
    if a < b then a else b
  }

  function Max(a: int, b: int): int {
    if a < b then b else a
  }

  /** `spans` cuts [begin, end) at every midnight strictly inside it, and nowhere else. */
  ghost predicate Tiles(begin: int, end: int, spans: seq<Span>) {
    && spans != []
    && spans[0].begin == begin
    && spans[|spans| - 1].end == end
    && (forall k :: 0 <= k < |spans| ==>
          spans[k].begin < spans[k].end <= Midnight(spans[k].begin) + DAY)
    && (forall k :: 0 <= k < |spans| - 1 ==>
          spans[k].end == spans[k + 1].begin && spans[k].end % DAY == 0)
  }

  lemma MidnightBefore(t: int)
    ensures Midnight(t) <= t < Midnight(t) + DAY
    ensures Midnight(t) % DAY == 0 && (Midnight(t) + DAY) % DAY == 0
    ensures t % DAY == 0 ==> Midnight(t) == t
  {
  }

  /** The part of [begin, end) that falls on the day starting at `dayStart`. */
  function Overlap(begin: int, end: int, dayStart: int): Span {
    Span(Max(begin, dayStart), Min(end, dayStart + DAY))
  }

  /** Adding the next day's overlap extends a tiling by one day. */
  lemma OneMoreDay(begin: int, end: int, dayStart: int, spans: seq<Span>)
    requires dayStart % DAY == 0 && begin < end && dayStart < end
    requires if spans == [] then dayStart == Midnight(begin) else begin < dayStart && Tiles(begin, dayStart, spans)
    ensures (dayStart + DAY) % DAY == 0 && begin < dayStart + DAY
    ensures Overlap(begin, end, dayStart).Length() > 0
    ensures Tiles(begin, Min(end, dayStart + DAY), spans + [Overlap(begin, end, dayStart)])
  {
    var longer := spans + [Overlap(begin, end, dayStart)];
    MidnightBefore(begin);
    MidnightBefore(dayStart);
    assert Midnight(Max(begin, dayStart)) == dayStart;
    hide Midnight;
    forall k | 0 <= k < |longer| - 1 ensures longer[k].end == longer[k + 1].begin && longer[k].end % DAY == 0 {
      assert k < |spans| - 1 ==> spans[k].end == spans[k + 1].begin;
    }
  }

  method DayOverlaps(begin: int, end: int) returns (spans: seq<Span>)
    requires begin < end
    ensures Tiles(begin, end, spans)
  {
    var dayCursor := Midnight(begin);
    spans := [];
    MidnightBefore(begin);
    hide Midnight, Tiles;
    while dayCursor < end
      invariant dayCursor % DAY == 0
      invariant if spans == [] then dayCursor == Midnight(begin)
        else begin < dayCursor && Tiles(begin, Min(end, dayCursor), spans)
    {
      OneMoreDay(begin, end, dayCursor, spans);
      var dayStart, dayEnd := dayCursor, dayCursor + DAY;
      var overlap := Span(Max(begin, dayStart), Min(end, dayEnd));
      if overlap.Length() > 0 {
        spans := spans + [overlap];
      }
      dayCursor := dayEnd;
    }
  }

  lemma {:induction false} TilesFrom(begin: int, end: int, spans: seq<Span>, k: nat)
    requires Tiles(begin, end, spans) && k < |spans|
    ensures begin <= spans[k].begin && spans[k].end <= end
    ensures k < |spans| - 1 ==> spans[k].end < end
    ensures Tiles(begin, spans[k].end, spans[..k + 1])
    decreases |spans| - k
  {
    if k < |spans| - 1 {
      TilesFrom(begin, end, spans, k + 1);
    } else {
      assert spans[..k + 1] == spans;
    }
    TilesStart(begin, end, spans, k);
  }

  lemma {:induction false} TilesStart(begin: int, end: int, spans: seq<Span>, k: nat)
    requires Tiles(begin, end, spans) && k < |spans|
    ensures begin <= spans[k].begin
  {
    if k > 0 {
      TilesStart(begin, end, spans, k - 1);
      assert spans[k - 1].begin < spans[k - 1].end;
      assert spans[k - 1].end == spans[k - 1 + 1].begin;
    }
  }

  lemma NextMidnight(start: int, cut: int)
    requires start < cut <= Midnight(start) + DAY && cut % DAY == 0
    ensures cut == Midnight(start) + DAY
  {
  }

  /** The tiling is determined by the interval, so any list that tiles it is the one the loop builds. */
  lemma {:induction false} TilingAgreesAt(begin: int, end: int, a: seq<Span>, b: seq<Span>, k: nat)
    requires Tiles(begin, end, a) && Tiles(begin, end, b)
    requires k < |a|
    ensures k < |b| && a[k] == b[k]
  {
    if k > 0 {
      TilingAgreesAt(begin, end, a, b, k - 1);
      TilesFrom(begin, end, a, k - 1);
      assert a[k - 1].end == a[k - 1 + 1].begin;
      assert k < |b|;
      assert b[k - 1].end == b[k - 1 + 1].begin;
    }
    TilesFrom(begin, end, a, k);
    TilesFrom(begin, end, b, k);
    if k < |a| - 1 {
      NextMidnight(a[k].begin, a[k].end);
    }
    if k < |b| - 1 {
      NextMidnight(b[k].begin, b[k].end);
    }
  }

  /** Every day but the first and the last is a whole one: 24 hours, on a wall clock in microseconds. */
  lemma InnerDaysAreWhole(begin: int, end: int, spans: seq<Span>, k: nat)
    requires Tiles(begin, end, spans) && 0 < k < |spans| - 1
    ensures spans[k].end - spans[k].begin == 24 * 60 * 60 * 1_000_000
  {
    assert spans[k - 1].end == spans[k - 1 + 1].begin && spans[k - 1].end % DAY == 0;
    NextMidnight(spans[k].begin, spans[k].end);
    MidnightBefore(spans[k].begin);
  }

  lemma TilingIsUnique(begin: int, end: int, a: seq<Span>, b: seq<Span>)
    requires Tiles(begin, end, a) && Tiles(begin, end, b)
    ensures a == b
  {
    forall k | 0 <= k < |a| ensures k < |b| && a[k] == b[k] { TilingAgreesAt(begin, end, a, b, k); }
    TilingAgreesAt(begin, end, a, b, |a| - 1);
    TilingAgreesAt(begin, end, b, a, |b| - 1);
  }

  function Lengths(spans: seq<Span>): (lengths: seq<int>)
    ensures |lengths| == |spans|
  {
    seq(|spans|, i requires 0 <= i < |spans| => spans[i].Length())
  }

  lemma {:induction false} TilesLengths(begin: int, end: int, spans: seq<Span>)
    requires Tiles(begin, end, spans)
    ensures Sum(Lengths(spans)) == end - begin
    ensures forall i :: 0 <= i < |spans| ==> Lengths(spans)[i] > 0
    decreases |spans|
  {
    var n := |spans| - 1;
    assert Lengths(spans)[..n] == Lengths(spans[..n]);
    if n > 0 {
      TilesFrom(begin, end, spans, n - 1);
      assert spans[n - 1].end == spans[n - 1 + 1].begin;
      TilesLengths(begin, spans[n - 1].end, spans[..n]);
    }
  }

  /* ---------- Sums ---------- */

  function Sum(s: seq<int>): int {
    if s == [] then 0 else Sum(s[..|s| - 1]) + s[|s| - 1]
  }

  lemma {:induction false} SumUpdate(s: seq<int>, i: nat, v: int)
    requires i < |s|
    ensures Sum(s[i := v]) == Sum(s) - s[i] + v
  {
    var n := |s| - 1;
    if i == n {
      assert s[i := v][..n] == s[..n];
    } else {
      assert s[i := v][..n] == s[..n][i := v];
      SumUpdate(s[..n], i, v);
    }
  }

  lemma MulMonotone(x: int, y: int, k: nat)
    requires x <= y
    ensures x * k <= y * k
  {
    var d: nat := y - x;
    assert d * k >= 0;
    assert d * k == y * k - x * k;
  }

  lemma OneMore(x: int, k: int)
    ensures (x + 1) * k == x * k + k
  {
  }

  lemma Distribute(x: int, y: int, k: int)
    ensures (x + y) * k == x * k + y * k
  {
  }

  /** If every a[i]*m is at most b[i]*k, so are the sums. */
  lemma {:induction false} SumScaled(a: seq<int>, m: int, b: seq<int>, k: int)
    requires |a| == |b|
    requires forall i :: 0 <= i < |a| ==> a[i] * m <= b[i] * k
    ensures Sum(a) * m <= Sum(b) * k
  {
    if a != [] {
      var n := |a| - 1;
      SumScaled(a[..n], m, b[..n], k);
      Distribute(Sum(a[..n]), a[n], m);
      Distribute(Sum(b[..n]), b[n], k);
    }
  }

  /** Strictly, if one of them is strict. */
  lemma {:induction false} SumScaledStrictly(a: seq<int>, m: int, b: seq<int>, k: int, at: nat)
    requires |a| == |b|
    requires forall i :: 0 <= i < |a| ==> a[i] * m <= b[i] * k
    requires at < |a| && a[at] * m < b[at] * k
    ensures Sum(a) * m < Sum(b) * k
  {
    var n := |a| - 1;
    if at < n {
      SumScaledStrictly(a[..n], m, b[..n], k, at);
    } else {
      SumScaled(a[..n], m, b[..n], k);
    }
    Distribute(Sum(a[..n]), a[n], m);
    Distribute(Sum(b[..n]), b[n], k);
  }

  /* ---------- Step 2: largest-remainder apportionment ---------- */

  function FloorShare(weight: int, total: nat, interval: int): int
    requires interval > 0
  {
    weight * total / interval
  }

  /** The fractional part of a share, in units of 1/interval. */
  function Fraction(weight: int, total: nat, interval: int): (f: int)
    requires interval > 0
    ensures 0 <= f < interval
  {
    weight * total % interval
  }

  lemma ShareSplits(weight: int, total: nat, interval: int)
    requires interval > 0
    ensures FloorShare(weight, total, interval) * interval + Fraction(weight, total, interval) == weight * total
  {
  }

  function Floors(weights: seq<int>, total: nat, interval: int): (floors: seq<int>)
    requires interval > 0
  {
    seq(|weights|, i requires 0 <= i < |weights| => FloorShare(weights[i], total, interval))
  }

  function Fractions(weights: seq<int>, total: nat, interval: int): (fractions: seq<int>)
    requires interval > 0
  {
    seq(|weights|, i requires 0 <= i < |weights| => Fraction(weights[i], total, interval))
  }

  /** Whether a stable sort by descending key puts index i before index j. */
  predicate Before(keys: seq<int>, i: nat, j: nat)
    requires i < |keys| && j < |keys|
  {
    keys[i] > keys[j] || (keys[i] == keys[j] && i < j)
  }

  ghost predicate StableDescending(keys: seq<int>, order: seq<nat>) {
    && |order| == |keys|
    && (forall k :: 0 <= k < |order| ==> order[k] < |keys|)
    && (forall i: nat :: i < |keys| ==> i in order)
    && (forall a, b :: 0 <= a < b < |order| ==> Before(keys, order[a], order[b]))
  }

  /** The indices below `m`, in stable descending order of their keys. */
  ghost predicate SortedTo(keys: seq<int>, order: seq<nat>, m: nat)
    requires m <= |keys|
  {
    && |order| == m
    && (forall k :: 0 <= k < m ==> order[k] < m)
    && (forall i: nat :: i < m ==> i in order)
    && (forall a, b :: 0 <= a < b < m ==> Before(keys, order[a], order[b]))
  }

  lemma InsertKeepsOrder(keys: seq<int>, order: seq<nat>, m: nat, p: nat)
    requires p <= m < |keys| && SortedTo(keys, order, m)
    requires forall k :: p <= k < m ==> Before(keys, m, order[k])
    requires p > 0 ==> keys[order[p - 1]] >= keys[m]
    ensures SortedTo(keys, order[..p] + [m] + order[p..], m + 1)
  {
    var longer := order[..p] + [m] + order[p..];
    forall i: nat | i < m + 1 ensures i in longer {
      if i < m {
        assert i in order;
        var k :| 0 <= k < m && order[k] == i;
        assert longer[if k < p then k else k + 1] == i;
      } else {
        assert longer[p] == m;
      }
    }
    forall a | 0 <= a < p ensures Before(keys, order[a], m) {
      assert a < p - 1 ==> Before(keys, order[a], order[p - 1]);
    }
  }

  method SortDescending(keys: seq<int>) returns (order: seq<nat>)
    ensures StableDescending(keys, order)
  {
    order := [];
    for m := 0 to |keys|
      invariant SortedTo(keys, order, m)
    {
      var p := m;
      while p > 0 && keys[order[p - 1]] < keys[m]
        invariant 0 <= p <= m
        invariant forall k :: p <= k < m ==> Before(keys, m, order[k])
      {
        p := p - 1;
      }
      InsertKeepsOrder(keys, order, m, p);
      order := order[..p] + [m] + order[p..];
    }
  }

  /**
   What largest-remainder rounding promises: every count is its share's floor or one more, the extra
   ones go to the buckets that come first by descending fraction (earlier bucket first among equals),
   and nothing is lost or invented.
   */
  ghost predicate LargestRemainder(weights: seq<int>, interval: int, total: nat, counts: seq<int>)
    requires interval > 0
  {
    && |counts| == |weights|
    && (forall i :: 0 <= i < |counts| ==>
          FloorShare(weights[i], total, interval) <= counts[i] <= FloorShare(weights[i], total, interval) + 1)
    && (forall i, j | 0 <= i < |counts| && 0 <= j < |counts| ::
          counts[i] == FloorShare(weights[i], total, interval) + 1 &&
            counts[j] == FloorShare(weights[j], total, interval)
          ==> Before(Fractions(weights, total, interval), i, j))
    && Sum(counts) == total
  }

  /** What is left after flooring is never negative and is less than one per bucket. */
  lemma {:induction false} RemainderFits(weights: seq<int>, interval: int, total: nat)
    requires interval > 0 && Sum(weights) == interval
    ensures 0 <= total - Sum(Floors(weights, total, interval)) < |weights|
  {
    assert weights != [];
    hide Sum;
    var floors, n := Floors(weights, total, interval), |weights|;
    var above := seq(n, i requires 0 <= i < n => floors[i] + 1);
    forall i | 0 <= i < n
      ensures floors[i] * interval <= weights[i] * total && weights[i] * total < above[i] * interval
    {
      ShareSplits(weights[i], total, interval);
      OneMore(floors[i], interval);
    }
    hide FloorShare;
    SumScaled(floors, interval, weights, total);
    CancelFactor(Sum(floors), total, interval);
    SumOfIncrements(floors, above);
    SumScaledStrictly(weights, total, above, interval, 0);
    CancelFactor(Sum(floors) + n, total, interval);
  }

  lemma CancelFactor(a: int, b: int, k: int)
    requires k > 0
    ensures a * k <= k * b ==> a <= b
    ensures k * b < a * k ==> b < a
  {
    if a > b {
      MulMonotone(b + 1, a, k);
      OneMore(b, k);
    } else {
      MulMonotone(a, b, k);
    }
  }

  lemma {:induction false} SumOfIncrements(a: seq<int>, b: seq<int>)
    requires |a| == |b| && forall i :: 0 <= i < |a| ==> b[i] == a[i] + 1
    ensures Sum(b) == Sum(a) + |a|
  {
    if a != [] {
      SumOfIncrements(a[..|a| - 1], b[..|a| - 1]);
    }
  }

  /** Adds one to each of the first `remainder` indices of `order`, in place. */
  method AddOnes(final: array<int>, order: seq<nat>, remainder: nat)
    requires remainder <= |order| == final.Length
    requires forall a :: 0 <= a < |order| ==> order[a] < final.Length
    requires forall a, b :: 0 <= a < b < |order| ==> order[a] != order[b]
    modifies final
    ensures Sum(final[..]) == Sum(old(final[..])) + remainder
    ensures forall a :: 0 <= a < remainder ==> final[order[a]] == old(final[order[a]]) + 1
    ensures forall a :: remainder <= a < |order| ==> final[order[a]] == old(final[order[a]])
  {
    for k := 0 to remainder
      invariant Sum(final[..]) == Sum(old(final[..])) + k
      invariant forall a :: 0 <= a < k ==> final[order[a]] == old(final[order[a]]) + 1
      invariant forall a :: k <= a < |order| ==> final[order[a]] == old(final[order[a]])
    {
      ghost var was := final[..];
      SumUpdate(was, order[k], was[order[k]] + 1);
      final[order[k]] := final[order[k]] + 1;
      assert final[..] == was[order[k] := was[order[k]] + 1];
    }
  }

  method Apportion(weights: seq<int>, interval: int, total: nat) returns (counts: seq<int>)
    requires interval > 0 && Sum(weights) == interval
    ensures |counts| == |weights| && LargestRemainder(weights, interval, total, counts)
  {
    var floors := Floors(weights, total, interval);
    var fractions := Fractions(weights, total, interval);
    var remainder := total - Sum(floors);
    RemainderFits(weights, interval, total);
    var order := SortDescending(fractions);
    var final := new int[|floors|](i requires 0 <= i < |floors| => floors[i]);
    assert final[..] == floors;
    AddOnes(final, order, remainder);
    counts := final[..];
    FirstInOrderGetExtra(weights, interval, total, order, remainder, counts);
  }

  lemma FirstInOrderGetExtra(weights: seq<int>, interval: int, total: nat, order: seq<nat>, remainder: nat,
      counts: seq<int>)
    requires interval > 0 && |counts| == |weights| && remainder <= |order|
    requires StableDescending(Fractions(weights, total, interval), order)
    requires forall a :: 0 <= a < remainder ==> counts[order[a]] == FloorShare(weights[order[a]], total, interval) + 1
    requires forall a :: remainder <= a < |order| ==> counts[order[a]] == FloorShare(weights[order[a]], total, interval)
    requires Sum(counts) == total
    ensures LargestRemainder(weights, interval, total, counts)
  {
    forall i: nat | i < |counts|
      ensures FloorShare(weights[i], total, interval) <= counts[i] <= FloorShare(weights[i], total, interval) + 1
    {
      assert i in order;
    }
    forall i: nat, j: nat | i < |counts| && j < |counts|
      && counts[i] == FloorShare(weights[i], total, interval) + 1 &&
        counts[j] == FloorShare(weights[j], total, interval)
      ensures Before(Fractions(weights, total, interval), i, j)
    {
      assert i in order && j in order;
      var a :| 0 <= a < |order| && order[a] == i;
      var b :| 0 <= b < |order| && order[b] == j;
      assert a < remainder <= b;
    }
  }

  lemma CountsAddUp(weights: seq<int>, interval: int, total: nat, counts: seq<int>)
    requires interval > 0 && LargestRemainder(weights, interval, total, counts)
    ensures Sum(counts) == total
  {
    hide Sum;
  }

  /** A floor is at most the share, and one more is more than the share. */
  lemma FloorPlusOne(weight: int, total: nat, interval: int)
    requires interval > 0
    ensures weight * total < (FloorShare(weight, total, interval) + 1) * interval
    ensures Fraction(weight, total, interval) == 0 ==> FloorShare(weight, total, interval) * interval == weight * total
  {
    ShareSplits(weight, total, interval);
    hide FloorShare, Fraction;
    OneMore(FloorShare(weight, total, interval), interval);
  }

  /** If a share without a fraction was rounded up, every count is at least its share. */
  lemma NobodyGetsLess(weights: seq<int>, interval: int, total: nat, counts: seq<int>, i: nat, j: nat)
    requires interval > 0 && LargestRemainder(weights, interval, total, counts)
    requires i < |counts| && counts[i] == FloorShare(weights[i], total, interval) + 1
    requires Fraction(weights[i], total, interval) == 0 && j < |counts|
    ensures weights[j] * total <= counts[j] * interval
  {
    hide Sum, FloorShare, Fraction;
    FloorPlusOne(weights[j], total, interval);
    if counts[j] == FloorShare(weights[j], total, interval) {
      assert Before(Fractions(weights, total, interval), i, j);
      assert Fraction(weights[j], total, interval) == 0;
    }
  }

  lemma ExtraOnlyForFractions(weights: seq<int>, interval: int, total: nat, counts: seq<int>, i: nat)
    requires interval > 0 && Sum(weights) == interval
    requires LargestRemainder(weights, interval, total, counts)
    requires i < |counts| && counts[i] == FloorShare(weights[i], total, interval) + 1
    ensures Fraction(weights[i], total, interval) > 0
  {
    if Fraction(weights[i], total, interval) == 0 {
      forall j | 0 <= j < |counts| ensures weights[j] * total <= counts[j] * interval {
        NobodyGetsLess(weights, interval, total, counts, i, j);
      }
      FloorPlusOne(weights[i], total, interval);
      hide LargestRemainder, FloorShare, Fraction, Sum;
      CountsAddUp(weights, interval, total, counts);
      SumScaledStrictly(weights, total, counts, interval, i);
      assert false;
    }
  }

  /** The quota rule: every count is within one of its exact share, and an integral share is met exactly. */
  lemma QuotaRule(weights: seq<int>, interval: int, total: nat, counts: seq<int>, i: nat)
    requires interval > 0 && Sum(weights) == interval
    requires LargestRemainder(weights, interval, total, counts)
    requires i < |counts|
    ensures -interval < counts[i] * interval - weights[i] * total < interval
    ensures weights[i] * total % interval == 0 ==> counts[i] * interval == weights[i] * total
  {
    var share := FloorShare(weights[i], total, interval);
    assert counts[i] == share || counts[i] == share + 1;
    ShareSplits(weights[i], total, interval);
    OneMore(share, interval);
    hide FloorShare, LargestRemainder, Sum;
    if counts[i] == share + 1 {
      ExtraOnlyForFractions(weights, interval, total, counts, i);
    }
  }

  lemma DivisionOrder(a: int, b: int, interval: int)
    requires interval > 0 && a > b
    ensures a / interval > b / interval || (a / interval == b / interval && a % interval > b % interval)
  {
    var qa, qb := a / interval, b / interval;
    if qa < qb {
      MulMonotone(qa + 1, qb, interval);
      OneMore(qa, interval);
    }
  }

  /** A longer overlap never gets fewer; of two equal overlaps the earlier never gets fewer. */
  lemma OrderPreserved(weights: seq<int>, interval: int, total: nat, counts: seq<int>, i: nat,
      j: nat)
    requires interval > 0 && Sum(weights) == interval
    requires LargestRemainder(weights, interval, total, counts)
    requires i < |counts| && j < |counts|
    requires weights[i] > weights[j] || (weights[i] == weights[j] && i < j)
    ensures counts[i] >= counts[j]
  {
    hide Sum;
    if counts[j] == FloorShare(weights[j], total, interval) + 1 {
      ExtraOnlyForFractions(weights, interval, total, counts, j);
    }
    if weights[i] > weights[j] && total > 0 {
      MulMonotone(weights[j] + 1, weights[i], total);
      OneMore(weights[j], total);
      DivisionOrder(weights[i] * total, weights[j] * total, interval);
    }
  }

  /** The promise pins the counts down completely. */
  lemma ApportionmentIsUnique(weights: seq<int>, interval: int, total: nat, c: seq<int>, d: seq<int>)
    requires interval > 0
    requires LargestRemainder(weights, interval, total, c) && LargestRemainder(weights, interval, total, d)
    ensures c == d
  {
    if i :| 0 <= i < |c| && c[i] > d[i] {
      NoneExceeds(weights, interval, total, c, d, i);
    }
    if i :| 0 <= i < |c| && d[i] > c[i] {
      NoneExceeds(weights, interval, total, d, c, i);
    }
  }

  lemma NoneExceeds(weights: seq<int>, interval: int, total: nat, c: seq<int>, d: seq<int>, i: nat)
    requires interval > 0
    requires LargestRemainder(weights, interval, total, c) && LargestRemainder(weights, interval, total, d)
    requires i < |c|
    ensures c[i] <= d[i]
  {
    if c[i] > d[i] {
      if j :| 0 <= j < |c| && c[j] < d[j] {
        assert false;
      } else {
        SumScaledStrictly(d, 1, c, 1, i);
      }
    }
  }

  /* ---------- Step 3: the day buckets ---------- */

  function KeepPositive(spans: seq<Span>, counts: seq<int>): (buckets: seq<Bucket>)
    requires |spans| == |counts|
  {
    if spans == [] then []
    else
      var n := |spans| - 1;
      var rest := KeepPositive(spans[..n], counts[..n]);
      if counts[n] > 0 then rest + [Bucket(spans[n].begin, spans[n].end, counts[n])] else rest
  }

  lemma KeepOneMore(spans: seq<Span>, counts: seq<int>, i: nat)
    requires |spans| == |counts| && i < |spans|
    ensures KeepPositive(spans[..0], counts[..0]) == []
    ensures var kept := KeepPositive(spans[..i], counts[..i]);
      KeepPositive(spans[..i + 1], counts[..i + 1])
      == if counts[i] > 0 then kept + [Bucket(spans[i].begin, spans[i].end, counts[i])] else kept
  {
    assert spans[..i + 1][..i] == spans[..i] && counts[..i + 1][..i] == counts[..i];
  }

  function Counts(buckets: seq<Bucket>): (counts: seq<int>) {
    seq(|buckets|, i requires 0 <= i < |buckets| => buckets[i].count)
  }

  /** What a non-trivial call promises: the tiling's apportionment, without the empty days. */
  ghost predicate IsBucketing(begin: int, end: int, total: nat, buckets: seq<Bucket>)
    requires begin < end
  {
    exists spans, counts :: BucketsFrom(begin, end, total, spans, counts, buckets)
  }

  ghost predicate BucketsFrom(begin: int, end: int, total: nat, spans: seq<Span>, counts: seq<int>,
      buckets: seq<Bucket>)
    requires begin < end
  {
    && Tiles(begin, end, spans)
    && LargestRemainder(Lengths(spans), end - begin, total, counts)
    && buckets == KeepPositive(spans, counts)
  }

  /** The final loop: one bucket per day, without the days that got nothing. */
  method NonEmptyBuckets(spans: seq<Span>, finalCounts: seq<int>) returns (results: seq<Bucket>)
    requires |spans| == |finalCounts|
    ensures results == KeepPositive(spans, finalCounts)
  {
    results := [];
    assert spans[..0] == [] && KeepPositive(spans[..0], finalCounts[..0]) == [];
    hide KeepPositive;
    for i := 0 to |spans|
      invariant results == KeepPositive(spans[..i], finalCounts[..i])
    {
      KeepOneMore(spans, finalCounts, i);
      if finalCounts[i] > 0 {
        results := results + [Bucket(spans[i].begin, spans[i].end, finalCounts[i])];
      }
    }
    assert spans[..|spans|] == spans && finalCounts[..|spans|] == finalCounts;
  }

  lemma BucketsFound(begin: int, end: int, total: nat, spans: seq<Span>, counts: seq<int>, buckets: seq<Bucket>)
    requires begin < end && Tiles(begin, end, spans) && LargestRemainder(Lengths(spans), end - begin, total, counts)
    requires |counts| == |spans| && buckets == KeepPositive(spans, counts)
    ensures IsBucketing(begin, end, total, buckets)
  {
    hide Tiles, LargestRemainder, KeepPositive, Lengths;
    assert BucketsFrom(begin, end, total, spans, counts, buckets);
  }

  method BucketIntervalByDay(begin: int, end: int, totalCount: int) returns (r: Result<seq<Bucket>, Error>)
    ensures r == Failure(BeginAfterEnd) <==> begin > end
    ensures r == Failure(NegativeCount) <==> begin <= end && totalCount < 0
    ensures (begin == end && totalCount >= 0) || (begin < end && totalCount == 0) ==> r == Success([])
    ensures begin < end && totalCount > 0 ==> r.Success? && IsBucketing(begin, end, totalCount, r.value)
  {
    hide *;
    if begin > end {
      return Failure(BeginAfterEnd);
    }
    if totalCount < 0 {
      return Failure(NegativeCount);
    }
    var interval := end - begin;
    if interval <= 0 || totalCount == 0 {
      return Success([]);
    }
    var spans := DayOverlaps(begin, end);
    TilesLengths(begin, end, spans);
    var finalCounts := Apportion(Lengths(spans), interval, totalCount);
    var results := NonEmptyBuckets(spans, finalCounts);
    BucketsFound(begin, end, totalCount, spans, finalCounts, results);
    return Success(results);
  }

  /** A piece of the interval within one day, cut off at nothing but midnights and the ends of the interval. */
  ghost predicate IsDayOf(begin: int, end: int, span: Span) {
    && begin <= span.begin < span.end <= end
    && (span.begin == begin || span.begin % DAY == 0)
    && (span.end == end || span.end % DAY == 0)
    && forall t :: span.begin < t < span.end ==> t % DAY != 0
  }

  ghost predicate DaysOf(begin: int, end: int, spans: seq<Span>) {
    && (forall k :: 0 <= k < |spans| ==> IsDayOf(begin, end, spans[k]))
    && (forall k :: 0 <= k < |spans| - 1 ==> spans[k].end <= spans[k + 1].begin)
  }

  function SpansOf(buckets: seq<Bucket>): (spans: seq<Span>) {
    seq(|buckets|, i requires 0 <= i < |buckets| => Span(buckets[i].begin, buckets[i].end))
  }

  /** The buckets count something, are in order without overlap, and each is the part of the interval on one day. */
  ghost predicate Placed(begin: int, end: int, buckets: seq<Bucket>) {
    DaysOf(begin, end, SpansOf(buckets)) && forall k :: 0 <= k < |buckets| ==> buckets[k].count > 0
  }

  lemma NoMidnightInside(span: Span)
    requires span.begin < span.end <= Midnight(span.begin) + DAY
    ensures forall t :: span.begin < t < span.end ==> t % DAY != 0
  {
    forall t | span.begin < t < span.end ensures t % DAY != 0 {
      if t % DAY == 0 {
        NextMidnight(span.begin, t);
      }
    }
  }

  /** A tile is the part of the interval on one day. */
  lemma TileIsDay(begin: int, end: int, spans: seq<Span>, k: nat)
    requires Tiles(begin, end, spans) && k < |spans|
    ensures IsDayOf(begin, end, spans[k])
  {
    TilesFrom(begin, end, spans, k);
    NoMidnightInside(spans[k]);
    if k > 0 {
      assert spans[k - 1].end == spans[k - 1 + 1].begin && spans[k - 1].end % DAY == 0;
    }
  }

  lemma PlacedOneMore(begin: int, middle: int, end: int, buckets: seq<Bucket>, bucket: Bucket)
    requires begin <= middle <= bucket.begin && bucket.count > 0
    requires buckets == [] || (middle % DAY == 0 && Placed(begin, middle, buckets))
    requires IsDayOf(begin, end, Span(bucket.begin, bucket.end))
    ensures Placed(begin, end, buckets + [bucket])
  {
    var spans := SpansOf(buckets);
    var longer := SpansOf(buckets + [bucket]);
    assert longer == spans + [Span(bucket.begin, bucket.end)];
    forall k: nat | k < |spans| ensures IsDayOf(begin, end, spans[k]) {
      assert IsDayOf(begin, middle, spans[k]);
    }
    hide IsDayOf;
    assert forall k :: 0 <= k < |spans| ==> spans[k].end <= middle by {
      assert forall k :: 0 <= k < |spans| ==> IsDayOf(begin, middle, spans[k]);
      EndsBefore(begin, middle, spans);
    }
  }

  lemma EndsBefore(begin: int, end: int, spans: seq<Span>)
    requires forall k :: 0 <= k < |spans| ==> IsDayOf(begin, end, spans[k])
    ensures forall k :: 0 <= k < |spans| ==> spans[k].end <= end
  {
  }

  lemma PlacedLater(begin: int, middle: int, end: int, buckets: seq<Bucket>)
    requires Placed(begin, middle, buckets) && middle <= end && middle % DAY == 0
    ensures Placed(begin, end, buckets)
  {
    var spans := SpansOf(buckets);
    forall k: nat | k < |spans| ensures IsDayOf(begin, end, spans[k]) {
      assert IsDayOf(begin, middle, spans[k]);
    }
  }

  lemma CountsOneMore(buckets: seq<Bucket>, bucket: Bucket)
    ensures Sum(Counts(buckets + [bucket])) == Sum(Counts(buckets)) + bucket.count
  {
    var all := Counts(buckets + [bucket]);
    assert all[..|buckets|] == Counts(buckets);
  }

  /** Conservation, positivity and placement of the buckets a caller gets. */
  lemma BucketsConserveCount(begin: int, end: int, total: nat, buckets: seq<Bucket>)
    requires begin < end && IsBucketing(begin, end, total, buckets)
    ensures Sum(Counts(buckets)) == total
    ensures Placed(begin, end, buckets)
  {
    var spans, counts :| BucketsFrom(begin, end, total, spans, counts, buckets);
    TilesLengths(begin, end, spans);
    forall i | 0 <= i < |counts| ensures counts[i] >= 0 {
      FloorNotNegative(Lengths(spans)[i], total, end - begin);
    }
    KeptBuckets(begin, end, spans, counts);
  }

  lemma FloorNotNegative(weight: nat, total: nat, interval: int)
    requires interval > 0
    ensures FloorShare(weight, total, interval) >= 0
  {
    assert weight * total >= 0;
  }

  lemma {:induction false} KeptBuckets(begin: int, end: int, spans: seq<Span>, counts: seq<int>)
    requires Tiles(begin, end, spans) && |counts| == |spans|
    requires forall i :: 0 <= i < |counts| ==> counts[i] >= 0
    ensures Sum(Counts(KeepPositive(spans, counts))) == Sum(counts)
    ensures Placed(begin, end, KeepPositive(spans, counts))
    decreases |spans|
  {
    var n := |spans| - 1;
    var last := spans[n];
    TilesFrom(begin, end, spans, n);
    TileIsDay(begin, end, spans, n);
    if n > 0 {
      TilesFrom(begin, end, spans, n - 1);
      assert spans[n - 1].end == spans[n - 1 + 1].begin && spans[n - 1].end % DAY == 0;
      KeptBuckets(begin, last.begin, spans[..n], counts[..n]);
    } else {
      assert spans[..n] == [] && counts[..n] == [] && KeepPositive(spans[..n], counts[..n]) == [];
    }
    var rest := KeepPositive(spans[..n], counts[..n]);
    assert Sum(counts) == Sum(counts[..n]) + counts[n];
    hide Sum, Midnight, Tiles, Counts, IsDayOf, Placed;
    if counts[n] > 0 {
      var bucket := Bucket(last.begin, last.end, counts[n]);
      assert KeepPositive(spans, counts) == rest + [bucket];
      PlacedOneMore(begin, last.begin, end, rest, bucket);
      CountsOneMore(rest, bucket);
    } else {
      NothingPlaced(begin, end);
      if n > 0 {
        PlacedLater(begin, last.begin, end, rest);
      }
    }
  }

  lemma NothingPlaced(begin: int, end: int)
    ensures Placed(begin, end, [])
  {
  }

  /** The buckets are the spans with a positive count, in order, each with its own count. */
  lemma {:induction false} KeptExactly(spans: seq<Span>, counts: seq<int>) returns (from: seq<nat>)
    requires |spans| == |counts|
    ensures |from| == |KeepPositive(spans, counts)|
    ensures forall k :: 0 <= k < |from| ==>
      && from[k] < |spans| && counts[from[k]] > 0
      && KeepPositive(spans, counts)[k] == Bucket(spans[from[k]].begin, spans[from[k]].end, counts[from[k]])
    ensures forall a, b :: 0 <= a < b < |from| ==> from[a] < from[b]
    ensures forall i: nat :: i in from <==> i < |spans| && counts[i] > 0
  {
    if spans == [] {
      from := [];
    } else {
      var n := |spans| - 1;
      from := KeptExactly(spans[..n], counts[..n]);
      KeepOneMore(spans, counts, n);
      assert spans[..n + 1] == spans && counts[..n + 1] == counts;
      hide KeepPositive;
      if counts[n] > 0 {
        from := from + [n];
      }
    }
  }

  /** A caller's buckets depend on nothing but the interval and the count. */
  lemma BucketingIsUnique(begin: int, end: int, total: nat, a: seq<Bucket>, b: seq<Bucket>)
    requires begin < end && IsBucketing(begin, end, total, a) && IsBucketing(begin, end, total, b)
    ensures a == b
  {
    var spans, counts :| BucketsFrom(begin, end, total, spans, counts, a);
    var spans', counts' :| BucketsFrom(begin, end, total, spans', counts', b);
    BucketsAgree(begin, end, total, spans, counts, a, spans', counts', b);
  }

  lemma BucketsAgree(
    begin: int, end: int, total: nat,
    spans: seq<Span>, counts: seq<int>, a: seq<Bucket>, spans': seq<Span>, counts': seq<int>, b: seq<Bucket>
  )
    requires begin < end && BucketsFrom(begin, end, total, spans, counts, a) &&
      BucketsFrom(begin, end, total, spans', counts', b)
    ensures a == b
  {
    hide LargestRemainder, Tiles, KeepPositive, Lengths;
    TilingIsUnique(begin, end, spans, spans');
    ApportionmentIsUnique(Lengths(spans), end - begin, total, counts, counts');
  }

  /* ---------- Appending a parsed record ---------- */

  /** What a record's field holds; of any other value only matters what `int` makes of it, if anything. */
  datatype Value = Number(n: int) | Flag(on: bool) | Time(seconds: int) | Other(id: nat, asInt: Option<int>)

  type Fields = map<string, Value>

  const INTERVAL_KEYS: set<string> := {"normalized_timespan", "interval_begin", "interval_end"}

  const SPLIT_KEYS: set<string> := {"count", "normalized_timespan", "interval_begin", "interval_end"}

  class Record {
    var fields: Fields

    constructor (fields: Fields)
      ensures this.fields == fields
    {
      this.fields := fields;
    }
  }

  class RecordList {
    var items: seq<Record>
  }

  ghost function FieldsOf(items: seq<Record>): seq<Fields>
    reads items
  {
    seq(|items|, k requires 0 <= k < |items| reads items => items[k].fields)
  }

  function IntOf(value: Value): Option<int> {
    match value
    case Number(n) => Some(n)
    case Flag(on) => Some(if on then 1 else 0)
    case Time(_) => None
    case Other(_, asInt) => asInt
  }

  /** The record's count, 0 if it has none. */
  function IntCount(fields: Fields): Option<int> {
    if "count" in fields then IntOf(fields["count"]) else Some(0)
  }

  function CountOf(fields: Fields): int {
    if IntCount(fields).Some? then IntCount(fields).value else 0
  }

  /** The record carries this interval; timestamps are written with a resolution of one second. */
  predicate HasInterval(fields: Fields, begin: int, end: int, normalized: bool) {
    && "normalized_timespan" in fields && fields["normalized_timespan"] == Flag(normalized)
    && "interval_begin" in fields && fields["interval_begin"] == Time(begin / SECOND)
    && "interval_end" in fields && fields["interval_end"] == Time(end / SECOND)
  }

  predicate SameExcept(before: Fields, after: Fields, keys: set<string>) {
    after.Keys == before.Keys + keys && forall key :: key in before && key !in keys ==> after[key] == before[key]
  }

  /** The record's copy for one bucket. */
  predicate IsPart(fields: Fields, bucket: Bucket, part: Fields) {
    && SameExcept(fields, part, SPLIT_KEYS) && HasInterval(part, bucket.begin, bucket.end, true)
    && part["count"] == Number(bucket.count)
  }

  predicate AreParts(fields: Fields, buckets: seq<Bucket>, parts: seq<Fields>) {
    |parts| == |buckets| && forall k :: 0 <= k < |parts| ==> IsPart(fields, buckets[k], parts[k])
  }

  ghost predicate IsSplit(fields: Fields, begin: int, end: int, parts: seq<Fields>)
    requires CountOf(fields) >= 0 && begin <= end
  {
    if begin == end || CountOf(fields) == 0 then parts == []
    else exists buckets :: IsBucketing(begin, end, CountOf(fields), buckets) && AreParts(fields, buckets, parts)
  }

  method AppendParsedRecord(parsedRecord: Record, records: RecordList, begin: int, end: int, normalize: bool)
    returns (r: Result<(), Error>)
    modifies parsedRecord, records
    ensures old(records.items) <= records.items
    ensures !normalize ==> r.Success? && records.items == old(records.items) + [parsedRecord]
    ensures !normalize ==>
      SameExcept(old(parsedRecord.fields), parsedRecord.fields, INTERVAL_KEYS) &&
      HasInterval(parsedRecord.fields, begin, end, false)
    ensures normalize ==> parsedRecord.fields == old(parsedRecord.fields)
    ensures normalize ==>
      (r.Failure? <==> begin > end || IntCount(parsedRecord.fields).None? || CountOf(parsedRecord.fields) < 0)
    ensures normalize && r.Failure? ==> records.items == old(records.items)
    ensures normalize && r.Success? ==>
      && var added := records.items[|old(records.items)|..];
      && (forall k :: 0 <= k < |added| ==> fresh(added[k]))
      && IsSplit(parsedRecord.fields, begin, end, FieldsOf(added))
  {
    if !normalize {
      parsedRecord.fields := parsedRecord.fields["normalized_timespan" := Flag(false)]
        ["interval_begin" := Time(begin / SECOND)]["interval_end" := Time(end / SECOND)];
      records.items := records.items + [parsedRecord];
      return Success(());
    }
    var totalCount := IntCount(parsedRecord.fields);
    if totalCount.None? {
      return Failure(NotANumber);
    }
    var bucketed := BucketIntervalByDay(begin, end, totalCount.value);
    if bucketed.Failure? {
      return Failure(bucketed.error);
    }
    var buckets := bucketed.value;
    ghost var added: seq<Record> := [];
    for k := 0 to |buckets|
      invariant records.items == old(records.items) + added && |added| == k
      invariant parsedRecord.fields == old(parsedRecord.fields)
      invariant forall i :: 0 <= i < k ==> fresh(added[i]) && IsPart(parsedRecord.fields, buckets[i], added[i].fields)
    {
      var bucket := buckets[k];
      var newRec := new Record(parsedRecord.fields["count" := Number(bucket.count)]["normalized_timespan" := Flag(true)]
        ["interval_begin" := Time(bucket.begin / SECOND)]["interval_end" := Time(bucket.end / SECOND)]);
      records.items := records.items + [newRec];
      added := added + [newRec];
    }
    assert records.items[|old(records.items)|..] == added;
    assert AreParts(parsedRecord.fields, buckets, FieldsOf(added));
    return Success(());
  }

  function PartCounts(parts: seq<Fields>): seq<int> {
    seq(|parts|, k requires 0 <= k < |parts| => CountOf(parts[k]))
  }

  lemma CountIsNumber(fields: Fields)
    ensures "count" in fields && fields["count"].Number? ==> CountOf(fields) == fields["count"].n
    ensures "count" !in fields ==> CountOf(fields) == 0
  {
  }

  lemma PartAt(fields: Fields, bucket: Bucket, part: Fields)
    requires IsPart(fields, bucket, part)
    ensures CountOf(part) == bucket.count
  {
  }

  /** The interval a part carries, in seconds. */
  predicate Carries(part: Fields, begin: int, end: int) {
    && part.Keys >= SPLIT_KEYS && part["normalized_timespan"] == Flag(true)
    && part["interval_begin"] == Time(begin) && part["interval_end"] == Time(end)
  }

  /**
   The per-day copies carry positive counts that add up to the record's and, in order and without overlap, the intervals
   of their days within the record's own, in whole seconds; nothing else changes.
   */
  lemma PartsConserve(fields: Fields, begin: int, end: int, parts: seq<Fields>) returns (spans: seq<Span>)
    requires CountOf(fields) >= 0 && begin < end && IsSplit(fields, begin, end, parts)
    ensures Sum(PartCounts(parts)) == CountOf(fields)
    ensures "count" in fields && fields["count"].Number? ==> Sum(PartCounts(parts)) == fields["count"].n
    ensures "count" !in fields ==> parts == []
    ensures forall k :: 0 <= k < |parts| ==>
      && CountOf(parts[k]) > 0
      && parts[k].Keys == fields.Keys + SPLIT_KEYS
      && (forall key :: key in fields && key !in SPLIT_KEYS ==> parts[k][key] == fields[key])
    ensures |spans| == |parts| && DaysOf(begin, end, spans)
    ensures forall k :: 0 <= k < |parts| ==>
      Carries(parts[k], spans[k].begin / 1_000_000, spans[k].end / 1_000_000)
    ensures forall k :: 0 <= k < |parts| ==>
      begin / 1_000_000 <= spans[k].begin / 1_000_000 <= spans[k].end / 1_000_000 <= end / 1_000_000
    ensures forall k :: 0 <= k < |parts| - 1 ==> spans[k].end / 1_000_000 <= spans[k + 1].begin / 1_000_000
  {
    spans := [];
    CountIsNumber(fields);
    hide CountOf;
    if CountOf(fields) > 0 {
      var buckets: seq<Bucket> :| IsBucketing(begin, end, CountOf(fields), buckets) && AreParts(fields, buckets, parts);
      spans := SpansOf(buckets);
      hide IsBucketing, Sum, Midnight;
      BucketsConserveCount(begin, end, CountOf(fields), buckets);
      forall k: nat | k < |parts| ensures CountOf(parts[k]) == buckets[k].count {
        PartAt(fields, buckets[k], parts[k]);
      }
      assert PartCounts(parts) == Counts(buckets);
    }
  }

  /** A record is dropped from a normalized report exactly when it counts nothing or its interval is empty. */
  lemma DroppedExactlyWhenEmpty(fields: Fields, begin: int, end: int, parts: seq<Fields>)
    requires CountOf(fields) >= 0 && begin <= end && IsSplit(fields, begin, end, parts)
    ensures parts == [] <==> begin == end || CountOf(fields) == 0
  {
    if begin < end {
      var _ := PartsConserve(fields, begin, end, parts);
    }
  }
}
