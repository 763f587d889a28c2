/** Reading and downsampling piece bitfields and availability counts (src/utils/bitfield.ts). */
module Bitfield {

  /** Piece `index` is bit 7 - index % 8 of byte index / 8; anything outside reads as absent. */
  predicate HasPiece(bytes: seq<bv8>, index: int) {
    0 <= index && index / 8 < |bytes| && bytes[index / 8] & ((0x80 as bv8) >> (index % 8)) != 0
  }

  /** Pieces present in [lo, hi). */
  function Present(bytes: seq<bv8>, lo: int, hi: int): nat
    decreases hi - lo
  {
    if hi <= lo then 0 else Present(bytes, lo, hi - 1) + if HasPiece(bytes, hi - 1) then 1 else 0
  }

  method CountPieces(bytes: seq<bv8>, count: int) returns (n: nat)
    ensures n == Present(bytes, 0, count)
  {
    n := 0;
    var i := 0;
    while i < count
      invariant i == 0 || 0 < i <= count
      invariant n == Present(bytes, 0, i)
    {
      if HasPiece(bytes, i) {
        n := n + 1;
      }
      i := i + 1;
    }
  }

  // --- Slices -----------------------------------------------------------------

  function SliceStart(b: int, total: int, buckets: int): int
    requires buckets > 0
  {
    b * total / buckets
  }

  /** The end of bucket `b`: where the next one starts, but at least one piece further. */
  function SliceEnd(b: int, total: int, buckets: int): int
    requires buckets > 0
  {
    var start, end := SliceStart(b, total, buckets), SliceStart(b + 1, total, buckets);
    if end <= start then start + 1 else end
  }

  lemma DivBounds(n: int, d: int)
    requires d > 0
    ensures d * (n / d) <= n < d * (n / d) + d
  {}

  /** The largest `q` with q * d <= n is n / d. */
  lemma {:induction false} DivIs(n: int, d: int, q: int)
    requires d > 0 && q * d <= n < q * d + d
    ensures n / d == q
  {
    DivBounds(n, d);
    if n / d < q { MulMono(d, n / d + 1, q); }
    if n / d > q { MulMono(d, q + 1, n / d); }
  }

  lemma MulMono(d: int, a: int, b: int)
    requires d > 0 && a <= b
    ensures d * a <= d * b
  {}

  lemma {:induction false} DivMono(m: int, n: int, d: int)
    requires d > 0 && m <= n
    ensures m / d <= n / d
  {
    DivBounds(m, d);
    DivBounds(n, d);
    if n / d < m / d { MulMono(d, n / d + 1, m / d); }
  }

  lemma {:induction false} SliceEnds(total: int, buckets: int)
    requires total > 0 && buckets > 0
    ensures SliceStart(0, total, buckets) == 0 && SliceStart(buckets, total, buckets) == total
  {
    assert 0 * total == 0;
    DivIs(0, buckets, 0);
    DivIs(buckets * total, buckets, total);
  }

  lemma NextProduct(b: int, total: int)
    ensures (b + 1) * total == b * total + total
  {}

  /** With no more buckets than pieces every slice is non-empty and ends where the next one starts. */
  lemma SlicesMeet(b: int, total: int, buckets: int)
    requires 0 <= b < buckets <= total
    ensures SliceStart(b, total, buckets) < SliceStart(b + 1, total, buckets)
    ensures SliceEnd(b, total, buckets) == SliceStart(b + 1, total, buckets)
  {}

  lemma LessByFactor(d: int, a: int, b: int)
    requires d > 0 && d * a < d * b
    ensures a < b
  {}

  lemma StartInRange(b: int, total: int, buckets: int)
    requires 0 <= b < buckets && 0 < total
    ensures 0 <= SliceStart(b, total, buckets) < total
  {}

  lemma {:induction false} NextIsClose(b: int, total: int, buckets: int)
    requires 0 < total < buckets
    ensures SliceStart(b + 1, total, buckets) <= SliceStart(b, total, buckets) + 1
  {
    var start, next := SliceStart(b, total, buckets), SliceStart(b + 1, total, buckets);
    NextProduct(b, total);
    DivBounds(b * total, buckets);
    DivBounds((b + 1) * total, buckets);
    NextProduct(start, buckets);
    NextProduct(start + 1, buckets);
    LessByFactor(buckets, next, start + 2);
  }

  /** With more buckets than pieces every slice is exactly one existing piece. */
  lemma {:induction false} SliceIsOnePiece(b: int, total: int, buckets: int)
    requires 0 <= b < buckets && 0 < total < buckets
    ensures 0 <= SliceStart(b, total, buckets) < total
    ensures SliceEnd(b, total, buckets) == SliceStart(b, total, buckets) + 1
  {
    StartInRange(b, total, buckets);
    NextIsClose(b, total, buckets);
  }

  /** ... and every piece is the slice of some bucket. */
  lemma EveryPieceHasABucket(i: int, total: int, buckets: int) returns (b: int)
    requires 0 <= i < total < buckets
    ensures 0 <= b < buckets && SliceStart(b, total, buckets) == i
  {
    b := (i * buckets + total - 1) / total;
    DivBounds(i * buckets + total - 1, total);
    assert i * buckets <= b * total < i * buckets + total;
    DivIs(b * total, buckets, i);
    MulMono(buckets, 0, i);
    LessByFactor(total, -1, b);
    MulMono(buckets, i + 1, total);
    NextProduct(i, buckets);
    LessByFactor(total, b, buckets);
  }

  /** Where the scan of bucket `b` stops: its end, or the end of the pieces. */
  function SliceStop(b: int, total: int, buckets: int): int
    requires buckets > 0
  {
    var end := SliceEnd(b, total, buckets);
    if end < total then end else total
  }

  /** Every scan sees at least one piece, and for no more buckets than pieces it stops where the next one starts. */
  lemma {:induction false} ScanRange(b: int, total: int, buckets: int)
    requires 0 <= b < buckets && 0 < total
    ensures 0 <= SliceStart(b, total, buckets) < SliceStop(b, total, buckets) <= total
    ensures buckets <= total ==> SliceStop(b, total, buckets) == SliceStart(b + 1, total, buckets)
    ensures buckets > total ==> SliceStop(b, total, buckets) == SliceStart(b, total, buckets) + 1
  {
    StartInRange(b, total, buckets);
    if buckets <= total {
      SlicesMeet(b, total, buckets);
      MulMono(total, b + 1, buckets);
      DivMono((b + 1) * total, buckets * total, buckets);
      SliceEnds(total, buckets);
    } else {
      SliceIsOnePiece(b, total, buckets);
    }
  }

  // --- Fractions --------------------------------------------------------------

  /** The share of bucket `b`'s pieces that are present. */
  function Fraction(bytes: seq<bv8>, b: int, total: int, buckets: int): real
    requires buckets > 0
  {
    var start, stop := SliceStart(b, total, buckets), SliceStop(b, total, buckets);
    if stop <= start then 0.0 else Present(bytes, start, stop) as real / (stop - start) as real
  }

  method ScanBits(bytes: seq<bv8>, start: int, end: int, totalPieces: int) returns (done: nat, seen: nat)
    ensures var stop := if end < totalPieces then end else totalPieces;
      done == Present(bytes, start, stop) && seen == if stop <= start then 0 else stop - start
  {
    done, seen := 0, 0;
    var i := start;
    while i < end && i < totalPieces
      invariant start <= i && seen == i - start && done == Present(bytes, start, i)
      invariant i == start || (i <= end && i <= totalPieces)
    {
      if HasPiece(bytes, i) {
        done := done + 1;
      }
      seen := seen + 1;
      i := i + 1;
    }
  }

  /** Rounding to a floating-point format: it keeps the order, and 0 and 1 themselves. */
  ghost predicate IsRounding(round: real -> real) {
    && round(0.0) == 0.0 && round(1.0) == 1.0
    && forall x, y :: x <= y ==> round(x) <= round(y)
  }

  /** A quotient is rounded to `double` when it is computed, and to `single` when it is put into a `Float32Array`. */
  method BucketFractions(bytes: seq<bv8>, totalPieces: int, buckets: int, double: real -> real, single: real -> real)
    returns (out: array<real>)
    requires IsRounding(double) && IsRounding(single)
    ensures fresh(out) && out.Length == if buckets < 0 then 0 else buckets
    ensures forall b :: 0 <= b < out.Length ==>
      out[b] == if totalPieces <= 0 then 0.0 else single(double(Fraction(bytes, b, totalPieces, buckets)))
  {
    out := new real[if buckets < 0 then 0 else buckets](_ => 0.0);
    if totalPieces <= 0 || buckets <= 0 {
      return;
    }
    ghost var shares := seq(buckets, b requires 0 <= b < buckets => single(double(Fraction(bytes, b, totalPieces, buckets))));
    FillFractions(bytes, totalPieces, out, double, single, shares);
  }

  ghost predicate AreShares(
    shares: seq<real>, bytes: seq<bv8>, total: int, buckets: int, double: real -> real, single: real -> real
  )
    requires buckets > 0
  {
    |shares| == buckets
    && forall b {:trigger Fraction(bytes, b, total, buckets)} :: 0 <= b < |shares| ==>
         shares[b] == single(double(Fraction(bytes, b, total, buckets)))
  }

  method FillFractions(
    bytes: seq<bv8>, totalPieces: int, out: array<real>, double: real -> real, single: real -> real, ghost shares: seq<real>
  )
    requires out.Length > 0 && totalPieces > 0 && double(0.0) == 0.0
    requires AreShares(shares, bytes, totalPieces, out.Length, double, single)
    modifies out
    ensures out[..] == shares
  {
    var b := 0;
    while b < out.Length
      invariant 0 <= b <= out.Length
      invariant forall k :: 0 <= k < b ==> out[k] == shares[k]
    {
      var fraction := BucketFraction(bytes, b, totalPieces, out.Length, double);
      out[b] := single(fraction);
      b := b + 1;
    }
  }

  method BucketFraction(bytes: seq<bv8>, b: int, totalPieces: int, buckets: int, double: real -> real)
    returns (fraction: real)
    requires 0 <= b < buckets && totalPieces > 0 && double(0.0) == 0.0
    ensures fraction == double(Fraction(bytes, b, totalPieces, buckets))
  {
    var start := b * totalPieces / buckets;
    var end := (b + 1) * totalPieces / buckets;
    if end <= start {
      end := start + 1;
    }
    var done, seen := ScanBits(bytes, start, end, totalPieces);
    fraction := if seen == 0 then 0.0 else double(done as real / seen as real);
  }

  lemma {:induction false} PresentBounds(bytes: seq<bv8>, lo: int, hi: int)
    requires lo <= hi
    ensures Present(bytes, lo, hi) <= hi - lo
    decreases hi - lo
  {
    if lo < hi { PresentBounds(bytes, lo, hi - 1); }
  }

  lemma {:induction false} PresentSplits(bytes: seq<bv8>, lo: int, mid: int, hi: int)
    requires lo <= mid <= hi
    ensures Present(bytes, lo, hi) == Present(bytes, lo, mid) + Present(bytes, mid, hi)
    decreases hi - mid
  {
    if mid < hi { PresentSplits(bytes, lo, mid, hi - 1); }
  }

  lemma QuotientInUnit(n: nat, d: int)
    requires n <= d && d > 0
    ensures 0.0 <= n as real / d as real <= 1.0
  {}

  lemma FractionInUnit(bytes: seq<bv8>, b: int, total: int, buckets: int)
    requires 0 <= b < buckets && 0 < total
    ensures 0.0 <= Fraction(bytes, b, total, buckets) <= 1.0
    ensures forall double, single :: IsRounding(double) && IsRounding(single) ==>
      0.0 <= single(double(Fraction(bytes, b, total, buckets))) <= 1.0
  {
    ScanRange(b, total, buckets);
    var start, stop := SliceStart(b, total, buckets), SliceStop(b, total, buckets);
    PresentBounds(bytes, start, stop);
    QuotientInUnit(Present(bytes, start, stop), stop - start);
  }

  /** The done counts of the first `k` buckets. */
  function DoneInBuckets(bytes: seq<bv8>, total: int, buckets: int, k: nat): nat
    requires buckets > 0
  {
    if k == 0 then 0
    else DoneInBuckets(bytes, total, buckets, k - 1)
         + Present(bytes, SliceStart(k - 1, total, buckets), SliceStop(k - 1, total, buckets))
  }

  lemma {:induction false} BucketsAddUpTo(bytes: seq<bv8>, total: int, buckets: int, k: nat)
    requires 0 < buckets <= total && k <= buckets
    ensures 0 <= SliceStart(k, total, buckets)
    ensures DoneInBuckets(bytes, total, buckets, k) == Present(bytes, 0, SliceStart(k, total, buckets))
  {
    if k == 0 {
      SliceEnds(total, buckets);
    } else {
      BucketsAddUpTo(bytes, total, buckets, k - 1);
      ScanRange(k - 1, total, buckets);
      PresentSplits(bytes, 0, SliceStart(k - 1, total, buckets), SliceStart(k, total, buckets));
    }
  }

  /** With no more buckets than pieces nothing is dropped or counted twice: the buckets add up to the pieces present. */
  lemma {:induction false} BucketsCountEveryPieceOnce(bytes: seq<bv8>, total: int, buckets: int)
    requires 0 < buckets <= total
    ensures DoneInBuckets(bytes, total, buckets, buckets) == Present(bytes, 0, total)
  {
    BucketsAddUpTo(bytes, total, buckets, buckets);
    SliceEnds(total, buckets);
  }

  /** Some bucket begins at piece `i`. */
  ghost predicate Shown(i: int, total: int, buckets: int)
    requires buckets > 0
  {
    exists b :: 0 <= b < buckets && SliceStart(b, total, buckets) == i
  }

  /** With more buckets than pieces a bucket is one piece, shown as 0 or 1, and every piece is shown. */
  lemma {:induction false} NarrowBucketsShowEveryPiece(bytes: seq<bv8>, total: int, buckets: int)
    requires 0 < total < buckets
    ensures forall b :: 0 <= b < buckets ==>
      var i := SliceStart(b, total, buckets);
      0 <= i < total && Fraction(bytes, b, total, buckets) == if HasPiece(bytes, i) then 1.0 else 0.0
    ensures forall i :: 0 <= i < total ==> Shown(i, total, buckets)
  {
    forall b | 0 <= b < buckets
      ensures var i := SliceStart(b, total, buckets);
        0 <= i < total && Fraction(bytes, b, total, buckets) == if HasPiece(bytes, i) then 1.0 else 0.0
    {
      ScanRange(b, total, buckets);
      assert Present(bytes, SliceStart(b, total, buckets), SliceStart(b, total, buckets)) == 0;
    }
    forall i | 0 <= i < total ensures Shown(i, total, buckets) {
      var b := EveryPieceHasABucket(i, total, buckets);
    }
  }

  // --- Averages ---------------------------------------------------------------

  type Counts = seq<bv8>

  /** `counts[i] ?? 0`. */
  function Count(counts: Counts, i: int): nat {
    if 0 <= i < |counts| then counts[i] as nat else 0
  }

  function Sum(counts: Counts, lo: int, hi: int): nat
    decreases hi - lo
  {
    if hi <= lo then 0 else Sum(counts, lo, hi - 1) + Count(counts, hi - 1)
  }

  function Average(counts: Counts, b: int, total: int, buckets: int): (a: real)
    requires buckets > 0
    ensures a >= 0.0
  {
    var start, stop := SliceStart(b, total, buckets), SliceStop(b, total, buckets);
    if stop <= start then 0.0 else Sum(counts, start, stop) as real / (stop - start) as real
  }

  method ScanCounts(counts: Counts, start: int, end: int, totalPieces: int) returns (sum: nat, seen: nat)
    ensures var stop := if end < totalPieces then end else totalPieces;
      sum == Sum(counts, start, stop) && seen == if stop <= start then 0 else stop - start
  {
    sum, seen := 0, 0;
    var i := start;
    while i < end && i < totalPieces
      invariant start <= i && seen == i - start && sum == Sum(counts, start, i)
      invariant i == start || (i <= end && i <= totalPieces)
    {
      sum := sum + Count(counts, i);
      seen := seen + 1;
      i := i + 1;
    }
  }

  function Averages(counts: Counts, total: int, buckets: int): (r: seq<real>)
    ensures forall b :: 0 <= b < |r| ==> r[b] >= 0.0
  {
    if buckets <= 0 then []
    else seq(buckets, b requires 0 <= b < buckets => if total <= 0 then 0.0 else Average(counts, b, total, buckets))
  }

  /** The same real numbers in a floating-point format. */
  function Rounded(xs: seq<real>, round: real -> real): seq<real> {
    seq(|xs|, i requires 0 <= i < |xs| => round(xs[i]))
  }

  method BucketAverage(counts: Counts, b: int, totalPieces: int, buckets: int, double: real -> real) returns (a: real)
    requires 0 <= b < buckets && totalPieces > 0 && double(0.0) == 0.0
    ensures a == double(Average(counts, b, totalPieces, buckets))
  {
    var start := b * totalPieces / buckets;
    var end := (b + 1) * totalPieces / buckets;
    if end <= start {
      end := start + 1;
    }
    var sum, seen := ScanCounts(counts, start, end, totalPieces);
    a := if seen == 0 then 0.0 else double(sum as real / seen as real);
  }

  /** The largest of some bars, 0 if there are none. */
  ghost predicate IsPeak(bars: seq<real>, max: real) {
    && (forall b :: 0 <= b < |bars| ==> bars[b] <= max)
    && (if bars == [] then max == 0.0 else max in bars)
  }

  /** The bars are rounded once more when stored; `max` is the largest of them before that. */
  method BucketAverages(counts: Counts, totalPieces: int, buckets: int, double: real -> real, single: real -> real)
    returns (avg: array<real>, max: real)
    requires IsRounding(double) && IsRounding(single)
    ensures var bars := Rounded(Averages(counts, totalPieces, buckets), double);
      fresh(avg) && avg[..] == Rounded(bars, single) && IsPeak(bars, max)
  {
    avg := new real[if buckets < 0 then 0 else buckets](_ => 0.0);
    max := 0.0;
    if totalPieces <= 0 || buckets <= 0 {
      ghost var bars := Rounded(Averages(counts, totalPieces, buckets), double);
      assert buckets > 0 ==> bars[0] == max;
      return;
    }
    max := FillAverages(counts, totalPieces, avg, double, single);
  }

  method FillAverages(counts: Counts, totalPieces: int, avg: array<real>, double: real -> real, single: real -> real)
    returns (max: real)
    requires avg.Length > 0 && totalPieces > 0 && IsRounding(double) && IsRounding(single)
    modifies avg
    ensures var bars := Rounded(Averages(counts, totalPieces, avg.Length), double);
      avg[..] == Rounded(bars, single) && IsPeak(bars, max)
  {
    ghost var bars := Rounded(Averages(counts, totalPieces, avg.Length), double);
    NonNegativeBars(Averages(counts, totalPieces, avg.Length), double);
    max := FillBars(counts, totalPieces, avg, double, single, bars, Rounded(bars, single));
    PeakOfIsPeak(bars, |bars|);
    assert bars[..|bars|] == bars;
  }

  /** The bars as they are computed, and as they are stored. */
  ghost predicate AreBars(bars: seq<real>, counts: Counts, total: int, buckets: int, double: real -> real)
    requires buckets > 0
  {
    |bars| == buckets
    && forall b {:trigger Average(counts, b, total, buckets)} :: 0 <= b < |bars| ==>
         bars[b] == double(Average(counts, b, total, buckets))
  }

  ghost predicate AreStored(stored: seq<real>, bars: seq<real>, single: real -> real) {
    |stored| == |bars| && forall b {:trigger single(bars[b])} :: 0 <= b < |bars| ==> stored[b] == single(bars[b])
  }

  method FillBars(
    counts: Counts, totalPieces: int, avg: array<real>, double: real -> real, single: real -> real,
    ghost bars: seq<real>, ghost stored: seq<real>
  ) returns (max: real)
    requires avg.Length > 0 && totalPieces > 0 && double(0.0) == 0.0
    requires AreBars(bars, counts, totalPieces, avg.Length, double) && AreStored(stored, bars, single)
    modifies avg
    ensures avg[..] == stored && max == PeakOf(bars, |bars|)
  {
    max := 0.0;
    var b := 0;
    while b < avg.Length
      invariant 0 <= b <= avg.Length
      invariant forall k :: 0 <= k < b ==> avg[k] == stored[k]
      invariant max == PeakOf(bars, b)
    {
      max := TakeBar(counts, b, totalPieces, avg, max, double, single, bars, stored);
      b := b + 1;
    }
  }

  /** One turn of the loop: the bar is stored, and compared before it is. */
  method TakeBar(
    counts: Counts, b: nat, totalPieces: int, avg: array<real>, max: real, double: real -> real, single: real -> real,
    ghost bars: seq<real>, ghost stored: seq<real>
  ) returns (larger: real)
    requires b < avg.Length && totalPieces > 0 && double(0.0) == 0.0
    requires AreBars(bars, counts, totalPieces, avg.Length, double) && AreStored(stored, bars, single)
    modifies avg
    ensures avg[b] == stored[b] && larger == if bars[b] > max then bars[b] else max
    ensures forall k :: 0 <= k < avg.Length && k != b ==> avg[k] == old(avg[k])
  {
    var a := BucketAverage(counts, b, totalPieces, avg.Length, double);
    assert a == bars[b];
    avg[b] := single(a);
    larger := if a > max then a else max;
  }

  lemma NonNegativeBars(averages: seq<real>, double: real -> real)
    requires IsRounding(double) && forall k :: 0 <= k < |averages| ==> averages[k] >= 0.0
    ensures forall k :: 0 <= k < |averages| ==> Rounded(averages, double)[k] >= 0.0
  {
    forall k | 0 <= k < |averages| ensures Rounded(averages, double)[k] >= 0.0 {
      assert double(0.0) <= double(averages[k]);
    }
  }

  /** The largest of the first `n` bars, 0 if there are none. */
  ghost function PeakOf(bars: seq<real>, n: nat): real
    requires n <= |bars|
  {
    if n == 0 then 0.0 else if bars[n - 1] > PeakOf(bars, n - 1) then bars[n - 1] else PeakOf(bars, n - 1)
  }

  lemma {:induction false} PeakOfIsPeak(bars: seq<real>, n: nat)
    requires n <= |bars| && forall k :: 0 <= k < |bars| ==> bars[k] >= 0.0
    ensures IsPeak(bars[..n], PeakOf(bars, n))
  {
    if n == 0 {
    } else {
      PeakOfIsPeak(bars, n - 1);
      assert bars[..n] == bars[..n - 1] + [bars[n - 1]];
    }
  }

  /** Against the stored bars the maximum is exact up to the last rounding: none is above it and one is at it. */
  lemma PeakOfStoredBars(bars: seq<real>, max: real, single: real -> real)
    requires IsPeak(bars, max) && IsRounding(single)
    ensures IsPeak(Rounded(bars, single), single(max))
  {
    if bars != [] {
      var i :| 0 <= i < |bars| && bars[i] == max;
      assert Rounded(bars, single)[i] == single(max);
    }
  }

  // --- Distributed copies -----------------------------------------------------

  function MinOf(counts: Counts): nat
    requires counts != []
  {
    if |counts| == 1 then counts[0] as nat
    else
      var rest, last := MinOf(counts[..|counts| - 1]), counts[|counts| - 1] as nat;
      if last < rest then last else rest
  }

  function Above(counts: Counts, floor: nat): nat {
    if counts == [] then 0
    else Above(counts[..|counts| - 1], floor) + if counts[|counts| - 1] as nat > floor then 1 else 0
  }

  /** The rarest piece's count plus the share of pieces above it. */
  function Copies(counts: Counts): real {
    if counts == [] then 0.0 else MinOf(counts) as real + Above(counts, MinOf(counts)) as real / |counts| as real
  }

  method DistributedCopies(counts: Counts, totalPieces: int) returns (copies: real)
    ensures copies == if totalPieces <= 0 then 0.0
                      else Copies(counts[..if totalPieces < |counts| then totalPieces else |counts|])
  {
    var n := if totalPieces < |counts| then totalPieces else |counts|;
    if n <= 0 {
      return 0.0;
    }
    var min: nat := counts[0] as nat;
    var i := 1;
    while i < n
      invariant 1 <= i <= n && min == MinOf(counts[..i])
    {
      assert counts[..i + 1][..i] == counts[..i];
      min := if counts[i] as nat < min then counts[i] as nat else min;
      i := i + 1;
    }
    var above := 0;
    i := 0;
    while i < n
      invariant 0 <= i <= n && above == Above(counts[..i], min)
    {
      assert counts[..i + 1][..i] == counts[..i];
      if counts[i] as nat > min {
        above := above + 1;
      }
      i := i + 1;
    }
    return min as real + above as real / n as real;
  }

  lemma {:induction false} MinIsLeast(counts: Counts) returns (at: nat)
    requires counts != []
    ensures at < |counts| && counts[at] as nat == MinOf(counts)
    ensures forall i :: 0 <= i < |counts| ==> MinOf(counts) <= counts[i] as nat
  {
    if |counts| == 1 {
      at := 0;
    } else {
      at := MinIsLeast(counts[..|counts| - 1]);
      if (counts[|counts| - 1] as nat) < MinOf(counts[..|counts| - 1]) { at := |counts| - 1; }
    }
  }

  lemma {:induction false} AboveMissesFloor(counts: Counts, floor: nat, at: nat)
    requires at < |counts| && counts[at] as nat <= floor
    ensures Above(counts, floor) < |counts|
  {
    AboveBounds(counts[..|counts| - 1], floor);
    if at < |counts| - 1 { AboveMissesFloor(counts[..|counts| - 1], floor, at); }
  }

  lemma {:induction false} AboveBounds(counts: Counts, floor: nat)
    ensures Above(counts, floor) <= |counts|
  {
    if counts == [] {
    } else {
      AboveBounds(counts[..|counts| - 1], floor);
    }
  }

  /** A whole number of copies is what the rarest piece has; the rest is a proper fraction. */
  lemma CopiesRange(counts: Counts)
    requires counts != []
    ensures MinOf(counts) as real <= Copies(counts) < MinOf(counts) as real + 1.0
  {
    var at := MinIsLeast(counts);
    AboveMissesFloor(counts, MinOf(counts), at);
    ProperFraction(Above(counts, MinOf(counts)), |counts|);
  }

  lemma ProperFraction(n: nat, d: nat)
    requires n < d
    ensures 0.0 <= n as real / d as real < 1.0
  {}

  lemma {:induction false} AboveMono(a: Counts, b: Counts, floor: nat)
    requires |a| == |b| && forall i :: 0 <= i < |a| ==> a[i] <= b[i]
    ensures Above(a, floor) <= Above(b, floor)
  {
    if a == [] {
    } else {
      AboveMono(a[..|a| - 1], b[..|b| - 1], floor);
    }
  }

  lemma QuotientMono(m: nat, n: nat, d: nat)
    requires m <= n && d > 0
    ensures m as real / d as real <= n as real / d as real
  {}

  /** Raising any pieces' peer counts never lowers the copies. */
  lemma CopiesMonotone(a: Counts, b: Counts)
    requires |a| == |b| && forall i :: 0 <= i < |a| ==> a[i] <= b[i]
    ensures Copies(a) <= Copies(b)
  {
    if a != [] {
      MinMono(a, b);
      if MinOf(a) == MinOf(b) {
        AboveMono(a, b, MinOf(a));
        QuotientMono(Above(a, MinOf(a)), Above(b, MinOf(a)), |a|);
      } else {
        CopiesRange(a);
        CopiesRange(b);
      }
    }
  }

  lemma MinMono(a: Counts, b: Counts)
    requires a != [] && |a| == |b| && forall i :: 0 <= i < |a| ==> a[i] <= b[i]
    ensures MinOf(a) <= MinOf(b)
  {
    var i := MinIsLeast(a);
    var j := MinIsLeast(b);
  }

  lemma {:induction false} AboveShift(a: Counts, b: Counts, floor: nat)
    requires |a| == |b| && forall i :: 0 <= i < |a| ==> b[i] as nat == a[i] as nat + 1
    ensures Above(b, floor + 1) == Above(a, floor)
  {
    if a == [] {
    } else {
      AboveShift(a[..|a| - 1], b[..|b| - 1], floor);
    }
  }

  /** One more peer for every piece is exactly one more copy. */
  lemma CopiesShift(a: Counts, b: Counts)
    requires a != [] && |a| == |b| && forall i :: 0 <= i < |a| ==> b[i] as nat == a[i] as nat + 1
    ensures Copies(b) == Copies(a) + 1.0
  {
    var i := MinIsLeast(a);
    var j := MinIsLeast(b);
    assert MinOf(b) == MinOf(a) + 1;
    AboveShift(a, b, MinOf(a));
  }
}
