// The "Ticket Price Distribution" chart: ticketed rows cut into nine fixed price
// ranges, closed on the left and open on the right, the last one unbounded.

module PriceBins {
  import opened Wrappers
  import opened Records
  import opened Aggregation

  /** Lower edge of each range; range i is [BinEdges[i], BinEdges[i + 1]) and the last
      one is [100000, infinity). */
  const BinEdges: seq<int> := [0, 5000, 10000, 15000, 20000, 30000, 40000, 60000, 100000]

  const BinLabels: seq<string> :=
    ["0–5K", "5K–10K", "10K–15K", "15K–20K", "20K–30K",
     "30K–40K", "40K–60K", "60K–100K", "100K+"]

  const BinCount: nat := 9

  predicate InBin(p: int, i: int) {
    0 <= i < BinCount && BinEdges[i] <= p && (i == BinCount - 1 || p < BinEdges[i + 1])
  }

  /** The highest range at or below index i whose lower edge is at most p. */
  function FindBin(p: int, i: nat): (r: Option<nat>)
    requires i < BinCount
    ensures r.None? <==> p < BinEdges[0]
    ensures r.Some? ==> r.value <= i && BinEdges[r.value] <= p
    ensures r.Some? && r.value < i ==> p < BinEdges[r.value + 1]
  {
    if BinEdges[i] <= p then Some(i)
    else if i == 0 then None
    else FindBin(p, i - 1)
  }

  /** The range a price falls in, None for a negative price (pd.cut with right=False). */
  function PriceBin(p: int): (r: Option<nat>)
    ensures r.None? <==> p < 0
    ensures r.Some? ==> r.value < BinCount
    ensures forall i :: InBin(p, i) <==> r == Some(i)
  {
    var r := FindBin(p, BinCount - 1);
    assert forall i :: InBin(p, i) ==> r == Some(i) by {
      forall i | InBin(p, i) ensures r == Some(i) {
        BinUnique(p, i, r.value);
      }
    }
    r
  }

  /** Ranges do not overlap. */
  lemma BinUnique(p: int, i: int, j: int)
    requires InBin(p, i) && InBin(p, j)
    ensures i == j
  {
    if i < j {
      EdgesIncreasing(i + 1, j);
    } else if j < i {
      EdgesIncreasing(j + 1, i);
    }
  }

  lemma EdgesIncreasing(i: int, j: int)
    requires 0 <= i <= j < BinCount
    ensures BinEdges[i] <= BinEdges[j]
  {
  }

  lemma BinExamples()
    ensures PriceBin(0) == Some(0) && PriceBin(4999) == Some(0)
    ensures PriceBin(5000) == Some(1) && PriceBin(59999) == Some(6)
    ensures PriceBin(100000) == Some(8) && PriceBin(2500000) == Some(8)
    ensures PriceBin(-1) == None
  {
  }

  /** The range of a row's Total Price; rows without a price fall in no range. */
  function RowBin(b: Booking): (r: Option<nat>)
    ensures r.Some? <==> NonNegativePrice(b)
    ensures r.Some? ==> InBin(b.totalPrice.value, r.value)
  {
    match b.totalPrice
    case None => None
    case Some(p) => PriceBin(p)
  }

  /** The sum of a measure over the rows falling in range i. */
  function BinTotal(t: seq<Booking>, i: nat, m: Measure): int
    decreases |t|
  {
    if |t| == 0 then 0
    else BinTotal(t[..|t| - 1], i, m) + (if RowBin(t[|t| - 1]) == Some(i) then ValueOf(m, t[|t| - 1]) else 0)
  }

  predicate NonNegativePrice(b: Booking) {
    b.totalPrice.Some? && b.totalPrice.value >= 0
  }

  /** The sum of a measure over the rows with a non-negative Total Price. */
  function BinnedTotal(t: seq<Booking>, m: Measure): int
    decreases |t|
  {
    if |t| == 0 then 0
    else BinnedTotal(t[..|t| - 1], m) + (if NonNegativePrice(t[|t| - 1]) then ValueOf(m, t[|t| - 1]) else 0)
  }

  /** One bar of the chart: the range's label, how many rows fall in it and their
      commission (app.py:209-217). */
  datatype BinSummary = BinSummary(priceRange: string, ticketCount: int, totalCommission: int)

  /** All nine ranges, in order, empty ones included. Every row with a non-negative
      price is counted in exactly one bar, so the bars add up to those rows' count
      and commission. */
  function RangeCounts(ticketed: seq<Booking>): (r: seq<BinSummary>)
    ensures |r| == BinCount
    ensures forall i :: 0 <= i < BinCount ==>
      r[i] == BinSummary(BinLabels[i], BinTotal(ticketed, i, Rows), BinTotal(ticketed, i, Commission))
    ensures SumTicketCounts(r) == BinnedTotal(ticketed, Rows)
    ensures SumCommissions(r) == BinnedTotal(ticketed, Commission)
  {
    var r := seq(BinCount, i requires 0 <= i < BinCount =>
      BinSummary(BinLabels[i], BinTotal(ticketed, i, Rows), BinTotal(ticketed, i, Commission)));
    BarsPrefix(ticketed, r, BinCount);
    assert r[..BinCount] == r;
    BinsCoverBinned(ticketed, Rows);
    BinsCoverBinned(ticketed, Commission);
    r
  }

  function SumTicketCounts(r: seq<BinSummary>): int
    decreases |r|
  {
    if |r| == 0 then 0 else SumTicketCounts(r[..|r| - 1]) + r[|r| - 1].ticketCount
  }

  function SumCommissions(r: seq<BinSummary>): int
    decreases |r|
  {
    if |r| == 0 then 0 else SumCommissions(r[..|r| - 1]) + r[|r| - 1].totalCommission
  }

  /** The sum of BinTotal over ranges 0 .. k-1. */
  function BinsUpTo(t: seq<Booking>, k: nat, m: Measure): int {
    if k == 0 then 0 else BinsUpTo(t, k - 1, m) + BinTotal(t, k - 1, m)
  }

  /** Adding one row to the table adds its value to exactly the range it falls in. */
  lemma {:induction false} BinsUpToStep(t: seq<Booking>, k: nat, m: Measure)
    requires |t| > 0
    ensures BinsUpTo(t, k, m) == BinsUpTo(t[..|t| - 1], k, m) +
      (if RowBin(t[|t| - 1]).Some? && RowBin(t[|t| - 1]).value < k then ValueOf(m, t[|t| - 1]) else 0)
  {
    if k > 0 {
      BinsUpToStep(t, k - 1, m);
    }
  }

  /** The ranges together cover exactly the rows with a non-negative price. */
  lemma {:induction false} BinsCoverBinned(t: seq<Booking>, m: Measure)
    ensures BinsUpTo(t, BinCount, m) == BinnedTotal(t, m)
    decreases |t|
  {
    if |t| > 0 {
      var init, b := t[..|t| - 1], t[|t| - 1];
      BinsCoverBinned(init, m);
      BinsUpToStep(t, BinCount, m);
      assert BinnedTotal(t, m) == BinnedTotal(init, m) + (if RowBin(b).Some? then ValueOf(m, b) else 0);
      assert RowBin(b).Some? ==> RowBin(b).value < BinCount;
    } else {
      BinsOfEmpty(t, BinCount, m);
    }
  }

  lemma {:induction false} BinsOfEmpty(t: seq<Booking>, k: nat, m: Measure)
    requires |t| == 0
    ensures BinsUpTo(t, k, m) == 0
  {
    if k > 0 {
      BinsOfEmpty(t, k - 1, m);
    }
  }

  /** The first k bars add up to the first k range totals. */
  lemma {:induction false} BarsPrefix(t: seq<Booking>, r: seq<BinSummary>, k: nat)
    requires |r| == BinCount && k <= BinCount
    requires forall i :: 0 <= i < BinCount ==>
      r[i] == BinSummary(BinLabels[i], BinTotal(t, i, Rows), BinTotal(t, i, Commission))
    ensures SumTicketCounts(r[..k]) == BinsUpTo(t, k, Rows)
    ensures SumCommissions(r[..k]) == BinsUpTo(t, k, Commission)
  {
    if k > 0 {
      BarsPrefix(t, r, k - 1);
      assert r[..k][..k - 1] == r[..k - 1];
    }
  }

  /** When every row has a non-negative price, as for plausible ticket data, the
      chart loses no row: the bars hold every ticket and the whole commission. */
  lemma {:induction false} AllPricedRowsBinned(t: seq<Booking>, m: Measure)
    requires forall i :: 0 <= i < |t| ==> NonNegativePrice(t[i])
    ensures BinnedTotal(t, m) == Total(t, m)
    decreases |t|
  {
    if |t| > 0 {
      assert forall i :: 0 <= i < |t| - 1 ==> t[..|t| - 1][i] == t[i];
      AllPricedRowsBinned(t[..|t| - 1], m);
    }
  }

  /** Adding a row with a negative price to a table changes no bar and no binned total. */
  lemma NegativePriceUnbinned(t: seq<Booking>, b: Booking, m: Measure)
    requires b.totalPrice.Some? && b.totalPrice.value < 0
    ensures forall i: nat :: BinTotal(t + [b], i, m) == BinTotal(t, i, m)
    ensures BinnedTotal(t + [b], m) == BinnedTotal(t, m)
  {
    assert (t + [b])[..|t + [b]| - 1] == t;
  }

  /** When no ticketed price is negative, the bars hold every ticketed row and add up
      to the headline Total Commission. */
  lemma BarsMatchHeadlines(ticketed: seq<Booking>)
    requires forall i :: 0 <= i < |ticketed| ==> NonNegativePrice(ticketed[i])
    ensures SumTicketCounts(RangeCounts(ticketed)) == |ticketed|
    ensures SumCommissions(RangeCounts(ticketed)) == TotalCommission(ticketed)
  {
    AllPricedRowsBinned(ticketed, Rows);
    AllPricedRowsBinned(ticketed, Commission);
    RowsTotalIsLength(ticketed);
  }
}
