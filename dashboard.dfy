// The dashboard's main flow: clean the loaded table, apply the sidebar's year and
// month selection, keep the ticketed rows, and report the headline metrics.

module Dashboard {
  import opened Wrappers
  import opened Records
  import opened Cleaning
  import opened Filtering
  import opened Aggregation
  import opened PriceBins

  /** The "Key Metrics" row (app.py:99-106), the average ticket price aside. */
  datatype Headlines = Headlines(
    totalBookings: nat,
    ticketedPassengers: int,
    maxTicketPrice: Option<int>,
    totalCommission: int,
    totalSales: int)

  /** Runs the flow of app.py:26-106 on a loaded table and a sidebar selection. */
  method Run(raw: seq<RawRow>, selectedYears: seq<int>, selectedMonths: seq<string>)
    returns (filtered: seq<Booking>, ticketed: seq<Booking>, h: Headlines)
    ensures filtered == Keep(Cleaned(raw), Selection(selectedYears, selectedMonths))
    ensures ticketed == Keep(filtered, Ticketed)
    ensures h.totalBookings == |filtered|
    ensures h.maxTicketPrice == MaxTicketPrice(ticketed)
    ensures h.totalCommission == Total(ticketed, Commission) && h.totalSales == Total(ticketed, TotalPrice)
    ensures |ticketed| <= h.totalBookings <= DatedCount(raw)
    ensures |selectedYears| == 0 && |selectedMonths| == 0 ==> h.totalBookings == DatedCount(raw)
    ensures h.ticketedPassengers == Total(ticketed, Passengers)
    ensures forall b :: b in ticketed ==> DateConsistent(b) && b.totalPrice.Some? && b.commission.Some?
  {
    var table := Clean(raw);
    filtered := ApplyFilters(table, selectedYears, selectedMonths);
    ticketed := TicketedSubset(filtered);
    h := Headlines(TotalBookings(filtered), TotalTicketedPassengers(ticketed), MaxTicketPrice(ticketed),
                   TotalCommission(ticketed), TotalSales(ticketed));
    CleanedRows(raw);
    if |selectedYears| == 0 && |selectedMonths| == 0 {
      EmptySelectionPassesThrough(table);
    }
  }

  /** The sidebar's default selection (every listed year and month) shows every
      dated row: Total Bookings is then the number of rows with a date. */
  lemma DefaultSelectionCountsEveryDatedRow(raw: seq<RawRow>)
    ensures |Keep(Cleaned(raw), Selection(AvailableYears(Cleaned(raw)), AvailableMonths(Cleaned(raw))))|
      == DatedCount(raw)
  {
    DefaultSelectionPassesThrough(Cleaned(raw));
    CleanedRows(raw);
  }

  const RowA := RawRow(Some(Date(2024, 1, 5)), Some("ABC123"), Some("Card"), Some("A"), Some("B"),
                       Some("X"), Some("Domestic"), Number(4000), Number(200), Number(1))
  const RowB := RawRow(Some(Date(2024, 1, 6)), Some("No Tickets"), Some("Card"), Some("A"), Some("B"),
                       Some("X"), Some("Domestic"), Blank, Text("NaN"), Blank)

  /** Cleaning keeps both rows (both have a date). */
  lemma ScenarioCleaned()
    ensures Cleaned([RowA, RowB]) == [CleanRow(RowA), CleanRow(RowB)]
  {
    assert [RowA, RowB][..1] == [RowA];
    assert [RowA][..0] == [];
  }

  /** The cleaned rows: both from January 2024, the first priced, the second with its
      sentinel commission and blank price made null. */
  lemma ScenarioRows()
    ensures CleanRow(RowA).year == 2024 && CleanRow(RowA).monthName == "January"
    ensures CleanRow(RowB).year == 2024 && CleanRow(RowB).monthName == "January"
    ensures CleanRow(RowA).totalPrice == Some(4000) && CleanRow(RowA).commission == Some(200)
    ensures CleanRow(RowB).totalPrice == None && CleanRow(RowB).commission == None
    ensures CleanRow(RowB).passengers == 0
  {
    assert "NaN" in NullSentinels;
  }

  /** Two January 2024 rows, one of them without tickets: filtering on 2024 and
      January keeps both, the ticketed table holds the first one only, and the
      "0–5K" bar counts it. */
  lemma TwoRowScenario()
    ensures |Keep(Cleaned([RowA, RowB]), Selection([2024], ["January"]))| == 2
    ensures Keep(Keep(Cleaned([RowA, RowB]), Selection([2024], ["January"])), Ticketed) == [CleanRow(RowA)]
    ensures RangeCounts([CleanRow(RowA)])[0].ticketCount == 1
  {
    ScenarioCleaned();
    ScenarioRows();
    var a, b := CleanRow(RowA), CleanRow(RowB);
    KeepEverything([a, b], Selection([2024], ["January"]));
    ScenarioTicketed(a, b);
    ScenarioBin(a);
  }

  lemma ScenarioTicketed(a: Booking, b: Booking)
    requires a.ticketNumbers == Some("ABC123") && a.totalPrice.Some? && a.commission.Some?
    requires b.totalPrice.None?
    ensures Keep([a, b], Ticketed) == [a]
  {
    assert Lower("ABC123") == "abc123";
    assert [a, b][..1] == [a];
    assert [a][..0] == [];
  }

  lemma ScenarioBin(a: Booking)
    requires a.totalPrice == Some(4000)
    ensures RangeCounts([a])[0].ticketCount == 1
  {
    assert PriceBin(4000) == Some(0);
    assert RowBin(a) == Some(0);
    assert [a][..0] == [];
    assert BinTotal([a], 0, Rows) == 1;
  }
}
