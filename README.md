# Flight booking dashboard: filter-and-aggregate pipeline in Dafny

This project models the data pipeline behind a flight-booking dashboard (`app.py`). The
pipeline has these stages:

1. Clean the loaded booking table:
   - drop rows without a date;
   - derive Year, Month and Month_Name from the date;
   - turn null-sentinel strings in the numeric columns into nulls and coerce the rest to numbers;
   - default a missing passenger count to 0.
2. Apply the sidebar's year and month selection. An empty selection does not filter on that facet.
3. Keep the ticketed rows: the ticket string, lower-cased, is not `"no tickets"`, and both price and commission are present.
4. Compute the dashboard's outputs:
   - the headline metrics;
   - the grouped, summed, sorted and truncated summaries (top destinations, top routes, commission by flight type, payment method and airport, sales and booking volume by airport);
   - the fixed nine-range price histogram.

Modules, one file each:

- `Wrappers`: `Option`.
- `Records`: the raw row, the cleaned booking, dates and the month-name table.
- `Cleaning`: the row-by-row cleaning pass, `Clean`, specified by `Cleaned`.
- `Filtering`: row selection, the imperative `ApplyFilters` and `TicketedSubset` specified by `Keep`;
  order-preserving subsequences; the year and month listings.
- `Ranking`: the descending sort and `head(n)`.
- `Aggregation`: group keys, group totals, the named summaries and the headline totals.
- `PriceBins`: the histogram.
- `Dashboard`: the whole flow from the loaded table to the headline metrics, plus a two-row end-to-end scenario.

How the model represents the data:

- Money and passenger counts are unbounded integers.
- Each nullable column is an `Option`.
- A raw numeric cell is a `Cell`: a number, a text, or blank.
- Each filter is a first-order criterion.
- The stateful stages (the column rewrites of the cleaning pass and the step-by-step rebinding of the filtered table) are methods with loops. Each is proved equal to a recursive specification function. The properties are proved as lemmas about that function.

## Model

| member | source | states |
|---|---|---|
| Records.MonthNumberOf | app.py:59 | The month that a full English month name parses to (the `%B` parse used as the listing's sort key), or None exactly when no month has that name. |
| Records.MonthNameRoundTrip | app.py:59 | Parsing a month's own name gives back that month, so the twelve names are distinct. |
| Cleaning.ParseNumber | app.py:40 | Coercion succeeds exactly on optionally signed decimal numerals; everything else becomes null. |
| Cleaning.NormalizeNumeric | app.py:37-40 | One numeric cell after replace-then-coerce: each of "NaN", "nan", "NAN", "Null", "NULL", "" and " " ends up null, and the result always equals coercion alone, because no sentinel is a numeral. |
| Cleaning.ReplaceSentinel | app.py:39 | A cell becomes null exactly when it is blank or one of the listed sentinels; every other cell is kept. |
| Cleaning.ToNumeric | app.py:40 | Coercion gives a number exactly for a numeric cell or a numeral text, and a numeric cell keeps its value. |
| Cleaning.DigitsRoundTrip | app.py:40 | Reading back the decimal digits of n gives n. |
| Cleaning.DecimalTextCoerces | app.py:40 | The decimal text of any integer coerces back to that integer. |
| Cleaning.PassengerCleaning | app.py:36-44 | A blank, sentinel or non-numeric passenger cell becomes 0, and a numeric one keeps its value. |
| Cleaning.FillPassengers | app.py:44 | A null passenger count becomes 0, and a present one keeps its value. |
| Cleaning.CleanRow | app.py:26-44 | A cleaned row carries its date, and its Year, Month and Month_Name are those of that date. |
| Cleaning.Cleaned | app.py:26-28 | Cleaning never adds rows, and every surviving row is date-consistent. |
| Cleaning.Clean | app.py:26-44 | The row-by-row cleaning pass yields exactly `Cleaned(raw)`, whose rows are all date-consistent. |
| Cleaning.CleanedRows | app.py:26-28 | One row survives per dated raw row. A dated raw row survives cleaned, and every survivor comes from a dated raw row. |
| Cleaning.CleanedKeepsDatedTable | app.py:26-28 | When every row has a date, cleaning drops nothing. |
| Cleaning.CleanedAppend | app.py:26-44 | Rows are cleaned independently of one another: cleaning a concatenation is the concatenation of the cleaned parts. |
| Filtering.Keep | app.py:70-73 | Selecting rows never makes the table longer. |
| Filtering.KeepIsSubsequence | app.py:70-73 | A selection is an order-preserving subsequence of its input. |
| Filtering.KeepMultiplicity | app.py:70-73 | Each admitted row occurs as often as in the input, and each rejected row never. |
| Filtering.KeepMembers | app.py:70-73 | A row is selected if and only if it is in the input and admitted. |
| Filtering.KeepEverything | app.py:70-73 | When every row is admitted, selection returns the input unchanged. |
| Filtering.KeepCompose | app.py:70-73 | Selecting by one criterion and then another equals selecting by their conjunction. |
| Filtering.SubsequenceTransitive | app.py:70-92 | A subsequence of a subsequence is a subsequence. |
| Filtering.SelectRows | app.py:71 | A loop over the rows keeps exactly `Keep(t, c)`. |
| Filtering.ApplyFilters | app.py:68-73 | The filtered table is an order-preserving subsequence of the table. A row is in it iff its Year is selected (or no year is) and its Month_Name is selected (or no month is). Each kept row keeps its multiplicity. |
| Filtering.EmptySelectionPassesThrough | app.py:70-73 | With both selections empty, the filtered table is the cleaned table. |
| Filtering.TicketedSubset | app.py:89-92 | The ticketed table is a subsequence of the filtered table. A row is in it iff it is in the filtered table, its lower-cased ticket string is not "no tickets", and it has both a price and a commission. |
| Filtering.LowerCases | app.py:89 | Lower-casing (`Lower`, which keeps the length) leaves no upper-case ASCII letter, maps each upper-case ASCII letter to its lower-case form and keeps every other character except the Kelvin sign. |
| Filtering.LowerIdempotent | app.py:89 | Lower-casing twice is lower-casing once. |
| Filtering.TicketSpellings | app.py:89 | Through `TicketText` (`astype(str)`) and `Lower`: "No Tickets", "NO TICKETS" and "no tickets" all match the sentinel, while "No Ticket", " no tickets" and a missing cell (read as "nan") do not, so those rows are kept. |
| Filtering.TicketedWithinTable | app.py:68-92 | The ticketed table is a subsequence of the cleaned table. |
| Filtering.SortedDistinct | app.py:50 | The distinct values of a list, strictly increasing. |
| Filtering.AvailableYears | app.py:50 | The distinct years of the table, in strictly descending order. |
| Filtering.AvailableMonthsMembers | app.py:59 | The month listing holds exactly the month names that occur in the table. |
| Filtering.AvailableMonths | app.py:59 | Every listed name parses to a month, and the listing is in strictly increasing calendar order. |
| Filtering.RowIsListed | app.py:50-59 | Every row's year and month name are offered in the sidebar. |
| Filtering.ListedSelectionPassesThrough | app.py:68-73 | A year and month selection that lists every row's year and month name keeps the whole table. |
| Filtering.DefaultSelectionPassesThrough | app.py:50-73 | Under the sidebar's default selection (every listed year and month), the filter returns the table unchanged. |
| Ranking.SortDesc | app.py:132 | The sort is in non-increasing order of value and is a permutation of its input. |
| Ranking.TopN | app.py:132-133 | Sort-then-head(n) has at most n entries, in non-increasing order, drawn from the input. It is n long or holds the whole input. |
| Ranking.TopNDominates | app.py:132-133 | No entry that head(n) leaves out is larger than an entry it keeps. |
| Ranking.TopNKeepsDistinctKeys | app.py:130-133 | Truncating a ranking with distinct keys keeps the keys distinct. |
| Ranking.SortDescSum | app.py:132 | Sorting does not change the sum of the values. |
| Aggregation.GroupKeys | app.py:130 | The group keys are distinct and are exactly the non-null keys in the column. |
| Aggregation.GroupBy | app.py:130-131 | The grouped sums have distinct keys, and they are exactly the pairs of a present key and its group's total. |
| Aggregation.Summary | app.py:129-135 | Any group/sum/sort/head(n) summary has at most n rows, is in non-increasing order, lists each key once with its own total, and leaves out a key only when it is full and that key's total is no larger than any kept one. |
| Aggregation.Ranked | app.py:181-187 | A group/sum/sort ranking without head lists every present key exactly once, with its total, in non-increasing order. |
| Aggregation.GroupByPartitionsTotal | app.py:130-131 | The group totals plus the total of the rows with a null key equal the column total. |
| Aggregation.RankedPartitionsTotal | app.py:181-187 | The same holds for the sorted ranking. |
| Aggregation.AbsentKeyTotal | app.py:130-131 | A key that no row has totals 0. |
| Aggregation.RouteKey | app.py:114 | The route is null exactly when From or To is null; otherwise it is From, then the three-character separator, then To. |
| Aggregation.RouteKeyInjective | app.py:114 | When the origins contain no arrow, a route determines its origin and destination. |
| Aggregation.RouteGroupIsPairTotal | app.py:151-161 | While no origin contains the arrow, a route's group total in the route table is the sum over exactly the rows with that (From, To) pair. |
| Aggregation.DropNullFlightTypes | app.py:181-187 | Dropping rows with a null Type first does not change the per-type ranking. |
| Aggregation.TopDestinations | app.py:129-135 | The top 10 destinations by total price, as a top summary. |
| Aggregation.TopRoutesByCommission | app.py:151-161 | The top 15 routes by commission, as a top summary. Each route also carries the sums of its price and passengers. |
| Aggregation.CommissionByFlightType | app.py:181-187 | Every flight type ranked by commission. Together with the typeless rows it accounts for the whole commission. |
| Aggregation.CommissionByPaymentMethod | app.py:239-245 | The top 10 payment methods by commission, as a top summary. |
| Aggregation.PaymentMethodUsage | app.py:258 | Every payment method ranked by row count. The counts plus the rows without a method add up to the row count. |
| Aggregation.CommissionByAirport | app.py:277-283 | The top 10 airports by commission, as a top summary. |
| Aggregation.SalesByAirport | app.py:298-304 | The top 10 airports by total price, as a top summary. |
| Aggregation.AirportBookings | app.py:319-324 | The top 15 airports by row count, as a top summary. |
| Aggregation.RowsTotalIsLength | app.py:258 | Counting rows gives the number of rows. |
| Aggregation.TotalAppend | app.py:100-106 | Column totals add up over a concatenation of tables. |
| Aggregation.MaxTicketPrice | app.py:101 | None iff no row has a price; otherwise a price that some row has and that no row's price exceeds. |
| Aggregation.TotalBookings | app.py:99 | Total Bookings is the number of filtered rows, which is what counting them gives. |
| Aggregation.TotalTicketedPassengers | app.py:100 | Total Ticketed Passengers equals the passenger totals of every route (the full grouping by Route) plus those of the rows without a route. The 15-row top-routes table holds only part of this sum. |
| Aggregation.TotalCommission | app.py:105 | Total Commission equals the sum of the commission-by-type chart plus the commission of the rows without a type. |
| Aggregation.TotalSales | app.py:106 | Total Sales equals the sales of all airports plus those of the rows without an airport. |
| PriceBins.FindBin | app.py:205-207 | The scan over the lower edges finds the last edge at or below the price, or none when the price is below 0. |
| PriceBins.PriceBin | app.py:205-207 | A negative price has no range. Otherwise the price lies in exactly the range returned, one of the nine. |
| PriceBins.BinUnique | app.py:205-207 | The ranges do not overlap. |
| PriceBins.BinExamples | app.py:205-207 | 0 and 4999 fall in "0–5K", 5000 in "5K–10K", 59999 in "40K–60K", and 100000 and more in "100K+"; -1 falls in no range. |
| PriceBins.RowBin | app.py:207 | A row has a range iff its price is present and non-negative, and then its price lies in that range. |
| PriceBins.RangeCounts | app.py:207-217 | One bar per range, all nine in order with their labels. Each holds the count and the commission of the rows in that range. The bars' ticket counts add up to the number of rows with a non-negative price, and their commissions to those rows' commission. |
| PriceBins.BinsCoverBinned | app.py:207-215 | Summed over the nine ranges, a measure equals its sum over the rows with a non-negative price. |
| PriceBins.AllPricedRowsBinned | app.py:207-215 | When every price is non-negative, the bars account for every row and the whole of any column total. |
| PriceBins.NegativePriceUnbinned | app.py:207 | Adding a row with a negative price to any table changes no bar and no binned total. |
| PriceBins.BarsMatchHeadlines | app.py:207-215 | When no ticketed price is negative, the bars' counts add up to the number of ticketed rows and their commissions to the headline Total Commission. |
| Dashboard.Run | app.py:26-106 | The flow yields the filtered and ticketed tables and each headline metric. Ticketed count ≤ Total Bookings ≤ dated rows, with equality when nothing is selected. Every ticketed row is dated and priced. |
| Dashboard.DefaultSelectionCountsEveryDatedRow | app.py:50-99 | Under the default selection, Total Bookings is the number of dated rows. |
| Dashboard.TwoRowScenario | app.py:26-207 | On two January 2024 rows, one marked "No Tickets": both are filtered in, only the first is ticketed, and "0–5K" counts 1. |

## Left out

- Loading: the Excel download and its cache (app.py:11-23) are I/O and are not modelled. The model starts from the loaded rows.
- The Streamlit layout, sidebar messages, metric formatting and all Plotly charts are UI and are not modelled. These include the flight-type pie (app.py:121-124) and the payment-method pie percentages (app.py:260-268).
- Dates: `pd.to_datetime` parsing is not modelled. A raw row carries an already-parsed date or None. Month names come from a fixed English table, standing in for `strftime("%B")` and the `%B` parse used to order the month listing (app.py:59).
- Numbers: prices, commissions and passengers are unbounded integers. Floats, the average ticket price (app.py:107) and the histogram's mean price (app.py:214) are not modelled.
- Cleaning.ParseNumber: only optionally signed decimal integers coerce. Decimal points, exponents, surrounding whitespace and `inf` do not.
- Cleaning.FillPassengers: `astype(int)` truncation of a fractional passenger count is not modelled, because all numbers are integers here.
- Filtering.LowerCases: lower-casing covers ASCII letters and the Kelvin sign, not the full Unicode case mapping of `str.lower`. For the only use, the comparison with "no tickets", this is exact: the Kelvin sign is the one non-ASCII character whose lower-case form is a single ASCII letter.
- `RouteKey`: the Route column that app.py:114 adds to the ticketed table is modelled as a key computed from From and To, not as a stored column.
- Dashboard.Run: a selection is a sequence of years and month names. The widgets producing it are not modelled.
- Aggregation.MaxTicketPrice: it returns None on an empty table, where the source formats NaN.
- Tie order: the source's sorts (`sort_values`, `value_counts`) promise no order among equal values, so no tie order is stated. `SortDesc` is one particular stable insertion sort. The summaries' contracts hold for any tie order.
- Missing-column guards (app.py:38, 43) are not modelled: every column is assumed present.
- Histogram: `groupby` on the categorical range column keeps empty ranges, which is pandas' default (`observed=False`) before version 3.0. `RangeCounts` always has all nine.
- Passenger counts: after cleaning they are kept as read, so a negative count stays negative. Nothing in app.py:42-44 clamps at 0. A count of at least 0 after cleaning would be the intended invariant, but the code does not establish it, and the model follows the code.
- Stable sorting: ties keeping their input order would also be a natural promise, but the code uses pandas' default sort, which does not make it. The model follows the code and states no tie order.
- Histogram total: the bar counts add up to the ticketed row count only when no price is negative. A negative price falls outside every range in `pd.cut`. `RangeCounts` states the general sum, and `BarsMatchHeadlines` gives the equality when every price is non-negative.
