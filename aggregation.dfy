/** The group-by summaries of the ticketed table (app.py:114-324) and the headline
    totals (app.py:99-106). A group-by drops the rows whose key is null, adds up a
    measure per key (a missing number adds nothing), ranks the groups by their total,
    largest first, and keeps the first N. */
module Aggregation {
  import opened Wrappers
  import opened Records
  import opened Ranking
  import opened Filtering

  /** The separator of the Route column (app.py:114). */
  const RouteSeparator: string := " \U{2192} "

  /** `From + " → " + To`; null when either side is null. */
  function RouteKey(from: Option<string>, to: Option<string>): (r: Option<string>)
    ensures r.Some? <==> from.Some? && to.Some?
    ensures r.Some? ==> |r.value| == |from.value| + |RouteSeparator| + |to.value|
    ensures r.Some? ==> r.value[..|from.value|] == from.value && r.value[|from.value| + |RouteSeparator|..] == to.value
  {
    if from.Some? && to.Some? then Some(from.value + RouteSeparator + to.value) else None
  }

  /** The columns the summaries group by. */
  datatype Column = Destination | Route | FlightType | PaymentMethod | Airport

  function KeyOf(col: Column, b: Booking): Option<string> {
    match col
    case Destination => b.toAirport
    case Route => RouteKey(b.fromAirport, b.toAirport)
    case FlightType => b.flightType
    case PaymentMethod => b.paymentMethod
    case Airport => b.airport
  }

  /** What a summary adds up per row: one of the numeric columns, or 1 for counting rows. */
  datatype Measure = TotalPrice | Commission | Passengers | Rows

  function ValueOf(m: Measure, b: Booking): int {
    match m
    case TotalPrice => b.totalPrice.GetOr(0)
    case Commission => b.commission.GetOr(0)
    case Passengers => b.passengers
    case Rows => 1
  }

  /** Some row of t has key k in column col. */
  predicate HasKey(t: seq<Booking>, col: Column, k: string) {
    exists i :: 0 <= i < |t| && KeyOf(col, t[i]) == Some(k)
  }

  lemma HasKeyStep(t: seq<Booking>, col: Column)
    requires |t| > 0
    ensures forall k :: HasKey(t, col, k) <==>
      HasKey(t[..|t| - 1], col, k) || KeyOf(col, t[|t| - 1]) == Some(k)
  {
    var init := t[..|t| - 1];
    forall k | HasKey(t, col, k) ensures HasKey(init, col, k) || KeyOf(col, t[|t| - 1]) == Some(k) {
      var i :| 0 <= i < |t| && KeyOf(col, t[i]) == Some(k);
      if i < |t| - 1 { assert init[i] == t[i]; }
    }
    forall k | HasKey(init, col, k) ensures HasKey(t, col, k) {
      var i :| 0 <= i < |init| && KeyOf(col, init[i]) == Some(k);
      assert t[i] == init[i];
    }
  }

  /** The distinct non-null keys of column col, each once, in order of first occurrence. */
  function GroupKeys(t: seq<Booking>, col: Column): (ks: seq<string>)
    ensures forall i, j :: 0 <= i < j < |ks| ==> ks[i] != ks[j]
    ensures forall k :: k in ks <==> HasKey(t, col, k)
    decreases |t|
  {
    if |t| == 0 then []
    else
      var ks := GroupKeys(t[..|t| - 1], col);
      HasKeyStep(t, col);
      match KeyOf(col, t[|t| - 1])
      case Some(k) => if k in ks then ks else ks + [k]
      case None => ks
  }

  /** The sum of measure m over the rows of t whose key in column col is k. */
  function GroupTotal(t: seq<Booking>, col: Column, k: string, m: Measure): int
    decreases |t|
  {
    if |t| == 0 then 0
    else
      var last := t[|t| - 1];
      GroupTotal(t[..|t| - 1], col, k, m) + (if KeyOf(col, last) == Some(k) then ValueOf(m, last) else 0)
  }

  /** The sum of measure m over the rows of t whose key in column col is null. */
  function NullKeyTotal(t: seq<Booking>, col: Column, m: Measure): int
    decreases |t|
  {
    if |t| == 0 then 0
    else
      var last := t[|t| - 1];
      NullKeyTotal(t[..|t| - 1], col, m) + (if KeyOf(col, last).None? then ValueOf(m, last) else 0)
  }

  /** The sum of measure m over all rows of t. */
  function Total(t: seq<Booking>, m: Measure): int
    decreases |t|
  {
    if |t| == 0 then 0 else Total(t[..|t| - 1], m) + ValueOf(m, t[|t| - 1])
  }

  /** One summary entry per key of ks. */
  function EntriesFor(t: seq<Booking>, col: Column, m: Measure, ks: seq<string>): (g: seq<Entry>)
    ensures |g| == |ks|
    ensures forall i :: 0 <= i < |ks| ==> g[i] == Entry(ks[i], GroupTotal(t, col, ks[i], m))
  {
    if |ks| == 0 then [] else [Entry(ks[0], GroupTotal(t, col, ks[0], m))] + EntriesFor(t, col, m, ks[1..])
  }

  /** r is a top-n summary of t by column col and measure m: at most n entries, in
      non-increasing order, each key once, each a key of t with its own total; and a
      key of t that is left out means r is full and the left-out total is no larger
      than any kept one. */
  ghost predicate IsTopSummary(r: seq<Entry>, t: seq<Booking>, col: Column, m: Measure, n: nat) {
    && |r| <= n
    && SortedDesc(r)
    && DistinctKeys(r)
    && (forall e :: e in r ==> HasKey(t, col, e.key) && e.value == GroupTotal(t, col, e.key, m))
    && (forall k :: HasKey(t, col, k) && k !in KeysOf(r) ==>
          |r| == n && forall e :: e in r ==> GroupTotal(t, col, k, m) <= e.value)
  }

  /** r ranks every group of t: in non-increasing order, each key of t exactly once with its total. */
  ghost predicate IsFullRanking(r: seq<Entry>, t: seq<Booking>, col: Column, m: Measure) {
    && SortedDesc(r)
    && DistinctKeys(r)
    && (forall e :: e in r ==> HasKey(t, col, e.key) && e.value == GroupTotal(t, col, e.key, m))
    && (forall k :: HasKey(t, col, k) ==> k in KeysOf(r))
  }

  /** `groupby(col)[m].sum()`: one entry per non-null key, with the key's total. */
  function GroupBy(t: seq<Booking>, col: Column, m: Measure): (g: seq<Entry>)
    ensures DistinctKeys(g)
    ensures forall e :: e in g <==> HasKey(t, col, e.key) && e.value == GroupTotal(t, col, e.key, m)
  {
    var ks := GroupKeys(t, col);
    var g := EntriesFor(t, col, m, ks);
    forall e: Entry | HasKey(t, col, e.key) && e.value == GroupTotal(t, col, e.key, m) ensures e in g {
      var i :| 0 <= i < |ks| && ks[i] == e.key;
      assert g[i] == e;
    }
    g
  }

  /** The groups ranked by total, largest first (`sort_values(ascending=False)`):
      every key of t exactly once, with its total. */
  function Ranked(t: seq<Booking>, col: Column, m: Measure): (r: seq<Entry>)
    ensures IsFullRanking(r, t, col, m)
  {
    var g := GroupBy(t, col, m);
    var r := SortDesc(g);
    SubMultisetKeepsDistinctKeys(r, g);
    forall e ensures e in r <==> e in g {
      assert e in r <==> e in multiset(r);
      assert e in g <==> e in multiset(g);
    }
    forall k | HasKey(t, col, k) ensures k in KeysOf(r) {
      assert Entry(k, GroupTotal(t, col, k, m)) in r;
    }
    r
  }

  /** The first n groups of the ranking (`.head(n)`). */
  function Summary(t: seq<Booking>, col: Column, m: Measure, n: nat): (r: seq<Entry>)
    ensures IsTopSummary(r, t, col, m, n)
  {
    var g := GroupBy(t, col, m);
    var r := TopN(g, n);
    TopNKeepsDistinctKeys(g, n);
    TopNDominates(g, n);
    DistinctKeysNoRepeats(g);
    forall e | e in r ensures e in g {
      assert e in multiset(r);
    }
    forall k | HasKey(t, col, k) && k !in KeysOf(r)
      ensures |r| == n && forall e :: e in r ==> GroupTotal(t, col, k, m) <= e.value
    {
      var x := Entry(k, GroupTotal(t, col, k, m));
      assert x in g;
      assert x !in r;
      assert multiset(r)[x] == 0 && multiset(g)[x] == 1;
      assert x in multiset(g) - multiset(r);
      forall e | e in r ensures GroupTotal(t, col, k, m) <= e.value {
        var i :| 0 <= i < |r| && r[i] == e;
      }
    }
    r
  }

  // ---------------------------------------------------------------------------
  // No row is counted twice or lost: group totals and null-key rows add up to the total

  lemma {:induction false} SumValuesAppend(a: seq<Entry>, b: seq<Entry>)
    ensures SumValues(a + b) == SumValues(a) + SumValues(b)
  {
    if |a| == 0 {
      assert a + b == b;
    } else {
      assert (a + b)[1..] == a[1..] + b;
      SumValuesAppend(a[1..], b);
    }
  }

  lemma {:induction false} EntriesForAppend(t: seq<Booking>, col: Column, m: Measure, ks: seq<string>, k: string)
    ensures EntriesFor(t, col, m, ks + [k]) == EntriesFor(t, col, m, ks) + [Entry(k, GroupTotal(t, col, k, m))]
  {
  }

  /** Adding a row adds its value to the total of its own key, once, when that key is listed. */
  lemma {:induction false} EntriesSumStep(t: seq<Booking>, col: Column, m: Measure, ks: seq<string>)
    requires |t| > 0
    requires forall i, j :: 0 <= i < j < |ks| ==> ks[i] != ks[j]
    ensures SumValues(EntriesFor(t, col, m, ks)) ==
      SumValues(EntriesFor(t[..|t| - 1], col, m, ks)) +
      (match KeyOf(col, t[|t| - 1])
       case Some(k) => if k in ks then ValueOf(m, t[|t| - 1]) else 0
       case None => 0)
  {
    if |ks| > 0 {
      EntriesSumStep(t, col, m, ks[1..]);
      assert ks == [ks[0]] + ks[1..];
    }
  }

  /** The group totals and the total of the rows with a null key add up to the total
      of the whole table. */
  lemma {:induction false} GroupByPartitionsTotal(t: seq<Booking>, col: Column, m: Measure)
    ensures SumValues(GroupBy(t, col, m)) + NullKeyTotal(t, col, m) == Total(t, m)
    decreases |t|
  {
    if |t| > 0 {
      var init, last := t[..|t| - 1], t[|t| - 1];
      GroupByPartitionsTotal(init, col, m);
      var ks := GroupKeys(init, col);
      EntriesSumStep(t, col, m, GroupKeys(t, col));
      match KeyOf(col, last)
      case None =>
      case Some(k) =>
        if k !in ks {
          NewKeySum(t, col, m, k);
        }
    }
  }

  /** When the last row brings a new key, that key's entry is appended to the groups
      and, before that row, it totalled 0. */
  lemma NewKeySum(t: seq<Booking>, col: Column, m: Measure, k: string)
    requires |t| > 0 && KeyOf(col, t[|t| - 1]) == Some(k) && k !in GroupKeys(t[..|t| - 1], col)
    ensures SumValues(EntriesFor(t, col, m, GroupKeys(t, col))) ==
      SumValues(EntriesFor(t, col, m, GroupKeys(t[..|t| - 1], col))) + GroupTotal(t, col, k, m)
    ensures SumValues(EntriesFor(t[..|t| - 1], col, m, GroupKeys(t, col))) ==
      SumValues(EntriesFor(t[..|t| - 1], col, m, GroupKeys(t[..|t| - 1], col)))
  {
    var init, ks := t[..|t| - 1], GroupKeys(t[..|t| - 1], col);
    assert GroupKeys(t, col) == ks + [k];
    EntriesForAppend(t, col, m, ks, k);
    EntriesForAppend(init, col, m, ks, k);
    SumValuesAppend(EntriesFor(t, col, m, ks), [Entry(k, GroupTotal(t, col, k, m))]);
    SumValuesAppend(EntriesFor(init, col, m, ks), [Entry(k, GroupTotal(init, col, k, m))]);
    AbsentKeyTotal(init, col, k, m);
  }

  /** A key no row has totals 0. */
  lemma {:induction false} AbsentKeyTotal(t: seq<Booking>, col: Column, k: string, m: Measure)
    requires !HasKey(t, col, k)
    ensures GroupTotal(t, col, k, m) == 0
    decreases |t|
  {
    if |t| > 0 {
      HasKeyStep(t, col);
      AbsentKeyTotal(t[..|t| - 1], col, k, m);
    }
  }

  /** Ranking the groups keeps the partition of the total. */
  lemma RankedPartitionsTotal(t: seq<Booking>, col: Column, m: Measure)
    ensures SumValues(Ranked(t, col, m)) + NullKeyTotal(t, col, m) == Total(t, m)
  {
    SortDescSum(GroupBy(t, col, m));
    GroupByPartitionsTotal(t, col, m);
  }

  // ---------------------------------------------------------------------------
  // Routes

  /** Distinct (From, To) pairs give distinct routes as long as no origin contains
      the arrow, so grouping by Route is grouping by the pair. */
  lemma RouteKeyInjective(f1: string, t1: string, f2: string, t2: string)
    requires '\U{2192}' !in f1 && '\U{2192}' !in f2
    requires RouteKey(Some(f1), Some(t1)) == RouteKey(Some(f2), Some(t2))
    ensures f1 == f2 && t1 == t2
  {
    var s := f1 + RouteSeparator + t1;
    assert s == f2 + RouteSeparator + t2;
    if |f1| < |f2| {
      SeparatorPosition(f1, t1);
      assert false;
    } else if |f2| < |f1| {
      SeparatorPosition(f2, t2);
      assert false;
    }
    assert f1 == s[..|f1|] && f2 == s[..|f2|];
    assert t1 == s[|f1| + 3..] && t2 == s[|f2| + 3..];
  }

  /** Where the separator's characters stand in a route. */
  lemma SeparatorPosition(f: string, t: string)
    ensures |f + RouteSeparator + t| > |f| + 1
    ensures (f + RouteSeparator + t)[|f|] == ' '
    ensures (f + RouteSeparator + t)[|f| + 1] == '\U{2192}'
  {
  }

  /** The sum of measure m over the rows flying from f to `to`. */
  function PairTotal(t: seq<Booking>, f: string, to: string, m: Measure): int
    decreases |t|
  {
    if |t| == 0 then 0
    else
      var last := t[|t| - 1];
      PairTotal(t[..|t| - 1], f, to, m)
        + (if last.fromAirport == Some(f) && last.toAirport == Some(to) then ValueOf(m, last) else 0)
  }

  /** While no origin contains the arrow, a route's group in the Route summaries
      holds exactly the rows of its (From, To) pair. */
  lemma {:induction false} RouteGroupIsPairTotal(t: seq<Booking>, f: string, to: string, m: Measure)
    requires '\U{2192}' !in f
    requires forall i :: 0 <= i < |t| && t[i].fromAirport.Some? ==> '\U{2192}' !in t[i].fromAirport.value
    ensures GroupTotal(t, Route, f + RouteSeparator + to, m) == PairTotal(t, f, to, m)
    decreases |t|
  {
    if |t| > 0 {
      var init, last := t[..|t| - 1], t[|t| - 1];
      assert forall i :: 0 <= i < |init| ==> init[i] == t[i];
      RouteGroupIsPairTotal(init, f, to, m);
      if KeyOf(Route, last) == Some(f + RouteSeparator + to) {
        RouteKeyInjective(last.fromAirport.value, last.toAirport.value, f, to);
      }
    }
  }

  // ---------------------------------------------------------------------------
  // Dropping null flight types first (app.py:182) changes nothing

  lemma DropNullKeysKeepsGroups(t: seq<Booking>, m: Measure)
    ensures GroupKeys(Keep(t, HasFlightType), FlightType) == GroupKeys(t, FlightType)
    ensures forall k :: GroupTotal(Keep(t, HasFlightType), FlightType, k, m) == GroupTotal(t, FlightType, k, m)
  {
    DropNullKeepsKeys(t);
    forall k ensures GroupTotal(Keep(t, HasFlightType), FlightType, k, m) == GroupTotal(t, FlightType, k, m) {
      DropNullKeepsTotal(t, k, m);
    }
  }

  lemma {:induction false} DropNullKeepsKeys(t: seq<Booking>)
    ensures GroupKeys(Keep(t, HasFlightType), FlightType) == GroupKeys(t, FlightType)
    decreases |t|
  {
    if |t| > 0 {
      DropNullKeepsKeys(t[..|t| - 1]);
      DropNullStep(t);
    }
  }

  lemma {:induction false} DropNullKeepsTotal(t: seq<Booking>, k: string, m: Measure)
    ensures GroupTotal(Keep(t, HasFlightType), FlightType, k, m) == GroupTotal(t, FlightType, k, m)
    decreases |t|
  {
    if |t| > 0 {
      DropNullKeepsTotal(t[..|t| - 1], k, m);
      DropNullStep(t);
    }
  }

  /** Selecting the rows with a flight type either appends the last row or skips it. */
  lemma DropNullStep(t: seq<Booking>)
    requires |t| > 0
    ensures var kept, init, last := Keep(t, HasFlightType), Keep(t[..|t| - 1], HasFlightType), t[|t| - 1];
      if last.flightType.Some? then |kept| > 0 && kept[..|kept| - 1] == init && kept[|kept| - 1] == last
      else kept == init
  {
    var init, last := Keep(t[..|t| - 1], HasFlightType), t[|t| - 1];
    if last.flightType.Some? {
      SplitLast(init, [last]);
    } else {
      assert init + [] == init;
    }
  }

  lemma DropNullFlightTypes(t: seq<Booking>, m: Measure)
    ensures Ranked(Keep(t, HasFlightType), FlightType, m) == Ranked(t, FlightType, m)
  {
    DropNullKeysKeepsGroups(t, m);
    var ks := GroupKeys(t, FlightType);
    assert GroupBy(Keep(t, HasFlightType), FlightType, m) == GroupBy(t, FlightType, m);
  }

  // ---------------------------------------------------------------------------
  // The dashboard's summaries of the ticketed table

  /** Top 10 destinations by total price (app.py:129-135). */
  function TopDestinations(ticketed: seq<Booking>): (r: seq<Entry>)
    ensures IsTopSummary(r, ticketed, Destination, TotalPrice, 10)
  {
    Summary(ticketed, Destination, TotalPrice, 10)
  }

  /** One row of the top-routes table: a route and its three sums. */
  datatype RouteSummary = RouteSummary(route: string, commission: int, totalPrice: int, passengers: int)

  function CommissionColumn(r: seq<RouteSummary>): (c: seq<Entry>)
    ensures |c| == |r| && forall i :: 0 <= i < |r| ==> c[i] == Entry(r[i].route, r[i].commission)
  {
    seq(|r|, i requires 0 <= i < |r| => Entry(r[i].route, r[i].commission))
  }

  /** Top 15 routes by commission, each with its commission, price and passenger sums
      (app.py:151-161). */
  function TopRoutesByCommission(ticketed: seq<Booking>): (r: seq<RouteSummary>)
    ensures IsTopSummary(CommissionColumn(r), ticketed, Route, Commission, 15)
    ensures forall i :: 0 <= i < |r| ==>
      r[i].totalPrice == GroupTotal(ticketed, Route, r[i].route, TotalPrice) &&
      r[i].passengers == GroupTotal(ticketed, Route, r[i].route, Passengers)
  {
    WithRouteSums(ticketed, Summary(ticketed, Route, Commission, 15))
  }

  /** Each route of top with its commission and the sums of its price and passengers. */
  function WithRouteSums(ticketed: seq<Booking>, top: seq<Entry>): (r: seq<RouteSummary>)
    ensures CommissionColumn(r) == top
    ensures forall i :: 0 <= i < |r| ==>
      r[i].totalPrice == GroupTotal(ticketed, Route, r[i].route, TotalPrice) &&
      r[i].passengers == GroupTotal(ticketed, Route, r[i].route, Passengers)
  {
    var r := seq(|top|, i requires 0 <= i < |top| =>
      RouteSummary(top[i].key, top[i].value,
                   GroupTotal(ticketed, Route, top[i].key, TotalPrice),
                   GroupTotal(ticketed, Route, top[i].key, Passengers)));
    assert forall i :: 0 <= i < |top| ==> CommissionColumn(r)[i] == top[i];
    r
  }

  /** Commission per flight type, every type, largest first (app.py:181-187). */
  function CommissionByFlightType(ticketed: seq<Booking>): (r: seq<Entry>)
    ensures IsFullRanking(r, ticketed, FlightType, Commission)
    ensures SumValues(r) + NullKeyTotal(ticketed, FlightType, Commission) == Total(ticketed, Commission)
  {
    DropNullFlightTypes(ticketed, Commission);
    RankedPartitionsTotal(ticketed, FlightType, Commission);
    Ranked(Keep(ticketed, HasFlightType), FlightType, Commission)
  }

  /** Top 10 payment methods by commission (app.py:239-245). */
  function CommissionByPaymentMethod(ticketed: seq<Booking>): (r: seq<Entry>)
    ensures IsTopSummary(r, ticketed, PaymentMethod, Commission, 10)
  {
    Summary(ticketed, PaymentMethod, Commission, 10)
  }

  /** How many ticketed rows use each payment method, most used first (app.py:258). */
  function PaymentMethodUsage(ticketed: seq<Booking>): (r: seq<Entry>)
    ensures IsFullRanking(r, ticketed, PaymentMethod, Rows)
    ensures SumValues(r) + NullKeyTotal(ticketed, PaymentMethod, Rows) == |ticketed|
  {
    RankedPartitionsTotal(ticketed, PaymentMethod, Rows);
    RowsTotalIsLength(ticketed);
    Ranked(ticketed, PaymentMethod, Rows)
  }

  /** Top 10 airports by commission (app.py:277-283). */
  function CommissionByAirport(ticketed: seq<Booking>): (r: seq<Entry>)
    ensures IsTopSummary(r, ticketed, Airport, Commission, 10)
  {
    Summary(ticketed, Airport, Commission, 10)
  }

  /** Top 10 airports by total price (app.py:298-304). */
  function SalesByAirport(ticketed: seq<Booking>): (r: seq<Entry>)
    ensures IsTopSummary(r, ticketed, Airport, TotalPrice, 10)
  {
    Summary(ticketed, Airport, TotalPrice, 10)
  }

  /** Top 15 airports by number of ticketed rows (app.py:319-324). */
  function AirportBookings(ticketed: seq<Booking>): (r: seq<Entry>)
    ensures IsTopSummary(r, ticketed, Airport, Rows, 15)
  {
    Summary(ticketed, Airport, Rows, 15)
  }

  // ---------------------------------------------------------------------------
  // Headline totals (app.py:99-106)

  /** Counting rows gives the number of rows. */
  lemma {:induction false} RowsTotalIsLength(t: seq<Booking>)
    ensures Total(t, Rows) == |t|
    decreases |t|
  {
    if |t| > 0 {
      RowsTotalIsLength(t[..|t| - 1]);
    }
  }

  /** Totals add up over a concatenation. */
  lemma {:induction false} TotalAppend(a: seq<Booking>, b: seq<Booking>, m: Measure)
    ensures Total(a + b, m) == Total(a, m) + Total(b, m)
    decreases |b|
  {
    if |b| == 0 {
      assert a + b == a;
    } else {
      assert (a + b)[..|a + b| - 1] == a + b[..|b| - 1];
      TotalAppend(a, b[..|b| - 1], m);
    }
  }

  /** "Total Bookings" (app.py:99): the number of rows of the filtered table, which is
      also what counting its rows gives. */
  function TotalBookings(filtered: seq<Booking>): (r: nat)
    ensures r == Total(filtered, Rows)
  {
    RowsTotalIsLength(filtered);
    |filtered|
  }

  /** "Total Ticketed Passengers" (app.py:100): the passenger totals of every route
      (the full grouping by Route, of which the 15-row top-routes table shows only a
      part) together with those of the rows without a route. */
  function TotalTicketedPassengers(ticketed: seq<Booking>): (r: int)
    ensures r == SumValues(Ranked(ticketed, Route, Passengers)) + NullKeyTotal(ticketed, Route, Passengers)
  {
    RankedPartitionsTotal(ticketed, Route, Passengers);
    Total(ticketed, Passengers)
  }

  /** "Total Commission" (app.py:105): what the commission-by-type chart shows,
      together with the rows without a type. */
  function TotalCommission(ticketed: seq<Booking>): (r: int)
    ensures r == SumValues(CommissionByFlightType(ticketed)) + NullKeyTotal(ticketed, FlightType, Commission)
  {
    Total(ticketed, Commission)
  }

  /** "Total Sales" (app.py:106): the sales of all airports together with the rows
      without an airport. */
  function TotalSales(ticketed: seq<Booking>): (r: int)
    ensures r == SumValues(Ranked(ticketed, Airport, TotalPrice)) + NullKeyTotal(ticketed, Airport, TotalPrice)
  {
    RankedPartitionsTotal(ticketed, Airport, TotalPrice);
    Total(ticketed, TotalPrice)
  }

  /** "Max Ticket Price" (app.py:101): the largest Total Price of the table, None when
      no row has one. */
  function MaxTicketPrice(t: seq<Booking>): (r: Option<int>)
    ensures r.None? <==> forall i :: 0 <= i < |t| ==> t[i].totalPrice.None?
    ensures r.Some? ==> exists i :: 0 <= i < |t| && t[i].totalPrice == r
    ensures r.Some? ==> forall i :: 0 <= i < |t| && t[i].totalPrice.Some? ==> t[i].totalPrice.value <= r.value
    decreases |t|
  {
    if |t| == 0 then None
    else
      var init, last := t[..|t| - 1], t[|t| - 1];
      var before := MaxTicketPrice(init);
      assert forall i :: 0 <= i < |init| ==> init[i] == t[i];
      match last.totalPrice
      case None => before
      case Some(p) => if before.Some? && before.value >= p then before else Some(p)
  }
}
