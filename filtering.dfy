/** The year/month facet filter and the ticketed subset (app.py:50-92).

    The code rebinds `filtered_df` step by step: a copy of the table, then at most
    one year filter and at most one month filter, each applied only when its
    selection is non-empty. `ticketed_df` is then the filtered table without the
    "no tickets" rows and without the rows lacking a price or a commission. */
module Filtering {
  import opened Wrappers
  import opened Records

  /** a is an order-preserving subsequence of b (matched from the end). */
  predicate IsSubsequence<T(==)>(a: seq<T>, b: seq<T>)
    decreases |b|
  {
    if |a| == 0 then true
    else if |b| == 0 then false
    else if a[|a| - 1] == b[|b| - 1] then IsSubsequence(a[..|a| - 1], b[..|b| - 1])
    else IsSubsequence(a, b[..|b| - 1])
  }

  /** The last element of a + b is that of b, and what precedes it is a + b minus its last. */
  lemma SplitLast<T>(a: seq<T>, b: seq<T>)
    requires |b| > 0
    ensures (a + b)[..|a + b| - 1] == a + b[..|b| - 1]
    ensures (a + b)[|a + b| - 1] == b[|b| - 1]
  {
  }

  /** A subsequence of all but the last element of b is a subsequence of b. */
  lemma {:induction false} ExtendByOne<T>(a: seq<T>, b: seq<T>)
    requires |b| > 0 && IsSubsequence(a, b[..|b| - 1])
    ensures IsSubsequence(a, b)
    decreases |b|, 0
  {
    if |a| > 0 && a[|a| - 1] == b[|b| - 1] {
      SubsequenceDropLast(a, b[..|b| - 1]);
    }
  }

  /** Dropping the last element of a subsequence leaves a subsequence. */
  lemma {:induction false} SubsequenceDropLast<T>(a: seq<T>, b: seq<T>)
    requires |a| > 0 && IsSubsequence(a, b)
    ensures IsSubsequence(a[..|a| - 1], b)
    decreases |b|, 1
  {
    var b' := b[..|b| - 1];
    if a[|a| - 1] != b[|b| - 1] {
      SubsequenceDropLast(a, b');
    }
    ExtendByOne(a[..|a| - 1], b);
  }

  /** Being a subsequence is transitive. */
  lemma {:induction false} SubsequenceTransitive<T>(a: seq<T>, b: seq<T>, c: seq<T>)
    requires IsSubsequence(a, b) && IsSubsequence(b, c)
    ensures IsSubsequence(a, c)
    decreases |c|
  {
    if |a| > 0 {
      var b', c' := b[..|b| - 1], c[..|c| - 1];
      if b[|b| - 1] == c[|c| - 1] {
        if a[|a| - 1] == b[|b| - 1] {
          SubsequenceTransitive(a[..|a| - 1], b', c');
        } else {
          SubsequenceTransitive(a, b', c');
          ExtendByOne(a, c);
        }
      } else {
        SubsequenceTransitive(a, b, c');
        ExtendByOne(a, c);
      }
    }
  }

  // ---------------------------------------------------------------------------
  // Row criteria and the filter they define

  /** Lower-casing of one character, as Python's `str.lower` does it for every
      character whose lower-case form is plain ASCII: A-Z, and the KELVIN SIGN,
      which lower-cases to 'k'. */
  function LowerChar(c: char): char {
    if 'A' <= c <= 'Z' then (c as int + 32) as char
    else if c == '\U{212A}' then 'k'
    else c
  }

  /** `str.lower` on the characters above, one character at a time. */
  function Lower(s: string): (r: string)
    ensures |r| == |s|
  {
    seq(|s|, i requires 0 <= i < |s| => LowerChar(s[i]))
  }

  /** Lower-casing leaves no upper-case ASCII letter, turns each upper-case ASCII
      letter into its lower-case form, and keeps every other character but the
      Kelvin sign. */
  lemma LowerCases(s: string)
    ensures forall i :: 0 <= i < |s| ==> !('A' <= Lower(s)[i] <= 'Z')
    ensures forall i :: 0 <= i < |s| && 'A' <= s[i] <= 'Z' ==> Lower(s)[i] as int == s[i] as int + 32
    ensures forall i :: 0 <= i < |s| && !('A' <= s[i] <= 'Z') && s[i] != '\U{212A}' ==> Lower(s)[i] == s[i]
  {
  }

  /** Lower-casing twice is lower-casing once. */
  lemma LowerIdempotent(s: string)
    ensures Lower(Lower(s)) == Lower(s)
  {
    assert forall i :: 0 <= i < |s| ==> Lower(Lower(s))[i] == Lower(s)[i];
  }

  /** `astype(str)` on a Ticket Numbers cell: a missing cell reads "nan". */
  function TicketText(v: Option<string>): string {
    match v
    case Some(s) => s
    case None => "nan"
  }

  /** The sentinel of a row that stands for no issued ticket (app.py:89). */
  const NoTickets: string := "no tickets"

  /** The comparison ignores case, but nothing else: a missing cell reads "nan" and
      is kept, and a near miss such as "No Ticket" is kept too. */
  lemma TicketSpellings()
    ensures Lower(TicketText(Some("No Tickets"))) == NoTickets
    ensures Lower(TicketText(Some("NO TICKETS"))) == NoTickets
    ensures Lower(TicketText(Some("no tickets"))) == NoTickets
    ensures Lower(TicketText(Some("No Ticket"))) != NoTickets
    ensures Lower(TicketText(Some(" no tickets"))) != NoTickets
    ensures Lower(TicketText(None)) != NoTickets
  {
    assert Lower("No Tickets") == NoTickets;
    assert Lower("NO TICKETS") == NoTickets;
    assert Lower("no tickets") == NoTickets;
  }

  /** The row tests the filter stage applies. */
  datatype Criterion =
    | YearIn(years: seq<int>)                        // app.py:71
    | MonthIn(months: seq<string>)                   // app.py:73
    | Selection(years: seq<int>, months: seq<string>) // app.py:68-73 as a whole
    | HasTickets                                     // app.py:89
    | PriceAndCommission                             // app.py:92
    | Ticketed                                       // app.py:89-92 as a whole
    | HasFlightType                                  // app.py:182

  /** An empty facet selection places no restriction on that facet. */
  predicate FacetAdmits<T(==)>(selected: seq<T>, v: T) {
    |selected| == 0 || v in selected
  }

  predicate Admits(c: Criterion, b: Booking) {
    match c
    case YearIn(ys) => b.year in ys
    case MonthIn(ms) => b.monthName in ms
    case Selection(ys, ms) => FacetAdmits(ys, b.year) && FacetAdmits(ms, b.monthName)
    case HasTickets => Lower(TicketText(b.ticketNumbers)) != NoTickets
    case PriceAndCommission => b.totalPrice.Some? && b.commission.Some?
    case Ticketed =>
      Lower(TicketText(b.ticketNumbers)) != NoTickets && b.totalPrice.Some? && b.commission.Some?
    case HasFlightType => b.flightType.Some?
  }

  /** The rows of t that c admits, in their order (a boolean-mask selection). */
  function Keep(t: seq<Booking>, c: Criterion): (k: seq<Booking>)
    ensures |k| <= |t|
    decreases |t|
  {
    if |t| == 0 then []
    else
      var last := t[|t| - 1];
      Keep(t[..|t| - 1], c) + (if Admits(c, last) then [last] else [])
  }

  /** A selection distributes over concatenation: each row is judged on its own. */
  lemma {:induction false} KeepAppend(a: seq<Booking>, b: seq<Booking>, c: Criterion)
    ensures Keep(a + b, c) == Keep(a, c) + Keep(b, c)
    decreases |b|
  {
    if |b| == 0 {
      assert a + b == a;
    } else {
      var ab, init, last := a + b, b[..|b| - 1], b[|b| - 1];
      SplitLast(a, b);
      KeepAppend(a, init, c);
      var tail := if Admits(c, last) then [last] else [];
      assert Keep(ab, c) == Keep(a + init, c) + tail;
      assert Keep(b, c) == Keep(init, c) + tail;
    }
  }

  /** A selection is an order-preserving subsequence of its input. */
  lemma {:induction false} KeepIsSubsequence(t: seq<Booking>, c: Criterion)
    ensures IsSubsequence(Keep(t, c), t)
    decreases |t|
  {
    if |t| > 0 {
      var init, last := t[..|t| - 1], t[|t| - 1];
      var k := Keep(init, c);
      KeepIsSubsequence(init, c);
      if Admits(c, last) {
        assert (k + [last])[..|k|] == k;
      } else {
        assert Keep(t, c) == k;
        ExtendByOne(k, t);
      }
    }
  }

  /** A selection holds exactly the rows of its input that the criterion admits,
      each as often as in the input. */
  lemma {:induction false} KeepMultiplicity(t: seq<Booking>, c: Criterion)
    ensures forall b :: multiset(Keep(t, c))[b] == if Admits(c, b) then multiset(t)[b] else 0
    decreases |t|
  {
    if |t| > 0 {
      var init, last := t[..|t| - 1], t[|t| - 1];
      assert t == init + [last];
      KeepMultiplicity(init, c);
    }
  }

  lemma KeepMembers(t: seq<Booking>, c: Criterion)
    ensures forall b :: b in Keep(t, c) <==> b in t && Admits(c, b)
  {
    KeepMultiplicity(t, c);
    forall b ensures b in Keep(t, c) <==> b in t && Admits(c, b) {
      assert b in Keep(t, c) <==> b in multiset(Keep(t, c));
      assert b in t <==> b in multiset(t);
    }
  }

  /** A criterion that admits every row of t selects all of t. */
  lemma {:induction false} KeepEverything(t: seq<Booking>, c: Criterion)
    requires forall i :: 0 <= i < |t| ==> Admits(c, t[i])
    ensures Keep(t, c) == t
    decreases |t|
  {
    if |t| > 0 {
      KeepEverything(t[..|t| - 1], c);
    }
  }

  /** Two selections in a row equal one selection by a criterion that admits a row
      exactly when both admit it. */
  lemma {:induction false} KeepCompose(t: seq<Booking>, first: Criterion, second: Criterion, both: Criterion)
    requires forall i :: 0 <= i < |t| ==> (Admits(both, t[i]) <==> Admits(first, t[i]) && Admits(second, t[i]))
    ensures Keep(Keep(t, first), second) == Keep(t, both)
    decreases |t|
  {
    if |t| > 0 {
      var init, last := t[..|t| - 1], t[|t| - 1];
      assert forall i :: 0 <= i < |init| ==> init[i] == t[i];
      KeepCompose(init, first, second, both);
      KeepAppend(Keep(init, first), if Admits(first, last) then [last] else [], second);
      KeepComposeOne(last, first, second, both);
    }
  }

  lemma KeepComposeOne(b: Booking, first: Criterion, second: Criterion, both: Criterion)
    requires Admits(both, b) <==> Admits(first, b) && Admits(second, b)
    ensures Keep(if Admits(first, b) then [b] else [], second) == if Admits(both, b) then [b] else []
  {
    assert [b][..0] == [];
  }

  /** Two criteria that agree on every row of t select the same rows. */
  lemma {:induction false} KeepSame(t: seq<Booking>, c: Criterion, d: Criterion)
    requires forall i :: 0 <= i < |t| ==> (Admits(c, t[i]) <==> Admits(d, t[i]))
    ensures Keep(t, c) == Keep(t, d)
    decreases |t|
  {
    if |t| > 0 {
      KeepSame(t[..|t| - 1], c, d);
    }
  }

  // ---------------------------------------------------------------------------
  // The filter stage as the code runs it

  /** One boolean-mask selection `df[mask]`, row by row. */
  method SelectRows(t: seq<Booking>, c: Criterion) returns (kept: seq<Booking>)
    ensures kept == Keep(t, c)
  {
    kept := [];
    var i := 0;
    while i < |t|
      invariant 0 <= i <= |t|
      invariant kept == Keep(t[..i], c)
    {
      assert t[..i + 1][..i] == t[..i];
      if Admits(c, t[i]) {
        kept := kept + [t[i]];
      }
      i := i + 1;
    }
    assert t[..|t|] == t;
  }

  /** The facet filter (app.py:68-73): an order-preserving subsequence of the table
      holding exactly the rows whose Year is selected (when any year is) and whose
      Month_Name is selected (when any month is), each as often as in the table. */
  method ApplyFilters(table: seq<Booking>, selectedYears: seq<int>, selectedMonths: seq<string>)
    returns (filtered: seq<Booking>)
    ensures filtered == Keep(table, Selection(selectedYears, selectedMonths))
    ensures IsSubsequence(filtered, table)
    ensures forall b ::
      (b in filtered <==>
       b in table && FacetAdmits(selectedYears, b.year) && FacetAdmits(selectedMonths, b.monthName))
    ensures forall b ::
      (multiset(filtered)[b] ==
       if FacetAdmits(selectedYears, b.year) && FacetAdmits(selectedMonths, b.monthName)
       then multiset(table)[b] else 0)
  {
    var selection := Selection(selectedYears, selectedMonths);
    filtered := table;
    if |selectedYears| > 0 {
      filtered := SelectRows(filtered, YearIn(selectedYears));
    }
    if |selectedMonths| > 0 {
      filtered := SelectRows(filtered, MonthIn(selectedMonths));
    }
    if |selectedYears| > 0 && |selectedMonths| > 0 {
      KeepCompose(table, YearIn(selectedYears), MonthIn(selectedMonths), selection);
    } else if |selectedYears| > 0 {
      KeepSame(table, YearIn(selectedYears), selection);
    } else if |selectedMonths| > 0 {
      KeepSame(table, MonthIn(selectedMonths), selection);
    } else {
      KeepEverything(table, selection);
    }
    KeepIsSubsequence(table, selection);
    KeepMembers(table, selection);
    KeepMultiplicity(table, selection);
  }

  /** The ticketed subset (app.py:89-92): an order-preserving subsequence of the
      filtered table holding exactly its rows whose ticket text, lower-cased, is not
      "no tickets" and that have both a Total Price and a Commission. */
  method TicketedSubset(filtered: seq<Booking>) returns (ticketed: seq<Booking>)
    ensures ticketed == Keep(filtered, Ticketed)
    ensures IsSubsequence(ticketed, filtered)
    ensures forall b ::
      (b in ticketed <==>
       b in filtered && Lower(TicketText(b.ticketNumbers)) != NoTickets
       && b.totalPrice.Some? && b.commission.Some?)
  {
    ticketed := SelectRows(filtered, HasTickets);
    ticketed := SelectRows(ticketed, PriceAndCommission);
    KeepCompose(filtered, HasTickets, PriceAndCommission, Ticketed);
    KeepIsSubsequence(filtered, Ticketed);
    KeepMembers(filtered, Ticketed);
  }

  /** With no year and no month selected the filter passes the table through. */
  lemma EmptySelectionPassesThrough(table: seq<Booking>)
    ensures Keep(table, Selection([], [])) == table
  {
    KeepEverything(table, Selection([], []));
  }

  /** The ticketed table is a subsequence of the cleaned table it was filtered from. */
  lemma TicketedWithinTable(table: seq<Booking>, selectedYears: seq<int>, selectedMonths: seq<string>)
    ensures IsSubsequence(Keep(Keep(table, Selection(selectedYears, selectedMonths)), Ticketed), table)
  {
    var filtered := Keep(table, Selection(selectedYears, selectedMonths));
    KeepIsSubsequence(table, Selection(selectedYears, selectedMonths));
    KeepIsSubsequence(filtered, Ticketed);
    SubsequenceTransitive(Keep(filtered, Ticketed), filtered, table);
  }

  // ---------------------------------------------------------------------------
  // Facet listings (app.py:50, 59)

  predicate StrictlyIncreasing(s: seq<int>) {
    forall i, j :: 0 <= i < j < |s| ==> s[i] < s[j]
  }

  /** x added to a strictly increasing list, which stays strictly increasing. */
  function InsertDistinct(x: int, s: seq<int>): (r: seq<int>)
    requires StrictlyIncreasing(s)
    ensures StrictlyIncreasing(r)
    ensures forall y :: y in r <==> y == x || y in s
  {
    if |s| == 0 then [x]
    else if x < s[0] then [x] + s
    else if x == s[0] then s
    else
      var rest := InsertDistinct(x, s[1..]);
      assert forall y :: y in s <==> y == s[0] || y in s[1..];
      var r := [s[0]] + rest;
      forall i, j | 0 <= i < j < |r| ensures r[i] < r[j] {
        assert r[j] == rest[j - 1] && rest[j - 1] in rest;
        if i > 0 {
          assert r[i] == rest[i - 1];
        }
      }
      r
  }

  /** The distinct values of xs in increasing order. */
  function SortedDistinct(xs: seq<int>): (r: seq<int>)
    ensures StrictlyIncreasing(r)
    ensures forall y :: y in r <==> y in xs
    decreases |xs|
  {
    if |xs| == 0 then []
    else
      assert xs == xs[..|xs| - 1] + [xs[|xs| - 1]];
      InsertDistinct(xs[|xs| - 1], SortedDistinct(xs[..|xs| - 1]))
  }

  function YearsOf(t: seq<Booking>): (ys: seq<int>)
    ensures forall y :: y in ys <==> exists i :: 0 <= i < |t| && t[i].year == y
  {
    var ys := seq(|t|, i requires 0 <= i < |t| => t[i].year);
    assert forall i :: 0 <= i < |t| ==> ys[i] == t[i].year;
    ys
  }

  function MonthsOf(t: seq<Booking>): (ms: seq<MonthNumber>)
    ensures forall m :: m in ms <==> exists i :: 0 <= i < |t| && t[i].month == m
  {
    var ms := seq(|t|, i requires 0 <= i < |t| => t[i].month);
    assert forall i :: 0 <= i < |t| ==> ms[i] == t[i].month;
    ms
  }

  /** s in the opposite order. */
  function Reversed(s: seq<int>): (r: seq<int>)
    ensures |r| == |s| && forall k :: 0 <= k < |s| ==> r[k] == s[|s| - 1 - k]
  {
    seq(|s|, i requires 0 <= i < |s| => s[|s| - 1 - i])
  }

  /** Reversal keeps the elements and turns increasing into decreasing. */
  lemma ReversedDescending(s: seq<int>)
    requires StrictlyIncreasing(s)
    ensures forall y :: y in Reversed(s) <==> y in s
    ensures forall i, j :: 0 <= i < j < |Reversed(s)| ==> Reversed(s)[i] > Reversed(s)[j]
  {
    var r := Reversed(s);
    forall y | y in s ensures y in r {
      var k :| 0 <= k < |s| && s[k] == y;
      assert r[|s| - 1 - k] == y;
    }
  }

  /** `available_years`: the distinct years of the table, in strictly descending order. */
  function AvailableYears(t: seq<Booking>): (r: seq<int>)
    ensures forall i, j :: 0 <= i < j < |r| ==> r[i] > r[j]
    ensures forall y :: y in r <==> exists i :: 0 <= i < |t| && t[i].year == y
  {
    var asc := SortedDistinct(YearsOf(t));
    ReversedDescending(asc);
    Reversed(asc)
  }

  /** The names of a list of months. */
  function NamesOf(ms: seq<MonthNumber>): (r: seq<string>)
    ensures |r| == |ms| && forall k :: 0 <= k < |ms| ==> r[k] == MonthName(ms[k])
  {
    seq(|ms|, i requires 0 <= i < |ms| => MonthName(ms[i]))
  }

  /** The distinct months of the table, in increasing order. */
  function DistinctMonths(t: seq<Booking>): (ms: seq<MonthNumber>)
    ensures StrictlyIncreasing(ms)
    ensures forall m :: m in ms <==> exists i :: 0 <= i < |t| && t[i].month == m
  {
    var xs := SortedDistinct(MonthsOf(t));
    assert forall k :: 0 <= k < |xs| ==> 1 <= xs[k] <= 12 by {
      forall k | 0 <= k < |xs| ensures 1 <= xs[k] <= 12 {
        assert xs[k] in MonthsOf(t);
      }
    }
    xs
  }

  /** `available_months`: the distinct month names of the table ordered by the month
      each name parses to, not alphabetically. */
  function AvailableMonths(t: seq<Booking>): (r: seq<string>)
    ensures forall k :: 0 <= k < |r| ==> MonthNumberOf(r[k]).Some?
    ensures forall k, l :: 0 <= k < l < |r| ==> MonthNumberOf(r[k]).value < MonthNumberOf(r[l]).value
  {
    var ms := DistinctMonths(t);
    var r := NamesOf(ms);
    forall k | 0 <= k < |ms| ensures MonthNumberOf(r[k]) == Some(ms[k]) {
      MonthNameRoundTrip(ms[k]);
    }
    r
  }

  /** In a cleaned table, `available_months` lists exactly the month names that occur. */
  lemma AvailableMonthsMembers(t: seq<Booking>)
    requires forall i :: 0 <= i < |t| ==> DateConsistent(t[i])
    ensures forall name :: name in AvailableMonths(t) <==> exists i :: 0 <= i < |t| && t[i].monthName == name
  {
    var ms := DistinctMonths(t);
    var r := AvailableMonths(t);
    forall name ensures name in r <==> exists i :: 0 <= i < |t| && t[i].monthName == name {
      if name in r {
        var k :| 0 <= k < |r| && r[k] == name;
        assert ms[k] in ms;
        var i :| 0 <= i < |t| && t[i].month == ms[k];
        assert t[i].monthName == name;
      }
      if i :| 0 <= i < |t| && t[i].monthName == name {
        assert t[i].month in ms;
        var k :| 0 <= k < |ms| && ms[k] == t[i].month;
        assert r[k] == name;
      }
    }
  }

  /** Every row's year and month name are among the available ones. */
  lemma RowIsListed(t: seq<Booking>, i: int)
    requires 0 <= i < |t|
    ensures t[i].year in AvailableYears(t)
    ensures MonthName(t[i].month) in AvailableMonths(t)
  {
    var ms := DistinctMonths(t);
    assert t[i].month in ms;
    var k :| 0 <= k < |ms| && ms[k] == t[i].month;
    assert AvailableMonths(t)[k] == MonthName(t[i].month);
  }

  /** Every row's year is among years and its month name among months. */
  predicate ListsEveryRow(table: seq<Booking>, years: seq<int>, months: seq<string>) {
    forall i :: 0 <= i < |table| ==> table[i].year in years && table[i].monthName in months
  }

  /** A selection that lists the year and the month name of every row passes the
      table through. */
  lemma ListedSelectionPassesThrough(table: seq<Booking>, years: seq<int>, months: seq<string>)
    requires ListsEveryRow(table, years, months)
    ensures Keep(table, Selection(years, months)) == table
  {
    KeepEverything(table, Selection(years, months));
  }

  /** In a cleaned table, every row's year and month name are listed by default. */
  lemma DefaultSelectionListsEveryRow(table: seq<Booking>)
    requires forall i :: 0 <= i < |table| ==> DateConsistent(table[i])
    ensures ListsEveryRow(table, AvailableYears(table), AvailableMonths(table))
  {
    forall i | 0 <= i < |table|
      ensures table[i].year in AvailableYears(table) && table[i].monthName in AvailableMonths(table)
    {
      RowIsListed(table, i);
    }
  }

  /** The multiselect default, every available year and every available month,
      also passes a cleaned table through. */
  lemma DefaultSelectionPassesThrough(table: seq<Booking>)
    requires forall i :: 0 <= i < |table| ==> DateConsistent(table[i])
    ensures Keep(table, Selection(AvailableYears(table), AvailableMonths(table))) == table
  {
    DefaultSelectionListsEveryRow(table);
    ListedSelectionPassesThrough(table, AvailableYears(table), AvailableMonths(table));
  }
}
