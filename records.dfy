/** The rows of the booking table, as loaded and as cleaned, and the calendar month names. */
module Records {
  import opened Wrappers

  /** A calendar month, 1 = January. */
  type MonthNumber = m: int | 1 <= m <= 12 witness 1

  /** A value of the Date column once parsed; the parsing itself is not modelled. */
  datatype Date = Date(year: int, month: MonthNumber, day: int)

  /** A cell of one of the numeric columns as the spreadsheet reader delivers it:
      a number, some text, or an empty cell. */
  datatype Cell = Number(n: int) | Text(s: string) | Blank

  /** One row of the table as loaded. `date` is None when the Date cell does not
      parse as a date; a None text column is a missing cell. */
  datatype RawRow = RawRow(
    date: Option<Date>,
    ticketNumbers: Option<string>,
    paymentMethod: Option<string>,
    fromAirport: Option<string>,
    toAirport: Option<string>,
    airport: Option<string>,
    flightType: Option<string>,
    totalPrice: Cell,
    commission: Cell,
    passengers: Cell)

  /** One row of the cleaned table: the date is present, the Year, Month and
      Month_Name columns are filled in, Total Price and Commission are numbers or
      null, and No Passengers is an integer. */
  datatype Booking = Booking(
    date: Date,
    year: int,
    month: MonthNumber,
    monthName: string,
    ticketNumbers: Option<string>,
    paymentMethod: Option<string>,
    fromAirport: Option<string>,
    toAirport: Option<string>,
    airport: Option<string>,
    flightType: Option<string>,
    totalPrice: Option<int>,
    commission: Option<int>,
    passengers: int)

  /** Full month names, as `strftime("%B")` writes them. */
  const MonthNames: seq<string> :=
    ["January", "February", "March", "April", "May", "June", "July",
     "August", "September", "October", "November", "December"]

  function MonthName(m: MonthNumber): string {
    MonthNames[m - 1]
  }

  /** Year, Month and Month_Name are those of the row's Date. */
  predicate DateConsistent(b: Booking) {
    b.year == b.date.year && b.month == b.date.month && b.monthName == MonthName(b.date.month)
  }

  /** The month a full month name stands for, as parsing it with the format "%B"
      gives it; None for a string that is no month name. */
  function MonthNumberOf(name: string): (r: Option<MonthNumber>)
    ensures r.Some? ==> MonthName(r.value) == name
    ensures r.None? ==> forall m: MonthNumber :: MonthName(m) != name
  {
    FindMonth(name, 1)
  }

  function FindMonth(name: string, from: int): (r: Option<MonthNumber>)
    requires 1 <= from <= 13
    ensures r.Some? ==> from <= r.value && MonthName(r.value) == name
    ensures r.None? ==> forall m: MonthNumber :: from <= m ==> MonthName(m) != name
    decreases 13 - from
  {
    if from == 13 then None
    else if MonthName(from) == name then Some(from)
    else FindMonth(name, from + 1)
  }

  /** Different months have different names, so a name determines its month. */
  lemma MonthNameRoundTrip(m: MonthNumber)
    ensures MonthNumberOf(MonthName(m)) == Some(m)
  {
    var r := MonthNumberOf(MonthName(m));
    assert r.Some?;
    MonthNamesDistinct(r.value, m);
  }

  lemma MonthNamesDistinct(a: MonthNumber, b: MonthNumber)
    requires MonthName(a) == MonthName(b)
    ensures a == b
  {
    var na, nb := MonthName(a), MonthName(b);
    assert |na| == |nb|;
    assert na[0] == nb[0];
    if |na| > 1 { assert na[1] == nb[1]; }
    if |na| > 2 { assert na[2] == nb[2]; }
  }
}
