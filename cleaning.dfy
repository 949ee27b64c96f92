/** Cleaning of the loaded table (app.py:27-44): rows whose date did not parse are
    dropped, Year/Month/Month_Name are derived from the date, the null sentinels of
    the three numeric columns become null before numeric coercion, and a null
    passenger count becomes 0. */
module Cleaning {
  import opened Wrappers
  import opened Records

  /** The strings that are replaced by null before coercion (app.py:39). */
  const NullSentinels: seq<string> := ["NaN", "nan", "NAN", "Null", "NULL", "", " "]

  predicate IsDigit(c: char) {
    '0' <= c <= '9'
  }

  /** A non-empty run of decimal digits. */
  predicate IsDigits(s: string) {
    |s| > 0 && forall i :: 0 <= i < |s| ==> IsDigit(s[i])
  }

  /** The text forms of a number that coercion accepts: optionally signed decimal integers. */
  predicate IsNumeral(s: string) {
    IsDigits(s) || (|s| > 1 && (s[0] == '-' || s[0] == '+') && IsDigits(s[1..]))
  }

  /** The value of a run of decimal digits, read from the left. */
  function DigitsValue(s: string): nat
    requires IsDigits(s)
    decreases |s|
  {
    var d := (s[|s| - 1] as int) - ('0' as int);
    if |s| == 1 then d else 10 * DigitsValue(s[..|s| - 1]) + d
  }

  /** Numeric coercion of a text cell: its number, or None when it is not a numeral. */
  function ParseNumber(s: string): (r: Option<int>)
    ensures r.Some? <==> IsNumeral(s)
  {
    if IsDigits(s) then Some(DigitsValue(s))
    else if |s| > 1 && s[0] == '-' && IsDigits(s[1..]) then Some(0 - DigitsValue(s[1..]) as int)
    else if |s| > 1 && s[0] == '+' && IsDigits(s[1..]) then Some(DigitsValue(s[1..]))
    else None
  }

  /** The decimal text of a natural number, most significant digit first. */
  function Digits(n: nat): (s: string)
    ensures IsDigits(s)
  {
    var d := [('0' as int + n % 10) as char];
    if n < 10 then d else Digits(n / 10) + d
  }

  /** The decimal text of an integer, with a leading '-' when it is negative. */
  function DecimalText(n: int): string {
    if n < 0 then "-" + Digits(-n) else Digits(n)
  }

  /** Replacing the sentinel strings by null (app.py:39). */
  function ReplaceSentinel(c: Cell): (r: Cell)
    ensures r.Blank? <==> c.Blank? || (c.Text? && c.s in NullSentinels)
    ensures !r.Blank? ==> r == c
  {
    if c.Text? && c.s in NullSentinels then Blank else c
  }

  /** `pd.to_numeric(..., errors="coerce")` on one cell (app.py:40). */
  function ToNumeric(c: Cell): (r: Option<int>)
    ensures r.Some? <==> c.Number? || (c.Text? && IsNumeral(c.s))
    ensures c.Number? ==> r == Some(c.n)
  {
    match c
    case Number(n) => Some(n)
    case Text(s) => ParseNumber(s)
    case Blank => None
  }

  /** One cell of Total Price, Commission or No Passengers after the two steps of the
      column loop (app.py:37-40). Every sentinel ends up null, and the replacement
      never changes the outcome of coercion: none of the sentinels is a numeral, so
      coercion alone would also make them null. */
  function NormalizeNumeric(c: Cell): (r: Option<int>)
    ensures c.Text? && c.s in NullSentinels ==> r.None?
    ensures r == ToNumeric(c)
  {
    assert c.Text? && c.s in NullSentinels ==> |c.s| == 0 || !IsDigit(c.s[0]) by {
      if c.Text? && c.s in NullSentinels && |c.s| > 0 { assert c.s[0] in {'N', 'n', ' '}; }
    }
    ToNumeric(ReplaceSentinel(c))
  }

  /** `fillna(0).astype(int)` on the passenger count (app.py:44). */
  function FillPassengers(v: Option<int>): (r: int)
    ensures v.None? ==> r == 0
    ensures v.Some? ==> r == v.value
  {
    v.GetOr(0)
  }

  /** The cleaned form of a row whose date parsed (app.py:31-44). */
  function CleanRow(r: RawRow): (b: Booking)
    requires r.date.Some?
    ensures DateConsistent(b) && b.date == r.date.value
  {
    var d := r.date.value;
    Booking(d, d.year, d.month, MonthName(d.month),
            r.ticketNumbers, r.paymentMethod, r.fromAirport, r.toAirport, r.airport, r.flightType,
            NormalizeNumeric(r.totalPrice), NormalizeNumeric(r.commission),
            FillPassengers(NormalizeNumeric(r.passengers)))
  }

  /** The cleaned table: the dated rows of `raw`, in order, each cleaned. */
  function Cleaned(raw: seq<RawRow>): (t: seq<Booking>)
    ensures |t| <= |raw|
    ensures forall i :: 0 <= i < |t| ==> DateConsistent(t[i])
    decreases |raw|
  {
    if |raw| == 0 then []
    else
      var last := raw[|raw| - 1];
      Cleaned(raw[..|raw| - 1]) + (if last.date.Some? then [CleanRow(last)] else [])
  }

  /** How many rows of `raw` have a parsed date. */
  function DatedCount(raw: seq<RawRow>): nat
    decreases |raw|
  {
    if |raw| == 0 then 0
    else DatedCount(raw[..|raw| - 1]) + (if raw[|raw| - 1].date.Some? then 1 else 0)
  }

  /** The cleaning stage: one pass over the rows that drops the undated ones and cleans
      the others (app.py:27-44). */
  method Clean(raw: seq<RawRow>) returns (table: seq<Booking>)
    ensures table == Cleaned(raw)
    ensures forall b :: b in table ==> DateConsistent(b)
  {
    table := [];
    var i := 0;
    while i < |raw|
      invariant 0 <= i <= |raw|
      invariant table == Cleaned(raw[..i])
    {
      assert raw[..i + 1][..i] == raw[..i];
      if raw[i].date.Some? {
        table := table + [CleanRow(raw[i])];
      }
      i := i + 1;
    }
    assert raw[..|raw|] == raw;
  }

  /** Each row is cleaned on its own: cleaning a concatenation cleans each part. */
  lemma {:induction false} CleanedAppend(a: seq<RawRow>, b: seq<RawRow>)
    ensures Cleaned(a + b) == Cleaned(a) + Cleaned(b)
    decreases |b|
  {
    if |b| == 0 {
      assert a + b == a;
    } else {
      var ab := a + b;
      assert ab[..|ab| - 1] == a + b[..|b| - 1];
      assert ab[|ab| - 1] == b[|b| - 1];
      CleanedAppend(a, b[..|b| - 1]);
    }
  }

  /** The cleaned table holds one row per dated input row and no other: every dated
      row's cleaned form is in it, every row in it is the cleaned form of a dated row,
      and its length is the number of dated rows. */
  lemma {:induction false} CleanedRows(raw: seq<RawRow>)
    ensures |Cleaned(raw)| == DatedCount(raw)
    ensures forall r :: r in raw && r.date.Some? ==> CleanRow(r) in Cleaned(raw)
    ensures forall b :: b in Cleaned(raw) ==> exists r :: r in raw && r.date.Some? && CleanRow(r) == b
    decreases |raw|
  {
    if |raw| > 0 {
      var init, last := raw[..|raw| - 1], raw[|raw| - 1];
      assert raw == init + [last];
      CleanedRows(init);
      forall b | b in Cleaned(raw)
        ensures exists r :: r in raw && r.date.Some? && CleanRow(r) == b
      {
        if b in Cleaned(init) {
          var r :| r in init && r.date.Some? && CleanRow(r) == b;
          assert r in raw;
        } else {
          assert last in raw;
        }
      }
    }
  }

  /** Without undated rows, cleaning keeps every row. */
  lemma {:induction false} CleanedKeepsDatedTable(raw: seq<RawRow>)
    requires forall i :: 0 <= i < |raw| ==> raw[i].date.Some?
    ensures |Cleaned(raw)| == |raw|
    decreases |raw|
  {
    if |raw| > 0 {
      CleanedKeepsDatedTable(raw[..|raw| - 1]);
    }
  }

  /** Reading back the decimal text of a natural number gives the number. */
  lemma {:induction false} DigitsRoundTrip(n: nat)
    ensures DigitsValue(Digits(n)) == n
  {
    if n >= 10 {
      DigitsRoundTrip(n / 10);
      var s := Digits(n);
      assert s[..|s| - 1] == Digits(n / 10);
    }
  }

  /** A text cell holding an integer in decimal is coerced to that integer. */
  lemma DecimalTextCoerces(n: int)
    ensures NormalizeNumeric(Text(DecimalText(n))) == Some(n)
  {
    var s := DecimalText(n);
    if n < 0 {
      DigitsRoundTrip(-n);
      assert s[1..] == Digits(-n);
      assert !IsDigits(s) by { assert s[0] == '-'; }
      assert ParseNumber(s) == Some(n);
    } else {
      DigitsRoundTrip(n);
      assert ParseNumber(s) == Some(n);
    }
  }

  /** The passenger count after cleaning: a missing cell or a sentinel gives 0, a
      number or the decimal text of a number keeps its value, other text gives 0. */
  lemma PassengerCleaning(r: RawRow)
    requires r.date.Some?
    ensures r.passengers.Blank? ==> CleanRow(r).passengers == 0
    ensures r.passengers.Text? && r.passengers.s in NullSentinels ==> CleanRow(r).passengers == 0
    ensures r.passengers.Text? && !IsNumeral(r.passengers.s) ==> CleanRow(r).passengers == 0
    ensures r.passengers.Number? ==> CleanRow(r).passengers == r.passengers.n
    ensures forall n :: r.passengers == Text(DecimalText(n)) ==> CleanRow(r).passengers == n
  {
    forall n | r.passengers == Text(DecimalText(n))
      ensures CleanRow(r).passengers == n
    {
      DecimalTextCoerces(n);
    }
  }
}
