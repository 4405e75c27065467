/** The hours summary: the rows the details screen (and the draft App's
    inline list) renders for the current month.  It only reads the store it
    is given. */
module Details {
  import opened Calendar
  import opened DayKeys
  import opened MarkedDates

  /** One rendered line: `Date: <key>, Hours Worked: <hours>`. */
  datatype Row = Row(date: string, hoursWorked: int)

  /** `dateInfo.hoursWorked || '0'`: the hours when present and non-zero, else 0. */
  function DisplayHours(r: DayRecord): (h: int)
    ensures r.hoursWorked.Some? ==> h == r.hoursWorked.value
    ensures r.hoursWorked.None? ==> h == 0
  {
    if HasHours(r) then r.hoursWorked.value else 0
  }

  /** `new Date(key)` has the given full year and month.  A key that does not
      parse is an Invalid Date, whose NaN fields equal nothing. */
  predicate InMonth(k: string, year: int, month: int)
    ensures InMonth(k, year, month) ==> KeyShape(k) && 1 <= month <= 12 && 0 <= year <= 9999
  {
    ParseKey(k).Some? && ParseKey(k).value.year == year && ParseKey(k).value.month == month
  }

  /** A day's key lies in a month exactly when the day does. */
  lemma InMonthOfKey(d: Date, year: int, month: int)
    requires Keyable(d)
    ensures InMonth(DayKey(d), year, month) <==> d.year == year && d.month == month
  {
    ParseDayKey(d);
  }

  /** The positions among the first `n` keys whose key lies in the month:
      the keys `map` turns into a row rather than into `null`. */
  function MonthPositions(keys: seq<string>, year: int, month: int, n: int): (ps: seq<int>)
    requires 0 <= n <= |keys|
    ensures forall i :: 0 <= i < |ps| ==> 0 <= ps[i] < n && InMonth(keys[ps[i]], year, month)
    ensures forall i, j :: 0 <= i < j < |ps| ==> ps[i] < ps[j]
    ensures forall p :: 0 <= p < n && InMonth(keys[p], year, month) ==> p in ps
  {
    if n == 0 then []
    else
      var ps := MonthPositions(keys, year, month, n - 1);
      if InMonth(keys[n - 1], year, month) then ps + [n - 1] else ps
  }

  /** `Object.keys(markedDates).map(...)`: one row per key of the month, in
      the store's key order, showing that day's hours or 0. */
  function MonthRows(s: Store, year: int, month: int): (rows: seq<Row>)
    requires ValidStore(s)
    ensures forall i :: 0 <= i < |rows| ==>
              && rows[i].date in s.entries
              && InMonth(rows[i].date, year, month)
              && rows[i].hoursWorked == DisplayHours(s.entries[rows[i].date])
    ensures forall k :: k in s.entries && InMonth(k, year, month) ==> Row(k, DisplayHours(s.entries[k])) in rows
  {
    var ps := MonthPositions(s.order, year, month, |s.order|);
    var rows := seq(|ps|, i requires 0 <= i < |ps| => Row(s.order[ps[i]], DisplayHours(s.entries[s.order[ps[i]]])));
    forall k | k in s.entries && InMonth(k, year, month)
      ensures Row(k, DisplayHours(s.entries[k])) in rows
    {
      var p :| 0 <= p < |s.order| && s.order[p] == k;
      assert p in ps;
      var i :| 0 <= i < |ps| && ps[i] == p;
      assert rows[i] == Row(k, DisplayHours(s.entries[k]));
    }
    rows
  }

  /** The i-th row shows the key at the i-th position of the month's keys. */
  lemma MonthRowsAt(s: Store, year: int, month: int)
    requires ValidStore(s)
    ensures var ps := MonthPositions(s.order, year, month, |s.order|);
            |MonthRows(s, year, month)| == |ps|
            && forall i :: 0 <= i < |ps| ==> MonthRows(s, year, month)[i].date == s.order[ps[i]]
  {
  }

  /** Rows follow the store's key order: a row above another shows a key
      that comes earlier in `Object.keys`, so no key gives two rows. */
  lemma MonthRowsInKeyOrder(s: Store, year: int, month: int)
    requires ValidStore(s)
    ensures var rows := MonthRows(s, year, month);
            forall i, j, p, q ::
              (0 <= i < j < |rows| && 0 <= p < |s.order| && 0 <= q < |s.order|
               && s.order[p] == rows[i].date && s.order[q] == rows[j].date) ==> p < q
    ensures var rows := MonthRows(s, year, month);
            forall i, j :: 0 <= i < j < |rows| ==> rows[i].date != rows[j].date
  {
    var rows := MonthRows(s, year, month);
    var ps := MonthPositions(s.order, year, month, |s.order|);
    MonthRowsAt(s, year, month);
    forall i, j, p, q |
      0 <= i < j < |rows| && 0 <= p < |s.order| && 0 <= q < |s.order|
      && s.order[p] == rows[i].date && s.order[q] == rows[j].date
      ensures p < q
    {
      assert p == ps[i] && q == ps[j];
    }
    forall i, j | 0 <= i < j < |rows|
      ensures rows[i].date != rows[j].date
    {
      assert ps[i] < ps[j];
    }
  }

  /** A key of the same month in another year, or of another month, gives no row. */
  lemma MonthRowsOtherMonths(s: Store, year: int, month: int, k: string)
    requires ValidStore(s) && k in s.entries
    requires ParseKey(k).None? || ParseKey(k).value.year != year || ParseKey(k).value.month != month
    ensures forall i :: 0 <= i < |MonthRows(s, year, month)| ==> MonthRows(s, year, month)[i].date != k
  {
  }

  /** On the initial store nothing is recorded yet: every day of a month in
      2023..2030 has its row, every row shows 0 hours, and the rows run in
      calendar order. */
  lemma InitialMonthRows(s: Store, year: int, month: int)
    requires IsInitial(s) && 2023 <= year <= 2030 && 1 <= month <= 12
    ensures forall day :: 1 <= day <= DaysInMonth(year, month) ==>
              Row(DayKey(Date(year, month, day)), 0) in MonthRows(s, year, month)
    ensures forall i :: 0 <= i < |MonthRows(s, year, month)| ==> MonthRows(s, year, month)[i].hoursWorked == 0
    ensures forall i, j :: 0 <= i < j < |MonthRows(s, year, month)| ==>
              DayNumber(ParseKey(MonthRows(s, year, month)[i].date).value)
                < DayNumber(ParseKey(MonthRows(s, year, month)[j].date).value)
  {
    InitialMonthCovered(s, year, month);
    InitialRowsZero(s, year, month);
    InitialRowsAscending(s, year, month);
  }

  lemma InitialMonthCovered(s: Store, year: int, month: int)
    requires IsInitial(s) && 2023 <= year <= 2030 && 1 <= month <= 12
    ensures forall day :: 1 <= day <= DaysInMonth(year, month) ==>
              Row(DayKey(Date(year, month, day)), 0) in MonthRows(s, year, month)
  {
    forall day | 1 <= day <= DaysInMonth(year, month)
      ensures Row(DayKey(Date(year, month, day)), 0) in MonthRows(s, year, month)
    {
      InitialDayRow(s, Date(year, month, day));
    }
  }

  lemma InitialDayRow(s: Store, d: Date)
    requires IsInitial(s) && InRange(d)
    ensures Row(DayKey(d), 0) in MonthRows(s, d.year, d.month)
  {
    var k := DayKey(d);
    InitialDay(s, d);
    ParseDayKey(d);
    assert InMonth(k, d.year, d.month);
    assert DisplayHours(s.entries[k]) == 0;
  }

  lemma InitialRowsZero(s: Store, year: int, month: int)
    requires IsInitial(s)
    ensures forall i :: 0 <= i < |MonthRows(s, year, month)| ==> MonthRows(s, year, month)[i].hoursWorked == 0
  {
    var rows := MonthRows(s, year, month);
    forall i | 0 <= i < |rows|
      ensures rows[i].hoursWorked == 0
    {
      InitialEntry(s, rows[i].date);
    }
  }

  lemma InitialRowsAscending(s: Store, year: int, month: int)
    requires IsInitial(s)
    ensures forall i, j :: 0 <= i < j < |MonthRows(s, year, month)| ==>
              DayNumber(ParseKey(MonthRows(s, year, month)[i].date).value)
                < DayNumber(ParseKey(MonthRows(s, year, month)[j].date).value)
  {
    var rows := MonthRows(s, year, month);
    var ps := MonthPositions(s.order, year, month, |s.order|);
    MonthRowsAt(s, year, month);
    forall i, j | 0 <= i < j < |rows|
      ensures DayNumber(ParseKey(rows[i].date).value) < DayNumber(ParseKey(rows[j].date).value)
    {
      assert rows[i].date == s.order[ps[i]] && rows[j].date == s.order[ps[j]];
    }
  }

  /** Outside 2023..2030 the initial store has no keys, so the list is empty. */
  lemma InitialOtherYearsEmpty(s: Store, year: int, month: int)
    requires IsInitial(s) && (year < 2023 || year > 2030)
    ensures MonthRows(s, year, month) == []
  {
    var rows := MonthRows(s, year, month);
    if rows != [] {
      var p :| 0 <= p < |s.order| && s.order[p] == rows[0].date;
      InitialKeyInRange(s, p);
      assert false;
    }
  }
}
