/** The earlier single-screen draft of the app: the same store, Add Hours
    and day tap, an error path that only alerts, and the month list drawn
    inline under the calendar. */
module AppDraft {
  import opened Wrappers
  import opened HoursInput
  import opened MarkedDates
  import opened Details

  class App {
    var numberInput: string
    var markedDates: Store

    ghost predicate Valid()
      reads this
    {
      ValidStore(markedDates) && WellFormed(markedDates)
    }

    /** Mounting: empty state, then the effect with no dependencies, which
        runs this once and never again. */
    constructor()
      ensures Valid()
      ensures IsInitial(markedDates) && numberInput == ""
    {
      numberInput := "";
      markedDates := EmptyStore;
      new;
      var initialMarkedDates := InitializeMarkedDates();
      markedDates := initialMarkedDates;
      InitialWellFormed(markedDates);
    }

    /** Add Hours.  `alerted` reports the `alert` call: it is raised exactly
        when the input is rejected, and then nothing else changes. */
    method HandleButtonPress() returns (alerted: bool)
      requires Valid()
      modifies this
      ensures Valid()
      ensures alerted <==> ParseHours(old(numberInput)).None?
      ensures !alerted ==>
                markedDates == WithHours(old(markedDates), ParseHours(old(numberInput)).value)
                && numberInput == ""
      ensures alerted ==> markedDates == old(markedDates) && numberInput == old(numberInput)
    {
      var hoursWorked := ParseInt(numberInput);
      if hoursWorked.Some? && hoursWorked.value >= 1 && hoursWorked.value <= 24 {
        WithHoursWellFormed(markedDates, hoursWorked.value);
        markedDates := AssignHours(markedDates, hoursWorked.value);
        numberInput := "";
        alerted := false;
      } else {
        alerted := true;
      }
    }

    /** The "See hours worked for this month" button is wired to the Add
        Hours handler, so it has exactly the Add Hours effect. */
    method SeeHoursWorked() returns (alerted: bool)
      requires Valid()
      modifies this
      ensures Valid()
      ensures alerted <==> ParseHours(old(numberInput)).None?
      ensures !alerted ==>
                markedDates == WithHours(old(markedDates), ParseHours(old(numberInput)).value)
                && numberInput == ""
      ensures alerted ==> markedDates == old(markedDates) && numberInput == old(numberInput)
    {
      alerted := HandleButtonPress();
    }

    /** A tap on a day, as on the calendar screen. */
    method OnDayPress(dateStr: string)
      requires Valid()
      modifies this
      ensures Valid()
      ensures markedDates == Toggled(old(markedDates), dateStr)
      ensures numberInput == old(numberInput)
    {
      ToggleEffect(markedDates, dateStr);
      if dateStr in markedDates.entries {
        var r := markedDates.entries[dateStr];
        markedDates := markedDates.(entries := markedDates.entries[dateStr := r.(selected := !r.selected)]);
      } else {
        markedDates := Store(markedDates.order + [dateStr],
                             markedDates.entries[dateStr := DayRecord(false, true, LightBlue, None, None)]);
      }
    }

    method SetNumberInput(text: string)
      requires Valid()
      modifies this
      ensures Valid()
      ensures numberInput == text && markedDates == old(markedDates)
    {
      numberInput := text;
    }

    /** The inline list under the calendar for the current year and month
        (read from the clock in the app, passed in here): the same projection
        the details screen draws, over this screen's store. */
    function HoursList(year: int, month: int): (rows: seq<Row>)
      reads this
      requires Valid()
      ensures forall i :: 0 <= i < |rows| ==>
                && rows[i].date in markedDates.entries
                && InMonth(rows[i].date, year, month)
                && rows[i].hoursWorked == DisplayHours(markedDates.entries[rows[i].date])
      ensures forall k :: k in markedDates.entries && InMonth(k, year, month) ==>
                Row(k, DisplayHours(markedDates.entries[k])) in rows
    {
      MonthRows(markedDates, year, month)
    }
  }
}
