/** The calendar screen: the store wrapped in the screen's state (number
    input, language, alert, error flag and the calendar's remount key).  Each
    method is one user action together with the effect runs it triggers. */
module Home {
  import opened Wrappers
  import opened HoursInput
  import opened MarkedDates

  datatype Language = En | Sv

  /** `deviceLanguage.startsWith('sv')` picks Swedish, anything else English. */
  function StartLanguage(deviceLocale: string): (l: Language)
    ensures l == Sv <==> |deviceLocale| >= 2 && deviceLocale[0] == 's' && deviceLocale[1] == 'v'
  {
    if |deviceLocale| >= 2 && deviceLocale[..2] == "sv" then Sv else En
  }

  class HomeScreen {
    var markedDates: Store
    var numberInput: string
    var selectedLanguage: Language
    var isAlertVisible: bool
    var errorFlag: bool
    var calendarKey: int

    /** Between actions the store keeps its invariants and the error flag is down. */
    ghost predicate Valid()
      reads this
    {
      ValidStore(markedDates) && WellFormed(markedDates) && !errorFlag
    }

    /** Mounting the screen: the initial state values, then the reset effect's first run. */
    constructor(deviceLocale: string)
      ensures Valid()
      ensures IsInitial(markedDates)
      ensures numberInput == "" && !isAlertVisible && calendarKey == 1
      ensures selectedLanguage == StartLanguage(deviceLocale)
    {
      selectedLanguage := StartLanguage(deviceLocale);
      calendarKey := 0;
      errorFlag := false;
      numberInput := "";
      isAlertVisible := false;
      markedDates := EmptyStore;
      new;
      ResetEffect();
    }

    /** The effect on `[selectedLanguage, errorFlag]`: a fresh store, a new
        calendar key, and the error flag cleared. */
    method ResetEffect()
      modifies this
      ensures Valid()
      ensures IsInitial(markedDates)
      ensures calendarKey == old(calendarKey) + 1
      ensures numberInput == old(numberInput)
      ensures selectedLanguage == old(selectedLanguage)
      ensures isAlertVisible == old(isAlertVisible)
    {
      var initialMarkedDates := InitializeMarkedDates();
      calendarKey := calendarKey + 1;
      markedDates := initialMarkedDates;
      if errorFlag {
        errorFlag := false;
      }
      InitialWellFormed(markedDates);
    }

    /** Add Hours.  An accepted value stamps every selected day and clears
        the input.  A rejected one shows the alert and raises the error flag;
        the flag is a dependency of the reset effect, which runs for the rise,
        lowers the flag and so runs once more: the store is re-initialised,
        dropping every selection and every recorded hour, while the input
        text stays. */
    method HandleButtonPress()
      requires Valid()
      modifies this
      ensures Valid()
      ensures selectedLanguage == old(selectedLanguage)
      ensures ParseHours(old(numberInput)).Some? ==>
                && markedDates == WithHours(old(markedDates), ParseHours(old(numberInput)).value)
                && numberInput == ""
                && isAlertVisible == old(isAlertVisible)
                && calendarKey == old(calendarKey)
      ensures ParseHours(old(numberInput)).None? ==>
                && IsInitial(markedDates)
                && numberInput == old(numberInput)
                && isAlertVisible
                && calendarKey == old(calendarKey) + 2
    {
      var hoursWorked := ParseInt(numberInput);
      if hoursWorked.Some? && hoursWorked.value >= 1 && hoursWorked.value <= 24 {
        WithHoursWellFormed(markedDates, hoursWorked.value);
        markedDates := AssignHours(markedDates, hoursWorked.value);
        numberInput := "";
      } else {
        RaiseError();
      }
    }

    /** The rejected branch of Add Hours: the alert shows and the error flag
        rises; the reset effect runs for the rise, clears the flag, and runs
        once more for the fall. */
    method RaiseError()
      modifies this
      ensures Valid()
      ensures IsInitial(markedDates)
      ensures numberInput == old(numberInput) && selectedLanguage == old(selectedLanguage)
      ensures isAlertVisible && calendarKey == old(calendarKey) + 2
    {
      isAlertVisible := true;
      errorFlag := true;
      ResetEffect();
      ResetEffect();
    }

    /** A tap on a day: flip the selection of its entry, or add a selected
        entry for a day the store does not have. */
    method OnDayPress(dateStr: string)
      requires Valid()
      modifies this
      ensures Valid()
      ensures markedDates == Toggled(old(markedDates), dateStr)
      ensures numberInput == old(numberInput) && selectedLanguage == old(selectedLanguage)
      ensures isAlertVisible == old(isAlertVisible) && calendarKey == old(calendarKey)
    {
      ToggleEffect(markedDates, dateStr);
      if dateStr in markedDates.entries {
        var r := markedDates.entries[dateStr];
        markedDates := markedDates.(entries := markedDates.entries[dateStr := r.(selected := !r.selected)]);
      } else {
        markedDates := Store(markedDates.order + [dateStr],
                             markedDates.entries[dateStr := DayRecord(false, true, LightBlue, None, None)]);
      }
    }

    /** The language picker: a new language runs the reset effect, the same
        language changes nothing. */
    method ChangeLanguage(language: Language)
      requires Valid()
      modifies this
      ensures Valid()
      ensures selectedLanguage == language
      ensures numberInput == old(numberInput) && isAlertVisible == old(isAlertVisible)
      ensures language != old(selectedLanguage) ==>
                IsInitial(markedDates) && calendarKey == old(calendarKey) + 1
      ensures language == old(selectedLanguage) ==>
                markedDates == old(markedDates) && calendarKey == old(calendarKey)
    {
      if language != selectedLanguage {
        selectedLanguage := language;
        ResetEffect();
      }
    }

    /** Typing into the hours field. */
    method SetNumberInput(text: string)
      requires Valid()
      modifies this
      ensures Valid()
      ensures numberInput == text
      ensures markedDates == old(markedDates) && selectedLanguage == old(selectedLanguage)
      ensures isAlertVisible == old(isAlertVisible) && calendarKey == old(calendarKey)
    {
      numberInput := text;
    }

    /** Closing the alert. */
    method HideAlert()
      requires Valid()
      modifies this
      ensures Valid()
      ensures !isAlertVisible
      ensures markedDates == old(markedDates) && numberInput == old(numberInput)
      ensures selectedLanguage == old(selectedLanguage) && calendarKey == old(calendarKey)
    {
      isAlertVisible := false;
    }
  }
}
