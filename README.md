# Working hours: the marked-date store

A model of the logic inside the working-hours calendar app (a React Native
app). The app keeps a table from day key (`YYYY-MM-DD`) to a record
`{marked, selected, selectedColor, hoursWorked?, dotColor?}`. On mount it fills
the table with every day from 2023-01-01 through 2030-12-31. Weekends get a red
dot and other days a yellow one.

- Tapping a day flips its selection, or adds a selected entry for a day the
  table lacks.
- "Add Hours" reads the text field with `parseInt(text, 10)`. It accepts a
  value in [1, 24] and stamps every selected day with the hours, the mark and a
  green dot.
- The calendar paints each day light blue, green or yellow.
- The details screen lists the current month's days with their hours.

The model has these modules:

- `Calendar` (`calendar.dfy`): proleptic Gregorian dates as (year, month, day)
  triples, day numbers, `getDay`, and the next day.
- `Digits` and `DayKeys` (`digits.dfy`, `day_keys.dfy`):
  - the zero-padded `YYYY-MM-DD` key that `toISOString().split('T')[0]`
    produces (ISO 8601 extended calendar-date form);
  - the parse that `new Date(key)` performs on such a key.
- `HoursInput` (`hours_input.dfy`): `parseInt(text, 10)` as section 19.2.5 of
  ECMA-262 defines it, and the Add Hours range check.
- `MarkedDates` (`marked_dates.dfy`):
  - the record and the store, kept as own-key order plus a map;
  - the initialisation loop, as a method proved against the `IsInitial`
    predicate;
  - the day tap, Add Hours (the in-place `for...in` loop as a method proved
    against `WithHours`) and the background colour;
  - the lemmas about them.
- `Details` (`details_screen.dfy`): the current-month list, over a store passed
  in.
- `Home` (`home_screen.dfy`): `class HomeScreen`, the calendar screen's state
  and its actions. Each action includes the effect runs it triggers.
- `AppDraft` (`app.dfy`): `class App`, the earlier single-screen draft.
- `Wrappers` (`wrappers.dfy`): `Option`.

Dates are taken in UTC. With that assumption, the key written for a day, its
`getDay` and its `getMonth`/`getFullYear` all refer to the same calendar day.

## Behaviour worth knowing

- **Tapping twice.** Tapping an absent day twice does not restore the store.
  The added entry stays, unselected (`ToggleTwiceAbsent`).
- **Rejected input on the calendar screen.** A rejected Add Hours does not
  leave the store alone. It raises `errorFlag`, a dependency of the reset
  effect. The effect re-initialises the store and lowers the flag, which runs
  it once more. Every selection and every recorded hour is gone, and the
  calendar key grows by two. The draft `App` only alerts.
- **Order of the month list.** The month list follows the store's key order
  (insertion order), not a date sort. On the initial store this is calendar
  order (`InitialMonthRows`).
- **Selection after Add Hours.** Selected days stay selected after Add Hours.

## Model

| member | source | states |
|---|---|---|
| Calendar.Next | screens/HomeScreen.tsx:56 | `setDate(getDate() + 1)` gives a valid date, one day number later and later in calendar order |
| Calendar.DayNumberMonotone | screens/HomeScreen.tsx:46 | the time-value comparison `startDate <= endDate` agrees with calendar order |
| Calendar.DayNumberInjective | screens/HomeScreen.tsx:46 | two valid dates with the same time value are the same date |
| Calendar.Weekday | screens/HomeScreen.tsx:48 | `getDay` lies in 0..6; `FirstIsSunday` and `WeekdayOffset` pin it to Sunday = 0 and one step per day |
| Calendar.WeekdayOffset | screens/HomeScreen.tsx:48 | `getDay` advances by one per day, modulo 7 |
| DayKeys.DayKey | screens/HomeScreen.tsx:47 | a key is ten characters with dashes at positions 4 and 7 |
| DayKeys.ParseKey | screens/DetailsScreen.tsx:18 | a key that parses names a valid date with a four-digit year |
| DayKeys.ParseDayKey | screens/DetailsScreen.tsx:18 | `new Date(key)` on a day's own key gives that day back |
| DayKeys.DayKeyOfParse | screens/DetailsScreen.tsx:18 | a key that parses is the canonical key of its day |
| DayKeys.DayKeyInjective | screens/HomeScreen.tsx:47 | different days get different keys |
| HoursInput.TrimStart | screens/HomeScreen.tsx:63 | `parseInt` drops exactly the leading white space and line terminators: a suffix, starting with a non-blank |
| HoursInput.DigitPrefix | screens/HomeScreen.tsx:63 | the longest prefix of decimal digits: all digits and not followed by one |
| HoursInput.ParseInt | screens/HomeScreen.tsx:63 | `parseInt(numberInput, 10)`: a negative result only when the first non-blank is `-` |
| HoursInput.ParseIntStarts | screens/HomeScreen.tsx:63 | a number is read exactly when a digit, or a sign and then a digit, follows the leading blanks; otherwise NaN |
| HoursInput.ParseSigned | screens/HomeScreen.tsx:63 | any integer written with leading blanks and a non-digit tail parses back to itself |
| HoursInput.ParseNaN | screens/HomeScreen.tsx:63 | text whose first non-blank is not a sign or digit, or whose sign has no digit after it, gives NaN |
| HoursInput.ParseHours | screens/HomeScreen.tsx:63-64 | an accepted value lies in [1, 24] |
| HoursInput.HoursAccepted | screens/HomeScreen.tsx:63-64 | a written number is accepted exactly when it is in [1, 24], and then stands for itself |
| HoursInput.AcceptsDigitPrefix | screens/HomeScreen.tsx:63-64 | `"8h"` is accepted as 8 |
| HoursInput.AcceptsLeadingBlank | screens/HomeScreen.tsx:63-64 | `" 12"` is accepted as 12 |
| HoursInput.AcceptsLowerBound | screens/HomeScreen.tsx:63-64 | `"1"` is accepted |
| HoursInput.AcceptsUpperBound | screens/HomeScreen.tsx:63-64 | `"24"` is accepted |
| HoursInput.RejectsEmpty | screens/HomeScreen.tsx:63-64 | `""` is rejected |
| HoursInput.RejectsLetters | screens/HomeScreen.tsx:63-64 | `"abc"` is rejected |
| HoursInput.RejectsZero | screens/HomeScreen.tsx:63-64 | `"0"` is rejected |
| HoursInput.RejectsAboveRange | screens/HomeScreen.tsx:63-64 | `"25"` is rejected |
| HoursInput.RejectsNegative | screens/HomeScreen.tsx:63-64 | `"-3"` is rejected |
| MarkedDates.BackgroundColor | screens/HomeScreen.tsx:80-87 | light blue exactly when selected, green exactly when unselected with non-zero hours, yellow otherwise; never red (the draft's rule at App.tsx lines 59-66 is the same) |
| MarkedDates.BackgroundMatchesDot | screens/HomeScreen.tsx:80-87 | in a well-formed store the green background goes with the green dot on unselected days |
| MarkedDates.Put | screens/HomeScreen.tsx:51-53 | `obj[key] = record`: the key holds the record, every other key keeps its presence and record, a new key goes last in own-key order and an existing one keeps its place (also the tap at line 173) |
| MarkedDates.PutValid | screens/HomeScreen.tsx:51 | writing a key keeps every key listed once |
| MarkedDates.RangeLength | screens/HomeScreen.tsx:43-44 | 2023-01-01 through 2030-12-31 is 2,922 days |
| MarkedDates.InRangeByDayNumber | screens/HomeScreen.tsx:46 | a day is in 2023..2030 exactly when its time value lies between the loop's bounds |
| MarkedDates.InitialRecord | screens/HomeScreen.tsx:50-54 | a day's initial record is marked, unselected, light blue, without hours; red dot iff its `getDay` is 0 or 6, yellow iff 1..5 |
| MarkedDates.IsInitial | screens/HomeScreen.tsx:43-57 | the initial store lists 2,922 distinct keys, each with an entry; `InitialStoreKeys`, `InitialStoreRecords` and `InitialUnique` say which |
| MarkedDates.InitializeMarkedDates | screens/HomeScreen.tsx:39-60 | the loop yields the initial store: the i-th key names the day i days after 2023-01-01, 2,922 keys, each with its initial entry (the draft's loop at App.tsx lines 13-34 is the same) |
| MarkedDates.InitialStoreKeys | screens/HomeScreen.tsx:43-59 | every day of 2023..2030 has an entry and every key is the key of such a day: no gaps, no strays |
| MarkedDates.InitialStoreRecords | screens/HomeScreen.tsx:48-54 | every initial entry is marked, unselected, light blue, without hours; red dot iff `getDay` is 0 or 6, yellow iff 1..5 |
| MarkedDates.FirstIsSunday | screens/HomeScreen.tsx:43 | 2023-01-01 is a Sunday |
| MarkedDates.WeekdayOfIndex | screens/HomeScreen.tsx:48 | the day i days after 2023-01-01 has weekday i mod 7 |
| MarkedDates.InitialDotsByIndex | screens/HomeScreen.tsx:48-54 | the i-th initial key has the red dot iff i mod 7 is 0 or 6 |
| MarkedDates.InitialWellFormed | screens/HomeScreen.tsx:51-53 | the initial store keeps the store invariants |
| MarkedDates.InitialUnique | screens/HomeScreen.tsx:39-60 | the initial store is unique: every run of the loop builds the same one |
| MarkedDates.InitialDay | screens/HomeScreen.tsx:46-54 | each day of the range holds its own initial entry |
| MarkedDates.Toggled | screens/HomeScreen.tsx:170-178 | after a tap the key is present; an existing entry only flips `selected` and keeps its place, an absent key gets `{marked: false, selected: true, lightblue}` at the end; every other key is untouched |
| MarkedDates.ToggleEffect | screens/HomeScreen.tsx:168-180 | a tap keeps the invariants and changes only the tapped entry: only `selected` flips on an existing one, a new one goes last as `{marked: false, selected: true, lightblue}` |
| MarkedDates.ToggleTwiceRestores | screens/HomeScreen.tsx:170-171 | tapping an existing day twice restores the store |
| MarkedDates.ToggleTwiceAbsent | screens/HomeScreen.tsx:172-178 | tapping an absent day twice leaves an unselected entry behind, so the store is not restored |
| MarkedDates.Stamp | screens/HomeScreen.tsx:66-70 | a stamped record has the hours, the mark and the green dot, keeps its selection and colour, and its non-zero hours are truthy |
| MarkedDates.WithHours | screens/HomeScreen.tsx:65-71 | Add Hours keeps the key order, the key set and every `selected` flag; unselected entries are untouched and every selected one holds the new hours |
| MarkedDates.WithHoursEffect | screens/HomeScreen.tsx:65-71 | exactly the selected entries get the hours, the mark and the green dot and stay selected; the others and the key order are untouched |
| MarkedDates.WithHoursIdempotent | screens/HomeScreen.tsx:65-73 | a second Add Hours with the same value changes nothing |
| MarkedDates.WithHoursWellFormed | screens/HomeScreen.tsx:64-71 | Add Hours with a value in [1, 24] keeps the store invariants |
| MarkedDates.AssignThenDeselectIsGreen | screens/HomeScreen.tsx:65-87 | a day that got hours and is then deselected shows green |
| MarkedDates.AssignHours | screens/HomeScreen.tsx:65-71 | the in-place `for...in` walk produces exactly the store `WithHours` describes |
| Details.DisplayHours | screens/DetailsScreen.tsx:23 | `dateInfo.hoursWorked`, or `'0'` when that is falsy: shows the recorded hours when present and 0 when absent |
| Details.InMonth | screens/DetailsScreen.tsx:18-20 | a key in some month is a well-formed key with a four-digit year and a month in 1..12 |
| Details.InMonthOfKey | screens/DetailsScreen.tsx:18-20 | a day's key lies in a month exactly when the day's year and month are that month's |
| Details.MonthPositions | screens/DetailsScreen.tsx:16-20 | the positions of the month's keys, ascending, and all of them |
| Details.MonthRows | screens/DetailsScreen.tsx:16-28 | a row for a key iff the key is in the store and its year and month match; each row shows the hours or 0 |
| Details.MonthRowsAt | screens/DetailsScreen.tsx:16 | the i-th row shows the key at the i-th month position |
| Details.MonthRowsInKeyOrder | screens/DetailsScreen.tsx:16 | rows follow `Object.keys` order, so no key gives two rows |
| Details.MonthRowsOtherMonths | screens/DetailsScreen.tsx:20-27 | a key of another month, or of the same month in another year, gives no row |
| Details.InitialMonthRows | screens/DetailsScreen.tsx:16-28 | on the initial store every day of a month in 2023..2030 has a row showing 0, and rows are in calendar order |
| Details.InitialOtherYearsEmpty | screens/DetailsScreen.tsx:20 | on the initial store a month outside 2023..2030 shows no rows |
| Home.StartLanguage | screens/HomeScreen.tsx:26-28 | Swedish exactly when the device locale starts with `sv` |
| Home.HomeScreen.constructor | screens/HomeScreen.tsx:28-36 | mounting gives the initial store, an empty input, no alert, calendar key 1 and the device language |
| Home.HomeScreen.ResetEffect | screens/HomeScreen.tsx:97-105 | the effect installs the initial store, bumps the calendar key, clears the error flag and changes nothing else |
| Home.HomeScreen.HandleButtonPress | screens/HomeScreen.tsx:62-78 | accept: the store becomes `WithHours` and the input clears; reject: alert shown, store re-initialised, input kept, key +2 |
| Home.HomeScreen.RaiseError | screens/HomeScreen.tsx:74-77 | the rejected branch: alert shown, the effect runs twice, the store is re-initialised, the input and language are kept, key +2 |
| Home.HomeScreen.OnDayPress | screens/HomeScreen.tsx:168-180 | the store becomes `Toggled` of the old one; nothing else changes |
| Home.HomeScreen.ChangeLanguage | screens/HomeScreen.tsx:198 | a new language re-initialises the store; the same one changes nothing |
| Home.HomeScreen.SetNumberInput | screens/HomeScreen.tsx:193 | typing changes only the input |
| Home.HomeScreen.HideAlert | screens/HomeScreen.tsx:93-95 | closing the alert changes only its visibility |
| AppDraft.App.constructor | App.tsx:36-39 | the mount effect runs once and leaves the initial store |
| AppDraft.App.HandleButtonPress | App.tsx:41-56 | alert iff the input is rejected, then nothing changes; otherwise the store becomes `WithHours` and the input clears |
| AppDraft.App.SeeHoursWorked | App.tsx:115-118 | the second button has exactly the Add Hours effect |
| AppDraft.App.OnDayPress | App.tsx:82-94 | the store becomes `Toggled` of the old one; the input stays |
| AppDraft.App.SetNumberInput | App.tsx:108 | typing changes only the input |
| AppDraft.App.HoursList | App.tsx:119-136 | the inline list is the month projection of the draft's store |

## Left out

- Time zones and daylight saving time. Keys, `getDay` and `getMonth` are
  taken in UTC. East of UTC, `toISOString()` of a local midnight names the
  previous day, and `new Date(key)` reads as UTC while `getMonth` reads local
  time. Those shifts are not modelled.
- The wall clock. `new Date()` in the month filter becomes a year and month
  parameter.
- The device locale. It is a constructor parameter; only its `sv` prefix test
  is modelled.
- Display-only code:
  - the `LocaleConfig` month and day names and the global `defaultLocale`
    assignments;
  - the localisation strings;
  - the alert components;
  - images, the status bar, JSX and styles;
  - the custom day renderer beyond its background colour and dot.
- Navigation. Details receives a store value. The sharing of record objects
  between the calendar screen's state and the navigation parameter is not
  modelled (aliasing), and nothing writes to the store after navigation.
- React scheduling. Each user action, with the state updates and effect runs
  it causes, is one atomic transition. The first render before the mount
  effect is not observable here. A state update to an equal value triggers
  no effect.
- HoursInput.ParseInt: the result is an exact integer rather than a double.
  Above 2^53 a long digit run would round, but such a value is outside
  [1, 24] either way, so the accept/reject decision is unaffected.
- DayKeys.ParseKey: `new Date` also accepts other date formats. Only the
  `YYYY-MM-DD` form that both the initialisation and the calendar's
  `dateString` produce is parsed. Any other key is treated as an Invalid Date
  and gets no row. A key of that form naming a day that does not exist (such
  as `2023-02-30`) is also treated as an Invalid Date, where V8 rolls it over
  into the next month; no such key reaches the store, whose keys come only
  from `toISOString` and from the calendar's `dateString`.
