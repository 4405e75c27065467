/** The marked-date store behind the calendar screen: a table from day key
    to a record `{marked, selected, selectedColor, hoursWorked?, dotColor?}`,
    its initial contents, and the operations the screens apply to it. */
module MarkedDates {
  import opened Wrappers
  import opened Calendar
  import opened DayKeys

  datatype Color = LightBlue | Red | Yellow | Green

  /** One day's entry; `None` stands for a property the object does not have. */
  datatype DayRecord = DayRecord(
    marked: bool,
    selected: bool,
    selectedColor: Color,
    hoursWorked: Option<int>,
    dotColor: Option<Color>)

  /** The JavaScript object from day key to record.  `order` is its own-key
      order, which is insertion order: a day key is never an array index. */
  datatype Store = Store(order: seq<string>, entries: map<string, DayRecord>)

  /** `order` lists each key of `entries` exactly once. */
  ghost predicate ValidStore(s: Store) {
    && (forall i, j :: 0 <= i < j < |s.order| ==> s.order[i] != s.order[j])
    && (forall k :: k in s.order ==> k in s.entries)
    && (forall k :: k in s.entries ==> k in s.order)
  }

  /** The invariants every reachable store keeps: the selection colour is
      always light blue, a green dot goes with recorded hours and only with
      them, and recorded hours lie in [1, 24]. */
  ghost predicate WellFormed(s: Store) {
    forall k :: k in s.entries ==>
      && s.entries[k].selectedColor == LightBlue
      && (s.entries[k].hoursWorked.Some? <==> s.entries[k].dotColor == Some(Green))
      && (s.entries[k].hoursWorked.Some? ==> 1 <= s.entries[k].hoursWorked.value <= 24)
  }

  const EmptyStore: Store := Store([], map[])

  /** `store[key] = record`: an existing key keeps its place, a new one goes last. */
  function Put(s: Store, k: string, r: DayRecord): (t: Store)
    ensures k in t.entries && t.entries[k] == r
    ensures forall j :: j != k ==> (j in t.entries <==> j in s.entries)
    ensures forall j :: j != k && j in s.entries ==> t.entries[j] == s.entries[j]
    ensures k in s.entries ==> t.order == s.order
    ensures k !in s.entries ==> t.order == s.order + [k]
  {
    Store(if k in s.entries then s.order else s.order + [k], s.entries[k := r])
  }

  /** JavaScript truthiness of `hoursWorked`: present and non-zero. */
  predicate HasHours(r: DayRecord) {
    r.hoursWorked.Some? && r.hoursWorked.value != 0
  }

  /** `getCalendarBackgroundColor`: the selection wins, then recorded hours. */
  function BackgroundColor(r: DayRecord): (c: Color)
    ensures c != Red
    ensures c == LightBlue <==> r.selected
    ensures c == Green <==> !r.selected && HasHours(r)
    ensures c == Yellow <==> !r.selected && !HasHours(r)
  {
    if r.selected then LightBlue
    else if HasHours(r) then Green
    else Yellow
  }

  /** In a well-formed store the background is green exactly when the day is
      not selected and carries the green dot: the stored dot and the derived
      background agree. */
  lemma BackgroundMatchesDot(s: Store, k: string)
    requires WellFormed(s) && k in s.entries
    ensures BackgroundColor(s.entries[k]) == Green <==>
              !s.entries[k].selected && s.entries[k].dotColor == Some(Green)
  {
  }

  // ---------------------------------------------------------------------
  // Initialisation

  const First: Date := Date(2023, 1, 1)
  const Last: Date := Date(2030, 12, 31)

  /** A day of the pre-seeded range. */
  predicate InRange(d: Date) {
    ValidDate(d) && 2023 <= d.year <= 2030
  }

  /** The entry initialisation writes for day `d`: red dot on a weekend, yellow otherwise. */
  function InitialRecord(d: Date): (r: DayRecord)
    requires ValidDate(d)
    ensures r.marked && !r.selected && r.selectedColor == LightBlue && r.hoursWorked == None
    ensures r.dotColor == Some(Red) <==> Weekday(d) == 0 || Weekday(d) == 6
    ensures r.dotColor == Some(Yellow) <==> 1 <= Weekday(d) <= 5
  {
    DayRecord(true, false, LightBlue, None, Some(if IsWeekend(d) then Red else Yellow))
  }

  /** Writing a key keeps each key listed once. */
  lemma PutValid(s: Store, k: string, r: DayRecord)
    requires ValidStore(s)
    ensures ValidStore(Put(s, k, r))
  {
    var t := Put(s, k, r);
    if k !in s.entries {
      assert k !in s.order;
      forall i, j | 0 <= i < j < |t.order|
        ensures t.order[i] != t.order[j]
      {
        if j == |s.order| {
          assert t.order[i] == s.order[i];
        }
      }
    }
  }

  /** The first `n` writes of the initialisation loop: `n` keys, each listed
      once, the i-th naming the day i days after 2023-01-01 and holding that
      day's initial entry. */
  ghost predicate SeededUpTo(s: Store, n: int) {
    && ValidStore(s)
    && |s.order| == n
    && forall i :: 0 <= i < n ==>
         && ParseKey(s.order[i]).Some?
         && DayNumber(ParseKey(s.order[i]).value) == DayNumber(First) + i
         && s.order[i] in s.entries
         && s.entries[s.order[i]] == InitialRecord(ParseKey(s.order[i]).value)
  }

  /** The store `initializeMarkedDates` returns: every day from 2023-01-01
      through 2030-12-31, in calendar order. */
  ghost predicate IsInitial(s: Store)
    ensures IsInitial(s) ==> ValidStore(s) && |s.order| == 2922
  {
    SeededUpTo(s, 2922)
  }

  /** 2023-01-01 through 2030-12-31 is 2,922 days: six years of 365 days and two of 366. */
  lemma RangeLength()
    ensures DayNumber(Last) - DayNumber(First) + 1 == 2922
  {
  }

  /** A valid day lies in 2023..2030 exactly when its day number lies between the range's ends. */
  lemma InRangeByDayNumber(d: Date)
    requires ValidDate(d)
    ensures InRange(d) <==> DayNumber(First) <= DayNumber(d) <= DayNumber(Last)
  {
    if d.year < 2023 {
      DayNumberMonotone(d, First);
    } else if d.year > 2030 {
      DayNumberMonotone(Last, d);
    } else {
      if d != First { DayNumberMonotone(First, d); }
      if d != Last { DayNumberMonotone(d, Last); }
    }
  }

  /** Writing the next day of the range extends the seeded prefix by one. */
  lemma SeedStep(s: Store, n: int, d: Date)
    requires SeededUpTo(s, n)
    requires Keyable(d) && DayNumber(d) == DayNumber(First) + n
    ensures SeededUpTo(Put(s, DayKey(d), InitialRecord(d)), n + 1)
  {
    var key := DayKey(d);
    ParseDayKey(d);
    if key in s.entries {
      assert false;
    }
    PutValid(s, key, InitialRecord(d));
    var t := Put(s, key, InitialRecord(d));
    assert forall i :: 0 <= i < n ==> t.order[i] == s.order[i];
  }

  /** `initializeMarkedDates`: walks the days from 2023-01-01 through
      2030-12-31 and writes each day's initial entry under its key. */
  method InitializeMarkedDates() returns (s: Store)
    ensures IsInitial(s)
  {
    s := EmptyStore;
    var startDate := First;
    var endDate := Last;
    RangeLength();
    while DayNumber(startDate) <= DayNumber(endDate)
      invariant ValidDate(startDate)
      invariant DayNumber(First) <= DayNumber(startDate) <= DayNumber(Last) + 1
      invariant SeededUpTo(s, DayNumber(startDate) - DayNumber(First))
      decreases DayNumber(endDate) - DayNumber(startDate) + 1
    {
      InRangeByDayNumber(startDate);
      SeedStep(s, DayNumber(startDate) - DayNumber(First), startDate);
      var dateString := DayKey(startDate);
      var dayOfWeek := Weekday(startDate);
      if dayOfWeek == 0 || dayOfWeek == 6 {
        s := Put(s, dateString, DayRecord(true, false, LightBlue, None, Some(Red)));
      } else {
        s := Put(s, dateString, DayRecord(true, false, LightBlue, None, Some(Yellow)));
      }
      startDate := Next(startDate);
    }
  }

  /** The i-th key of the initial store names a day of the range. */
  lemma InitialKeyInRange(s: Store, i: int)
    requires IsInitial(s) && 0 <= i < 2922
    ensures ParseKey(s.order[i]).Some? && InRange(ParseKey(s.order[i]).value)
  {
    RangeLength();
    InRangeByDayNumber(ParseKey(s.order[i]).value);
  }

  /** A day of the range sits at index (its day number minus that of
      2023-01-01) and holds its initial entry. */
  lemma InitialDay(s: Store, d: Date)
    requires IsInitial(s) && InRange(d)
    ensures DayKey(d) in s.entries && s.entries[DayKey(d)] == InitialRecord(d)
  {
    RangeLength();
    InRangeByDayNumber(d);
    var i := DayNumber(d) - DayNumber(First);
    var e := ParseKey(s.order[i]).value;
    DayNumberInjective(d, e);
    DayKeyOfParse(s.order[i]);
  }

  /** Every day of 2023 through 2030 has an entry, and every entry is the key
      of such a day: no gaps and no stray keys. */
  lemma InitialStoreKeys(s: Store)
    requires IsInitial(s)
    ensures forall d :: InRange(d) ==> DayKey(d) in s.entries
    ensures forall k :: k in s.entries ==>
              ParseKey(k).Some? && InRange(ParseKey(k).value) && DayKey(ParseKey(k).value) == k
  {
    forall d | InRange(d)
      ensures DayKey(d) in s.entries
    {
      InitialDay(s, d);
    }
    forall k | k in s.entries
      ensures ParseKey(k).Some? && InRange(ParseKey(k).value) && DayKey(ParseKey(k).value) == k
    {
      var i :| 0 <= i < |s.order| && s.order[i] == k;
      InitialKeyInRange(s, i);
      DayKeyOfParse(k);
    }
  }

  /** Each initial entry is marked, unselected, light blue and without hours;
      its dot is red on a Saturday or Sunday and yellow on any other day. */
  lemma InitialStoreRecords(s: Store)
    requires IsInitial(s)
    ensures forall d :: InRange(d) ==>
              && DayKey(d) in s.entries
              && s.entries[DayKey(d)].marked
              && !s.entries[DayKey(d)].selected
              && s.entries[DayKey(d)].selectedColor == LightBlue
              && s.entries[DayKey(d)].hoursWorked == None
              && (s.entries[DayKey(d)].dotColor == Some(Red) <==> Weekday(d) == 0 || Weekday(d) == 6)
              && (s.entries[DayKey(d)].dotColor == Some(Yellow) <==> 1 <= Weekday(d) <= 5)
  {
    InitialStoreKeys(s);
    forall d | InRange(d)
      ensures s.entries[DayKey(d)] == InitialRecord(d)
    {
      var i :| 0 <= i < |s.order| && s.order[i] == DayKey(d);
      ParseDayKey(d);
    }
  }

  /** 2023-01-01 was a Sunday. */
  lemma FirstIsSunday()
    ensures Weekday(First) == 0
  {
  }

  /** The day `i` days after 2023-01-01 falls on weekday `i` mod 7. */
  lemma WeekdayOfIndex(d: Date, i: int)
    requires 1 <= d.month <= 12 && 0 <= i && DayNumber(d) == DayNumber(First) + i
    ensures Weekday(d) == i % 7
  {
    FirstIsSunday();
    WeekdayOffset(First, d);
  }

  /** 2023-01-01 is a Sunday, so the i-th initial key carries the red dot
      exactly when i is 0 or 6 modulo 7. */
  lemma InitialDotsByIndex(s: Store)
    requires IsInitial(s)
    ensures forall i :: 0 <= i < |s.order| ==>
              && s.order[i] in s.entries
              && (s.entries[s.order[i]].dotColor == Some(Red) <==> i % 7 == 0 || i % 7 == 6)
  {
    forall i | 0 <= i < |s.order|
      ensures s.entries[s.order[i]].dotColor == Some(Red) <==> i % 7 == 0 || i % 7 == 6
    {
      WeekdayOfIndex(ParseKey(s.order[i]).value, i);
    }
  }

  /** The initial store satisfies the store invariants. */
  lemma InitialWellFormed(s: Store)
    requires IsInitial(s)
    ensures WellFormed(s)
  {
    forall k | k in s.entries
      ensures s.entries[k].selectedColor == LightBlue && s.entries[k].hoursWorked.None?
                && s.entries[k].dotColor != Some(Green)
    {
      var i :| 0 <= i < |s.order| && s.order[i] == k;
    }
  }

  /** Two initial stores list the same keys in the same order. */
  lemma InitialOrderUnique(s: Store, t: Store)
    requires IsInitial(s) && IsInitial(t)
    ensures s.order == t.order
  {
    forall i | 0 <= i < 2922
      ensures s.order[i] == t.order[i]
    {
      DayNumberInjective(ParseKey(s.order[i]).value, ParseKey(t.order[i]).value);
      DayKeyOfParse(s.order[i]);
      DayKeyOfParse(t.order[i]);
    }
  }

  /** Each entry of the initial store is the initial entry of the day its key names. */
  lemma InitialEntry(s: Store, k: string)
    requires IsInitial(s) && k in s.entries
    ensures ParseKey(k).Some? && ValidDate(ParseKey(k).value)
    ensures s.entries[k] == InitialRecord(ParseKey(k).value)
  {
    var i :| 0 <= i < |s.order| && s.order[i] == k;
  }

  /** There is only one initial store: two stores that both list the days of
      the range in order, with their initial entries, are equal. */
  lemma InitialUnique(s: Store, t: Store)
    requires IsInitial(s) && IsInitial(t)
    ensures s == t
  {
    InitialOrderUnique(s, t);
    assert s.entries.Keys == t.entries.Keys by {
      forall k ensures k in s.entries <==> k in t.entries {
        assert k in s.entries <==> k in s.order;
        assert k in t.entries <==> k in t.order;
      }
    }
    forall k | k in s.entries
      ensures s.entries[k] == t.entries[k]
    {
      InitialEntry(s, k);
      InitialEntry(t, k);
    }
  }

  // ---------------------------------------------------------------------
  // Day tap

  /** The entry a tap creates for a day without one. */
  const TappedRecord: DayRecord := DayRecord(false, true, LightBlue, None, None)

  /** `onDayPress`: flip `selected` on an existing entry, or add a selected,
      unmarked entry with neither dot nor hours. */
  function Toggled(s: Store, k: string): (t: Store)
    ensures k in t.entries
    ensures forall j :: j != k ==> (j in t.entries <==> j in s.entries)
    ensures forall j :: j != k && j in s.entries ==> t.entries[j] == s.entries[j]
    ensures k in s.entries ==> t.order == s.order && t.entries[k] == s.entries[k].(selected := !s.entries[k].selected)
    ensures k !in s.entries ==> t.order == s.order + [k] && t.entries[k] == TappedRecord
  {
    if k in s.entries then
      Store(s.order, s.entries[k := s.entries[k].(selected := !s.entries[k].selected)])
    else Put(s, k, TappedRecord)
  }

  /** A tap changes only the tapped entry, keeps the store's invariants,
      and on an existing entry changes nothing but `selected`. */
  lemma ToggleEffect(s: Store, k: string)
    requires ValidStore(s)
    ensures ValidStore(Toggled(s, k))
    ensures WellFormed(s) ==> WellFormed(Toggled(s, k))
    ensures k in Toggled(s, k).entries
    ensures forall j :: j != k ==> (j in Toggled(s, k).entries <==> j in s.entries)
    ensures forall j :: j != k && j in s.entries ==> Toggled(s, k).entries[j] == s.entries[j]
    ensures k in s.entries ==>
              && Toggled(s, k).order == s.order
              && Toggled(s, k).entries[k].selected == !s.entries[k].selected
              && Toggled(s, k).entries[k] == s.entries[k].(selected := Toggled(s, k).entries[k].selected)
    ensures k !in s.entries ==>
              Toggled(s, k).order == s.order + [k] && Toggled(s, k).entries[k] == TappedRecord
  {
    PutValid(s, k, TappedRecord);
  }

  /** Tapping an existing entry twice restores the store exactly. */
  lemma ToggleTwiceRestores(s: Store, k: string)
    requires k in s.entries
    ensures Toggled(Toggled(s, k), k) == s
  {
    var r := s.entries[k];
    assert r.(selected := !!r.selected) == r;
    assert s.entries[k := r] == s.entries;
  }

  /** Tapping a day without an entry twice does not restore the store: the
      entry stays, unselected, and the key list has grown by that key. */
  lemma ToggleTwiceAbsent(s: Store, k: string)
    requires k !in s.entries
    ensures Toggled(Toggled(s, k), k).order == s.order + [k]
    ensures Toggled(Toggled(s, k), k).entries[k] == DayRecord(false, false, LightBlue, None, None)
    ensures Toggled(Toggled(s, k), k) != s
  {
    assert k in Toggled(Toggled(s, k), k).entries;
  }

  // ---------------------------------------------------------------------
  // Add Hours

  /** What Add Hours writes into a selected entry. */
  function Stamp(r: DayRecord, h: int): (t: DayRecord)
    ensures t.hoursWorked == Some(h) && t.marked && t.dotColor == Some(Green)
    ensures t.selected == r.selected && t.selectedColor == r.selectedColor
    ensures h != 0 ==> HasHours(t)
  {
    r.(hoursWorked := Some(h), marked := true, dotColor := Some(Green))
  }

  /** The store after Add Hours with `h`: every selected entry stamped, every other entry as it was. */
  function WithHours(s: Store, h: int): (t: Store)
    ensures t.order == s.order
    ensures forall k :: k in t.entries <==> k in s.entries
    ensures forall k :: k in s.entries ==> t.entries[k].selected == s.entries[k].selected
    ensures forall k :: k in s.entries && !s.entries[k].selected ==> t.entries[k] == s.entries[k]
    ensures forall k :: k in s.entries && s.entries[k].selected ==> t.entries[k].hoursWorked == Some(h)
  {
    Store(s.order, map k | k in s.entries :: if s.entries[k].selected then Stamp(s.entries[k], h) else s.entries[k])
  }

  /** Add Hours touches exactly the selected entries, which keep `selected`
      and gain the hours, the mark and the green dot; keys and their order stay. */
  lemma WithHoursEffect(s: Store, h: int)
    ensures WithHours(s, h).order == s.order
    ensures WithHours(s, h).entries.Keys == s.entries.Keys
    ensures forall k :: k in s.entries && !s.entries[k].selected ==> WithHours(s, h).entries[k] == s.entries[k]
    ensures forall k :: k in s.entries && s.entries[k].selected ==>
              && WithHours(s, h).entries[k].selected
              && WithHours(s, h).entries[k].hoursWorked == Some(h)
              && WithHours(s, h).entries[k].marked
              && WithHours(s, h).entries[k].dotColor == Some(Green)
              && WithHours(s, h).entries[k].selectedColor == s.entries[k].selectedColor
  {
  }

  /** Pressing Add Hours again with the same value changes nothing more. */
  lemma WithHoursIdempotent(s: Store, h: int)
    ensures WithHours(WithHours(s, h), h) == WithHours(s, h)
  {
    var t := WithHours(s, h);
    assert WithHours(t, h).entries == t.entries;
  }

  /** Add Hours with an accepted value keeps the store invariants. */
  lemma WithHoursWellFormed(s: Store, h: int)
    requires 1 <= h <= 24
    requires ValidStore(s) && WellFormed(s)
    ensures ValidStore(WithHours(s, h)) && WellFormed(WithHours(s, h))
  {
  }

  /** A day that gets hours and is then tapped to deselect it shows a green background. */
  lemma AssignThenDeselectIsGreen(s: Store, k: string, h: int)
    requires k in s.entries && s.entries[k].selected && h != 0
    ensures BackgroundColor(Toggled(WithHours(s, h), k).entries[k]) == Green
  {
  }

  /** `handleButtonPress`'s accepted branch: the `for...in` walk over the keys,
      stamping each selected entry in place. */
  method AssignHours(s: Store, h: int) returns (t: Store)
    requires ValidStore(s)
    ensures t == WithHours(s, h)
  {
    t := s;
    for i := 0 to |s.order|
      invariant t.order == s.order
      invariant t.entries.Keys == s.entries.Keys
      invariant forall k :: k in s.entries ==>
                  t.entries[k] == if k in s.order[..i] then WithHours(s, h).entries[k] else s.entries[k]
    {
      var date := s.order[i];
      var r := t.entries[date];
      AssignStep(s, h, t.entries, i);
      if r.selected {
        t := t.(entries := t.entries[date := Stamp(r, h)]);
      }
    }
    assert t.entries == WithHours(s, h).entries by {
      assert s.order[..|s.order|] == s.order;
    }
  }

  /** One turn of the walk: after stamping (or skipping) the i-th key, the
      entries agree with `WithHours` on the first i + 1 keys. */
  lemma AssignStep(s: Store, h: int, e: map<string, DayRecord>, i: int)
    requires ValidStore(s) && 0 <= i < |s.order| && e.Keys == s.entries.Keys
    requires forall k :: k in s.entries ==>
               e[k] == if k in s.order[..i] then WithHours(s, h).entries[k] else s.entries[k]
    ensures var d := s.order[i];
            var e' := if e[d].selected then e[d := Stamp(e[d], h)] else e;
            forall k :: k in s.entries ==>
              e'[k] == if k in s.order[..i + 1] then WithHours(s, h).entries[k] else s.entries[k]
  {
    var d := s.order[i];
    forall k | k in s.entries
      ensures k in s.order[..i + 1] <==> k in s.order[..i] || k == d
    {
      assert s.order[..i + 1] == s.order[..i] + [d];
    }
  }

}
