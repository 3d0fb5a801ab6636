/** The weekly schedule form: the selected weekdays, the start and end time kept per
    selected day, and the rows handed to the schedule endpoint on submit. */
module ScheduleForm {
  import opened Base
  import opened Text

  /** The values of the weekday toggles, Monday `"1"` to Sunday `"7"` (lines 21-29). */
  const DaysOfWeek: seq<string> := ["1", "2", "3", "4", "5", "6", "7"]

  datatype Times = Times(startTime: string, endTime: string)

  /** The times a newly selected day starts with (line 45). */
  const DefaultTimes := Times("09:00", "12:00")

  datatype Field = StartTime | EndTime

  // ------------------------------------------------------------------ the toggle

  /** The times after `handleDayToggle(values)` (lines 38-57): exactly the selected
      days, each keeping its times if it had some and starting from the defaults
      otherwise. */
  function Toggled(times: map<string, Times>, values: seq<string>): (r: map<string, Times>)
    ensures r.Keys == set d | d in values
  {
    map d | d in values :: if d in times then times[d] else DefaultTimes
  }

  /** Toggling the same selection again changes nothing. */
  lemma ToggledIdempotent(times: map<string, Times>, values: seq<string>)
    ensures Toggled(Toggled(times, values), values) == Toggled(times, values)
  {
  }

  /** A day that stays selected keeps its times; a day that is added gets the defaults;
      a day that is dropped loses its times. */
  lemma ToggledEntries(times: map<string, Times>, values: seq<string>, d: string)
    ensures d in values && d in times ==> Toggled(times, values)[d] == times[d]
    ensures d in values && d !in times ==> Toggled(times, values)[d] == DefaultTimes
    ensures d !in values ==> d !in Toggled(times, values)
  {
  }

  /** `handleTimeChange(day, field, value)` (lines 59-67) on a day that has times. */
  function TimeChanged(times: map<string, Times>, day: string, field: Field, value: string): (r: map<string, Times>)
    requires day in times
    ensures r.Keys == times.Keys
    ensures forall d :: d in times && d != day ==> r[d] == times[d]
    ensures field == StartTime ==> r[day] == Times(value, times[day].endTime)
    ensures field == EndTime ==> r[day] == Times(times[day].startTime, value)
  {
    var t := times[day];
    times[day := if field == StartTime then t.(startTime := value) else t.(endTime := value)]
  }

  /** A time set on a day survives re-toggling a selection that still holds the day. */
  lemma TimeSurvivesToggle(times: map<string, Times>, day: string, field: Field, value: string, values: seq<string>)
    requires day in times && day in values
    ensures Toggled(TimeChanged(times, day, field, value), values)[day] == TimeChanged(times, day, field, value)[day]
  {
  }

  // ------------------------------------------------------------------ submit

  /** One row of the request body (lines 72-79). */
  datatype ScheduleRow = ScheduleRow(
    user: string, dayOfWeek: Option<int>, startTime: string, endTime: string,
    startDate: Option<int>, endDate: Option<int>)

  /** `selectedDays.map(...)`: one row per selected day, in selection order. */
  function ScheduleRows(user: string, selected: seq<string>, times: map<string, Times>,
                        startDate: Option<int>, endDate: Option<int>): (rows: seq<ScheduleRow>)
    requires forall i :: 0 <= i < |selected| ==> selected[i] in times
    ensures |rows| == |selected|
    ensures forall i :: 0 <= i < |rows| ==>
      rows[i] == ScheduleRow(user, ParseInt(selected[i]), times[selected[i]].startTime,
                             times[selected[i]].endTime, startDate, endDate)
  {
    seq(|selected|, i requires 0 <= i < |selected| =>
      ScheduleRow(user, ParseInt(selected[i]), times[selected[i]].startTime,
                  times[selected[i]].endTime, startDate, endDate))
  }

  /** Each offered toggle value reads back, through `parseInt`, as its ISO weekday. */
  lemma DayValueParses(i: int)
    requires 0 <= i < 7
    ensures ParseInt(DaysOfWeek[i]) == Some(i + 1)
  {
    assert DaysOfWeek[i] == NatToString(i + 1);
    ParseIntNatToString(i + 1);
  }

  /** With toggles from the offered values, every row's `day_of_week` is in 1..7. */
  lemma RowsHaveWeekdays(user: string, selected: seq<string>, times: map<string, Times>,
                         startDate: Option<int>, endDate: Option<int>)
    requires forall i :: 0 <= i < |selected| ==> selected[i] in times && selected[i] in DaysOfWeek
    ensures var rows := ScheduleRows(user, selected, times, startDate, endDate);
      forall i :: 0 <= i < |rows| ==> rows[i].dayOfWeek.Some? && 1 <= rows[i].dayOfWeek.value <= 7
  {
    forall i | 0 <= i < |selected| ensures ParseInt(selected[i]).Some? && 1 <= ParseInt(selected[i]).value <= 7 {
      var k :| 0 <= k < 7 && DaysOfWeek[k] == selected[i];
      DayValueParses(k);
    }
  }

  /** The submit button is disabled while no day is selected (line 214). */
  predicate SubmitDisabled(selected: seq<string>) {
    |selected| == 0
  }

  /** The button is enabled exactly when a submit would send at least one schedule row:
      an empty schedule is never posted from the form. */
  lemma SubmitSendsRows(user: string, selected: seq<string>, times: map<string, Times>,
                        startDate: Option<int>, endDate: Option<int>)
    requires forall i :: 0 <= i < |selected| ==> selected[i] in times
    ensures !SubmitDisabled(selected) <==> ScheduleRows(user, selected, times, startDate, endDate) != []
  {
    var rows := ScheduleRows(user, selected, times, startDate, endDate);
    assert |rows| == |selected|;
  }

  /** The end-date picker's `disabled` (line 145): every date without a start date,
      otherwise the dates before it. */
  predicate EndDateDisabled(startDate: Option<int>, date: int) {
    startDate.None? || date < startDate.value
  }

  /** The enabled end dates are exactly those on or after the start date. */
  lemma EndDateChoices(startDate: Option<int>, date: int)
    ensures !EndDateDisabled(startDate, date) <==> startDate.Some? && startDate.value <= date
  {
  }

  /** The first `forEach` (lines 43-47): every selected day without times gets the
      defaults. */
  method AddDefaults(times: map<string, Times>, values: seq<string>) returns (m: map<string, Times>)
    ensures m.Keys == times.Keys + set d | d in values
    ensures forall d :: d in m ==> m[d] == if d in times then times[d] else DefaultTimes
  {
    m := times;
    var i := 0;
    while i < |values|
      invariant 0 <= i <= |values|
      invariant m.Keys == times.Keys + set d | d in values[..i]
      invariant forall d :: d in m ==> m[d] == if d in times then times[d] else DefaultTimes
    {
      assert values[..i + 1] == values[..i] + [values[i]];
      if values[i] !in m {
        m := m[values[i] := DefaultTimes];
      }
      i := i + 1;
    }
    assert values[..i] == values;
  }

  /** The second `forEach` (lines 50-54): every key not among the selected days is
      deleted. */
  method DropUnselected(full: map<string, Times>, values: seq<string>) returns (m: map<string, Times>)
    ensures m.Keys == full.Keys * set d | d in values
    ensures forall d :: d in m ==> m[d] == full[d]
  {
    m := full;
    var stale := full.Keys;
    while stale != {}
      invariant stale <= full.Keys
      invariant forall d :: d in m <==> d in full && (d in stale || d in values)
      invariant forall d :: d in m ==> m[d] == full[d]
      decreases |stale|
    {
      var d :| d in stale;
      if d !in values {
        m := m - {d};
      }
      stale := stale - {d};
    }
  }

  // ------------------------------------------------------------------ the form state

  class Form {
    var selectedDays: seq<string>
    var timesByDay: map<string, Times>
    var startDate: Option<int>
    var endDate: Option<int>

    /** Every selected day has times, and only those. */
    ghost predicate Valid()
      reads this
    {
      timesByDay.Keys == set d | d in selectedDays
    }

    constructor ()
      ensures Valid() && selectedDays == [] && timesByDay == map[]
    {
      selectedDays := [];
      timesByDay := map[];
      startDate := None;
      endDate := None;
    }

    /** `handleDayToggle` (lines 38-57): copy the map, add the defaults for newly
        selected days, then delete the days no longer selected. */
    method DayToggle(values: seq<string>)
      modifies this
      ensures Valid()
      ensures selectedDays == values && timesByDay == Toggled(old(timesByDay), values)
      ensures startDate == old(startDate) && endDate == old(endDate)
    {
      selectedDays := values;
      var full := AddDefaults(timesByDay, values);
      var m := DropUnselected(full, values);
      assert m == Toggled(timesByDay, values);
      timesByDay := m;
    }

    /** `handleTimeChange` (lines 59-67); the inputs exist only for selected days. */
    method TimeChange(day: string, field: Field, value: string)
      requires Valid() && day in selectedDays
      modifies this
      ensures Valid() && selectedDays == old(selectedDays)
      ensures timesByDay == TimeChanged(old(timesByDay), day, field, value)
      ensures startDate == old(startDate) && endDate == old(endDate)
    {
      timesByDay := TimeChanged(timesByDay, day, field, value);
    }
  }
}
