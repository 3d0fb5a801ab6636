/** The month diagnostic (`GET /api/debug-month`): the week-of-month bucketing of the
    current month with distinct-user counts, a sample of the month's records and the
    current month's `YYYY-MM` key. */
module DebugMonth {
  import opened Base
  import opened Ledger
  import opened AttendanceStats

  /** The record's event on `side` is in month `month` and in week `w` of it. */
  function InWeek(cal: Calendar, side: Side, month: int, w: int): Record -> bool {
    r => InMonth(cal, side, month)(r) && WeekOfEvent(cal, side)(r) == w
  }

  /** `COUNT(DISTINCT id_user)` of one week of the current month (lines 16 and 32). */
  function WeekUsers(rs: seq<Record>, cal: Calendar, now: Instant, side: Side, w: int): set<UserId> {
    UsersWhere(rs, InWeek(cal, side, cal.monthOf(cal.dayOf(now)), w))
  }

  /** The rows of one `GROUP BY week_no ORDER BY week_no` query (lines 7-21 for
      check-ins, 23-38 for check-outs), for week numbers below `hi`: a week has a row
      when any record falls in it, and the row counts that week's distinct users. */
  function DistinctRows(rs: seq<Record>, cal: Calendar, now: Instant, side: Side, hi: int): (g: seq<Bucket<int>>)
    ensures forall i :: 0 <= i < |g| ==> 1 <= g[i].key < hi
    ensures forall i :: 0 <= i < |g| ==> MonthCount(rs, cal, now, side, g[i].key) > 0
    ensures forall i :: 0 <= i < |g| ==> g[i].count == |WeekUsers(rs, cal, now, side, g[i].key)|
    ensures forall i, j :: 0 <= i < j < |g| ==> g[i].key < g[j].key
    decreases hi
  {
    if hi <= 1 then []
    else
      var w := hi - 1;
      DistinctRows(rs, cal, now, side, w)
        + (if MonthCount(rs, cal, now, side, w) > 0 then [Bucket(w, |WeekUsers(rs, cal, now, side, w)|)] else [])
  }

  /** Every week with records has its row. */
  lemma {:induction false} DistinctRowsComplete(rs: seq<Record>, cal: Calendar, now: Instant, side: Side, hi: int, w: int)
    requires 1 <= w < hi && MonthCount(rs, cal, now, side, w) > 0
    ensures Bucket(w, |WeekUsers(rs, cal, now, side, w)|) in DistinctRows(rs, cal, now, side, hi)
    decreases hi
  {
    if w < hi - 1 {
      DistinctRowsComplete(rs, cal, now, side, hi - 1, w);
    }
  }

  /** The records of one week are the ones `CountIn` counts for that week. */
  lemma {:induction false} WeekRecordCount(rs: seq<Record>, cal: Calendar, now: Instant, side: Side, w: int)
    ensures CountWhere(rs, InWeek(cal, side, cal.monthOf(cal.dayOf(now)), w)) == MonthCount(rs, cal, now, side, w)
  {
    if rs != [] {
      WeekRecordCount(rs[..|rs| - 1], cal, now, side, w);
    }
  }

  /** Distinct users never outnumber the raw rows the statistics route's month chart
      shows for the same week. */
  lemma DistinctAtMostRaw(rs: seq<Record>, cal: Calendar, now: Instant, side: Side, w: int)
    ensures |WeekUsers(rs, cal, now, side, w)| <= MonthCount(rs, cal, now, side, w)
  {
    UsersWhereAtMostCount(rs, InWeek(cal, side, cal.monthOf(cal.dayOf(now)), w));
    WeekRecordCount(rs, cal, now, side, w);
  }

  /** When every record of a week belongs to one registered user, that week counts one. */
  lemma OneUserCountsOnce(rs: seq<Record>, cal: Calendar, now: Instant, side: Side, w: int, u: UserId)
    requires MonthCount(rs, cal, now, side, w) > 0
    requires forall r :: r in rs && InWeek(cal, side, cal.monthOf(cal.dayOf(now)), w)(r) ==> r.user == Some(u)
    ensures |WeekUsers(rs, cal, now, side, w)| == 1
  {
    var p := InWeek(cal, side, cal.monthOf(cal.dayOf(now)), w);
    WeekRecordCount(rs, cal, now, side, w);
    var r := SomeWhere(rs, p);
    assert WeekUsers(rs, cal, now, side, w) == {u};
  }

  /** A witness for a positive count. */
  lemma {:induction false} SomeWhere(rs: seq<Record>, p: Record -> bool) returns (r: Record)
    requires CountWhere(rs, p) > 0
    ensures r in rs && p(r)
  {
    var init := rs[..|rs| - 1];
    if p(rs[|rs| - 1]) {
      r := rs[|rs| - 1];
    } else {
      r := SomeWhere(init, p);
      assert r in rs by {
        var i :| 0 <= i < |init| && init[i] == r;
        assert rs[i] == r;
      }
    }
  }

  // ------------------------------------------------------------------ sample

  /** One row of the sample query (lines 41-58). */
  datatype SampleRow = SampleRow(
    id: nat, user: Option<UserId>, checkIn: Instant, checkOut: Option<Instant>,
    dayOfMonth: int, calculatedWeek: int)

  function SampleOf(cal: Calendar, r: Record): SampleRow {
    var dom := cal.dayOfMonth(cal.dayOf(r.checkIn));
    SampleRow(r.id, r.user, r.checkIn, r.checkOut, dom, WeekNo(dom))
  }

  /** The row shows a record of `rs` checked in during the current month. */
  predicate SampledFromMonth(rs: seq<Record>, cal: Calendar, now: Instant, row: SampleRow) {
    exists r :: r in rs && InMonth(cal, Entry, cal.monthOf(cal.dayOf(now)))(r) && row == SampleOf(cal, r)
  }

  /** `LIMIT 10` over the records checked in this month; with no `ORDER BY`, the rows
      are taken in table order. */
  function Sample(rs: seq<Record>, cal: Calendar, now: Instant): (s: seq<SampleRow>)
    ensures |s| == Min(10, MonthTotal(rs, cal, now, Entry))
    ensures forall i :: 0 <= i < |s| ==> s[i].calculatedWeek == WeekNo(s[i].dayOfMonth)
    ensures forall i :: 0 <= i < |s| ==> SampledFromMonth(rs, cal, now, s[i])
  {
    var p := InMonth(cal, Entry, cal.monthOf(cal.dayOf(now)));
    var sel := Select(rs, p);
    var n := Min(10, |sel|);
    var s := seq(n, i requires 0 <= i < n => SampleOf(cal, sel[i]));
    assert |s| == Min(10, MonthTotal(rs, cal, now, Entry));
    forall i | 0 <= i < |s| ensures SampledFromMonth(rs, cal, now, s[i]) {
      assert sel[i] in sel;
    }
    s
  }

  /** `new Date().toISOString().slice(0, 7)` (line 64): the first seven characters of
      the timestamp, or all of a shorter one. */
  function CurrentMonth(iso: string): (m: string)
    ensures |m| == Min(7, |iso|)
    ensures iso == m + iso[|m|..]
  {
    iso[..Min(7, |iso|)]
  }

  // ------------------------------------------------------------------ the route

  datatype DebugResponse =
    | DebugOk(entradas: seq<Bucket<int>>, salidas: seq<Bucket<int>>, sample: seq<SampleRow>, currentMonth: string)
    | DebugFailed(message: string)   // 500 carrying the error's message

  /** `g` is what one distinct-user query returns: one row per week of the current
      month with events on `side`, in ascending week order, each counting that week's
      distinct users, which never exceed its raw record count. */
  ghost predicate WeekRowsOf(rs: seq<Record>, cal: Calendar, now: Instant, side: Side, g: seq<Bucket<int>>) {
    && (forall i :: 0 <= i < |g| ==> 1 <= g[i].key <= 5 && MonthCount(rs, cal, now, side, g[i].key) > 0)
    && (forall i :: 0 <= i < |g| ==> g[i].count == |WeekUsers(rs, cal, now, side, g[i].key)|)
    && (forall i :: 0 <= i < |g| ==> g[i].count <= MonthCount(rs, cal, now, side, g[i].key))
    && (forall i, j :: 0 <= i < j < |g| ==> g[i].key < g[j].key)
    && (forall w :: 1 <= w <= 5 && MonthCount(rs, cal, now, side, w) > 0 ==>
          Bucket(w, |WeekUsers(rs, cal, now, side, w)|) in g)
  }

  /** The whole route (lines 4-70); `iso` is the UTC timestamp of `now`. */
  function Debug(snap: Snapshot, cal: Calendar, now: Instant, iso: string, backend: Backend): (r: DebugResponse)
    ensures backend.Down? ==> r == DebugFailed(backend.message)
    ensures backend.Up? ==> r.DebugOk?
    ensures r.DebugOk? ==>
      && WeekRowsOf(snap.records, cal, now, Entry, r.entradas)
      && WeekRowsOf(snap.records, cal, now, Exit, r.salidas)
    ensures r.DebugOk? ==>
      && |r.sample| == Min(10, MonthTotal(snap.records, cal, now, Entry))
      && (forall i :: 0 <= i < |r.sample| ==> r.sample[i].calculatedWeek == WeekNo(r.sample[i].dayOfMonth))
      && (forall i :: 0 <= i < |r.sample| ==> SampledFromMonth(snap.records, cal, now, r.sample[i]))
    ensures r.DebugOk? ==> |r.currentMonth| == Min(7, |iso|) && iso == r.currentMonth + iso[|r.currentMonth|..]
  {
    if backend.Down? then DebugFailed(backend.message)
    else
      var rs := snap.records;
      var ins, outs := DistinctRows(rs, cal, now, Entry, 6), DistinctRows(rs, cal, now, Exit, 6);
      DistinctRowsOfMonth(rs, cal, now, Entry);
      DistinctRowsOfMonth(rs, cal, now, Exit);
      DebugOk(ins, outs, Sample(rs, cal, now), CurrentMonth(iso))
  }

  /** The query over weeks 1..5 returns exactly the month's week rows. */
  lemma DistinctRowsOfMonth(rs: seq<Record>, cal: Calendar, now: Instant, side: Side)
    ensures WeekRowsOf(rs, cal, now, side, DistinctRows(rs, cal, now, side, 6))
  {
    var g := DistinctRows(rs, cal, now, side, 6);
    DistinctRowsBounded(rs, cal, now, side, g);
    forall w | 1 <= w <= 5 && MonthCount(rs, cal, now, side, w) > 0
      ensures Bucket(w, |WeekUsers(rs, cal, now, side, w)|) in g
    {
      DistinctRowsComplete(rs, cal, now, side, 6, w);
    }
  }

  lemma DistinctRowsBounded(rs: seq<Record>, cal: Calendar, now: Instant, side: Side, g: seq<Bucket<int>>)
    requires g == DistinctRows(rs, cal, now, side, 6)
    ensures forall i :: 0 <= i < |g| ==> g[i].count <= MonthCount(rs, cal, now, side, g[i].key)
  {
    forall i | 0 <= i < |g| ensures g[i].count <= MonthCount(rs, cal, now, side, g[i].key) {
      DistinctAtMostRaw(rs, cal, now, side, g[i].key);
    }
  }
}
