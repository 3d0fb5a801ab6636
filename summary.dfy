/** The dashboard summary (`GET /api/dashboard/summary`): four read-only aggregates
    over `Users`, `AttendanceRecord` and `Card`. */
module DashboardSummary {
  import opened Base
  import opened Ledger
  import opened AttendanceStats

  /** The four figures of the dashboard. `hoursWorkedToday` is in seconds. */
  datatype Summary = Summary(totalVolunteers: nat, presentVolunteers: nat, hoursWorkedToday: int, unassignedCards: nat)

  datatype SummaryResponse =
    | SummaryOk(summary: Summary)    // 200
    | SummaryFailed                  // 500 "Internal server error"

  /** `check_out_time IS NULL` and checked in on local day `today` (lines 10-15). */
  function PresentOn(cal: Calendar, today: Day): Record -> bool {
    r => IsOpen(r) && CheckedInOn(cal, today)(r)
  }

  /** `SELECT COUNT(*) FROM Card WHERE id_user IS NULL` (line 28). */
  function UnassignedCards(cards: CardDirectory): set<string> {
    set k | k in cards && cards[k].None?
  }

  /** The cards that have an owner. */
  function AssignedCards(cards: CardDirectory): set<string> {
    set k | k in cards && cards[k].Some?
  }

  /** The whole route (lines 4-43). A failing query answers 500 and nothing else. */
  function Summarize(snap: Snapshot, cal: Calendar, now: Instant, backend: Backend): (r: SummaryResponse)
    ensures backend.Down? <==> r.SummaryFailed?
    ensures r.SummaryOk? ==>
      && r.summary.totalVolunteers == |snap.users|
      && r.summary.presentVolunteers == CountWhere(snap.records, PresentOn(cal, cal.dayOf(now)))
      && r.summary.presentVolunteers <= CountWhere(snap.records, CheckedInOn(cal, cal.dayOf(now)))
      && r.summary.unassignedCards == |UnassignedCards(snap.cards)|
      && r.summary.unassignedCards <= |snap.cards|
      // the same figure as the statistics route's `horas_totales`
      && r.summary.hoursWorkedToday == HoursToday(snap.records, cal, now)
  {
    if backend.Down? then SummaryFailed
    else
      var today := cal.dayOf(now);
      CountWhereMono(snap.records, PresentOn(cal, today), CheckedInOn(cal, today));
      CardsPartition(snap.cards);
      SummaryOk(Summary(
        |snap.users|,
        CountWhere(snap.records, PresentOn(cal, today)),
        HoursToday(snap.records, cal, now),
        |UnassignedCards(snap.cards)|))
  }

  // ------------------------------------------------------------------ properties

  /** Every card is either unassigned or assigned: the two counts add up to the table. */
  lemma CardsPartition(cards: CardDirectory)
    ensures |UnassignedCards(cards)| + |AssignedCards(cards)| == |cards|
  {
    var u, a := UnassignedCards(cards), AssignedCards(cards);
    assert u + a == cards.Keys;
    assert u * a == {};
  }

  /** `presentVolunteers` counts records, not people; under the ledger invariant (no
      registered user with two open records) and with every record owned, the two
      agree. */
  lemma {:induction false} PresentCountsPeople(rs: seq<Record>, cal: Calendar, today: Day)
    requires AtMostOneOpen(rs)
    requires forall i :: 0 <= i < |rs| ==> rs[i].user.Some?
    ensures CountWhere(rs, PresentOn(cal, today)) == |UsersWhere(rs, PresentOn(cal, today))|
  {
    if rs != [] {
      var init, x := rs[..|rs| - 1], rs[|rs| - 1];
      var p := PresentOn(cal, today);
      assert rs == init + [x];
      OpenPrefix(rs);
      PresentCountsPeople(init, cal, today);
      UsersWhereSnoc(init, x, p);
      if p(x) {
        PresentUserIsNew(rs, cal, today);
      }
    }
  }

  /** Dropping the last record keeps the invariant. */
  lemma OpenPrefix(rs: seq<Record>)
    requires rs != [] && AtMostOneOpen(rs)
    ensures AtMostOneOpen(rs[..|rs| - 1])
  {
    var init := rs[..|rs| - 1];
    forall i, j | 0 <= i < j < |init| && init[i].user.Some? && init[i].user == init[j].user
      ensures !(IsOpen(init[i]) && IsOpen(init[j]))
    {
      assert init[i] == rs[i] && init[j] == rs[j];
    }
  }

  /** A present last record belongs to nobody present among the earlier ones. */
  lemma PresentUserIsNew(rs: seq<Record>, cal: Calendar, today: Day)
    requires rs != [] && AtMostOneOpen(rs)
    requires rs[|rs| - 1].user.Some? && PresentOn(cal, today)(rs[|rs| - 1])
    ensures rs[|rs| - 1].user.value !in UsersWhere(rs[..|rs| - 1], PresentOn(cal, today))
  {
    var init, x, p := rs[..|rs| - 1], rs[|rs| - 1], PresentOn(cal, today);
    forall r | r in init && p(r) && r.user.Some? ensures r.user.value != x.user.value {
      var i :| 0 <= i < |init| && init[i] == r;
      assert rs[i] == r && IsOpen(r) && IsOpen(x);
    }
  }

  /** An open record checked in today makes somebody present. */
  lemma {:induction false} OpenTodayIsPresent(rs: seq<Record>, cal: Calendar, now: Instant, i: nat)
    requires i < |rs| && IsOpen(rs[i]) && cal.dayOf(rs[i].checkIn) == cal.dayOf(now)
    ensures CountWhere(rs, PresentOn(cal, cal.dayOf(now))) > 0
  {
    var p := PresentOn(cal, cal.dayOf(now));
    assert EventAt(rs[i], Entry) == Some(rs[i].checkIn);
    assert CheckedInOn(cal, cal.dayOf(now))(rs[i]);
    assert p(rs[i]);
    if i < |rs| - 1 {
      OpenTodayIsPresent(rs[..|rs| - 1], cal, now, i);
    }
  }
}
