/** The RFID scan toggle (`POST /api/attendance_record`): an RFID is resolved to a
    card owner; with no open record the owner is checked in (a row is inserted), with
    one the first open record is checked out (stamped with the time and the duration). */
module AttendanceScan {
  import opened Base
  import opened Ledger

  /** What one scan produced. */
  datatype ScanOutcome =
    | RfidMissing                  // 400 "RFID is required"
    | CardNotFound                 // 404 "User not found"
    | CheckedIn(record: Record)    // 201 "Check-in registered"
    | CheckedOut(record: Record)   // 200 "Check-out registered"
    | ServerError                  // 500 "Internal server error"

  function Status(o: ScanOutcome): int
  {
    match o
    case RfidMissing => 400
    case CardNotFound => 404
    case CheckedIn(_) => 201
    case CheckedOut(_) => 200
    case ServerError => 500
  }

  /** The ledger as the scan handler sees it: its rows and the next serial id. */
  datatype Table = Table(records: seq<Record>, nextId: nat)

  ghost predicate Inv(t: Table) {
    IdsBelow(t.records, t.nextId) && AtMostOneOpen(t.records) && Stamped(t.records)
  }

  /** `SELECT * FROM AttendanceRecord WHERE id_user = $1 AND check_out_time IS NULL`,
      first row: the position of the first open record of `u`, if any. */
  function FirstOpen(rs: seq<Record>, u: Option<UserId>): (k: Option<nat>)
    ensures k.Some? ==> k.value < |rs| && OwnsOpen(rs[k.value], u)
    ensures k.Some? ==> forall j :: 0 <= j < k.value ==> !OwnsOpen(rs[j], u)
    ensures k.None? <==> forall j :: 0 <= j < |rs| ==> !OwnsOpen(rs[j], u)
  {
    if rs == [] then None
    else if OwnsOpen(rs[0], u) then Some(0)
    else
      match FirstOpen(rs[1..], u)
      case None => None
      case Some(k) => Some(k + 1)
  }

  /** The whole handler on values: the new table and the outcome. `rfid` is the query
      parameter (`None` when absent); `cards` is the `Card` table. */
  function Scan(t: Table, rfid: Option<string>, cards: CardDirectory, now: Instant, backend: Backend)
    : (r: (Table, ScanOutcome))
    ensures r.1 == RfidMissing <==> rfid.None? || rfid.value == ""
    ensures r.1 == CardNotFound <==> rfid.Some? && rfid.value != "" && backend.Up? && rfid.value !in cards
    ensures r.1 == ServerError <==> rfid.Some? && rfid.value != "" && backend.Down?
    ensures r.1.RfidMissing? || r.1.CardNotFound? || r.1.ServerError? ==> r.0 == t
    ensures r.1.CheckedIn? ==> r.0 == Table(t.records + [r.1.record], t.nextId + 1) && r.1.record.id == t.nextId
    ensures r.1.CheckedOut? ==> |r.0.records| == |t.records| && r.0.nextId == t.nextId && r.1.record in r.0.records
  {
    if rfid.None? || rfid.value == "" then (t, RfidMissing)
    else if backend.Down? then (t, ServerError)
    else if rfid.value !in cards then (t, CardNotFound)
    else
      var owner := cards[rfid.value];
      match FirstOpen(t.records, owner)
      case None =>
        var r := Record(t.nextId, owner, now, None, None);
        (Table(t.records + [r], t.nextId + 1), CheckedIn(r))
      case Some(k) =>
        var open := t.records[k];
        var r := open.(checkOut := Some(now), total := Some(now - open.checkIn));
        assert t.records[k := r][k] == r;
        (Table(t.records[k := r], t.nextId), CheckedOut(r))
  }

  /** The ledger table, updated in place by scans. */
  class AttendanceLedger {
    var records: seq<Record>
    var nextId: nat

    ghost predicate Valid()
      reads this
    {
      Inv(Table(records, nextId))
    }

    constructor ()
      ensures Valid() && records == [] && nextId == 1
    {
      records := [];
      nextId := 1;
    }

    /** Handle one scan: validate, look up the card, then insert or update one row. */
    method HandleScan(rfid: Option<string>, cards: CardDirectory, now: Instant, backend: Backend)
      returns (outcome: ScanOutcome)
      requires Valid()
      modifies this
      ensures Valid()
      ensures (Table(records, nextId), outcome) == Scan(Table(old(records), old(nextId)), rfid, cards, now, backend)
    {
      ScanPreservesInv(Table(records, nextId), rfid, cards, now, backend);
      if rfid.None? || rfid.value == "" {
        return RfidMissing;
      }
      if backend.Down? {
        return ServerError;
      }
      if rfid.value !in cards {
        return CardNotFound;
      }
      var owner := cards[rfid.value];
      var k := FirstOpen(records, owner);
      if k.None? {
        var r := Record(nextId, owner, now, None, None);
        records := records + [r];
        nextId := nextId + 1;
        outcome := CheckedIn(r);
      } else {
        var open := records[k.value];
        var r := open.(checkOut := Some(now), total := Some(now - open.checkIn));
        records := records[k.value := r];
        outcome := CheckedOut(r);
      }
    }
  }

  // ------------------------------------------------------------------ properties

  /** Every scan keeps ids distinct, closed records stamped, and at most one open
      record per registered user. */
  lemma ScanPreservesInv(t: Table, rfid: Option<string>, cards: CardDirectory, now: Instant, backend: Backend)
    requires Inv(t)
    ensures Inv(Scan(t, rfid, cards, now, backend).0)
  {
    if rfid.Some? && rfid.value != "" && backend.Up? && rfid.value in cards {
      var owner := cards[rfid.value];
      var rs := t.records;
      match FirstOpen(rs, owner)
      case None =>
        var r := Record(t.nextId, owner, now, None, None);
        var rs' := rs + [r];
        forall i, j | 0 <= i < j < |rs'| && rs'[i].user.Some? && rs'[i].user == rs'[j].user
          ensures !(IsOpen(rs'[i]) && IsOpen(rs'[j]))
        {
          if j == |rs| {
            assert !OwnsOpen(rs[i], owner);
          }
        }
      case Some(k) =>
        var open := rs[k];
        var r := open.(checkOut := Some(now), total := Some(now - open.checkIn));
        var rs' := rs[k := r];
        assert forall i :: 0 <= i < |rs| && i != k ==> rs'[i] == rs[i];
    }
  }

  /** A missing or empty RFID is refused with 400 and the ledger is untouched. */
  lemma MissingRfidIsRejected(t: Table, rfid: Option<string>, cards: CardDirectory, now: Instant, backend: Backend)
    requires rfid.None? || rfid.value == ""
    ensures Scan(t, rfid, cards, now, backend) == (t, RfidMissing)
    ensures Status(RfidMissing) == 400
  {
  }

  /** An RFID with no `Card` row is answered 404 whatever the ledger holds, and the
      ledger is untouched. */
  lemma UnknownCardIsNotFound(t: Table, rfid: string, cards: CardDirectory, now: Instant)
    requires rfid != "" && rfid !in cards
    ensures Scan(t, Some(rfid), cards, now, Up) == (t, CardNotFound)
  {
  }

  /** With no open record for the card's owner, exactly one open record is appended,
      checked in now, under a fresh id, and the answer is 201. */
  lemma CheckInAppendsOne(t: Table, rfid: string, cards: CardDirectory, now: Instant)
    requires Inv(t)
    requires rfid != "" && rfid in cards
    requires forall j :: 0 <= j < |t.records| ==> !OwnsOpen(t.records[j], cards[rfid])
    ensures var (t', o) := Scan(t, Some(rfid), cards, now, Up);
      && o.CheckedIn? && Status(o) == 201
      && t'.records == t.records + [o.record]
      && o.record.user == cards[rfid] && o.record.checkIn == now
      && o.record.checkOut.None? && o.record.total.None?
      && forall j :: 0 <= j < |t.records| ==> t.records[j].id != o.record.id
  {
  }

  /** With open records for the owner, only the first is changed: it gets
      `check_out_time = now` and `total_hours = now - check_in_time`; nothing is
      added, every other row is unchanged, and the answer is 200. */
  lemma CheckOutClosesFirstOpen(t: Table, rfid: string, cards: CardDirectory, now: Instant, k: nat)
    requires rfid != "" && rfid in cards
    requires k < |t.records| && OwnsOpen(t.records[k], cards[rfid])
    requires forall j :: 0 <= j < k ==> !OwnsOpen(t.records[j], cards[rfid])
    ensures var (t', o) := Scan(t, Some(rfid), cards, now, Up);
      && o.CheckedOut? && Status(o) == 200
      && |t'.records| == |t.records| && t'.nextId == t.nextId
      && o.record == t'.records[k]
      && o.record.id == t.records[k].id && o.record.user == t.records[k].user
      && o.record.checkIn == t.records[k].checkIn
      && o.record.checkOut == Some(now) && o.record.total == Some(now - t.records[k].checkIn)
      && forall j :: 0 <= j < |t.records| && j != k ==> t'.records[j] == t.records[j]
  {
    assert FirstOpen(t.records, cards[rfid]) == Some(k);
  }

  /** Toggle law: two scans of an assigned card whose owner has no open record give a
      check-in and then a check-out of that same record, stamped with the elapsed
      time; a third scan checks in again under a new id. */
  lemma {:induction false} ToggleLaw(t: Table, rfid: string, cards: CardDirectory, t1: Instant, t2: Instant, t3: Instant)
    requires Inv(t)
    requires rfid != "" && rfid in cards && cards[rfid].Some?
    requires forall j :: 0 <= j < |t.records| ==> !OwnsOpen(t.records[j], cards[rfid])
    ensures var (ta, o1) := Scan(t, Some(rfid), cards, t1, Up);
      var (tb, o2) := Scan(ta, Some(rfid), cards, t2, Up);
      var (tc, o3) := Scan(tb, Some(rfid), cards, t3, Up);
      && o1.CheckedIn? && o2.CheckedOut? && o3.CheckedIn?
      && o2.record.id == o1.record.id
      && o2.record.checkIn == t1 && o2.record.total == Some(t2 - t1)
      && o3.record.id != o1.record.id
      && Inv(tc)
  {
    var owner := cards[rfid];
    var (ta, o1) := Scan(t, Some(rfid), cards, t1, Up);
    ScanPreservesInv(t, Some(rfid), cards, t1, Up);
    var n := |t.records|;
    assert ta.records == t.records + [o1.record];
    assert FirstOpen(ta.records, owner) == Some(n) by {
      assert OwnsOpen(ta.records[n], owner);
      assert forall j :: 0 <= j < n ==> ta.records[j] == t.records[j];
    }
    var (tb, o2) := Scan(ta, Some(rfid), cards, t2, Up);
    ScanPreservesInv(ta, Some(rfid), cards, t2, Up);
    assert forall j :: 0 <= j < |tb.records| ==> !OwnsOpen(tb.records[j], owner) by {
      forall j | 0 <= j < |tb.records| ensures !OwnsOpen(tb.records[j], owner) {
        if j < n {
          assert tb.records[j] == t.records[j];
        }
      }
    }
    var (tc, o3) := Scan(tb, Some(rfid), cards, t3, Up);
    ScanPreservesInv(tb, Some(rfid), cards, t3, Up);
    assert o3.record.id == tb.nextId == ta.nextId == t.nextId + 1;
  }

  /** The handler does not tell an unassigned card (a `Card` row whose `id_user` is
      NULL) from an assigned one: the NULL lookup matches no row, so every such scan
      inserts another open record with a NULL owner. */
  lemma UnassignedCardAlwaysChecksIn(t: Table, rfid: string, cards: CardDirectory, now: Instant)
    requires rfid != "" && rfid in cards && cards[rfid].None?
    ensures var (t', o) := Scan(t, Some(rfid), cards, now, Up);
      && o.CheckedIn? && o.record.user.None?
      && t'.records == t.records + [o.record]
  {
    assert FirstOpen(t.records, None) == None;
  }
}
