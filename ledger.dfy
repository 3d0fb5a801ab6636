/** The tables the attendance core reads and writes: `AttendanceRecord` (the ledger),
    `Users` and `Card`, as in-memory values. */
module Ledger {
  import opened Base

  type UserId = string

  /** One `AttendanceRecord` row. `checkOut == None` means the session is open;
      `total` is the stored `total_hours`, in seconds. */
  datatype Record = Record(
    id: nat,
    user: Option<UserId>,
    checkIn: Instant,
    checkOut: Option<Instant>,
    total: Option<int>
  )

  predicate IsOpen(r: Record) {
    r.checkOut.None?
  }

  /** One `Users` row, reduced to what the core reads. */
  datatype User = User(id: UserId, name: string)

  /** The `Card` table: RFID text (`Card.name`) to the optional owner (`Card.id_user`). */
  type CardDirectory = map<string, Option<UserId>>

  /** A snapshot of the three tables, as a read-only route sees them. */
  datatype Snapshot = Snapshot(records: seq<Record>, users: seq<User>, cards: CardDirectory)

  /** The core invariant: no registered user has two open records. Records whose
      `id_user` is NULL are not covered (SQL equality never matches NULL). */
  ghost predicate AtMostOneOpen(rs: seq<Record>) {
    forall i, j :: 0 <= i < j < |rs| && rs[i].user.Some? && rs[i].user == rs[j].user ==>
      !(IsOpen(rs[i]) && IsOpen(rs[j]))
  }

  /** Record ids are below the next id the table hands out, hence pairwise distinct. */
  ghost predicate IdsBelow(rs: seq<Record>, next: nat) {
    && (forall i :: 0 <= i < |rs| ==> rs[i].id < next)
    && (forall i, j :: 0 <= i < j < |rs| ==> rs[i].id != rs[j].id)
  }

  /** A closed record carries `total_hours = check_out_time - check_in_time`; an open one none. */
  ghost predicate Stamped(rs: seq<Record>) {
    forall i :: 0 <= i < |rs| ==>
      (rs[i].checkOut.None? <==> rs[i].total.None?) &&
      (rs[i].checkOut.Some? ==> rs[i].total == Some(rs[i].checkOut.value - rs[i].checkIn))
  }

  /** `id_user = u AND check_out_time IS NULL` for one row. */
  predicate OwnsOpen(r: Record, u: Option<UserId>) {
    u.Some? && r.user == u && IsOpen(r)
  }

  /** The registered users of the records that satisfy `p`: `COUNT(DISTINCT id_user)`
      counts this set (NULL owners are not counted). */
  function UsersWhere(rs: seq<Record>, p: Record -> bool): set<UserId> {
    set r | r in rs && p(r) && r.user.Some? :: r.user.value
  }

  /** Distinct users never outnumber the records they come from. */
  lemma {:induction false} UsersWhereAtMostCount(rs: seq<Record>, p: Record -> bool)
    ensures |UsersWhere(rs, p)| <= CountWhere(rs, p)
  {
    if rs != [] {
      var init, x := rs[..|rs| - 1], rs[|rs| - 1];
      assert rs == init + [x];
      UsersWhereAtMostCount(init, p);
      var extra: set<UserId> := if p(x) && x.user.Some? then {x.user.value} else {};
      assert UsersWhere(rs, p) <= UsersWhere(init, p) + extra;
      SubsetCardinality(UsersWhere(rs, p), UsersWhere(init, p) + extra);
    }
  }

  /** One more record adds at most its own user. */
  lemma UsersWhereSnoc(rs: seq<Record>, x: Record, p: Record -> bool)
    ensures UsersWhere(rs + [x], p) ==
      UsersWhere(rs, p) + (if p(x) && x.user.Some? then {x.user.value} else {})
  {
    assert forall r :: r in rs + [x] <==> r in rs || r == x;
  }

  lemma SubsetCardinality<T>(a: set<T>, b: set<T>)
    requires a <= b
    ensures |a| <= |b|
  {
    assert b == a + (b - a);
  }
}
