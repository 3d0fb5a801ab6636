/** The older entry/exit ledger (`/api/registrations`): `POST` opens an entry for a
    user on today's UTC date unless one is already open, `PUT` closes every open
    entry of the user for today. */
module Registrations {
  import opened Base
  import opened Text

  /** One `Registro` row; dates and times are the text cut from the UTC ISO timestamp. */
  datatype Registro = Registro(
    id: string,             // id_registro (a UUID)
    user: Option<string>,   // id_usuario; None is NULL
    fecha: string,          // YYYY-MM-DD
    entrada: string,        // hora_entrada, HH:MM:SS
    salida: Option<string>, // hora_salida; None while the entry is open
    total: Option<string>   // horas_totales
  )

  /** `id_usuario = user AND fecha = fecha AND hora_salida IS NULL`. A comparison with
      NULL is never true, so a missing user has no open entry. */
  predicate OpenOn(r: Registro, user: Option<string>, fecha: string) {
    user.Some? && r.user == user && r.fecha == fecha && r.salida.None?
  }

  /** No user has two open entries on the same date (rows with a NULL user aside). */
  ghost predicate OnePerDay(rows: seq<Registro>) {
    forall i, j :: 0 <= i < j < |rows| && rows[i].user.Some? && rows[i].user == rows[j].user && rows[i].fecha == rows[j].fecha ==>
      !(rows[i].salida.None? && rows[j].salida.None?)
  }

  /** `iso.split('T')[0]` and `iso.split('T')[1].split('.')[0]` (lines 20-21 and
      48-49); `None` where the second piece is missing and the handler throws. */
  function Stamp(iso: string): (r: Option<(string, string)>)
    ensures r.Some? ==> 'T' !in r.value.0 && '.' !in r.value.1 && 'T' !in r.value.1
  {
    var parts := Split(iso, 'T');
    if |parts| < 2 then None
    else
      var time := Split(parts[1], '.');
      SplitPieceIn(parts[1], '.', 'T');
      Some((parts[0], time[0]))
  }

  /** A character absent from a string is absent from its first piece. */
  lemma {:induction false} SplitPieceIn(s: string, c: char, x: char)
    requires x !in s
    ensures x !in Split(s, c)[0]
  {
    if s != [] {
      SplitPieceIn(s[1..], c, x);
    }
  }

  /** On a timestamp shaped `date T time . rest`, the date and the time are the pieces. */
  lemma StampOfIso(date: string, time: string, rest: string)
    requires 'T' !in date && 'T' !in time && 'T' !in rest && '.' !in time
    ensures Stamp(date + "T" + time + "." + rest) == Some((date, time))
  {
    var tail := time + "." + rest;
    assert 'T' !in tail;
    SplitPieceThen(date, 'T', tail);
    assert date + "T" + time + "." + rest == date + ['T'] + tail;
    SplitPiece(tail, 'T');
    SplitPieceThen(time, '.', rest);
    assert tail == time + ['.'] + rest;
  }

  /** The position of the first open entry of `user` on `fecha`, if any. */
  function FirstOpenOn(rows: seq<Registro>, user: Option<string>, fecha: string): (k: Option<nat>)
    ensures k.Some? ==> k.value < |rows| && OpenOn(rows[k.value], user, fecha)
    ensures k.Some? ==> forall j :: 0 <= j < k.value ==> !OpenOn(rows[j], user, fecha)
    ensures k.None? <==> forall j :: 0 <= j < |rows| ==> !OpenOn(rows[j], user, fecha)
  {
    if rows == [] then None
    else if OpenOn(rows[0], user, fecha) then Some(0)
    else
      match FirstOpenOn(rows[1..], user, fecha)
      case None => None
      case Some(k) => Some(k + 1)
  }

  // ------------------------------------------------------------------ POST

  datatype PostOutcome =
    | Created(row: Registro)   // 201, the inserted row
    | AlreadyOpen              // 400 "El usuario ya tiene una entrada sin salida"
    | PostFailed               // 500 "Error registrando entrada"

  function PostStatus(o: PostOutcome): int {
    match o
    case Created(_) => 201
    case AlreadyOpen => 400
    case PostFailed => 500
  }

  /** `POST` (lines 16-42) on values; `user` is the body's `id_usuario` (`None` when
      the body has none), `id` is the fresh UUID and `iso` the timestamp. Only a
      successful insert changes the table, by one row at the end. */
  function Post(rows: seq<Registro>, user: Option<string>, id: string, iso: string, backend: Backend)
    : (r: (seq<Registro>, PostOutcome))
    ensures !r.1.Created? ==> r.0 == rows
    ensures r.1.Created? ==> r.0 == rows + [r.1.row] && r.1.row.id == id && r.1.row.user == user
    ensures r.1 == PostFailed <==> Stamp(iso).None? || backend.Down?
    ensures r.1 == AlreadyOpen <==>
      Stamp(iso).Some? && backend.Up? && FirstOpenOn(rows, user, Stamp(iso).value.0).Some?
  {
    match Stamp(iso)
    case None => (rows, PostFailed)
    case Some((fecha, hora)) =>
      if backend.Down? then (rows, PostFailed)
      else if FirstOpenOn(rows, user, fecha).Some? then (rows, AlreadyOpen)
      else
        var r := Registro(id, user, fecha, hora, None, None);
        (rows + [r], Created(r))
  }

  // ------------------------------------------------------------------ PUT

  datatype PutOutcome =
    | Closed(row: Registro)    // 200, the first updated row
    | NoOpenEntry              // 404 "No hay entrada registrada para este usuario"
    | PutFailed                // 500 "Error registrando salida"

  function PutStatus(o: PutOutcome): int {
    match o
    case Closed(_) => 200
    case NoOpenEntry => 404
    case PutFailed => 500
  }

  /** The `SET` of line 53 on one row: `hora_salida - hora_entrada` reads the old,
      NULL, `hora_salida`, so `horas_totales` becomes NULL. */
  function CloseOne(r: Registro, user: Option<string>, fecha: string, hora: string): (r': Registro)
    ensures OpenOn(r, user, fecha) ==> r' == r.(salida := Some(hora), total := None)
    ensures !OpenOn(r, user, fecha) ==> r' == r
    ensures !OpenOn(r', user, fecha)
  {
    if OpenOn(r, user, fecha) then r.(salida := Some(hora), total := None) else r
  }

  function CloseAll(rows: seq<Registro>, user: Option<string>, fecha: string, hora: string): (r: seq<Registro>)
    ensures |r| == |rows|
    ensures forall i :: 0 <= i < |rows| ==> r[i] == CloseOne(rows[i], user, fecha, hora)
  {
    seq(|rows|, i requires 0 <= i < |rows| => CloseOne(rows[i], user, fecha, hora))
  }

  /** `PUT` (lines 45-65) on values. The table keeps its length; only a 200 changes it. */
  function Put(rows: seq<Registro>, user: Option<string>, iso: string, backend: Backend): (r: (seq<Registro>, PutOutcome))
    ensures |r.0| == |rows|
    ensures !r.1.Closed? ==> r.0 == rows
    ensures r.1 == PutFailed <==> Stamp(iso).None? || backend.Down?
    ensures r.1 == NoOpenEntry <==>
      Stamp(iso).Some? && backend.Up? && FirstOpenOn(rows, user, Stamp(iso).value.0).None?
    ensures r.1.Closed? ==> forall i :: 0 <= i < |rows| ==> !OpenOn(r.0[i], user, Stamp(iso).value.0)
  {
    match Stamp(iso)
    case None => (rows, PutFailed)
    case Some((fecha, hora)) =>
      if backend.Down? then (rows, PutFailed)
      else
        match FirstOpenOn(rows, user, fecha)
        case None => (rows, NoOpenEntry)
        case Some(k) =>
          var rows' := CloseAll(rows, user, fecha, hora);
          (rows', Closed(rows'[k]))
  }

  // ------------------------------------------------------------------ the table

  /** The `Registro` table, changed in place by the two handlers. */
  class RegistroTable {
    var rows: seq<Registro>

    ghost predicate Valid()
      reads this
    {
      OnePerDay(rows)
    }

    constructor ()
      ensures Valid() && rows == []
    {
      rows := [];
    }

    method HandlePost(user: Option<string>, id: string, iso: string, backend: Backend) returns (status: int, outcome: PostOutcome)
      requires Valid()
      modifies this
      ensures Valid()
      ensures (rows, outcome) == Post(old(rows), user, id, iso, backend)
      ensures status == PostStatus(outcome)
    {
      PostKeepsOnePerDay(rows, user, id, iso, backend);
      var stamp := Stamp(iso);
      if stamp.None? || backend.Down? {
        return 500, PostFailed;
      }
      var (fecha, hora) := stamp.value;
      if FirstOpenOn(rows, user, fecha).Some? {
        return 400, AlreadyOpen;
      }
      var r := Registro(id, user, fecha, hora, None, None);
      rows := rows + [r];
      return 201, Created(r);
    }

    /** The `UPDATE` of line 53, row by row. */
    method HandlePut(user: Option<string>, iso: string, backend: Backend) returns (status: int, outcome: PutOutcome)
      requires Valid()
      modifies this
      ensures Valid()
      ensures (rows, outcome) == Put(old(rows), user, iso, backend)
      ensures status == PutStatus(outcome)
    {
      PutKeepsOnePerDay(rows, user, iso, backend);
      var stamp := Stamp(iso);
      if stamp.None? || backend.Down? {
        return 500, PutFailed;
      }
      var (fecha, hora) := stamp.value;
      var updated := rows;
      var first: Option<nat> := None;
      var i := 0;
      while i < |updated|
        invariant 0 <= i <= |updated| == |rows|
        invariant forall j :: 0 <= j < i ==> updated[j] == CloseOne(rows[j], user, fecha, hora)
        invariant forall j :: i <= j < |rows| ==> updated[j] == rows[j]
        invariant first.None? ==> forall j :: 0 <= j < i ==> !OpenOn(rows[j], user, fecha)
        invariant first.Some? ==> first.value < i && OpenOn(rows[first.value], user, fecha)
        invariant first.Some? ==> forall j :: 0 <= j < first.value ==> !OpenOn(rows[j], user, fecha)
      {
        if OpenOn(updated[i], user, fecha) {
          updated := updated[i := CloseOne(updated[i], user, fecha, hora)];
          if first.None? {
            first := Some(i);
          }
        }
        i := i + 1;
      }
      assert first == FirstOpenOn(rows, user, fecha);
      if first.None? {
        return 404, NoOpenEntry;
      }
      assert updated == CloseAll(rows, user, fecha, hora);
      rows := updated;
      return 200, Closed(updated[first.value]);
    }
  }

  // ------------------------------------------------------------------ properties

  lemma PostKeepsOnePerDay(rows: seq<Registro>, user: Option<string>, id: string, iso: string, backend: Backend)
    requires OnePerDay(rows)
    ensures OnePerDay(Post(rows, user, id, iso, backend).0)
  {
    var rows' := Post(rows, user, id, iso, backend).0;
    if |rows'| != |rows| {
      var (fecha, hora) := Stamp(iso).value;
      forall i, j | 0 <= i < j < |rows'| && rows'[i].user.Some? && rows'[i].user == rows'[j].user && rows'[i].fecha == rows'[j].fecha
        ensures !(rows'[i].salida.None? && rows'[j].salida.None?)
      {
        assert rows'[i] == rows[i];
        if j == |rows| {
          assert FirstOpenOn(rows, user, fecha).None?;
          assert !OpenOn(rows[i], user, fecha);
        } else {
          assert rows'[j] == rows[j];
        }
      }
    }
  }

  lemma PutKeepsOnePerDay(rows: seq<Registro>, user: Option<string>, iso: string, backend: Backend)
    requires OnePerDay(rows)
    ensures OnePerDay(Put(rows, user, iso, backend).0)
  {
  }

  /** A user with an open entry today is refused with 400 and nothing is inserted. */
  lemma PostRefusesSecondEntry(rows: seq<Registro>, user: Option<string>, id: string, iso: string, k: nat)
    requires Stamp(iso).Some? && k < |rows| && OpenOn(rows[k], user, Stamp(iso).value.0)
    ensures Post(rows, user, id, iso, Up) == (rows, AlreadyOpen)
  {
  }

  /** Otherwise exactly one open row is appended, under the given id, dated today. */
  lemma PostInsertsOne(rows: seq<Registro>, user: Option<string>, id: string, iso: string)
    requires Stamp(iso).Some?
    requires forall j :: 0 <= j < |rows| ==> !OpenOn(rows[j], user, Stamp(iso).value.0)
    requires forall j :: 0 <= j < |rows| ==> rows[j].id != id
    ensures var (rows', o) := Post(rows, user, id, iso, Up);
      && o.Created? && PostStatus(o) == 201 && rows' == rows + [o.row]
      && o.row.id == id && o.row.user == user
      && (o.row.fecha, o.row.entrada) == Stamp(iso).value
      && o.row.salida.None? && o.row.total.None?
      && forall i :: 0 <= i < |rows| ==> rows[i].id != o.row.id
  {
  }

  /** Two entries of one user in a row, on the same date: the second is refused. */
  lemma RepeatedPostIsRefused(rows: seq<Registro>, user: Option<string>, id1: string, id2: string, iso1: string, iso2: string)
    requires user.Some?
    requires Stamp(iso1).Some? && Stamp(iso2).Some? && Stamp(iso1).value.0 == Stamp(iso2).value.0
    requires Post(rows, user, id1, iso1, Up).1.Created?
    ensures var rows1 := Post(rows, user, id1, iso1, Up).0;
      Post(rows1, user, id2, iso2, Up) == (rows1, AlreadyOpen)
  {
    var rows1 := Post(rows, user, id1, iso1, Up).0;
    assert OpenOn(rows1[|rows|], user, Stamp(iso2).value.0);
  }

  /** `PUT` closes every open entry of the user for today, stamping `hora_salida` and
      leaving `horas_totales` NULL; every other row is unchanged. */
  lemma PutClosesAll(rows: seq<Registro>, user: Option<string>, iso: string, k: nat)
    requires Stamp(iso).Some? && k < |rows| && OpenOn(rows[k], user, Stamp(iso).value.0)
    ensures var (fecha, hora) := Stamp(iso).value;
      var (rows', o) := Put(rows, user, iso, Up);
      && o.Closed? && PutStatus(o) == 200 && |rows'| == |rows|
      && (forall i :: 0 <= i < |rows'| ==> !OpenOn(rows'[i], user, fecha))
      && (forall i :: 0 <= i < |rows| && OpenOn(rows[i], user, fecha) ==>
            rows'[i] == rows[i].(salida := Some(hora), total := None))
      && (forall i :: 0 <= i < |rows| && !OpenOn(rows[i], user, fecha) ==> rows'[i] == rows[i])
  {
    assert FirstOpenOn(rows, user, Stamp(iso).value.0).Some?;
  }

  /** With no open entry today, `PUT` answers 404 and changes nothing. */
  lemma PutWithoutEntryIsNotFound(rows: seq<Registro>, user: Option<string>, iso: string)
    requires Stamp(iso).Some?
    requires forall j :: 0 <= j < |rows| ==> !OpenOn(rows[j], user, Stamp(iso).value.0)
    ensures Put(rows, user, iso, Up) == (rows, NoOpenEntry)
  {
  }

  /** A body without `id_usuario` binds NULL: the open-entry lookup finds nothing, so
      every such `POST` inserts another row with a NULL user. */
  lemma MissingUserAlwaysInserts(rows: seq<Registro>, id: string, iso: string)
    requires Stamp(iso).Some?
    ensures var (rows', o) := Post(rows, None, id, iso, Up);
      && o.Created? && o.row.user.None? && rows' == rows + [o.row]
      && Post(rows', None, id, iso, Up).1.Created?
  {
  }

  /** ... and every such `PUT` answers 404 and changes nothing. */
  lemma MissingUserPutIsNotFound(rows: seq<Registro>, iso: string)
    requires Stamp(iso).Some?
    ensures Put(rows, None, iso, Up) == (rows, NoOpenEntry)
  {
  }
}
